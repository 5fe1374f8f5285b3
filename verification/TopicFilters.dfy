/** The wildcard rule of topic filters by position, and level by level (src/topic_filter.rs). */
module TopicFilters {
  import opened Vbi
  import opened Fields

  /** The levels between the slashes. */
  function Levels(s: Bytes): (r: seq<Bytes>)
    ensures r != []
    decreases |s|
  {
    var i := FirstSlash(s);
    if i == |s| then [s] else [s[..i]] + Levels(s[i + 1..])
  }

  /** The rule level by level, as the source applies it. */
  predicate LevelsAreValid(levels: seq<Bytes>) {
    forall i | 0 <= i < |levels| :: LevelIsValid(levels[i], i == |levels| - 1)
  }

  predicate LevelIsValid(level: Bytes, isLast: bool) {
    (HASH in level ==> level == [HASH] && isLast) && (PLUS in level ==> level == [PLUS])
  }

  lemma WildcardAt(s: Bytes, k: nat)
    requires WildcardsInPlace(s) && k < |s| && (s[k] == HASH || s[k] == PLUS)
    ensures k == 0 || s[k - 1] == SLASH
    ensures k == |s| - 1 || (s[k] == PLUS && s[k + 1] == SLASH)
  {
  }

  lemma FirstLevelInPlace(s: Bytes, i: nat)
    requires i < |s| && s[i] == SLASH && SLASH !in s[..i] && WildcardsInPlace(s)
    ensures LevelIsValid(s[..i], false)
  {
    var level := s[..i];
    forall k | 0 <= k < i
      ensures s[k] != SLASH
    {
      assert level[k] == s[k];
    }
    if PLUS in level {
      var k :| 0 <= k < i && level[k] == PLUS;
      WildcardAt(s, k);
      assert k == 0 && i == 1;
      assert level == [level[0]];
    }
  }

  lemma RestInPlace(s: Bytes, i: nat)
    requires i < |s| && s[i] == SLASH && WildcardsInPlace(s)
    ensures WildcardsInPlace(s[i + 1..])
  {
    var rest := s[i + 1..];
    assert forall k | 0 <= k < |rest| :: rest[k] == s[i + 1 + k];
  }

  lemma WholeInPlace(s: Bytes, i: nat)
    requires i < |s| && s[i] == SLASH && LevelIsValid(s[..i], false) && WildcardsInPlace(s[i + 1..])
    ensures WildcardsInPlace(s)
  {
    var rest := s[i + 1..];
    forall k | 0 <= k < |s| && (s[k] == HASH || s[k] == PLUS)
      ensures k == 0 || s[k - 1] == SLASH
      ensures k == |s| - 1 || (s[k] == PLUS && s[k + 1] == SLASH)
    {
      if k < i {
        assert s[..i][k] == s[k];
        assert s[..i] == [PLUS];
      } else {
        assert rest[k - i - 1] == s[k];
        assert k > i + 1 ==> rest[k - i - 2] == s[k - 1];
        assert k < |s| - 1 ==> rest[k - i] == s[k + 1];
      }
    }
  }

  lemma LevelsCons(level: Bytes, levels: seq<Bytes>)
    requires levels != []
    ensures LevelsAreValid([level] + levels) <==> LevelIsValid(level, false) && LevelsAreValid(levels)
  {
    var all := [level] + levels;
    assert all[0] == level && forall i | 0 <= i < |levels| :: all[i + 1] == levels[i];
    if LevelsAreValid(all) {
      forall i | 0 <= i < |levels|
        ensures LevelIsValid(levels[i], i == |levels| - 1)
      {
        assert LevelIsValid(all[i + 1], i + 1 == |all| - 1);
      }
    }
  }

  lemma OneLevel(s: Bytes)
    requires SLASH !in s
    ensures WildcardsInPlace(s) <==> LevelsAreValid([s])
  {
    assert LevelsAreValid([s]) <==> LevelIsValid(s, true) by {
      assert [s][0] == s;
    }
    assert forall k | 0 <= k < |s| :: s[k] != SLASH;
    if WildcardsInPlace(s) && (HASH in s || PLUS in s) {
      var k :| 0 <= k < |s| && (s[k] == HASH || s[k] == PLUS);
      WildcardAt(s, k);
      assert k == 0 && |s| == 1;
      assert s == [s[0]];
    }
  }

  /** The rule by position is the rule by levels. */
  lemma FilterByLevels(s: Bytes)
    ensures IsValidFilter(s) <==> s != [] && LevelsAreValid(Levels(s))
  {
    InPlaceByLevels(s);
  }

  lemma {:induction false} InPlaceByLevels(s: Bytes)
    ensures WildcardsInPlace(s) <==> LevelsAreValid(Levels(s))
    decreases |s|
  {
    var i := FirstSlash(s);
    if i == |s| {
      assert s[..i] == s;
      OneLevel(s);
    } else {
      InPlaceByLevels(s[i + 1..]);
      LevelsCons(s[..i], Levels(s[i + 1..]));
      if WildcardsInPlace(s) {
        FirstLevelInPlace(s, i);
        RestInPlace(s, i);
      } else if LevelIsValid(s[..i], false) && WildcardsInPlace(s[i + 1..]) {
        WholeInPlace(s, i);
      }
    }
  }
}
