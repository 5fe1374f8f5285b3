/** The packet identifier pool (src/state/packet_id.rs). */
module PacketIds {
  import opened Prelude

  const MAX_ID := 65535

  /** The identifiers a client may still take: non-zero and not in use. */
  ghost function Unused(used: set<u16>): (r: set<u16>)
    ensures forall k :: k in r <==> 1 <= k <= MAX_ID && k !in used
  {
    set k: u16 | 1 <= k && k !in used
  }

  /** What `allocate` has to return for a pool whose identifiers in use are `used`. */
  ghost function LeastUnused(used: set<u16>): (r: Option<u16>)
    ensures r.Some? <==> exists k :: 1 <= k <= MAX_ID && k !in used
    ensures r.Some? ==> 1 <= r.value && r.value !in used && forall k | 1 <= k < r.value :: k in used
  {
    Least(Unused(used))
  }

  lemma LeastUnusedIs(used: set<u16>, id: u16)
    requires 1 <= id && id !in used && forall k | 1 <= k < id :: k in used
    ensures LeastUnused(used) == Some(id)
  {
  }

  lemma IdsUpTo(n: nat, s: set<u16>)
    requires n <= MAX_ID && forall k :: k in s <==> 1 <= k <= n
    ensures |s| == n
  {
    if n > 0 {
      IdsUpTo(n - 1, s - {n});
    } else {
      assert s == {};
    }
  }

  /** `allocate` fails exactly when all 65535 identifiers are taken. */
  lemma ExhaustedIffAllInUse(used: set<u16>)
    requires 0 !in used
    ensures LeastUnused(used).None? <==> |used| == MAX_ID
    ensures |used| <= MAX_ID
  {
    var all := used + Unused(used);
    IdsUpTo(MAX_ID, all);
    assert |all| == |used| + |Unused(used)|;
  }

  class PacketIdManager {
    var nextId: u32
    var freeList: set<u16>
    var inUse: set<u16>

    /** `freeList` and `inUse` partition the identifiers handed out so far, `1..nextId`. */
    ghost predicate Valid()
      reads this
    {
      && 1 <= nextId <= MAX_ID + 1
      && freeList !! inUse
      && (forall k :: k in freeList || k in inUse <==> 1 <= k < nextId)
    }

    constructor ()
      ensures Valid() && inUse == {}
    {
      nextId := 1;
      freeList, inUse := {}, {};
    }

    method Allocate() returns (r: Option<u16>)
      requires Valid()
      modifies this
      ensures Valid()
      ensures r == LeastUnused(old(inUse))
      ensures inUse == if r.Some? then old(inUse) + {r.value} else old(inUse)
    {
      if freeList != {} {
        assert IsLeast(Least(freeList).value, freeList);
        var id :| id in freeList && IsLeast(id, freeList);
        assert IsLeast(id, freeList);
        LeastUnusedIs(inUse, id);
        freeList := freeList - {id};
        inUse := inUse + {id};
        return Some(id);
      }
      r := AllocateFresh();
    }

    /** The counting half of `allocate`, which skips identifiers it finds in use. */
    method AllocateFresh() returns (r: Option<u16>)
      requires 1 <= nextId <= MAX_ID + 1
      requires forall k | 1 <= k < nextId :: k in inUse
      modifies this
      ensures r == LeastUnused(old(inUse))
      ensures inUse == if r.Some? then old(inUse) + {r.value} else old(inUse)
      ensures nextId == if r.Some? then r.value + 1 else MAX_ID + 1
      ensures freeList == old(freeList)
    {
      while nextId <= MAX_ID
        invariant 1 <= nextId <= MAX_ID + 1 && freeList == old(freeList) && inUse == old(inUse)
        invariant forall k | 1 <= k < nextId :: k in inUse
      {
        var id: u16 := nextId;
        nextId := nextId + 1;
        if id !in inUse {
          LeastUnusedIs(inUse, id);
          inUse := inUse + {id};
          return Some(id);
        }
      }
      return None;
    }

    method Release(id: u16)
      requires Valid()
      modifies this
      ensures Valid()
      ensures inUse == old(inUse) - {id}
    {
      if id == 0 {
        return;
      }
      if id in inUse {
        inUse := inUse - {id};
        freeList := freeList + {id};
      }
    }

    /** `is_available` answers whether the next `allocate` succeeds. */
    method IsAvailable() returns (available: bool)
      requires Valid()
      ensures available <==> LeastUnused(inUse).Some?
      ensures available <==> |inUse| < MAX_ID
    {
      available := freeList != {} || nextId <= MAX_ID;
      ExhaustedIffAllInUse(inUse);
      if freeList != {} {
        var x :| x in freeList;
        assert 1 <= x <= MAX_ID && x !in inUse;
      } else if nextId <= MAX_ID {
        assert 1 <= nextId <= MAX_ID && nextId !in inUse;
      }
    }

    method Reset()
      modifies this
      ensures Valid() && inUse == {}
    {
      nextId := 1;
      freeList, inUse := {}, {};
    }
  }
}
