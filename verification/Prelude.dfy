/** Types and small collection facts shared by the whole model. */
module Prelude {

  // Rust's fixed-width unsigned integers.
  type u8 = x: int | 0 <= x < 0x100
  type u16 = x: int | 0 <= x < 0x1_0000
  type u32 = x: int | 0 <= x < 0x1_0000_0000

  datatype Option<+T> = None | Some(value: T)

  datatype Result<+T, +E> = Ok(value: T) | Err(error: E) {
    predicate IsFailure() {
      Err?
    }

    function PropagateFailure<U>(): Result<U, E>
      requires Err?
    {
      Err(error)
    }

    function Extract(): T
      requires Ok?
    {
      value
    }
  }

  datatype Version = V5 | V311

  datatype QoS = AtMostOnce | AtLeastOnce | ExactlyOnce

  function QoSOf(code: nat): Option<QoS> {
    match code
    case 0 => Some(AtMostOnce)
    case 1 => Some(AtLeastOnce)
    case 2 => Some(ExactlyOnce)
    case _ => None
  }

  /** Rust's `saturating_sub(1)`. */
  function Decremented(n: nat): (r: nat)
    ensures r <= n
  {
    if n == 0 then 0 else n - 1
  }

  /** Every element of `s` occurs once. */
  ghost predicate Distinct<T(!new)>(s: seq<T>) {
    forall i, j | 0 <= i < j < |s| :: s[i] != s[j]
  }

  /** `s` without the occurrences of `x`. */
  function Without<T(==,!new)>(s: seq<T>, x: T): (r: seq<T>)
    ensures forall y :: y in r <==> y in s && y != x
    ensures |r| <= |s|
  {
    if s == [] then []
    else if s[0] == x then Without(s[1..], x)
    else [s[0]] + Without(s[1..], x)
  }

  predicate IsLeast(m: u16, s: set<u16>) {
    m in s && forall k | k in s :: m <= k
  }

  ghost function Least(s: set<u16>): (m: Option<u16>)
    ensures m.None? <==> s == {}
    ensures m.Some? ==> IsLeast(m.value, s)
  {
    if s == {} then None
    else
      var x :| x in s;
      var rest := s - {x};
      if rest == {} then
        assert s == {x};
        Some(x)
      else
        var y := Least(rest).value;
        assert forall k | k in s :: k == x || k in rest;
        Some(if y < x then y else x)
  }

  lemma LeastIs(m: u16, s: set<u16>)
    requires IsLeast(m, s)
    ensures Least(s) == Some(m)
  {
  }
}
