/** The energy and pitch-angle axes of a flux map: np.sort(np.unique(column))
    and the exact-value lookup np.argwhere(value == axis) (scripts/ptm_tools.py). */
module Axis {
  import opened Common

  predicate StrictlyIncreasing(s: seq<real>)
  {
    forall i, j :: 0 <= i < j < |s| ==> s[i] < s[j]
  }

  /** Adds x to a strictly increasing sequence unless it is already there. */
  function Insert(s: seq<real>, x: real): (r: seq<real>)
    requires StrictlyIncreasing(s)
    ensures StrictlyIncreasing(r)
    ensures forall y :: y in r <==> y in s || y == x
  {
    if s == [] then [x]
    else if x < s[0] then [x] + s
    else if x == s[0] then s
    else
      var t := Insert(s[1..], x);
      assert forall k :: 0 <= k < |t| ==> s[0] < t[k] by {
        assert forall k :: 0 <= k < |t| ==> t[k] in t;
      }
      [s[0]] + t
  }

  /** np.sort(np.unique(xs)): the distinct values of xs in ascending order. */
  function SortedUnique(xs: seq<real>): (r: seq<real>)
    ensures StrictlyIncreasing(r)
    ensures forall y :: y in r <==> y in xs
  {
    if xs == [] then []
    else
      var r := Insert(SortedUnique(xs[..|xs| - 1]), Last(xs));
      assert forall y :: y in xs <==> y in xs[..|xs| - 1] || y == Last(xs) by {
        assert xs == xs[..|xs| - 1] + [Last(xs)];
      }
      r
  }

  /** A strictly increasing sequence is determined by its set of values, so
      SortedUnique(xs) is the only ascending duplicate-free listing of xs. */
  lemma {:induction false} AscendingListingIsUnique(s: seq<real>, t: seq<real>)
    requires StrictlyIncreasing(s) && StrictlyIncreasing(t)
    requires forall y :: y in s <==> y in t
    ensures s == t
    decreases |s|
  {
    assert forall k :: 0 <= k < |t| ==> t[k] in t;
    assert |t| > 0 ==> t[0] in s;
    if s != [] {
      assert s[0] in s;
      assert s[0] == t[0];
      assert forall y :: y in s[1..] <==> y in s && y != s[0] by {
        assert s == [s[0]] + s[1..];
      }
      assert forall y :: y in t[1..] <==> y in t && y != t[0] by {
        assert t == [t[0]] + t[1..];
      }
      AscendingListingIsUnique(s[1..], t[1..]);
      assert s == [s[0]] + s[1..] && t == [t[0]] + t[1..];
    }
  }

  /** The position of v on an axis that contains it. */
  function IndexOf(axis: seq<real>, v: real): (i: nat)
    requires v in axis
    ensures i < |axis| && axis[i] == v
    ensures forall k :: 0 <= k < i ==> axis[k] != v
  {
    if axis[0] == v then 0 else 1 + IndexOf(axis[1..], v)
  }

  /** np.argwhere(v == axis) on an axis without duplicates: the one index
      holding exactly v, or nothing when no entry is bit-for-bit equal to v. */
  method FindIndex(axis: seq<real>, v: real) returns (r: Option<nat>)
    ensures r.None? <==> v !in axis
    ensures r.Some? ==> r.value < |axis| && axis[r.value] == v
    ensures r.Some? ==> forall k :: 0 <= k < r.value ==> axis[k] != v
  {
    var k := 0;
    while k < |axis|
      invariant 0 <= k <= |axis|
      invariant forall m :: 0 <= m < k ==> axis[m] != v
    {
      if axis[k] == v {
        return Some(k);
      }
      k := k + 1;
    }
    return None;
  }
}
