/** find_runs (scripts/omni_quicklook_sep.py): the maximal blocks of consecutive
    positions of a vector that equal a given value, found the way numpy does it:
    pad the indicator vector with a 0 on each side, take the positions where it
    changes, and pair them up as [start, end) ranges. */
module Runs {
  import opened Common

  /** One row of the (-1, 2) reshaped edge array: a half-open range [start, stop). */
  datatype Run = Run(start: nat, stop: nat)

  /** np.concatenate(([0], np.equal(invec, value), [0])) */
  function Padded(v: seq<bool>, value: bool): (p: seq<bool>)
    ensures |p| == |v| + 2 && !p[0] && !Last(p)
    ensures forall i :: 0 <= i < |v| ==> p[i + 1] == (v[i] == value)
  {
    seq(|v| + 2, i requires 0 <= i < |v| + 2 => 1 <= i <= |v| && v[i - 1] == value)
  }

  /** Every listed position k is one where p changes between k and k + 1. */
  predicate Changes(p: seq<bool>, e: seq<nat>)
  {
    forall k :: 0 <= k < |e| ==> e[k] + 1 < |p| && p[e[k]] != p[e[k] + 1]
  }

  predicate Ascending(e: seq<nat>)
  {
    forall a, b :: 0 <= a < b < |e| ==> e[a] < e[b]
  }

  /** np.where(np.abs(np.diff(p)) == 1)[0]: the positions k with p[k] != p[k + 1]. */
  function Edges(p: seq<bool>): (e: seq<nat>)
    ensures Changes(p, e)
  {
    if |p| < 2 then []
    else
      var n := |p| - 2;
      Edges(p[..|p| - 1]) + (if p[n] != p[n + 1] then [n] else [])
  }

  /** e is eq with the edge between the last two elements of p appended, if any. */
  predicate Extends(p: seq<bool>, e: seq<nat>, eq: seq<nat>)
    requires 2 <= |p|
  {
    |e| == |eq| + (if p[|p| - 2] != p[|p| - 1] then 1 else 0) &&
    (forall k :: 0 <= k < |eq| ==> e[k] == eq[k]) &&
    (p[|p| - 2] != p[|p| - 1] ==> e[|eq|] == |p| - 2)
  }

  /** Appending one element appends at most one edge, at the old end. */
  lemma EdgesStep(p: seq<bool>)
    requires 2 <= |p|
    ensures Extends(p, Edges(p), Edges(p[..|p| - 1]))
  {
  }

  /** The edges come in ascending order and none is missing. */
  lemma {:induction false} EdgesAscending(p: seq<bool>)
    ensures Ascending(Edges(p))
    ensures forall k :: 0 <= k < |p| - 1 && p[k] != p[k + 1] ==> k in Edges(p)
    decreases |p|
  {
    if |p| >= 2 {
      var n := |p| - 2;
      var q := p[..|p| - 1];
      EdgesAscending(q);
      var e, eq := Edges(p), Edges(q);
      EdgesStep(p);
      assert forall k :: 0 <= k < |eq| ==> eq[k] < n;
      forall a, b | 0 <= a < b < |e|
        ensures e[a] < e[b]
      {
        assert e[a] == eq[a];
      }
      forall k | 0 <= k < |p| - 1 && p[k] != p[k + 1]
        ensures k in e
      {
        if k < n {
          assert q[k] != q[k + 1];
        }
      }
    }
  }

  /** Parity, by counting down: it flips with every step. */
  predicate Even(j: nat)
  {
    if j == 0 then true else !Even(j - 1)
  }

  lemma EvenStep(j: nat)
    ensures Even(j + 1) == !Even(j)
  {
  }

  lemma {:induction false} EvenHalves(k: nat)
    ensures Even(2 * k) && !Even(2 * k + 1)
  {
    if k > 0 {
      EvenHalves(k - 1);
      assert Even(2 * k) == !Even(2 * k - 1);
    }
  }

  /** Every index is twice some k, plus its parity bit. */
  lemma Halve(j: nat) returns (k: nat)
    ensures j == 2 * k || j == 2 * k + 1
    ensures Even(j) <==> j == 2 * k
  {
    k := j / 2;
    EvenHalves(k);
  }

  lemma HalfOfEven(n: nat)
    requires Even(n)
    ensures n == 2 * (n / 2)
  {
    var k := Halve(n);
  }

  /** .reshape(-1, 2): consecutive edges taken two at a time. */
  function Pairs(e: seq<nat>): (r: seq<Run>)
    requires Even(|e|)
    ensures |r| == |e| / 2
    ensures forall k :: 0 <= k < |r| ==> r[k] == Run(e[2 * k], e[2 * k + 1])
  {
    seq(|e| / 2, k requires 0 <= k < |e| / 2 => Run(e[2 * k], e[2 * k + 1]))
  }

  /** Walking p from its first element, the value flips at every edge: after an
      even number of edges it is back to where it started, and the element just
      past edge j differs from the first element exactly when j is even. */
  predicate Alternates(p: seq<bool>, e: seq<nat>)
    requires 1 <= |p| && Changes(p, e)
  {
    (Even(|e|) <==> Last(p) == p[0]) &&
    forall j :: 0 <= j < |e| ==> (Even(j) <==> p[e[j] + 1] != p[0])
  }

  lemma {:induction false} EdgesAlternate(p: seq<bool>)
    requires |p| >= 1
    ensures Alternates(p, Edges(p))
    decreases |p|
  {
    if |p| >= 2 {
      var q := p[..|p| - 1];
      EdgesAlternate(q);
      assert Last(q) == p[|p| - 2];
      var e, eq := Edges(p), Edges(q);
      EdgesStep(p);
      EvenStep(|eq|);
      forall j | 0 <= j < |e|
        ensures Even(j) <==> p[e[j] + 1] != p[0]
      {
        if j < |eq| {
          assert e[j] == eq[j] && p[e[j] + 1] == q[eq[j] + 1];
        }
      }
    }
  }

  /** Position i lies past edge j and not past edge j + 1. */
  predicate Between(e: seq<nat>, j: nat, i: nat)
    requires j < |e|
  {
    e[j] < i && (j + 1 == |e| || i <= e[j + 1])
  }

  /** Element i of p sits in the segment its position falls into: before the
      first edge it equals p[0]; past edge j (and not past edge j + 1) it equals
      the element just past edge j. */
  predicate InSegment(p: seq<bool>, e: seq<nat>, i: nat)
    requires i < |p| && Changes(p, e)
  {
    ((|e| == 0 || i <= e[0]) && p[i] == p[0]) ||
    (exists j {:trigger Between(e, j, i)} :: 0 <= j < |e| && Between(e, j, i) && p[i] == p[e[j] + 1])
  }

  /** A position before the last one keeps the segment it had without the last element. */
  lemma SegmentsStep(p: seq<bool>, e: seq<nat>, eq: seq<nat>, i: nat)
    requires 2 <= |p| && i <= |p| - 2
    requires Changes(p, e) && Changes(p[..|p| - 1], eq) && Extends(p, e, eq)
    requires InSegment(p[..|p| - 1], eq, i)
    ensures InSegment(p, e, i)
  {
    var q := p[..|p| - 1];
    assert p[i] == q[i] && p[0] == q[0];
    if (|eq| == 0 || i <= eq[0]) && q[i] == q[0] {
      assert |e| == 0 || i <= e[0];
    } else {
      var j :| 0 <= j < |eq| && Between(eq, j, i) && q[i] == q[eq[j] + 1];
      assert e[j] == eq[j] && p[e[j] + 1] == q[eq[j] + 1];
      assert Between(e, j, i) && p[i] == p[e[j] + 1];
    }
  }

  /** The last position, when the last two elements agree, is in the segment
      of the one before it. */
  lemma SegmentAtEnd(p: seq<bool>, e: seq<nat>, eq: seq<nat>)
    requires 2 <= |p| && p[|p| - 2] == p[|p| - 1]
    requires Changes(p, e) && Changes(p[..|p| - 1], eq) && Extends(p, e, eq)
    requires InSegment(p[..|p| - 1], eq, |p| - 2)
    ensures InSegment(p, e, |p| - 1)
  {
    var q := p[..|p| - 1];
    var n := |p| - 2;
    assert |e| == |eq| && p[n + 1] == q[n] && p[0] == q[0];
    if (|eq| == 0 || n <= eq[0]) && q[n] == q[0] {
      assert |eq| == 0;
    } else {
      var j :| 0 <= j < |eq| && Between(eq, j, n) && q[n] == q[eq[j] + 1];
      assert eq[j] < n && j + 1 == |eq|;
      assert Between(e, j, n + 1) && p[n + 1] == p[e[j] + 1];
    }
  }

  /** The last position, just past a new edge, is in that edge's segment. */
  lemma SegmentAtNewEdge(p: seq<bool>, e: seq<nat>, eq: seq<nat>)
    requires 2 <= |p| && p[|p| - 2] != p[|p| - 1]
    requires Changes(p, e) && Extends(p, e, eq)
    ensures InSegment(p, e, |p| - 1)
  {
    var j := |eq|;
    assert Between(e, j, |p| - 1) && p[|p| - 1] == p[e[j] + 1];
  }

  lemma {:induction false} SegmentAt(p: seq<bool>, i: nat)
    requires i < |p|
    ensures InSegment(p, Edges(p), i)
    decreases |p|
  {
    if |p| >= 2 {
      var q := p[..|p| - 1];
      var n := |p| - 2;
      EdgesStep(p);
      if i <= n {
        SegmentAt(q, i);
        SegmentsStep(p, Edges(p), Edges(q), i);
      } else if p[n] != p[n + 1] {
        SegmentAtNewEdge(p, Edges(p), Edges(q));
      } else {
        SegmentAt(q, n);
        SegmentAtEnd(p, Edges(p), Edges(q));
      }
    }
  }

  /** Between edge j and edge j + 1 (or the end) every element is the one just
      past edge j, which differs from the first element exactly when j is even. */
  lemma PastEdge(p: seq<bool>, e: seq<nat>, j: nat, i: nat)
    requires 1 <= |p| && Changes(p, e) && Ascending(e) && Alternates(p, e)
    requires j < |e| && i < |p| && Between(e, j, i) && InSegment(p, e, i)
    ensures Even(j) <==> p[i] != p[0]
  {
    assert e[0] <= e[j];
    var j' :| 0 <= j' < |e| && Between(e, j', i) && p[i] == p[e[j'] + 1];
    assert j' == j;
  }

  /** What the run lemmas need to know about the edges of p, at position i. */
  lemma EdgeFacts(p: seq<bool>, i: nat)
    requires i < |p|
    ensures Changes(p, Edges(p)) && Ascending(Edges(p)) && Alternates(p, Edges(p))
    ensures InSegment(p, Edges(p), i)
  {
    EdgesAscending(p);
    EdgesAlternate(p);
    SegmentAt(p, i);
  }

  /** find_runs(invec, value): the [start, end) ranges of the blocks of `value`. */
  function FindRuns(v: seq<bool>, value: bool): (r: seq<Run>)
    ensures forall k :: 0 <= k < |r| ==> r[k].start < r[k].stop <= |v|
  {
    var p := Padded(v, value);
    EdgesAlternate(p);
    EdgesAscending(p);
    var e := Edges(p);
    assert forall k :: 0 <= k < |e| / 2 ==> e[2 * k] < e[2 * k + 1];
    Pairs(e)
  }

  /** A run is a pair of consecutive edges of the padded indicator, the first
      of them even-numbered. */
  lemma RunEdges(v: seq<bool>, value: bool, k: nat)
    requires k < |FindRuns(v, value)|
    ensures var e := Edges(Padded(v, value));
            2 * k + 1 < |e| && FindRuns(v, value)[k] == Run(e[2 * k], e[2 * k + 1])
  {
  }

  lemma RunInterior(v: seq<bool>, value: bool, k: nat, i: nat)
    requires k < |FindRuns(v, value)| && FindRuns(v, value)[k].start <= i < FindRuns(v, value)[k].stop
    ensures v[i] == value
  {
    RunEdges(v, value, k);
    EvenHalves(k);
    InsideEvenSegment(Padded(v, value), 2 * k, i + 1);
  }

  /** Past an even-numbered edge and not past the next one, p differs from p[0]. */
  lemma InsideEvenSegment(p: seq<bool>, j: nat, i: nat)
    requires i < |p| && Even(j) && j + 1 < |Edges(p)| && Edges(p)[j] < i <= Edges(p)[j + 1]
    ensures p[i] != p[0]
  {
    EdgeFacts(p, i);
    PastEdge(p, Edges(p), j, i);
  }

  lemma RunBorders(v: seq<bool>, value: bool, k: nat)
    requires k < |FindRuns(v, value)|
    ensures FindRuns(v, value)[k].start > 0 ==> v[FindRuns(v, value)[k].start - 1] != value
    ensures FindRuns(v, value)[k].stop < |v| ==> v[FindRuns(v, value)[k].stop] != value
  {
    var p := Padded(v, value);
    var e := Edges(p);
    RunEdges(v, value, k);
    EvenHalves(k);
    EdgesAlternate(p);
    var start, stop := e[2 * k], e[2 * k + 1];
    EvenSegmentBorders(p, e, 2 * k);
    assert start > 0 ==> p[start] == (v[start - 1] == value);
    assert stop < |v| ==> p[stop + 1] == (v[stop] == value);
  }

  /** An even-numbered edge of a p that starts false is entered from a false
      element, and the edge after it leads back to one. */
  lemma EvenSegmentBorders(p: seq<bool>, e: seq<nat>, j: nat)
    requires 1 <= |p| && !p[0] && Changes(p, e) && Alternates(p, e)
    requires Even(j) && j + 1 < |e|
    ensures !p[e[j]] && !p[e[j + 1] + 1]
  {
    EvenStep(j);
  }

  /** Each run is a maximal block: all of its positions equal `value`, and the
      positions just outside it, where they exist, do not. */
  lemma RunsAreMaximal(v: seq<bool>, value: bool)
    ensures forall k, i :: 0 <= k < |FindRuns(v, value)| && FindRuns(v, value)[k].start <= i < FindRuns(v, value)[k].stop
              ==> v[i] == value
    ensures forall k :: 0 <= k < |FindRuns(v, value)| && FindRuns(v, value)[k].start > 0
              ==> v[FindRuns(v, value)[k].start - 1] != value
    ensures forall k :: 0 <= k < |FindRuns(v, value)| && FindRuns(v, value)[k].stop < |v|
              ==> v[FindRuns(v, value)[k].stop] != value
  {
    var r := FindRuns(v, value);
    forall k, i | 0 <= k < |r| && r[k].start <= i < r[k].stop
      ensures v[i] == value
    {
      RunInterior(v, value, k, i);
    }
    forall k | 0 <= k < |r|
      ensures r[k].start > 0 ==> v[r[k].start - 1] != value
      ensures r[k].stop < |v| ==> v[r[k].stop] != value
    {
      RunBorders(v, value, k);
    }
  }

  /** The runs are listed in ascending order, each separated from the next by
      at least one position. */
  lemma RunsOrdered(v: seq<bool>, value: bool)
    ensures forall a, b :: 0 <= a < b < |FindRuns(v, value)| ==> FindRuns(v, value)[a].stop < FindRuns(v, value)[b].start
  {
    var r := FindRuns(v, value);
    forall a, b | 0 <= a < b < |r|
      ensures r[a].stop < r[b].start
    {
      RunBefore(v, value, a, b);
    }
  }

  /** Of two runs, the earlier-listed one ends before the later one starts. */
  lemma RunBefore(v: seq<bool>, value: bool, a: nat, b: nat)
    requires a < b < |FindRuns(v, value)|
    ensures FindRuns(v, value)[a].stop < FindRuns(v, value)[b].start
  {
    EdgesAscending(Padded(v, value));
    RunEdges(v, value, a);
    RunEdges(v, value, b);
  }

  /** The run that holds a given matching position. */
  lemma RunHolding(v: seq<bool>, value: bool, i: nat) returns (k: nat)
    requires i < |v| && v[i] == value
    ensures k < |FindRuns(v, value)| && FindRuns(v, value)[k].start <= i < FindRuns(v, value)[k].stop
  {
    k := SegmentHolding(Padded(v, value), i + 1);
    RunEdges(v, value, k);
  }

  /** A position that differs from p[0], in a p that ends as it starts, lies
      past an even-numbered edge and not past the next one. */
  lemma SegmentHolding(p: seq<bool>, i: nat) returns (k: nat)
    requires i < |p| && p[i] != p[0] && Last(p) == p[0]
    ensures 2 * k + 1 < |Edges(p)| && Edges(p)[2 * k] < i <= Edges(p)[2 * k + 1]
  {
    var e := Edges(p);
    EdgeFacts(p, i);
    var j := SegmentEdge(p, e, i);
    PastEdge(p, e, j, i);
    k := Halve(j);
    HalfOfEven(|e|);
    assert j == 2 * k && j + 1 < |e|;
    assert e[j] < i <= e[j + 1];
  }

  /** A position that differs from p[0] lies past some edge. */
  lemma SegmentEdge(p: seq<bool>, e: seq<nat>, i: nat) returns (j: nat)
    requires i < |p| && p[i] != p[0] && Changes(p, e) && InSegment(p, e, i)
    ensures j < |e| && Between(e, j, i) && p[i] == p[e[j] + 1]
  {
    j :| 0 <= j < |e| && Between(e, j, i) && p[i] == p[e[j] + 1];
  }
  /** Every position that equals `value` lies inside some run. */
  lemma RunsCoverMatches(v: seq<bool>, value: bool)
    ensures forall i :: 0 <= i < |v| && v[i] == value ==>
              exists k :: 0 <= k < |FindRuns(v, value)| && FindRuns(v, value)[k].start <= i < FindRuns(v, value)[k].stop
  {
    var r := FindRuns(v, value);
    forall i | 0 <= i < |v| && v[i] == value
      ensures exists k :: 0 <= k < |r| && r[k].start <= i < r[k].stop
    {
      var k := RunHolding(v, value, i);
    }
  }

  /** The start of the last run: it holds `value`, the position before it does
      not, and no later position starts another run. */
  lemma LastRunStart(v: seq<bool>, value: bool)
    requires FindRuns(v, value) != []
    ensures var k := Last(FindRuns(v, value)).start;
            k < |v| && v[k] == value && (k == 0 || v[k - 1] != value) &&
            forall i :: k < i < |v| && v[i] == value ==> v[i - 1] == value
  {
    var r := FindRuns(v, value);
    var last := |r| - 1;
    var k := r[last].start;
    RunInterior(v, value, last, k);
    RunBorders(v, value, last);
    forall i | k < i < |v| && v[i] == value
      ensures v[i - 1] == value
    {
      PastLastRunStart(v, value, i);
    }
  }

  /** A position past the start of the last run that holds `value` lies inside
      that run. */
  lemma PastLastRunStart(v: seq<bool>, value: bool, i: nat)
    requires FindRuns(v, value) != [] && Last(FindRuns(v, value)).start < i < |v| && v[i] == value
    ensures v[i - 1] == value
  {
    var r := FindRuns(v, value);
    var c := RunHolding(v, value, i);
    if c < |r| - 1 {
      RunBefore(v, value, c, |r| - 1);
    }
    HeldByLast(r, c, i);
    RunInterior(v, value, c, i - 1);
  }

  /** When no earlier run reaches the last run's start, a position past that
      start is held by the last run, and so is the position before it. */
  lemma HeldByLast(r: seq<Run>, c: nat, i: nat)
    requires c < |r| && r[c].start <= i < r[c].stop && Last(r).start < i
    requires c < |r| - 1 ==> r[c].stop < Last(r).start
    ensures r[c].start <= i - 1 < r[c].stop
  {
  }

  /** find_runs returns no runs exactly when no position equals `value`. */
  lemma NoRunsIffNoMatch(v: seq<bool>, value: bool)
    ensures FindRuns(v, value) == [] <==> forall i :: 0 <= i < |v| ==> v[i] != value
  {
    RunsCoverMatches(v, value);
    RunsAreMaximal(v, value);
    var r := FindRuns(v, value);
    if r != [] {
      assert v[r[0].start] == value;
    }
  }
}
