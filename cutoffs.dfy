/** cutoffs (scripts/omni_quicklook_sep.py): per-energy access fractions of a
    flux map, the lower and upper cutoff energies, and the effective cutoff
    rigidity interpolated between them. The rigidity of a proton of given energy
    and its inverse are outside this model and enter as functions. */
module Cutoffs {
  import opened Common
  import opened Runs

  /** Radius (in Earth radii) of the outer boundary a trajectory must reach. */
  const Boundary: real := 14.99

  /** Fraction of the directions at an energy above which access counts as
      full: 1 - 0.18, the solid angle hidden by the Earth. */
  const FullAccess: real := 0.82

  /** np.linalg.norm(x) >= 14.99, compared on squares. */
  predicate Reaches(x: Vec)
  {
    x.x * x.x + x.y * x.y + x.z * x.z >= Boundary * Boundary
  }

  /** The dictionary cutoffs returns next to `allow`. */
  datatype CutoffDict = CutoffDict(ecLow: real, rLow: real, ecHigh: real, rHigh: real, rEff: real, ecEff: real)

  /** Number of directions at one energy whose trajectory reaches the boundary. */
  function AccessCount(row: seq<Vec>): (c: nat)
    ensures c <= |row|
    ensures c == 0 <==> forall j :: 0 <= j < |row| ==> !Reaches(row[j])
    ensures c == |row| <==> forall j :: 0 <= j < |row| ==> Reaches(row[j])
  {
    if row == [] then 0
    else
      var init := row[..|row| - 1];
      assert forall j :: 0 <= j < |init| ==> init[j] == row[j];
      AccessCount(init) + (if Reaches(Last(row)) then 1 else 0)
  }

  /** final_x of a map: one row of direction vectors per energy, all of the
      same width. */
  predicate Shaped(finalX: seq<seq<Vec>>, nangles: nat)
  {
    (nangles > 0 || finalX == []) && forall n :: 0 <= n < |finalX| ==> |finalX[n]| == nangles
  }

  /** c / n for a count c out of n. */
  function Fraction(c: nat, n: nat): (f: real)
    requires c <= n && n > 0
    ensures 0.0 <= f <= 1.0
    ensures f == 0.0 <==> c == 0
    ensures f * n as real == c as real
  {
    c as real / n as real
  }

  /** allow[n]: the fraction of directions at energy n with access. */
  function Allow(finalX: seq<seq<Vec>>, nangles: nat): (allow: seq<real>)
    requires Shaped(finalX, nangles)
    ensures |allow| == |finalX|
    ensures forall n :: 0 <= n < |allow| ==> allow[n] == Fraction(AccessCount(finalX[n]), nangles)
  {
    seq(|finalX|, n requires 0 <= n < |finalX| => Fraction(AccessCount(finalX[n]), nangles))
  }

  /** np.nonzero(allow)[0]: the positions of the nonzero entries, ascending. */
  function Nonzero(a: seq<real>): (r: seq<nat>)
    ensures forall k :: 0 <= k < |r| ==> r[k] < |a| && a[r[k]] != 0.0
    ensures forall i :: 0 <= i < |a| && a[i] != 0.0 ==> i in r
    ensures forall k, l :: 0 <= k < l < |r| ==> r[k] < r[l]
  {
    if a == [] then []
    else
      var init := Nonzero(a[..|a| - 1]);
      assert forall k :: 0 <= k < |init| ==> init[k] < |a| - 1;
      init + (if Last(a) != 0.0 then [|a| - 1] else [])
  }

  /** idx_low = not_forbidden[0]: the first energy with any access at all;
      an IndexError when there is none. */
  function LowIndex(allow: seq<real>): (r: Result<nat>)
    ensures r.Err? <==> forall i :: 0 <= i < |allow| ==> allow[i] == 0.0
    ensures r.Err? ==> r.error == NoAccess
    ensures r.Ok? ==> r.value < |allow| && allow[r.value] != 0.0
    ensures r.Ok? ==> forall i :: 0 <= i < r.value ==> allow[i] == 0.0
  {
    var nz := Nonzero(allow);
    if nz == [] then Err(NoAccess)
    else
      assert forall i :: 0 <= i < nz[0] && allow[i] != 0.0 ==> i in nz;
      Ok(nz[0])
  }

  /** full_access = allow > 0.82 */
  function FullAccessMask(allow: seq<real>): (m: seq<bool>)
    ensures |m| == |allow|
    ensures forall n :: 0 <= n < |m| ==> (m[n] <==> allow[n] > FullAccess)
  {
    seq(|allow|, n requires 0 <= n < |allow| => allow[n] > FullAccess)
  }

  /** idx_high = find_runs(full_access)[-1][0], or -1 (the last energy) when
      find_runs finds nothing. */
  function HighIndex(allow: seq<real>): (k: nat)
    requires |allow| > 0
    ensures k < |allow|
  {
    var runs := FindRuns(FullAccessMask(allow), true);
    if runs == [] then |allow| - 1 else Last(runs).start
  }

  /** idx_high is the start of the LAST block of full access: full access
      holds there, not just before it, and no later block starts after it;
      without any full access it is the last energy. */
  lemma HighIndexIsLastRunStart(allow: seq<real>)
    requires |allow| > 0
    ensures (forall n :: 0 <= n < |allow| ==> allow[n] <= FullAccess) ==> HighIndex(allow) == |allow| - 1
    ensures (exists n :: 0 <= n < |allow| && allow[n] > FullAccess) ==>
              var k := HighIndex(allow);
              allow[k] > FullAccess && (k == 0 || allow[k - 1] <= FullAccess) &&
              forall i :: k < i < |allow| && allow[i] > FullAccess ==> allow[i - 1] > FullAccess
  {
    var m := FullAccessMask(allow);
    NoRunsIffNoMatch(m, true);
    if FindRuns(m, true) != [] {
      LastRunStart(m, true);
    }
  }

  /** Sum over all energies of allow[n] * len(angles). */
  function WeightedAllow(allow: seq<real>, nangles: nat): real
  {
    if allow == [] then 0.0 else WeightedAllow(allow[..|allow| - 1], nangles) + Last(allow) * nangles as real
  }

  /** Total number of (energy, direction) cells with access. */
  function AccessibleCells(finalX: seq<seq<Vec>>): nat
  {
    if finalX == [] then 0 else AccessibleCells(finalX[..|finalX| - 1]) + AccessCount(Last(finalX))
  }

  /** Multiplying each fraction back by the number of directions recovers the
      number of accessible cells. */
  lemma WeightedAllowCountsAccess(finalX: seq<seq<Vec>>, nangles: nat)
    requires Shaped(finalX, nangles)
    ensures WeightedAllow(Allow(finalX, nangles), nangles) == AccessibleCells(finalX) as real
  {
    var a := Allow(finalX, nangles);
    var c := Counts(finalX);
    assert forall k :: 0 <= k < |a| ==> c[k] <= nangles && a[k] == Fraction(c[k], nangles);
    ScaleAll(a, c, nangles);
    WeightedCounts(a, c, nangles);
    CellsAreCountSum(finalX);
  }

  lemma ScaleAll(a: seq<real>, c: seq<nat>, n: nat)
    requires (n > 0 || a == []) && |a| == |c|
    requires forall k :: 0 <= k < |a| ==> c[k] <= n && a[k] == Fraction(c[k], n)
    ensures forall k :: 0 <= k < |a| ==> a[k] * n as real == c[k] as real
  {
    forall k | 0 <= k < |a|
      ensures a[k] * n as real == c[k] as real
    {
      FractionScales(c[k], n);
    }
  }

  /** The number of directions with access at each energy. */
  function Counts(finalX: seq<seq<Vec>>): (c: seq<nat>)
    ensures |c| == |finalX| && forall k :: 0 <= k < |c| ==> c[k] == AccessCount(finalX[k])
  {
    seq(|finalX|, k requires 0 <= k < |finalX| => AccessCount(finalX[k]))
  }

  function CountSum(c: seq<nat>): nat
  {
    if c == [] then 0 else CountSum(c[..|c| - 1]) + Last(c)
  }

  lemma {:induction false} CellsAreCountSum(finalX: seq<seq<Vec>>)
    ensures AccessibleCells(finalX) == CountSum(Counts(finalX))
    decreases |finalX|
  {
    if finalX != [] {
      var init := finalX[..|finalX| - 1];
      CellsAreCountSum(init);
      assert Counts(finalX)[..|init|] == Counts(init);
    }
  }

  /** Fractions that scale back to per-energy counts weigh up to their sum. */
  lemma {:induction false} WeightedCounts(a: seq<real>, c: seq<nat>, nangles: nat)
    requires |a| == |c|
    requires forall k :: 0 <= k < |a| ==> a[k] * nangles as real == c[k] as real
    ensures WeightedAllow(a, nangles) == CountSum(c) as real
    decreases |a|
  {
    if a != [] {
      var n := |a| - 1;
      assert forall k :: 0 <= k < n ==> a[..n][k] == a[k] && c[..n][k] == c[k];
      WeightedCounts(a[..n], c[..n], nangles);
    }
  }

  lemma FractionScales(c: nat, n: nat)
    requires c <= n && n > 0
    ensures Fraction(c, n) * n as real == c as real
  {
  }

  /** The number of accessible cells lies between 0 and Ntot. */
  lemma {:induction false} CellsAtMostTotal(finalX: seq<seq<Vec>>, nangles: nat)
    requires Shaped(finalX, nangles)
    ensures AccessibleCells(finalX) <= |finalX| * nangles
    decreases |finalX|
  {
    if finalX != [] {
      var init := finalX[..|finalX| - 1];
      assert Shaped(init, nangles);
      CellsAtMostTotal(init, nangles);
      CellsBound(|init|, nangles, AccessibleCells(init), AccessCount(Last(finalX)));
    }
  }

  lemma CellsBound(rows: nat, nangles: nat, before: nat, c: nat)
    requires before <= rows * nangles && c <= nangles
    ensures before + c <= (rows + 1) * nangles
  {
  }

  /** Ntot = len(allow) * len(angles), the number of cells of the map. */
  function Total(rows: nat, nangles: nat): (t: real)
    requires rows > 0 && nangles > 0
    ensures t >= 1.0
  {
    PositiveProduct(rows, nangles);
    (rows * nangles) as real
  }

  lemma PositiveProduct(a: nat, b: nat)
    requires a > 0 && b > 0
    ensures a * b > 0
  {
  }

  /** r_low + (r_high - r_low) * Nforbid / Ntot: the linear interpolation
      both versions of the effective rigidity share. */
  function Interpolate(rLow: real, rHigh: real, nforbid: real, ntot: real): real
    requires ntot > 0.0
  {
    rLow + (rHigh - rLow) * nforbid / ntot
  }

  /** r_effect with Nforbid summing allow * len(angles): the number of cells
      WITH access. */
  function EffectiveRigidityAsWritten(rLow: real, rHigh: real, allow: seq<real>, nangles: nat): real
    requires |allow| > 0 && nangles > 0
  {
    Interpolate(rLow, rHigh, WeightedAllow(allow, nangles), Total(|allow|, nangles))
  }

  /** The interpolation with the number of cells WITHOUT access, which the
      name Nforbid and the weighting toward r_high call for. */
  function EffectiveRigidity(rLow: real, rHigh: real, allow: seq<real>, nangles: nat): real
    requires |allow| > 0 && nangles > 0
  {
    var ntot := Total(|allow|, nangles);
    Interpolate(rLow, rHigh, ntot - WeightedAllow(allow, nangles), ntot)
  }

  /** The two interpolations are mirror images in the interval [r_low, r_high]:
      the as-written one is as far from r_low as the intended one is from r_high. */
  lemma AsWrittenMirrorsIntended(rLow: real, rHigh: real, allow: seq<real>, nangles: nat)
    requires |allow| > 0 && nangles > 0
    ensures EffectiveRigidityAsWritten(rLow, rHigh, allow, nangles) - rLow
            == rHigh - EffectiveRigidity(rLow, rHigh, allow, nangles)
  {
    MirrorStep(rLow, rHigh, WeightedAllow(allow, nangles), Total(|allow|, nangles));
  }

  lemma MirrorStep(rLow: real, rHigh: real, w: real, ntot: real)
    requires ntot > 0.0
    ensures Interpolate(rLow, rHigh, w, ntot) - rLow == rHigh - Interpolate(rLow, rHigh, ntot - w, ntot)
  {
    var d := rHigh - rLow;
    assert d * (ntot - w) / ntot == d - d * w / ntot;
  }

  /** A map where half the directions have access at the lower cutoff and all
      of them at the upper one: the as-written rigidity lands three quarters of
      the way up toward r_high, the intended one a quarter of the way. */
  lemma AsWrittenCounterexample()
    ensures EffectiveRigidityAsWritten(1.0, 3.0, [0.5, 1.0], 2) == 2.5
    ensures EffectiveRigidity(1.0, 3.0, [0.5, 1.0], 2) == 1.5
  {
    assert [0.5, 1.0][..1] == [0.5];
    assert WeightedAllow([0.5, 1.0], 2) == 3.0;
  }

  /** The intended effective rigidity lies between r_low and r_high, equals
      r_low when every cell has access and r_high when none has. */
  lemma EffectiveRigidityBetween(finalX: seq<seq<Vec>>, nangles: nat, rLow: real, rHigh: real)
    requires Shaped(finalX, nangles) && |finalX| > 0
    ensures var r := EffectiveRigidity(rLow, rHigh, Allow(finalX, nangles), nangles);
            (rLow <= r <= rHigh || rHigh <= r <= rLow) &&
            (AccessibleCells(finalX) == |finalX| * nangles ==> r == rLow) &&
            (AccessibleCells(finalX) == 0 ==> r == rHigh)
  {
    WeightedAllowCountsAccess(finalX, nangles);
    CellsAtMostTotal(finalX, nangles);
    RigidityInRange(rLow, rHigh, Allow(finalX, nangles), nangles, AccessibleCells(finalX));
  }

  /** The as-written rigidity also stays between r_low and r_high, but at the
      opposite ends: r_high when every cell has access, r_low when none has. */
  lemma AsWrittenBetween(finalX: seq<seq<Vec>>, nangles: nat, rLow: real, rHigh: real)
    requires Shaped(finalX, nangles) && |finalX| > 0
    ensures var r := EffectiveRigidityAsWritten(rLow, rHigh, Allow(finalX, nangles), nangles);
            (rLow <= r <= rHigh || rHigh <= r <= rLow) &&
            (AccessibleCells(finalX) == |finalX| * nangles ==> r == rHigh) &&
            (AccessibleCells(finalX) == 0 ==> r == rLow)
  {
    EffectiveRigidityBetween(finalX, nangles, rLow, rHigh);
    AsWrittenMirrorsIntended(rLow, rHigh, Allow(finalX, nangles), nangles);
  }

  lemma RigidityInRange(rLow: real, rHigh: real, allow: seq<real>, nangles: nat, cells: nat)
    requires |allow| > 0 && nangles > 0
    requires WeightedAllow(allow, nangles) == cells as real && cells <= |allow| * nangles
    ensures var r := EffectiveRigidity(rLow, rHigh, allow, nangles);
            (rLow <= r <= rHigh || rHigh <= r <= rLow) &&
            (cells == |allow| * nangles ==> r == rLow) &&
            (cells == 0 ==> r == rHigh)
  {
    ConvexStep(rLow, rHigh, cells as real, Total(|allow|, nangles));
  }

  lemma ConvexStep(rLow: real, rHigh: real, w: real, ntot: real)
    requires 0.0 <= w <= ntot && ntot > 0.0
    ensures var r := Interpolate(rLow, rHigh, ntot - w, ntot);
            (rLow <= r <= rHigh || rHigh <= r <= rLow) &&
            (w == ntot ==> r == rLow) && (w == 0.0 ==> r == rHigh)
  {
    var t := (ntot - w) / ntot;
    assert 0.0 <= t <= 1.0;
    assert (rHigh - rLow) * (ntot - w) / ntot == (rHigh - rLow) * t;
    if w == ntot {
      assert t == 0.0;
    }
    if w == 0.0 {
      assert t == 1.0;
    }
  }

  /** The map's energies are in keV; the cutoff energies are reported in MeV. */
  function MeV(keV: real): real
  {
    keV / 1000.0
  }

  /** The cutoff dictionary computed from the access fractions. It fails, as
      not_forbidden[0] does, when no energy has any access. */
  function CutoffsOf(allow: seq<real>, energies: seq<real>, nangles: nat, rigidity: real -> real, energyOf: real -> real): (r: Result<CutoffDict>)
    requires |allow| == |energies| && (nangles > 0 || allow == [])
    ensures r.Err? <==> forall i :: 0 <= i < |allow| ==> allow[i] == 0.0
    ensures r.Err? ==> r.error == NoAccess
    ensures r.Ok? ==> |allow| > 0 && nangles > 0 && LowIndex(allow).Ok?
  {
    match LowIndex(allow)
    case Err(e) => Err(e)
    case Ok(low) =>
      var ecLow, ecHigh := MeV(energies[low]), MeV(energies[HighIndex(allow)]);
      var rLow, rHigh := rigidity(ecLow), rigidity(ecHigh);
      var rEff := EffectiveRigidityAsWritten(rLow, rHigh, allow, nangles);
      Ok(CutoffDict(ecLow, rLow, ecHigh, rHigh, rEff, energyOf(rEff)))
  }

  /** cutoffs(fluxmap): the cutoff dictionary and the access fractions; it
      fails exactly when no cell of the map has access. */
  function Cutoffs(finalX: seq<seq<Vec>>, energies: seq<real>, nangles: nat, rigidity: real -> real, energyOf: real -> real)
    : (r: Result<(CutoffDict, seq<real>)>)
    requires Shaped(finalX, nangles) && |finalX| == |energies|
    ensures r.Err? <==> AccessibleCells(finalX) == 0
    ensures r.Err? ==> r.error == NoAccess
    ensures r.Ok? ==> r.value.1 == Allow(finalX, nangles)
  {
    var allow := Allow(finalX, nangles);
    NoAccessIffNoCells(finalX, nangles);
    match CutoffsOf(allow, energies, nangles, rigidity, energyOf)
    case Err(e) => Err(e)
    case Ok(d) => Ok((d, allow))
  }

  /** No energy has access exactly when no cell has. */
  lemma {:induction false} NoAccessIffNoCells(finalX: seq<seq<Vec>>, nangles: nat)
    requires Shaped(finalX, nangles)
    ensures (forall i :: 0 <= i < |finalX| ==> Allow(finalX, nangles)[i] == 0.0) <==> AccessibleCells(finalX) == 0
    decreases |finalX|
  {
    if finalX != [] {
      var init := finalX[..|finalX| - 1];
      assert Shaped(init, nangles);
      NoAccessIffNoCells(init, nangles);
      assert forall i :: 0 <= i < |init| ==> Allow(finalX, nangles)[i] == Allow(init, nangles)[i];
      assert Last(Allow(finalX, nangles)) == 0.0 <==> AccessCount(Last(finalX)) == 0;
    }
  }

  /** The dictionary cutoffs builds from ec_low and ec_high. */
  lemma CutoffsOfValue(allow: seq<real>, energies: seq<real>, nangles: nat, rigidity: real -> real, energyOf: real -> real)
    requires |allow| == |energies| && (nangles > 0 || allow == [])
    requires CutoffsOf(allow, energies, nangles, rigidity, energyOf).Ok?
    ensures LowIndex(allow).Ok? && |allow| > 0 && nangles > 0
    ensures var ecLow, ecHigh := MeV(energies[LowIndex(allow).value]), MeV(energies[HighIndex(allow)]);
            var rEff := EffectiveRigidityAsWritten(rigidity(ecLow), rigidity(ecHigh), allow, nangles);
            CutoffsOf(allow, energies, nangles, rigidity, energyOf)
            == Ok(CutoffDict(ecLow, rigidity(ecLow), ecHigh, rigidity(ecHigh), rEff, energyOf(rEff)))
  {
  }

  /** A successful call picks ec_low (in MeV) at the first energy where some
      direction has access, ec_high at idx_high, the rigidities of both, and
      the as-written effective rigidity: between those two, and r_high itself
      when every cell has access. */
  lemma CutoffsChoose(finalX: seq<seq<Vec>>, energies: seq<real>, nangles: nat, rigidity: real -> real, energyOf: real -> real)
    requires Shaped(finalX, nangles) && |finalX| == |energies|
    requires Cutoffs(finalX, energies, nangles, rigidity, energyOf).Ok?
    ensures LowIndex(Allow(finalX, nangles)).Ok?
    ensures var low := LowIndex(Allow(finalX, nangles)).value;
            var d := Cutoffs(finalX, energies, nangles, rigidity, energyOf).value.0;
            low < |finalX| && AccessCount(finalX[low]) > 0 &&
            (forall i :: 0 <= i < low ==> AccessCount(finalX[i]) == 0) &&
            d.ecLow == MeV(energies[low])
    ensures var d := Cutoffs(finalX, energies, nangles, rigidity, energyOf).value.0;
            d.ecHigh == MeV(energies[HighIndex(Allow(finalX, nangles))]) &&
            d.rLow == rigidity(d.ecLow) && d.rHigh == rigidity(d.ecHigh) && d.ecEff == energyOf(d.rEff) &&
            d.rEff == EffectiveRigidityAsWritten(d.rLow, d.rHigh, Allow(finalX, nangles), nangles) &&
            (d.rLow <= d.rEff <= d.rHigh || d.rHigh <= d.rEff <= d.rLow) &&
            (AccessibleCells(finalX) == |finalX| * nangles ==> d.rEff == d.rHigh)
  {
    var allow := Allow(finalX, nangles);
    CutoffsOfValue(allow, energies, nangles, rigidity, energyOf);
    var ecLow, ecHigh := MeV(energies[LowIndex(allow).value]), MeV(energies[HighIndex(allow)]);
    assert Cutoffs(finalX, energies, nangles, rigidity, energyOf).value.0
        == CutoffsOf(allow, energies, nangles, rigidity, energyOf).value;
    FirstAccess(finalX, nangles, LowIndex(allow).value);
    AsWrittenBetween(finalX, nangles, rigidity(ecLow), rigidity(ecHigh));
  }

  /** A nonzero fraction means some direction has access, a zero one none. */
  lemma FirstAccess(finalX: seq<seq<Vec>>, nangles: nat, low: nat)
    requires Shaped(finalX, nangles) && low < |finalX|
    requires Allow(finalX, nangles)[low] != 0.0
    requires forall i :: 0 <= i < low ==> Allow(finalX, nangles)[i] == 0.0
    ensures AccessCount(finalX[low]) > 0
    ensures forall i :: 0 <= i < low ==> AccessCount(finalX[i]) == 0
  {
    var allow := Allow(finalX, nangles);
    forall i | 0 <= i < low
      ensures AccessCount(finalX[i]) == 0
    {
      assert allow[i] == 0.0;
    }
  }
}
