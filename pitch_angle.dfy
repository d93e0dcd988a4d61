/** calculate_omnidirectional_flux (scripts/ptm_tools.py): the integral of a
    differential-flux array over pitch angle, per energy, by a bin-midpoint rule.
    np.sin and the value of pi are left uninterpreted. */
module PitchAngle {
  import opened Common

  /** The transcendental ingredients: the value numpy uses for pi and np.sin. */
  datatype Trig = Trig(pi: real, sin: real -> real)

  /** A two-dimensional numpy array of shape (m, n), row by row. */
  datatype Matrix = Matrix(m: nat, n: nat, cells: seq<seq<real>>)

  predicate WellFormed(a: Matrix)
  {
    |a.cells| == a.m && forall i :: 0 <= i < a.m ==> |a.cells[i]| == a.n
  }

  function Transpose(a: Matrix): (t: Matrix)
    requires WellFormed(a)
    ensures WellFormed(t) && t.m == a.n && t.n == a.m
    ensures forall i, j :: 0 <= i < t.m && 0 <= j < t.n ==> t.cells[i][j] == a.cells[j][i]
  {
    Matrix(a.n, a.m, seq(a.n, i requires 0 <= i < a.n => seq(a.m, j requires 0 <= j < a.m => a.cells[j][i])))
  }

  lemma TransposeTwice(a: Matrix)
    requires WellFormed(a)
    ensures Transpose(Transpose(a)) == a
  {
    var t := Transpose(Transpose(a));
    assert forall i :: 0 <= i < a.m ==> t.cells[i] == a.cells[i];
  }

  /** np.deg2rad: x * pi / 180 for each angle. */
  function Deg2Rad(pav: seq<real>, trig: Trig): (q: seq<real>)
    ensures |q| == |pav|
  {
    seq(|pav|, i requires 0 <= i < |pav| => pav[i] * (trig.pi / 180.0))
  }

  /** Number of pitch-angle bins between |q| angles (np.diff has one entry fewer). */
  function Bins(len: nat): nat
  {
    if len == 0 then 0 else len - 1
  }

  /** coef = 2 pi diff(Q), doubled under symmetry; savg = sin of the bin midpoints;
      the integration weight of bin i is their product. */
  function Weights(q: seq<real>, symmetry: bool, trig: Trig): (w: seq<real>)
    ensures |w| == Bins(|q|)
  {
    seq(Bins(|q|), i requires 0 <= i < Bins(|q|) =>
      var coef := 2.0 * trig.pi * (q[i + 1] - q[i]);
      (if symmetry then 2.0 * coef else coef) * trig.sin(0.5 * (q[i + 1] + q[i])))
  }

  /** favg = 0.5 * (flux[:, 1:] + flux[:, :-1]) for one energy row. */
  function BinAverages(row: seq<real>): (f: seq<real>)
    ensures |f| == Bins(|row|)
  {
    seq(Bins(|row|), k requires 0 <= k < Bins(|row|) => 0.5 * (row[k + 1] + row[k]))
  }

  /** The einsum "i,ji" contraction for one row: sum of w[i] * f[i]. */
  function Dot(w: seq<real>, f: seq<real>): real
    requires |w| == |f|
  {
    if w == [] then 0.0 else Dot(w[..|w| - 1], f[..|f| - 1]) + Last(w) * Last(f)
  }

  /** Omnidirectional flux of one row: the bin averages weighted and summed. */
  function RowOmni(w: seq<real>, row: seq<real>): real
    requires |w| == Bins(|row|)
  {
    Dot(w, BinAverages(row))
  }

  /** Omnidirectional flux of each row of an energy x angle array. */
  function ReduceRows(w: seq<real>, flux: Matrix): (omni: seq<real>)
    requires WellFormed(flux) && |w| == Bins(flux.n)
    ensures |omni| == flux.m
  {
    seq(flux.m, e requires 0 <= e < flux.m => RowOmni(w, flux.cells[e]))
  }

  /** Q: the pitch angles in radians. */
  function Radians(pav: seq<real>, angleDegrees: bool, trig: Trig): (q: seq<real>)
    ensures |q| == |pav|
  {
    if angleDegrees then Deg2Rad(pav, trig) else pav
  }

  /** diffJ as it is when len(pav) is its column count, its transpose otherwise. */
  function Oriented(pav: seq<real>, diffJ: Matrix): (flux: Matrix)
    requires WellFormed(diffJ)
    ensures WellFormed(flux)
    ensures |pav| == diffJ.n ==> flux == diffJ
    ensures |pav| != diffJ.n ==> flux.m == diffJ.n && flux.n == diffJ.m
  {
    if |pav| == diffJ.n then diffJ else Transpose(diffJ)
  }

  /** calculate_omnidirectional_flux(pav, diffJ, angleDegrees, symmetry): fails
      when len(pav) is neither dimension of diffJ; otherwise one entry per row of
      the energy x angle orientation of diffJ. */
  function Integrate(pav: seq<real>, diffJ: Matrix, trig: Trig, angleDegrees: bool := true, symmetry: bool := true)
    : (r: Result<seq<real>>)
    requires WellFormed(diffJ)
    ensures r.Err? <==> |pav| != diffJ.m && |pav| != diffJ.n
    ensures r.Err? ==> r.error == DimensionMismatch
    ensures r.Ok? && |pav| == diffJ.n ==> |r.value| == diffJ.m
    ensures r.Ok? && |pav| != diffJ.n ==> |r.value| == diffJ.n
  {
    if |pav| != diffJ.m && |pav| != diffJ.n then Err(DimensionMismatch)
    else
      var flux := Oriented(pav, diffJ);
      Ok(ReduceRows(Weights(Radians(pav, angleDegrees, trig), symmetry, trig), flux))
  }

  /** Whenever the dimensions agree, the result is the row-wise reduction with
      the bin weights, and the orientation has len(pav) columns. */
  lemma IntegrateValue(pav: seq<real>, x: Matrix, angleDegrees: bool, symmetry: bool, trig: Trig)
    requires WellFormed(x)
    requires |pav| == x.m || |pav| == x.n
    ensures Oriented(pav, x).n == |pav|
    ensures Integrate(pav, x, trig, angleDegrees, symmetry)
            == Ok(ReduceRows(Weights(Radians(pav, angleDegrees, trig), symmetry, trig), Oriented(pav, x)))
  {
  }

  /** a * u + b * v, elementwise. */
  function Combine(a: real, u: seq<real>, b: real, v: seq<real>): (r: seq<real>)
    requires |u| == |v|
    ensures |r| == |u|
  {
    seq(|u|, i requires 0 <= i < |u| => a * u[i] + b * v[i])
  }

  function CombineMatrix(a: real, x: Matrix, b: real, y: Matrix): (z: Matrix)
    requires WellFormed(x) && WellFormed(y) && x.m == y.m && x.n == y.n
    ensures WellFormed(z) && z.m == x.m && z.n == x.n
  {
    Matrix(x.m, x.n, seq(x.m, i requires 0 <= i < x.m => Combine(a, x.cells[i], b, y.cells[i])))
  }

  lemma DotLinear(w: seq<real>, a: real, u: seq<real>, b: real, v: seq<real>)
    requires |w| == |u| == |v|
    ensures Dot(w, Combine(a, u, b, v)) == a * Dot(w, u) + b * Dot(w, v)
  {
    var su, sv := Scale(a, u), Scale(b, v);
    assert Combine(a, u, b, v) == Add(su, sv);
    DotAdd(w, su, sv);
    DotScaleRight(w, a, u);
    DotScaleRight(w, b, v);
  }

  function Scale(a: real, u: seq<real>): (r: seq<real>)
    ensures |r| == |u|
  {
    seq(|u|, i requires 0 <= i < |u| => a * u[i])
  }

  function Add(p: seq<real>, q: seq<real>): (r: seq<real>)
    requires |p| == |q|
    ensures |r| == |p|
  {
    seq(|p|, i requires 0 <= i < |p| => p[i] + q[i])
  }

  /** The contraction is additive in the flux row. */
  lemma {:induction false} DotAdd(w: seq<real>, p: seq<real>, q: seq<real>)
    requires |w| == |p| == |q|
    ensures Dot(w, Add(p, q)) == Dot(w, p) + Dot(w, q)
    decreases |w|
  {
    if w != [] {
      var n := |w| - 1;
      var s, s' := Add(p, q), Add(p[..n], q[..n]);
      assert forall i :: 0 <= i < n ==> s[..n][i] == s'[i];
      assert s[..n] == s';
      DotAdd(w[..n], p[..n], q[..n]);
      assert Last(w) * Last(s) == Last(w) * Last(p) + Last(w) * Last(q);
    }
  }

  /** Scaling the flux row scales the contraction. */
  lemma {:induction false} DotScaleRight(w: seq<real>, a: real, u: seq<real>)
    requires |w| == |u|
    ensures Dot(w, Scale(a, u)) == a * Dot(w, u)
    decreases |w|
  {
    if w != [] {
      var n := |w| - 1;
      var s, s' := Scale(a, u), Scale(a, u[..n]);
      assert forall i :: 0 <= i < n ==> s[..n][i] == s'[i];
      assert s[..n] == s';
      DotScaleRight(w[..n], a, u[..n]);
      assert Last(w) * Last(s) == a * (Last(w) * Last(u));
    }
  }

  /** Bin averaging commutes with linear combinations. */
  lemma AveragesLinear(a: real, u: seq<real>, b: real, v: seq<real>)
    requires |u| == |v|
    ensures BinAverages(Combine(a, u, b, v)) == Combine(a, BinAverages(u), b, BinAverages(v))
  {
    var l, r := BinAverages(Combine(a, u, b, v)), Combine(a, BinAverages(u), b, BinAverages(v));
    forall k | 0 <= k < |l|
      ensures l[k] == r[k]
    {
      MeanLinear(a, b, u[k], u[k + 1], v[k], v[k + 1]);
    }
  }

  lemma MeanLinear(a: real, b: real, u0: real, u1: real, v0: real, v1: real)
    ensures 0.5 * ((a * u1 + b * v1) + (a * u0 + b * v0)) == a * (0.5 * (u1 + u0)) + b * (0.5 * (v1 + v0))
  {
  }

  /** Transposition commutes with linear combinations. */
  lemma TransposeCombine(a: real, x: Matrix, b: real, y: Matrix)
    requires WellFormed(x) && WellFormed(y) && x.m == y.m && x.n == y.n
    ensures forall e :: 0 <= e < x.n ==>
      Transpose(CombineMatrix(a, x, b, y)).cells[e] == Combine(a, Transpose(x).cells[e], b, Transpose(y).cells[e])
  {
    var z, tx, ty := Transpose(CombineMatrix(a, x, b, y)), Transpose(x), Transpose(y);
    forall e | 0 <= e < x.n
      ensures z.cells[e] == Combine(a, tx.cells[e], b, ty.cells[e])
    {
      assert forall j :: 0 <= j < x.m ==> z.cells[e][j] == Combine(a, tx.cells[e], b, ty.cells[e])[j];
    }
  }

  /** Orienting commutes with linear combinations, row by row. */
  lemma OrientedCombine(pav: seq<real>, a: real, x: Matrix, b: real, y: Matrix)
    requires WellFormed(x) && WellFormed(y) && x.m == y.m && x.n == y.n
    ensures Oriented(pav, CombineMatrix(a, x, b, y)).m == Oriented(pav, x).m == Oriented(pav, y).m
    ensures Oriented(pav, x).n == Oriented(pav, y).n
    ensures forall e :: 0 <= e < Oriented(pav, x).m ==>
      Oriented(pav, CombineMatrix(a, x, b, y)).cells[e] == Combine(a, Oriented(pav, x).cells[e], b, Oriented(pav, y).cells[e])
  {
    if |pav| != x.n {
      TransposeCombine(a, x, b, y);
    }
  }

  /** The row-wise reduction is linear in the flux. */
  lemma ReduceRowsLinear(w: seq<real>, a: real, fx: Matrix, b: real, fy: Matrix, fz: Matrix)
    requires WellFormed(fx) && WellFormed(fy) && WellFormed(fz)
    requires fx.m == fy.m == fz.m && fx.n == fy.n == fz.n && |w| == Bins(fx.n)
    requires forall e :: 0 <= e < fz.m ==> fz.cells[e] == Combine(a, fx.cells[e], b, fy.cells[e])
    ensures ReduceRows(w, fz) == Combine(a, ReduceRows(w, fx), b, ReduceRows(w, fy))
  {
    var oz, ox, oy := ReduceRows(w, fz), ReduceRows(w, fx), ReduceRows(w, fy);
    forall e | 0 <= e < fz.m
      ensures oz[e] == Combine(a, ox, b, oy)[e]
    {
      RowLinear(w, a, fx.cells[e], b, fy.cells[e]);
    }
  }

  /** One row of the reduction: the combination of two rows reduces to the
      same combination of their reductions. */
  lemma RowLinear(w: seq<real>, a: real, x: seq<real>, b: real, y: seq<real>)
    requires |x| == |y| && |w| == Bins(|x|)
    ensures RowOmni(w, Combine(a, x, b, y)) == a * RowOmni(w, x) + b * RowOmni(w, y)
  {
    AveragesLinear(a, x, b, y);
    DotLinear(w, a, BinAverages(x), b, BinAverages(y));
  }

  /** The integrator is linear in the flux: integrating a * J1 + b * J2 gives
      a times the result for J1 plus b times the result for J2. */
  lemma IntegrateIsLinear(pav: seq<real>, x: Matrix, y: Matrix, a: real, b: real,
                          angleDegrees: bool, symmetry: bool, trig: Trig)
    requires WellFormed(x) && WellFormed(y) && x.m == y.m && x.n == y.n
    requires |pav| == x.m || |pav| == x.n
    ensures Integrate(pav, CombineMatrix(a, x, b, y), trig, angleDegrees, symmetry).Ok?
    ensures Integrate(pav, x, trig, angleDegrees, symmetry).Ok?
    ensures Integrate(pav, y, trig, angleDegrees, symmetry).Ok?
    ensures Integrate(pav, CombineMatrix(a, x, b, y), trig, angleDegrees, symmetry).value
            == Combine(a, Integrate(pav, x, trig, angleDegrees, symmetry).value,
                       b, Integrate(pav, y, trig, angleDegrees, symmetry).value)
  {
    var z := CombineMatrix(a, x, b, y);
    var w := Weights(Radians(pav, angleDegrees, trig), symmetry, trig);
    IntegrateValue(pav, x, angleDegrees, symmetry, trig);
    IntegrateValue(pav, y, angleDegrees, symmetry, trig);
    IntegrateValue(pav, z, angleDegrees, symmetry, trig);
    OrientedCombine(pav, a, x, b, y);
    ReduceRowsLinear(w, a, Oriented(pav, x), b, Oriented(pav, y), Oriented(pav, z));
  }

  lemma {:induction false} DotZero(w: seq<real>, f: seq<real>)
    requires |w| == |f|
    requires forall i :: 0 <= i < |f| ==> f[i] == 0.0
    ensures Dot(w, f) == 0.0
    decreases |w|
  {
    if w != [] {
      DotZero(w[..|w| - 1], f[..|f| - 1]);
    }
  }

  /** An all-zero flux integrates to zero at every energy. */
  lemma IntegrateZero(pav: seq<real>, x: Matrix, angleDegrees: bool, symmetry: bool, trig: Trig)
    requires WellFormed(x)
    requires |pav| == x.m || |pav| == x.n
    requires forall i, j :: 0 <= i < x.m && 0 <= j < x.n ==> x.cells[i][j] == 0.0
    ensures Integrate(pav, x, trig, angleDegrees, symmetry).Ok?
    ensures forall e :: 0 <= e < |Integrate(pav, x, trig, angleDegrees, symmetry).value| ==>
              Integrate(pav, x, trig, angleDegrees, symmetry).value[e] == 0.0
  {
    var w := Weights(Radians(pav, angleDegrees, trig), symmetry, trig);
    var f := Oriented(pav, x);
    IntegrateValue(pav, x, angleDegrees, symmetry, trig);
    forall e | 0 <= e < f.m
      ensures Dot(w, BinAverages(f.cells[e])) == 0.0
    {
      DotZero(w, BinAverages(f.cells[e]));
    }
  }

  /** For a non-square array the orientation of the input does not matter: the
      array and its transpose integrate to the same result. */
  lemma OrientationIsIrrelevant(pav: seq<real>, x: Matrix, angleDegrees: bool, symmetry: bool, trig: Trig)
    requires WellFormed(x) && x.m != x.n
    requires |pav| == x.m || |pav| == x.n
    ensures Integrate(pav, x, trig, angleDegrees, symmetry)
            == Integrate(pav, Transpose(x), trig, angleDegrees, symmetry)
  {
    TransposeTwice(x);
  }

  /** Scaling the weights scales the contraction. */
  lemma {:induction false} DotScaleLeft(w: seq<real>, c: real, f: seq<real>)
    requires |w| == |f|
    ensures Dot(Scale(c, w), f) == c * Dot(w, f)
    decreases |w|
  {
    if w != [] {
      var n := |w| - 1;
      var s, s' := Scale(c, w), Scale(c, w[..n]);
      assert forall i :: 0 <= i < n ==> s[..n][i] == s'[i];
      assert s[..n] == s';
      DotScaleLeft(w[..n], c, f[..n]);
      assert Last(s) * Last(f) == c * (Last(w) * Last(f));
    }
  }

  /** Reducing with scaled weights scales every row's result. */
  lemma ReduceScaled(w: seq<real>, c: real, f: Matrix)
    requires WellFormed(f) && |w| == Bins(f.n)
    ensures ReduceRows(Scale(c, w), f) == Scale(c, ReduceRows(w, f))
  {
    var l, r := ReduceRows(Scale(c, w), f), Scale(c, ReduceRows(w, f));
    forall e | 0 <= e < f.m
      ensures l[e] == r[e]
    {
      DotScaleLeft(w, c, BinAverages(f.cells[e]));
    }
  }

  /** The symmetry flag doubles every entry, compensating for a distribution
      sampled only on one half of the pitch-angle range. */
  lemma SymmetryDoubles(pav: seq<real>, x: Matrix, angleDegrees: bool, trig: Trig)
    requires WellFormed(x)
    requires |pav| == x.m || |pav| == x.n
    ensures Integrate(pav, x, trig, angleDegrees, false).Ok?
    ensures Integrate(pav, x, trig, angleDegrees, true) == Ok(Scale(2.0, Integrate(pav, x, trig, angleDegrees, false).value))
  {
    var q := Radians(pav, angleDegrees, trig);
    var ws, wa := Weights(q, true, trig), Weights(q, false, trig);
    assert ws == Scale(2.0, wa);
    IntegrateValue(pav, x, angleDegrees, true, trig);
    IntegrateValue(pav, x, angleDegrees, false, trig);
    ReduceScaled(wa, 2.0, Oriented(pav, x));
  }

  lemma {:induction false} DotUniform(w: seq<real>, f: seq<real>, c: real)
    requires |w| == |f|
    requires forall i :: 0 <= i < |f| ==> f[i] == c
    ensures Dot(w, f) == c * Sum(w)
    decreases |w|
  {
    if w != [] {
      DotUniform(w[..|w| - 1], f[..|f| - 1], c);
    }
  }

  /** Equal weights c make the contraction c times the sum of the values. */
  lemma {:induction false} DotUniformWeights(w: seq<real>, f: seq<real>, c: real)
    requires |w| == |f|
    requires forall i :: 0 <= i < |w| ==> w[i] == c
    ensures Dot(w, f) == c * Sum(f)
    decreases |w|
  {
    if w != [] {
      DotUniformWeights(w[..|w| - 1], f[..|f| - 1], c);
    }
  }

  /** Averages of a constant row are that constant. */
  lemma AveragesUniform(row: seq<real>, c: real)
    requires forall j :: 0 <= j < |row| ==> row[j] == c
    ensures forall k :: 0 <= k < Bins(|row|) ==> BinAverages(row)[k] == c
  {
  }

  /** Orienting a uniform array keeps it uniform. */
  lemma OrientedUniform(pav: seq<real>, x: Matrix, c: real)
    requires WellFormed(x)
    requires forall i, j :: 0 <= i < x.m && 0 <= j < x.n ==> x.cells[i][j] == c
    ensures forall e, j :: 0 <= e < Oriented(pav, x).m && 0 <= j < Oriented(pav, x).n ==>
              Oriented(pav, x).cells[e][j] == c
  {
  }

  /** A uniform flux c integrates to c times the sum of the weights at every
      energy: the isotropic check reduces to the quadrature of sin alone. */
  lemma UniformFlux(pav: seq<real>, x: Matrix, c: real, angleDegrees: bool, symmetry: bool, trig: Trig)
    requires WellFormed(x)
    requires |pav| == x.m || |pav| == x.n
    requires forall i, j :: 0 <= i < x.m && 0 <= j < x.n ==> x.cells[i][j] == c
    ensures var r := Integrate(pav, x, trig, angleDegrees, symmetry);
            r.Ok? && forall e :: 0 <= e < |r.value| ==> r.value[e] == c * Sum(Weights(Radians(pav, angleDegrees, trig), symmetry, trig))
  {
    IntegrateValue(pav, x, angleDegrees, symmetry, trig);
    OrientedReduceUniform(pav, x, Weights(Radians(pav, angleDegrees, trig), symmetry, trig), c);
  }

  /** The same for any weights: every row of the oriented uniform array
      reduces to c times their sum. */
  lemma OrientedReduceUniform(pav: seq<real>, x: Matrix, w: seq<real>, c: real)
    requires WellFormed(x)
    requires |pav| == x.m || |pav| == x.n
    requires |w| == Bins(|pav|)
    requires forall i, j :: 0 <= i < x.m && 0 <= j < x.n ==> x.cells[i][j] == c
    ensures Oriented(pav, x).n == |pav|
    ensures forall e :: 0 <= e < |ReduceRows(w, Oriented(pav, x))| ==> ReduceRows(w, Oriented(pav, x))[e] == c * Sum(w)
  {
    OrientedUniform(pav, x, c);
    ReduceUniform(w, Oriented(pav, x), c);
  }

  /** Every row of a uniform array reduces to c times the sum of the weights. */
  lemma ReduceUniform(w: seq<real>, f: Matrix, c: real)
    requires WellFormed(f) && |w| == Bins(f.n)
    requires forall e, j :: 0 <= e < f.m && 0 <= j < f.n ==> f.cells[e][j] == c
    ensures forall e :: 0 <= e < f.m ==> ReduceRows(w, f)[e] == c * Sum(w)
  {
    forall e | 0 <= e < f.m
      ensures ReduceRows(w, f)[e] == c * Sum(w)
    {
      AveragesUniform(f.cells[e], c);
      DotUniform(w, BinAverages(f.cells[e]), c);
    }
  }
}
