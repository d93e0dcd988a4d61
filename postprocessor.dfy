/** ptm_postprocessor (scripts/ptm_postprocessing.py): the source parameters of
    a kappa distribution kept by a post-processor object, their lazy defaults,
    the omnidirectional integral with fixed 4-pi weights, the map file a run
    id names, the hh:mm:ss split of a time of day, and the record layout of
    the RAM boundary file. */
module PostProcessing {
  import opened Common
  import opened Axis
  import opened MapFile
  import opened PitchAngle

  /** __mc2: the electron rest energy in keV every instance starts from. */
  const ElectronRestEnergy: real := 511.0

  /** The defaults of set_source_parameters. */
  const DefaultDensity: real := 1.0
  const DefaultEnergy: real := 0.5
  const DefaultKappa: real := 2.5
  const DefaultMass: real := 1.0

  /** The parameters calculate_flux reads: rest energy, characteristic energy,
      number density and spectral index. */
  datatype Source = Source(mc2: real, eChar: real, nDens: real, kappa: real)

  /** The kappa-distribution flux of calculate_flux at one cell, from the
      source, the final energy and the initial energy of the cell. */
  type FluxFormula = (Source, real, real) -> real

  function Product(s: seq<real>): real
  {
    if s == [] then 1.0 else Product(s[..|s| - 1]) * Last(s)
  }

  /** The result dictionary of process_run, with the keys it fills. */
  datatype RunResult = RunResult(position: array2<Vec>, kappa: real, nDens: real, eChar: real)

  class PostProcessor {
    var filedir: string
    var mc2: real
    var ec: real
    var n: real
    var kappa: real
    var setDefaults: bool
    /** The masses passed to set_source_parameters so far, in call order. */
    ghost var masses: seq<real>

    /** __mc2 *= mass compounds: the rest energy is 511 keV times every mass
        passed so far, and the defaults are pending until the first call. */
    ghost predicate Valid()
      reads this
    {
      mc2 == ElectronRestEnergy * Product(masses) && (setDefaults <==> masses == [])
    }

    /** __init__: the given directory, or the working directory cwd. */
    constructor (filedir: Option<string>, cwd: string)
      ensures Valid() && masses == [] && setDefaults
      ensures this.filedir == (if filedir.Some? then filedir.value else cwd)
    {
      this.filedir := if filedir.Some? then filedir.value else cwd;
      mc2 := ElectronRestEnergy;
      setDefaults := true;
      masses := [];
    }

    /** set_source_parameters: stores the three distribution parameters,
        multiplies the rest energy by mass and clears the defaults flag. */
    method SetSourceParameters(nDens: real := DefaultDensity, eChar: real := DefaultEnergy,
                               kappa: real := DefaultKappa, mass: real := DefaultMass)
      requires Valid()
      modifies this
      ensures Valid()
      ensures masses == old(masses) + [mass] && mc2 == old(mc2) * mass
      ensures ec == eChar && n == nDens && this.kappa == kappa && !setDefaults
      ensures filedir == old(filedir)
    {
      mc2 := mc2 * mass;
      ec := eChar;
      n := nDens;
      this.kappa := kappa;
      setDefaults := false;
      masses := masses + [mass];
      assert masses[..|masses| - 1] == old(masses);
    }

    /** calculate_flux: applies the defaults first if no parameters were ever
        set, then evaluates the flux formula on every cell of the map. The
        default mass leaves the rest energy as it was. */
    method CalculateFlux(fm: FluxMap, formula: FluxFormula) returns (j: Matrix)
      requires Valid() && fm.Valid()
      modifies this
      ensures Valid() && !setDefaults && filedir == old(filedir) && mc2 == old(mc2)
      ensures old(setDefaults) ==> ec == DefaultEnergy && n == DefaultDensity && kappa == DefaultKappa
      ensures old(setDefaults) ==> masses == [DefaultMass]
      ensures !old(setDefaults) ==> ec == old(ec) && n == old(n) && kappa == old(kappa) && masses == old(masses)
      ensures WellFormed(j) && j.m == |fm.energies| && j.n == |fm.angles|
      ensures forall i, k :: 0 <= i < j.m && 0 <= k < j.n ==>
                j.cells[i][k] == formula(Source(mc2, ec, n, kappa), fm.finalE[i, k], fm.initE[i, k])
    {
      if setDefaults {
        SetSourceParameters();
      }
      j := FluxGrid(Source(mc2, ec, n, kappa), fm.finalE, fm.initE, formula);
    }

    /** process_run: the run's map file must exist under filedir and parse;
        its flux is calculated (applying pending defaults) and the result
        carries the final positions of the parsed map and the stored
        distribution parameters. The parsed map is returned as a ghost so that
        the contract can describe it. */
    method ProcessRun(runid: nat, fs: map<string, Text>, num: string -> real, formula: FluxFormula)
      returns (r: Result<RunResult>, ghost parsed: FluxMap?)
      requires Valid()
      modifies this
      ensures Valid() && filedir == old(filedir)
      ensures MapFileName(filedir, runid) !in fs ==> r == Err(FileNotFound(MapFileName(filedir, runid)))
      ensures r.Err? <==> Table(fs, [MapFileName(filedir, runid)]).Err?
      ensures r.Err? ==> r.error == Table(fs, [MapFileName(filedir, runid)]).error && unchanged(this)
      ensures r.Ok? ==>
        var rows := ToRows(Table(fs, [MapFileName(filedir, runid)]).value, num);
        && parsed != null && fresh(parsed) && fresh(parsed.finalX) && parsed.Valid()
        && parsed.energies == SortedUnique(Energies(rows)) && parsed.angles == SortedUnique(Angles(rows))
        && parsed.Holds(rows)
        && r.value == RunResult(parsed.finalX, kappa, n, ec)
      ensures r.Ok? ==> !setDefaults && mc2 == old(mc2)
      ensures r.Ok? && old(setDefaults) ==>
        kappa == DefaultKappa && n == DefaultDensity && ec == DefaultEnergy && masses == [DefaultMass]
      ensures r.Ok? && !old(setDefaults) ==>
        kappa == old(kappa) && n == old(n) && ec == old(ec) && masses == old(masses)
    {
      var fname := MapFileName(filedir, runid);
      parsed := null;
      if fname !in fs {
        return Err(FileNotFound(fname)), parsed;
      }
      var m := ParseMapFile(fs, OnePath(fname), num);
      if m.Err? {
        return Err(m.error), parsed;
      }
      parsed := m.value;
      var flux := CalculateFlux(m.value, formula);
      return Ok(RunResult(m.value.finalX, kappa, n, ec)), parsed;
    }
  }

  /** The flux formula applied cell by cell to a final- and an initial-energy
      grid of the same shape. */
  function FluxGrid(src: Source, ef: array2<real>, ei: array2<real>, formula: FluxFormula): (j: Matrix)
    requires ef.Length0 == ei.Length0 && ef.Length1 == ei.Length1
    reads ef, ei
    ensures WellFormed(j) && j.m == ef.Length0 && j.n == ef.Length1
    ensures forall i, k :: 0 <= i < j.m && 0 <= k < j.n ==> j.cells[i][k] == formula(src, ef[i, k], ei[i, k])
  {
    Matrix(ef.Length0, ef.Length1,
      seq(ef.Length0, i requires 0 <= i < ef.Length0 reads ef, ei =>
        seq(ef.Length1, k requires 0 <= k < ef.Length1 reads ef, ei => formula(src, ef[i, k], ei[i, k]))))
  }

  /** Masses of 1 (the default) never change the rest energy. */
  lemma {:induction false} UnitMassesKeepRestEnergy(masses: seq<real>)
    requires forall k :: 0 <= k < |masses| ==> masses[k] == DefaultMass
    ensures ElectronRestEnergy * Product(masses) == ElectronRestEnergy
  {
    if masses != [] {
      UnitMassesKeepRestEnergy(masses[..|masses| - 1]);
    }
  }

  /** The 4-pi weights of this file's integrator: 4 pi times the bin width
      times the sine of the bin midpoint. */
  function PostWeights(q: seq<real>, trig: Trig): (w: seq<real>)
    ensures |w| == Bins(|q|)
  {
    seq(Bins(|q|), i requires 0 <= i < Bins(|q|) =>
      4.0 * trig.pi * (q[i + 1] - q[i]) * trig.sin(0.5 * (q[i + 1] + q[i])))
  }

  /** np.einsum broadcasts a labelled axis of length 1 against the other
      operand's length for that label; any other pair of lengths must agree. */
  predicate Broadcastable(a: nat, b: nat)
  {
    a == b || a == 1 || b == 1
  }

  /** s viewed at length k: itself, or its single entry repeated. */
  function Stretch(s: seq<real>, k: nat): (t: seq<real>)
    requires |s| == k || |s| == 1
    ensures |t| == k && forall i :: 0 <= i < k ==> t[i] == (if |s| == 1 then s[0] else s[i])
  {
    if |s| == k then s else seq(k, _ => s[0])
  }

  /** The "i,ji" contraction of the weights with one row of bin averages,
      a length-1 operand broadcast against the other. */
  function BroadcastDot(w: seq<real>, f: seq<real>): real
    requires Broadcastable(|w|, |f|)
  {
    var k := if |w| == 1 then |f| else |w|;
    Dot(Stretch(w, k), Stretch(f, k))
  }

  /** calculate_omnidirectional_flux of the post-processor: pitch angles in
      degrees, no transposition, and np.einsum rejects a flux whose bin count
      differs from that of the pitch angles unless one of the two is a single
      bin, which it broadcasts. */
  function PostOmni(pav: seq<real>, flux: Matrix, trig: Trig): (r: Result<seq<real>>)
    requires WellFormed(flux)
    ensures r.Err? <==> !Broadcastable(Bins(|pav|), Bins(flux.n))
    ensures r.Err? ==> r.error == DimensionMismatch
    ensures r.Ok? ==> |r.value| == flux.m
  {
    if !Broadcastable(Bins(|pav|), Bins(flux.n)) then Err(DimensionMismatch)
    else
      var w := PostWeights(Deg2Rad(pav, trig), trig);
      Ok(seq(flux.m, e requires 0 <= e < flux.m => BroadcastDot(w, BinAverages(flux.cells[e]))))
  }

  /** On an energy-by-angle array the post-processor's integral is the
      ptm_tools integral in degrees with symmetry set. */
  lemma PostOmniIsSymmetricIntegral(pav: seq<real>, flux: Matrix, trig: Trig)
    requires WellFormed(flux) && flux.n == |pav|
    ensures PostOmni(pav, flux, trig) == Integrate(pav, flux, trig)
  {
    IntegrateValue(pav, flux, true, true, trig);
    var q := Deg2Rad(pav, trig);
    var w, v := PostWeights(q, trig), Weights(q, true, trig);
    forall i | 0 <= i < |w|
      ensures w[i] == v[i]
    {
      FourPi(trig.pi, q[i + 1] - q[i], trig.sin(0.5 * (q[i + 1] + q[i])));
    }
    assert w == v;
    var r := seq(flux.m, e requires 0 <= e < flux.m => BroadcastDot(w, BinAverages(flux.cells[e])));
    assert PostOmni(pav, flux, trig) == Ok(r);
    forall e | 0 <= e < flux.m
      ensures r[e] == ReduceRows(w, flux)[e]
    {
      var f := BinAverages(flux.cells[e]);
      assert Stretch(w, |w|) == w && Stretch(f, |w|) == f;
    }
    assert r == ReduceRows(w, flux);
  }

  /** One weight broadcast over a row: the weight times the row's sum. */
  lemma BroadcastOneWeight(w: seq<real>, f: seq<real>)
    requires |w| == 1
    ensures BroadcastDot(w, f) == w[0] * Sum(f)
  {
    assert Stretch(f, |f|) == f;
    DotUniformWeights(Stretch(w, |f|), f, w[0]);
  }

  /** One value broadcast over the weights: the value times their sum. */
  lemma BroadcastOneValue(w: seq<real>, f: seq<real>)
    requires |f| == 1
    ensures BroadcastDot(w, f) == f[0] * Sum(w)
  {
    var k := if |w| == 1 then |f| else |w|;
    assert k == |w| && Stretch(w, k) == w;
    DotUniform(w, Stretch(f, k), f[0]);
  }

  /** A single pitch-angle bin against a flux with more bins: that bin's
      weight times the sum of each row's bin averages. */
  lemma OneAngleBinBroadcasts(pav: seq<real>, flux: Matrix, trig: Trig)
    requires WellFormed(flux) && Bins(|pav|) == 1
    ensures var w := PostWeights(Deg2Rad(pav, trig), trig);
            PostOmni(pav, flux, trig)
            == Ok(seq(flux.m, e requires 0 <= e < flux.m => w[0] * Sum(BinAverages(flux.cells[e]))))
  {
    var w := PostWeights(Deg2Rad(pav, trig), trig);
    var r := seq(flux.m, e requires 0 <= e < flux.m => BroadcastDot(w, BinAverages(flux.cells[e])));
    assert PostOmni(pav, flux, trig) == Ok(r);
    var expected := seq(flux.m, e requires 0 <= e < flux.m => w[0] * Sum(BinAverages(flux.cells[e])));
    forall e | 0 <= e < flux.m
      ensures r[e] == expected[e]
    {
      BroadcastOneWeight(w, BinAverages(flux.cells[e]));
    }
    assert r == expected;
  }

  /** A flux with a single bin against more pitch-angle bins: that bin's
      average times the sum of the weights. */
  lemma OneFluxBinBroadcasts(pav: seq<real>, flux: Matrix, trig: Trig)
    requires WellFormed(flux) && Bins(flux.n) == 1
    ensures var w := PostWeights(Deg2Rad(pav, trig), trig);
            PostOmni(pav, flux, trig)
            == Ok(seq(flux.m, e requires 0 <= e < flux.m => BinAverages(flux.cells[e])[0] * Sum(w)))
  {
    var w := PostWeights(Deg2Rad(pav, trig), trig);
    var r := seq(flux.m, e requires 0 <= e < flux.m => BroadcastDot(w, BinAverages(flux.cells[e])));
    assert PostOmni(pav, flux, trig) == Ok(r);
    var expected := seq(flux.m, e requires 0 <= e < flux.m => BinAverages(flux.cells[e])[0] * Sum(w));
    forall e | 0 <= e < flux.m
      ensures r[e] == expected[e]
    {
      BroadcastOneValue(w, BinAverages(flux.cells[e]));
    }
    assert r == expected;
  }

  lemma FourPi(pi: real, d: real, s: real)
    ensures 4.0 * pi * d * s == 2.0 * (2.0 * pi * d) * s
  {
  }

  /** seconds_to_hhmmss with floor division: the three parts recompose tsec,
      minutes and seconds stay below 60, and a time within one day has fewer
      than 24 hours. */
  function SecondsToHhmmss(tsec: int): (r: (int, int, int))
    ensures 3600 * r.0 + 60 * r.1 + r.2 == tsec
    ensures 0 <= r.1 < 60 && 0 <= r.2 < 60
    ensures 0 <= tsec < 86400 ==> 0 <= r.0 < 24
  {
    var hh := tsec / 3600;
    var mm := (tsec - 3600 * hh) / 60;
    var ss := tsec - 3600 * hh - 60 * mm;
    (hh, mm, ss)
  }

  /** The split is the only one with minutes and seconds in [0, 60). */
  lemma HhmmssUnique(tsec: int, h: int, m: int, s: int)
    requires 3600 * h + 60 * m + s == tsec && 0 <= m < 60 && 0 <= s < 60
    ensures SecondsToHhmmss(tsec) == (h, m, s)
  {
    var r := SecondsToHhmmss(tsec);
    assert 3600 * (h - r.0) == 60 * (r.1 - m) + (r.2 - s);
  }

  /** The run number in decimal, zero-padded to at least four digits. */
  function Format04(runid: nat): (s: string)
    ensures AllDigits(s) && DecimalValue(s) == runid
    ensures |s| == if |Digits(runid)| < 4 then 4 else |Digits(runid)|
  {
    var d := Digits(runid);
    if |d| < 4 then LeadingZeros(4 - |d|, d); Zeros(4 - |d|) + d else d
  }

  function Pow10(k: nat): nat
  {
    if k == 0 then 1 else 10 * Pow10(k - 1)
  }

  /** A number below 10^k has at most k digits. */
  lemma {:induction false} DigitCount(n: nat, k: nat)
    requires 1 <= k && n < Pow10(k)
    ensures |Digits(n)| <= k
    decreases k
  {
    if n >= 10 {
      assert k > 1;
      DigitCount(n / 10, k - 1);
    }
  }

  /** Run ids below 10000 give exactly four characters, and distinct run ids
      name distinct files. */
  lemma Format04Shape(a: nat, b: nat)
    ensures a < 10000 ==> |Format04(a)| == 4
    ensures Format04(a) == Format04(b) ==> a == b
  {
    if a < 10000 {
      DigitCount(a, 4);
    }
  }

  /** The map file of a run: map_NNNN.dat in the run's directory, NNNN the
      zero-padded run number. */
  function MapFileName(filedir: string, runid: nat): string
  {
    filedir + "/map_" + Format04(runid) + ".dat"
  }

  /** One run's entry of fluxdata as write_ram_fluxes reads it. */
  datatype RunFluxes = RunFluxes(energies: seq<real>, omni: seq<real>)

  /** One data line of the RAM boundary file: the time of day, the MLT, the
      NSC block and the flux per energy. */
  datatype DataLine = DataLine(hour: int, minute: int, second: int, mlt: real, nsc: seq<int>, flux: seq<real>)

  /** The content of the RAM boundary file: the date and cadence (which also
      name it), the energy header and the data lines in order. */
  datatype RamFile = RamFile(year: int, month: int, day: int, cadence: int, energies: seq<real>, lines: seq<DataLine>)

  /** nsc = np.ones([nenergy]) */
  function Ones(k: nat): (s: seq<int>)
    ensures |s| == k && forall e :: 0 <= e < k ==> s[e] == 1
  {
    seq(k, _ => 1)
  }

  /** The data line for one (time, MLT) pair and run record: omni/(4 pi) for
      each of the nenergy energies; a record with fewer values makes
      str.format run out of arguments, extra values are not written. */
  function DataLineFor(time: int, mlt: real, rec: RunFluxes, nenergy: nat, pi: real, run: nat): (r: Result<DataLine>)
    requires pi > 0.0
    ensures r.Err? <==> |rec.omni| < nenergy
    ensures r.Err? ==> r.error == TooFewFluxValues(run)
    ensures r.Ok? ==> r.value.mlt == mlt && r.value.nsc == Ones(nenergy) && |r.value.flux| == nenergy
    ensures r.Ok? ==> forall e :: 0 <= e < nenergy ==> r.value.flux[e] * (4.0 * pi) == rec.omni[e]
    ensures r.Ok? ==> 3600 * r.value.hour + 60 * r.value.minute + r.value.second == time
    ensures r.Ok? ==> 0 <= r.value.minute < 60 && 0 <= r.value.second < 60
  {
    if |rec.omni| < nenergy then Err(TooFewFluxValues(run))
    else
      var hms := SecondsToHhmmss(time);
      Ok(DataLine(hms.0, hms.1, hms.2, mlt, Ones(nenergy),
                  seq(nenergy, e requires 0 <= e < nenergy => rec.omni[e] / (4.0 * pi))))
  }

  /** The line of run i: fluxdata[i] must exist. */
  function RunLine(time: int, mlt: real, fluxdata: map<nat, RunFluxes>, nenergy: nat, pi: real, i: nat): (r: Result<DataLine>)
    requires pi > 0.0
    ensures i !in fluxdata ==> r == Err(MissingRun(i))
  {
    if i !in fluxdata then Err(MissingRun(i)) else DataLineFor(time, mlt, fluxdata[i], nenergy, pi, i)
  }

  /** The inner loop over MLT for one time: the lines of runs i0 + 1 onward,
      stopping at the first failure. */
  function Block(time: int, mlts: seq<real>, fluxdata: map<nat, RunFluxes>, nenergy: nat, pi: real, i0: nat)
    : (r: Result<seq<DataLine>>)
    requires pi > 0.0
    ensures r.Ok? ==> |r.value| == |mlts|
  {
    if mlts == [] then Ok([])
    else
      match Block(time, mlts[..|mlts| - 1], fluxdata, nenergy, pi, i0)
      case Err(e) => Err(e)
      case Ok(ls) =>
        match RunLine(time, Last(mlts), fluxdata, nenergy, pi, i0 + |mlts|)
        case Err(e) => Err(e)
        case Ok(l) => Ok(ls + [l])
  }

  /** Both loops: the block of every time in order; the running index i is the
      number of lines written so far. */
  function Lines(times: seq<int>, mlts: seq<real>, fluxdata: map<nat, RunFluxes>, nenergy: nat, pi: real)
    : (r: Result<seq<DataLine>>)
    requires pi > 0.0
  {
    if times == [] then Ok([])
    else
      match Lines(times[..|times| - 1], mlts, fluxdata, nenergy, pi)
      case Err(e) => Err(e)
      case Ok(ls) =>
        match Block(Last(times), mlts, fluxdata, nenergy, pi, |ls|)
        case Err(e) => Err(e)
        case Ok(b) => Ok(ls + b)
  }

  /** write_ram_fluxes: the cadence needs two times and the energies come from
      run 1, then the data lines follow. */
  function RamFileOf(times: seq<int>, mlts: seq<real>, fluxdata: map<nat, RunFluxes>,
                     year: int, month: int, day: int, pi: real): (r: Result<RamFile>)
    requires pi > 0.0
    ensures |times| < 2 ==> r == Err(TooFewTimes)
    ensures |times| >= 2 && 1 !in fluxdata ==> r == Err(MissingRun(1))
  {
    if |times| < 2 then Err(TooFewTimes)
    else if 1 !in fluxdata then Err(MissingRun(1))
    else
      var nenergy := |fluxdata[1].energies|;
      match Lines(times, mlts, fluxdata, nenergy, pi)
      case Err(e) => Err(e)
      case Ok(ls) => Ok(RamFile(year, month, day, (times[1] - times[0]) / 60, fluxdata[1].energies, ls))
  }

  /** A failure in the first k MLT values is the failure of the whole block. */
  lemma {:induction false} BlockFailureStands(time: int, mlts: seq<real>, fluxdata: map<nat, RunFluxes>,
                                              nenergy: nat, pi: real, i0: nat, k: nat)
    requires pi > 0.0 && k <= |mlts|
    requires Block(time, mlts[..k], fluxdata, nenergy, pi, i0).Err?
    ensures Block(time, mlts, fluxdata, nenergy, pi, i0) == Block(time, mlts[..k], fluxdata, nenergy, pi, i0)
    decreases |mlts|
  {
    if k < |mlts| {
      assert mlts[..|mlts| - 1][..k] == mlts[..k];
      BlockFailureStands(time, mlts[..|mlts| - 1], fluxdata, nenergy, pi, i0, k);
    } else {
      assert mlts[..k] == mlts;
    }
  }

  /** A failure in the first k times is the failure of the whole file. */
  lemma {:induction false} LinesFailureStands(times: seq<int>, mlts: seq<real>, fluxdata: map<nat, RunFluxes>,
                                              nenergy: nat, pi: real, k: nat)
    requires pi > 0.0 && k <= |times|
    requires Lines(times[..k], mlts, fluxdata, nenergy, pi).Err?
    ensures Lines(times, mlts, fluxdata, nenergy, pi) == Lines(times[..k], mlts, fluxdata, nenergy, pi)
    decreases |times|
  {
    if k < |times| {
      assert times[..|times| - 1][..k] == times[..k];
      LinesFailureStands(times[..|times| - 1], mlts, fluxdata, nenergy, pi, k);
    } else {
      assert times[..k] == times;
    }
  }

  /** A complete file has one line per (time, MLT) pair. */
  lemma {:induction false} LinesCount(times: seq<int>, mlts: seq<real>, fluxdata: map<nat, RunFluxes>, nenergy: nat, pi: real)
    requires pi > 0.0 && Lines(times, mlts, fluxdata, nenergy, pi).Ok?
    ensures |Lines(times, mlts, fluxdata, nenergy, pi).value| == |times| * |mlts|
    decreases |times|
  {
    if times != [] {
      LinesCount(times[..|times| - 1], mlts, fluxdata, nenergy, pi);
      NextMultiple(|times| - 1, |mlts|);
    }
  }

  lemma NextMultiple(t: nat, m: nat)
    ensures t * m + m == (t + 1) * m
  {
  }

  /** Line m of a block comes from run i0 + m + 1 at MLT mlts[m]. */
  lemma {:induction false} BlockLine(time: int, mlts: seq<real>, fluxdata: map<nat, RunFluxes>,
                                     nenergy: nat, pi: real, i0: nat, m: nat)
    requires pi > 0.0 && m < |mlts|
    requires Block(time, mlts, fluxdata, nenergy, pi, i0).Ok?
    ensures RunLine(time, mlts[m], fluxdata, nenergy, pi, i0 + m + 1).Ok?
    ensures Block(time, mlts, fluxdata, nenergy, pi, i0).value[m] == RunLine(time, mlts[m], fluxdata, nenergy, pi, i0 + m + 1).value
    decreases |mlts|
  {
    if m < |mlts| - 1 {
      BlockLine(time, mlts[..|mlts| - 1], fluxdata, nenergy, pi, i0, m);
    }
  }

  /** Time-major, MLT-minor: line t * len(mlt) + m is the line of run
      t * len(mlt) + m + 1, at times[t] and mlts[m]. */
  lemma {:induction false} LineOrder(times: seq<int>, mlts: seq<real>, fluxdata: map<nat, RunFluxes>,
                                     nenergy: nat, pi: real, t: nat, m: nat)
    requires pi > 0.0 && t < |times| && m < |mlts|
    requires Lines(times, mlts, fluxdata, nenergy, pi).Ok?
    ensures var ls := Lines(times, mlts, fluxdata, nenergy, pi).value;
            var k := t * |mlts| + m;
            k < |ls| && RunLine(times[t], mlts[m], fluxdata, nenergy, pi, k + 1).Ok? &&
            ls[k] == RunLine(times[t], mlts[m], fluxdata, nenergy, pi, k + 1).value
    decreases |times|
  {
    var init := times[..|times| - 1];
    var prev := Lines(init, mlts, fluxdata, nenergy, pi);
    LinesCount(init, mlts, fluxdata, nenergy, pi);
    LinesCount(times, mlts, fluxdata, nenergy, pi);
    var k := t * |mlts| + m;
    if t == |times| - 1 {
      BlockLine(Last(times), mlts, fluxdata, nenergy, pi, |prev.value|, m);
    } else {
      LineOrder(init, mlts, fluxdata, nenergy, pi, t, m);
      assert k < |prev.value|;
    }
  }

  /** The loops of write_ram_fluxes, with the running index i. */
  method WriteRamFluxes(times: seq<int>, mlts: seq<real>, fluxdata: map<nat, RunFluxes>,
                        year: int, month: int, day: int, pi: real) returns (r: Result<RamFile>)
    requires pi > 0.0
    ensures r == RamFileOf(times, mlts, fluxdata, year, month, day, pi)
  {
    if |times| < 2 {
      return Err(TooFewTimes);
    }
    var cadence := (times[1] - times[0]) / 60;
    if 1 !in fluxdata {
      return Err(MissingRun(1));
    }
    var nenergy := |fluxdata[1].energies|;
    var lines: Result<seq<DataLine>> := Ok([]);
    var i := 0;
    var t := 0;
    while t < |times| && lines.Ok?
      invariant 0 <= t <= |times|
      invariant lines == Lines(times[..t], mlts, fluxdata, nenergy, pi)
      invariant lines.Ok? ==> i == |lines.value|
    {
      assert times[..t + 1][..t] == times[..t];
      var block := WriteBlock(times[t], mlts, fluxdata, nenergy, pi, i);
      if block.Err? {
        lines := Err(block.error);
      } else {
        lines := Ok(lines.value + block.value);
        i := i + |block.value|;
      }
      t := t + 1;
    }
    if lines.Err? {
      LinesFailureStands(times, mlts, fluxdata, nenergy, pi, t);
      return Err(lines.error);
    }
    assert times[..t] == times;
    return Ok(RamFile(year, month, day, cadence, fluxdata[1].energies, lines.value));
  }

  /** The inner loop for one time: i counts on from i0, one run per MLT value. */
  method WriteBlock(time: int, mlts: seq<real>, fluxdata: map<nat, RunFluxes>, nenergy: nat, pi: real, i0: nat)
    returns (r: Result<seq<DataLine>>)
    requires pi > 0.0
    ensures r == Block(time, mlts, fluxdata, nenergy, pi, i0)
  {
    var hms := SecondsToHhmmss(time);
    r := Ok([]);
    var i := i0;
    var m := 0;
    while m < |mlts| && r.Ok?
      invariant 0 <= m <= |mlts| && i == i0 + m
      invariant r == Block(time, mlts[..m], fluxdata, nenergy, pi, i0)
    {
      assert mlts[..m + 1][..m] == mlts[..m];
      i := i + 1;
      if i !in fluxdata {
        r := Err(MissingRun(i));
      } else if |fluxdata[i].omni| < nenergy {
        r := Err(TooFewFluxValues(i));
      } else {
        var rec := fluxdata[i];
        var saflux := seq(nenergy, e requires 0 <= e < nenergy => rec.omni[e] / (4.0 * pi));
        r := Ok(r.value + [DataLine(hms.0, hms.1, hms.2, mlts[m], Ones(nenergy), saflux)]);
      }
      m := m + 1;
    }
    if r.Err? {
      BlockFailureStands(time, mlts, fluxdata, nenergy, pi, i0, m);
    } else {
      assert mlts[..m] == mlts;
    }
  }
}
