/** parse_map_file (scripts/ptm_tools.py): the rows of one or more PTM map files
    are stacked in file order, the energy and pitch-angle axes are the sorted
    distinct values of their columns, and every row is scattered into the one
    grid cell whose axis values equal its own. */
module MapFile {
  import opened Common
  import opened Axis

  /** The whitespace-separated tokens of one line of text. */
  type Line = seq<string>

  /** A text file, as its lines. */
  type Text = seq<Line>

  /** parse_map_file accepts a single path string or a list of paths. */
  datatype Paths = OnePath(path: string) | PathList(paths: seq<string>)

  /** One table row: columns 1-3 are the final position, 4 the source energy,
      5 the pitch angle, 6 the final energy and 7-9 the initial velocity
      (column 0, a running index, is not used). */
  datatype Row = Row(finalX: Vec, energy: real, angle: real, finalEnergy: real, initV: Vec)

  /** Width of the map-file table. */
  const Columns := 10

  /** Widths the scatter loop gets through. Columns 4-6 must exist; the
      initial velocity is the slice of columns 7-9, which for a table of
      width 8 is the single column 7, broadcast over the three components,
      while a slice of any other length but three fails to broadcast. */
  predicate Indexable(width: nat)
  {
    width == 8 || width >= Columns
  }

  function Names(p: Paths): seq<string>
  {
    match p
    case OnePath(f) => [f]
    case PathList(fs) => fs
  }

  /** Lines np.loadtxt reads as data after skipping the first `skip` lines:
      blank lines are ignored. */
  function DataLines(t: Text, skip: nat): seq<Line>
  {
    if |t| <= skip then [] else NonBlank(t[skip..])
  }

  function NonBlank(ls: seq<Line>): seq<Line>
  {
    if ls == [] then []
    else NonBlank(ls[..|ls| - 1]) + (if Last(ls) == [] then [] else [Last(ls)])
  }

  /** Number of columns of a table as numpy sees it after np.atleast_2d
      (an empty table reads as one row of width 0). */
  function Width(ls: seq<Line>): nat
  {
    if ls == [] then 0 else |ls[0]|
  }

  predicate Uniform(ls: seq<Line>)
  {
    forall k :: 0 <= k < |ls| ==> |ls[k]| == Width(ls)
  }

  /** np.loadtxt on one file: every data line must have the same width. */
  function FileTable(t: Text, skip: nat): Result<seq<Line>>
  {
    var ls := DataLines(t, skip);
    if Uniform(ls) then Ok(ls) else Err(MalformedTable)
  }

  /** The table the loop of parse_map_file has built after reading the files
      `names`: the first file skips its header and one more line, each later file
      one line, and np.vstack insists on equal widths. The files are opened in
      order, so the first failure met is the one reported. */
  function ReadTable(fs: map<string, Text>, names: seq<string>): (r: Result<seq<Line>>)
    requires |names| >= 1
    ensures r.Ok? ==> Uniform(r.value) && names[0] in fs
    decreases |names|
  {
    if |names| == 1 then
      if names[0] !in fs then Err(FileNotFound(names[0])) else FileTable(fs[names[0]], 2)
    else
      match ReadTable(fs, names[..|names| - 1])
      case Err(e) => Err(e)
      case Ok(res) =>
        var f := Last(names);
        if f !in fs then Err(FileNotFound(f))
        else
          match FileTable(fs[f], 1)
          case Err(e) => Err(e)
          case Ok(dum) =>
            if Width(res) != Width(dum) then Err(MalformedTable) else Ok(res + dum)
  }

  /** Once reading fails on some file, later files are never opened and the
      failure is what parse_map_file reports. */
  lemma {:induction false} FirstFailureStands(fs: map<string, Text>, names: seq<string>, k: nat)
    requires 1 <= k <= |names|
    requires ReadTable(fs, names[..k]).Err?
    ensures ReadTable(fs, names) == ReadTable(fs, names[..k])
    decreases |names|
  {
    if k < |names| {
      var init := names[..|names| - 1];
      assert names[..k] == init[..k];
      FirstFailureStands(fs, init, k);
    } else {
      assert names[..k] == names;
    }
  }

  /** The whole combined table, or the reason parse_map_file fails before it
      builds the grids: no path at all, a missing or ragged file, a table that
      stays one-dimensional (a single file with a single row) or one whose
      width the scatter loop cannot index or broadcast. */
  function Table(fs: map<string, Text>, names: seq<string>): (r: Result<seq<Line>>)
    ensures r.Ok? ==> |names| >= 1 && names[0] in fs
    ensures r.Ok? ==> Uniform(r.value) && forall k :: 0 <= k < |r.value| ==> Indexable(|r.value[k]|)
  {
    if names == [] then Err(NoPaths)
    else
      match ReadTable(fs, names)
      case Err(e) => Err(e)
      case Ok(res) =>
        if (|names| == 1 && |res| == 1) || !Indexable(Width(res)) then Err(MalformedTable)
        else Ok(res)
  }

  /** The rows read from earlier files come first and unchanged: files are
      concatenated, never interleaved. */
  lemma {:induction false} EarlierFilesComeFirst(fs: map<string, Text>, names: seq<string>, k: nat)
    requires 1 <= k <= |names|
    requires ReadTable(fs, names).Ok?
    ensures ReadTable(fs, names[..k]).Ok?
    ensures ReadTable(fs, names[..k]).value <= ReadTable(fs, names).value
    decreases |names|
  {
    if k < |names| {
      var init := names[..|names| - 1];
      assert names[..k] == init[..k];
      EarlierFilesComeFirst(fs, init, k);
    } else {
      assert names[..k] == names;
    }
  }

  /** The position metadata: the last three tokens of the first file's first
      line, or all of them when it has fewer. */
  function HeaderPosition(first: Text, num: string -> real): (p: seq<real>)
    ensures var h := if first == [] then [] else first[0];
            |h| >= 3 ==> p == [num(h[|h| - 3]), num(h[|h| - 2]), num(h[|h| - 1])]
    ensures var h := if first == [] then [] else first[0];
            |h| < 3 ==> |p| == |h| && forall i :: 0 <= i < |h| ==> p[i] == num(h[i])
  {
    var header := if first == [] then [] else first[0];
    var last3 := if |header| >= 3 then header[|header| - 3..] else header;
    seq(|last3|, i requires 0 <= i < |last3| => num(last3[i]))
  }

  /** The values of one table row; a width-8 row's single velocity column
      fills all three components. */
  function ToRow(l: Line, num: string -> real): Row
    requires Indexable(|l|)
  {
    var v := if |l| >= Columns then Vec(num(l[7]), num(l[8]), num(l[9])) else Vec(num(l[7]), num(l[7]), num(l[7]));
    Row(Vec(num(l[1]), num(l[2]), num(l[3])), num(l[4]), num(l[5]), num(l[6]), v)
  }

  function ToRows(ls: seq<Line>, num: string -> real): (rows: seq<Row>)
    requires forall k :: 0 <= k < |ls| ==> Indexable(|ls[k]|)
    ensures |rows| == |ls|
  {
    seq(|ls|, k requires 0 <= k < |ls| => ToRow(ls[k], num))
  }

  function Energies(rows: seq<Row>): seq<real>
  {
    seq(|rows|, k requires 0 <= k < |rows| => rows[k].energy)
  }

  function Angles(rows: seq<Row>): seq<real>
  {
    seq(|rows|, k requires 0 <= k < |rows| => rows[k].angle)
  }

  predicate At(r: Row, e: real, a: real)
  {
    r.energy == e && r.angle == a
  }

  /** The row whose values end up in the cell of energy e and pitch angle a:
      the last row with exactly those values, since later writes overwrite
      earlier ones. */
  function LastRowAt(rows: seq<Row>, e: real, a: real): (c: Option<Row>)
    ensures c.Some? ==> c.value in rows && At(c.value, e, a)
    ensures c.None? <==> forall k :: 0 <= k < |rows| ==> !At(rows[k], e, a)
  {
    if rows == [] then None
    else if At(Last(rows), e, a) then Some(Last(rows))
    else
      var c := LastRowAt(rows[..|rows| - 1], e, a);
      assert forall k :: 0 <= k < |rows| - 1 ==> rows[..|rows| - 1][k] == rows[k];
      c
  }

  /** The last of the first k rows at energy e and pitch angle a: the row a
      cell holds after k steps of the scatter loop. */
  function LastAmongFirst(rows: seq<Row>, k: nat, e: real, a: real): Option<Row>
    requires k <= |rows|
  {
    if k == 0 then None
    else if At(rows[k - 1], e, a) then Some(rows[k - 1])
    else LastAmongFirst(rows, k - 1, e, a)
  }

  lemma {:induction false} LastAmongAll(rows: seq<Row>, k: nat, e: real, a: real)
    requires k <= |rows|
    ensures LastAmongFirst(rows, k, e, a) == LastRowAt(rows[..k], e, a)
  {
    if k > 0 {
      assert rows[..k][..k - 1] == rows[..k - 1];
      LastAmongAll(rows, k - 1, e, a);
    }
  }

  /** When several rows share an (energy, pitch angle) pair, the last of them
      is the one kept. */
  lemma {:induction false} LaterRowWins(rows: seq<Row>, k: nat)
    requires k < |rows|
    requires forall m :: k < m < |rows| ==> !At(rows[m], rows[k].energy, rows[k].angle)
    ensures LastRowAt(rows, rows[k].energy, rows[k].angle) == Some(rows[k])
    decreases |rows|
  {
    if k < |rows| - 1 {
      var init := rows[..|rows| - 1];
      assert !At(Last(rows), rows[k].energy, rows[k].angle);
      LaterRowWins(init, k);
    }
  }

  /** Every row lands in exactly one cell: its energy and pitch angle each occur
      once on the axes built from the same rows. */
  lemma EveryRowHitsOneCell(rows: seq<Row>, k: nat)
    requires k < |rows|
    ensures rows[k].energy in SortedUnique(Energies(rows))
    ensures rows[k].angle in SortedUnique(Angles(rows))
    ensures var es, ps := SortedUnique(Energies(rows)), SortedUnique(Angles(rows));
            forall i, j :: 0 <= i < |es| && 0 <= j < |ps| && At(rows[k], es[i], ps[j]) ==>
              i == IndexOf(es, rows[k].energy) && j == IndexOf(ps, rows[k].angle)
  {
    assert Energies(rows)[k] in Energies(rows);
    assert Angles(rows)[k] in Angles(rows);
  }

  /** Value a cell of init_E, final_E, final_x or init_v holds: the row's value,
      or the zero np.zeros put there when no row maps to the cell. */
  function InitEOf(c: Option<Row>): real { if c.Some? then c.value.energy else 0.0 }
  function FinalEOf(c: Option<Row>): real { if c.Some? then c.value.finalEnergy else 0.0 }
  function FinalXOf(c: Option<Row>): Vec { if c.Some? then c.value.finalX else Vec(0.0, 0.0, 0.0) }
  function InitVOf(c: Option<Row>): Vec { if c.Some? then c.value.initV else Vec(0.0, 0.0, 0.0) }

  /** The flux-map dictionary: the two axes, the position metadata and four
      energy x pitch-angle grids (final_x and init_v hold 3-vectors per cell). */
  class FluxMap {
    var position: seq<real>
    var energies: seq<real>
    var angles: seq<real>
    var initE: array2<real>
    var finalE: array2<real>
    var finalX: array2<Vec>
    var initV: array2<Vec>

    /** All four grids have shape len(energies) x len(angles). */
    ghost predicate Valid()
      reads this
    {
      && initE.Length0 == |energies| && initE.Length1 == |angles|
      && finalE.Length0 == |energies| && finalE.Length1 == |angles|
      && finalX.Length0 == |energies| && finalX.Length1 == |angles|
      && initV.Length0 == |energies| && initV.Length1 == |angles|
    }

    constructor (position: seq<real>, energies: seq<real>, angles: seq<real>,
                 initE: array2<real>, finalE: array2<real>, finalX: array2<Vec>, initV: array2<Vec>)
      ensures this.position == position && this.energies == energies && this.angles == angles
      ensures this.initE == initE && this.finalE == finalE
      ensures this.finalX == finalX && this.initV == initV
    {
      this.position := position;
      this.energies := energies;
      this.angles := angles;
      this.initE := initE;
      this.finalE := finalE;
      this.finalX := finalX;
      this.initV := initV;
    }

    /** Every cell holds the values of the last row at its (energy, pitch angle),
        or zeros when there is none. */
    ghost predicate Holds(rows: seq<Row>)
      reads this, initE, finalE, finalX, initV
      requires Valid()
    {
      && (forall i, j :: 0 <= i < |energies| && 0 <= j < |angles| ==>
            initE[i, j] == InitEOf(LastRowAt(rows, energies[i], angles[j])))
      && (forall i, j :: 0 <= i < |energies| && 0 <= j < |angles| ==>
            finalE[i, j] == FinalEOf(LastRowAt(rows, energies[i], angles[j])))
      && (forall i, j :: 0 <= i < |energies| && 0 <= j < |angles| ==>
            finalX[i, j] == FinalXOf(LastRowAt(rows, energies[i], angles[j])))
      && (forall i, j :: 0 <= i < |energies| && 0 <= j < |angles| ==>
            initV[i, j] == InitVOf(LastRowAt(rows, energies[i], angles[j])))
    }
  }

  /** The loop over rows of parse_map_file: each row whose energy and pitch
      angle are both found on the axes overwrites that one cell; a row whose
      values are on neither is dropped. Afterwards every cell holds the last
      row at its coordinates, and cells no row reaches keep their value. */
  method Scatter(rows: seq<Row>, energies: seq<real>, angles: seq<real>,
                 initE: array2<real>, finalE: array2<real>, finalX: array2<Vec>, initV: array2<Vec>)
    requires StrictlyIncreasing(energies) && StrictlyIncreasing(angles)
    requires initE != finalE && finalX != initV
    requires initE.Length0 == finalE.Length0 == finalX.Length0 == initV.Length0 == |energies|
    requires initE.Length1 == finalE.Length1 == finalX.Length1 == initV.Length1 == |angles|
    modifies initE, finalE, finalX, initV
    ensures forall i, j :: 0 <= i < |energies| && 0 <= j < |angles| ==>
      initE[i, j] == (var c := LastRowAt(rows, energies[i], angles[j]);
                      if c.Some? then c.value.energy else old(initE[i, j]))
    ensures forall i, j :: 0 <= i < |energies| && 0 <= j < |angles| ==>
      finalE[i, j] == (var c := LastRowAt(rows, energies[i], angles[j]);
                       if c.Some? then c.value.finalEnergy else old(finalE[i, j]))
    ensures forall i, j :: 0 <= i < |energies| && 0 <= j < |angles| ==>
      finalX[i, j] == (var c := LastRowAt(rows, energies[i], angles[j]);
                       if c.Some? then c.value.finalX else old(finalX[i, j]))
    ensures forall i, j :: 0 <= i < |energies| && 0 <= j < |angles| ==>
      initV[i, j] == (var c := LastRowAt(rows, energies[i], angles[j]);
                      if c.Some? then c.value.initV else old(initV[i, j]))
  {
    var k := 0;
    while k < |rows|
      invariant 0 <= k <= |rows|
      invariant forall i, j {:trigger LastAmongFirst(rows, k, energies[i], angles[j])} :: 0 <= i < |energies| && 0 <= j < |angles| ==>
        initE[i, j] == (var c := LastAmongFirst(rows, k, energies[i], angles[j]);
                        if c.Some? then c.value.energy else old(initE[i, j]))
      invariant forall i, j {:trigger LastAmongFirst(rows, k, energies[i], angles[j])} :: 0 <= i < |energies| && 0 <= j < |angles| ==>
        finalE[i, j] == (var c := LastAmongFirst(rows, k, energies[i], angles[j]);
                         if c.Some? then c.value.finalEnergy else old(finalE[i, j]))
      invariant forall i, j {:trigger LastAmongFirst(rows, k, energies[i], angles[j])} :: 0 <= i < |energies| && 0 <= j < |angles| ==>
        finalX[i, j] == (var c := LastAmongFirst(rows, k, energies[i], angles[j]);
                         if c.Some? then c.value.finalX else old(finalX[i, j]))
      invariant forall i, j {:trigger LastAmongFirst(rows, k, energies[i], angles[j])} :: 0 <= i < |energies| && 0 <= j < |angles| ==>
        initV[i, j] == (var c := LastAmongFirst(rows, k, energies[i], angles[j]);
                        if c.Some? then c.value.initV else old(initV[i, j]))
    {
      var row := rows[k];
      var idex := FindIndex(energies, row.energy);
      var jdex := FindIndex(angles, row.angle);
      if idex.Some? && jdex.Some? {
        Place(row, idex.value, jdex.value, initE, finalE, finalX, initV);
      }
      k := k + 1;
    }
    forall i, j | 0 <= i < |energies| && 0 <= j < |angles|
      ensures LastAmongFirst(rows, |rows|, energies[i], angles[j]) == LastRowAt(rows, energies[i], angles[j])
    {
      LastAmongAll(rows, |rows|, energies[i], angles[j]);
      assert rows[..|rows|] == rows;
    }
  }

  /** Writes one row's values into cell (i, j) of the four grids. */
  method Place(row: Row, i: nat, j: nat,
               initE: array2<real>, finalE: array2<real>, finalX: array2<Vec>, initV: array2<Vec>)
    requires initE != finalE && finalX != initV
    requires i < initE.Length0 == finalE.Length0 == finalX.Length0 == initV.Length0
    requires j < initE.Length1 == finalE.Length1 == finalX.Length1 == initV.Length1
    modifies initE, finalE, finalX, initV
    ensures forall p, q :: 0 <= p < initE.Length0 && 0 <= q < initE.Length1 ==>
              initE[p, q] == if p == i && q == j then row.energy else old(initE[p, q])
    ensures forall p, q :: 0 <= p < finalE.Length0 && 0 <= q < finalE.Length1 ==>
              finalE[p, q] == if p == i && q == j then row.finalEnergy else old(finalE[p, q])
    ensures forall p, q :: 0 <= p < finalX.Length0 && 0 <= q < finalX.Length1 ==>
              finalX[p, q] == if p == i && q == j then row.finalX else old(finalX[p, q])
    ensures forall p, q :: 0 <= p < initV.Length0 && 0 <= q < initV.Length1 ==>
              initV[p, q] == if p == i && q == j then row.initV else old(initV[p, q])
  {
    initE[i, j] := row.energy;
    finalE[i, j] := row.finalEnergy;
    finalX[i, j] := row.finalX;
    initV[i, j] := row.initV;
  }

  /** The reading half of parse_map_file: open the files in order, load each
      table and stack it under the rows read so far. */
  method LoadTable(fs: map<string, Text>, names: seq<string>) returns (r: Result<seq<Line>>)
    ensures r == Table(fs, names)
  {
    if |names| == 0 {
      return Err(NoPaths);
    }
    r := LoadFirst(fs, names);
    var i := 1;
    while i < |names| && r.Ok?
      invariant 1 <= i <= |names|
      invariant r == ReadTable(fs, names[..i])
    {
      r := StackNext(fs, names, i, r.value);
      i := i + 1;
    }
    if r.Err? {
      ReadFailureIsTable(fs, names, i, r);
      return;
    }
    var res := r.value;
    ReadSuccessIsTable(fs, names, i, res);
    if (|names| == 1 && |res| == 1) || !Indexable(Width(res)) {
      r := Err(MalformedTable);
    }
  }

  /** Once all files are read, the table is rejected only when it stays
      one-dimensional or is too narrow. */
  lemma ReadSuccessIsTable(fs: map<string, Text>, names: seq<string>, i: nat, res: seq<Line>)
    requires 1 <= i == |names| && ReadTable(fs, names[..i]) == Ok(res)
    ensures Table(fs, names) == if (|names| == 1 && |res| == 1) || !Indexable(Width(res)) then Err(MalformedTable) else Ok(res)
  {
    assert names[..i] == names;
  }

  /** The first file: loaded skipping its header and one more line. */
  method LoadFirst(fs: map<string, Text>, names: seq<string>) returns (r: Result<seq<Line>>)
    requires |names| >= 1
    ensures r == ReadTable(fs, names[..1])
  {
    assert names[..1] == [names[0]];
    if names[0] !in fs {
      return Err(FileNotFound(names[0]));
    }
    r := FileTable(fs[names[0]], 2);
  }

  /** One pass of the loop: load file i (skipping one line) and stack it under
      the rows `res` of the files before it. */
  method StackNext(fs: map<string, Text>, names: seq<string>, i: nat, res: seq<Line>) returns (r: Result<seq<Line>>)
    requires 1 <= i < |names| && ReadTable(fs, names[..i]) == Ok(res)
    ensures r == ReadTable(fs, names[..i + 1])
  {
    var f := names[i];
    ReadTableStep(fs, names, i, res);
    if f !in fs {
      return Err(FileNotFound(f));
    }
    var dum := FileTable(fs[f], 1);
    if dum.Err? {
      return Err(dum.error);
    }
    if Width(res) != Width(dum.value) {
      return Err(MalformedTable);
    }
    return Ok(res + dum.value);
  }

  /** A failure while reading the first k files is the failure of the whole
      parse. */
  lemma ReadFailureIsTable(fs: map<string, Text>, names: seq<string>, k: nat, r: Result<seq<Line>>)
    requires 1 <= k <= |names| && r.Err? && ReadTable(fs, names[..k]) == r
    ensures Table(fs, names) == r
  {
    FirstFailureStands(fs, names, k);
  }

  /** One more file read after the rows `res` of the first i files. */
  lemma ReadTableStep(fs: map<string, Text>, names: seq<string>, i: nat, res: seq<Line>)
    requires 1 <= i < |names| && ReadTable(fs, names[..i]) == Ok(res)
    ensures names[i] !in fs ==> ReadTable(fs, names[..i + 1]) == Err(FileNotFound(names[i]))
    ensures names[i] in fs && FileTable(fs[names[i]], 1).Err? ==>
              ReadTable(fs, names[..i + 1]) == Err(FileTable(fs[names[i]], 1).error)
    ensures names[i] in fs && FileTable(fs[names[i]], 1).Ok? ==>
              var dum := FileTable(fs[names[i]], 1).value;
              ReadTable(fs, names[..i + 1]) == if Width(res) != Width(dum) then Err(MalformedTable) else Ok(res + dum)
  {
    assert names[..i + 1][..i] == names[..i];
    assert Last(names[..i + 1]) == names[i];
  }

  /** np.zeros((n, m)) */
  method ZeroReals(n: nat, m: nat) returns (a: array2<real>)
    ensures fresh(a) && a.Length0 == n && a.Length1 == m
    ensures forall i, j :: 0 <= i < n && 0 <= j < m ==> a[i, j] == 0.0
  {
    a := new real[n, m]((_, _) => 0.0);
  }

  /** np.zeros((n, m, 3)) */
  method ZeroVecs(n: nat, m: nat) returns (a: array2<Vec>)
    ensures fresh(a) && a.Length0 == n && a.Length1 == m
    ensures forall i, j :: 0 <= i < n && 0 <= j < m ==> a[i, j] == Vec(0.0, 0.0, 0.0)
  {
    a := new Vec[n, m]((_, _) => Vec(0.0, 0.0, 0.0));
  }

  /** The grid-building half of parse_map_file: axes from the rows, four
      zero-filled grids, then the scatter loop. */
  method BuildFluxMap(rows: seq<Row>, position: seq<real>) returns (fm: FluxMap)
    ensures fresh(fm) && fresh(fm.initE) && fresh(fm.finalE) && fresh(fm.finalX) && fresh(fm.initV)
    ensures fm.initE != fm.finalE && fm.finalX != fm.initV
    ensures fm.Valid()
    ensures fm.energies == SortedUnique(Energies(rows)) && fm.angles == SortedUnique(Angles(rows))
    ensures fm.position == position
    ensures fm.Holds(rows)
  {
    var energies := SortedUnique(Energies(rows));
    var angles := SortedUnique(Angles(rows));
    var initE := ZeroReals(|energies|, |angles|);
    var finalE := ZeroReals(|energies|, |angles|);
    var finalX := ZeroVecs(|energies|, |angles|);
    var initV := ZeroVecs(|energies|, |angles|);
    Scatter(rows, energies, angles, initE, finalE, finalX, initV);
    fm := new FluxMap(position, energies, angles, initE, finalE, finalX, initV);
  }

  /** parse_map_file. Fails as Table says; otherwise the axes are the sorted
      distinct energies and pitch angles of all rows, the position comes from
      the first file's header, and every cell holds the last row at its
      coordinates (zeros where there is none). */
  method ParseMapFile(fs: map<string, Text>, paths: Paths, num: string -> real) returns (r: Result<FluxMap>)
    ensures Table(fs, Names(paths)).Err? ==> r == Err(Table(fs, Names(paths)).error)
    ensures Table(fs, Names(paths)).Ok? ==> r.Ok?
    ensures r.Ok? ==>
      var rows := ToRows(Table(fs, Names(paths)).value, num);
      && fresh(r.value) && fresh(r.value.initE) && fresh(r.value.finalE)
      && fresh(r.value.finalX) && fresh(r.value.initV)
      && r.value.initE != r.value.finalE && r.value.finalX != r.value.initV
      && r.value.Valid()
      && r.value.energies == SortedUnique(Energies(rows))
      && r.value.angles == SortedUnique(Angles(rows))
      && r.value.position == HeaderPosition(fs[Names(paths)[0]], num)
      && r.value.Holds(rows)
  {
    var names := Names(paths);
    var table := LoadTable(fs, names);
    if table.Err? {
      return Err(table.error);
    }
    var fm := BuildFluxMap(ToRows(table.value, num), HeaderPosition(fs[names[0]], num));
    return Ok(fm);
  }
}
