/** parse_trajectory_file (scripts/ptm_tools.py): a trajectory file is a list of
    particle blocks, each opened by a '#' line whose second token is the
    particle ID and holding the data lines up to the next '#' line. */
module Trajectory {
  import opened Common

  /** The whitespace-separated tokens of one line; a stripped line starts with
      '#' exactly when its first token does. */
  type Line = seq<string>

  predicate IsMarker(l: Line)
  {
    |l| > 0 && |l[0]| > 0 && l[0][0] == '#'
  }

  /** int(line.split()[1]); parseInt stands for Python's int() and gives None
      where int() raises. */
  function ParticleId(l: Line, parseInt: string -> Option<int>): Option<int>
  {
    if |l| >= 2 then parseInt(l[1]) else None
  }

  /** One particle: its '#' line, the ID read from it and its data lines. */
  datatype Block = Block(header: Line, id: int, rows: seq<Line>)

  predicate WellFormedBlock(b: Block, parseInt: string -> Option<int>)
  {
    && IsMarker(b.header)
    && ParticleId(b.header, parseInt) == Some(b.id)
    && forall l :: l in b.rows ==> !IsMarker(l)
  }

  /** The blocks the loop of parse_trajectory_file has seen after the given
      lines, or the first failure: a data line before any '#' line (parr is not
      yet defined) or a '#' line without an integer second token. */
  function Split(lines: seq<Line>, parseInt: string -> Option<int>): (r: Result<seq<Block>>)
    ensures r.Ok? ==> forall b :: b in r.value ==> WellFormedBlock(b, parseInt)
    ensures r.Ok? ==> (r.value == [] <==> lines == [])
    decreases |lines|
  {
    if lines == [] then Ok([])
    else
      var l := Last(lines);
      match Split(lines[..|lines| - 1], parseInt)
      case Err(e) => Err(e)
      case Ok(bs) =>
        if IsMarker(l) then
          match ParticleId(l, parseInt)
          case None => Err(BadParticleId(|lines| - 1))
          case Some(id) =>
            Ok(bs + [Block(l, id, [])])
        else if bs == [] then Err(MissingParticleHeader)
        else
          var b := Last(bs);
          assert b in bs;
          assert forall c :: c in bs[..|bs| - 1] ==> c in bs;
          assert forall x :: x in b.rows + [l] ==> x in b.rows || x == l;
          Ok(bs[..|bs| - 1] + [b.(rows := b.rows + [l])])
  }

  /** Failures are raised as the loop meets them: a failure on a prefix of the
      lines is the failure of the whole file. */
  lemma {:induction false} FirstFailureStands(lines: seq<Line>, parseInt: string -> Option<int>, k: nat)
    requires k <= |lines|
    requires Split(lines[..k], parseInt).Err?
    ensures Split(lines, parseInt) == Split(lines[..k], parseInt)
    decreases |lines|
  {
    if k < |lines| {
      var init := lines[..|lines| - 1];
      assert lines[..k] == init[..k];
      FirstFailureStands(init, parseInt, k);
    } else {
      assert lines[..k] == lines;
    }
  }

  /** The dictionary: each block's rows under its ID, a later block with the
      same ID replacing an earlier one. */
  function ToMap(bs: seq<Block>): map<int, seq<Line>>
  {
    if bs == [] then map[] else ToMap(bs[..|bs| - 1])[Last(bs).id := Last(bs).rows]
  }

  /** The result of parse_trajectory_file: the dictionary of blocks, or a
      failure; a file without any line fails because pnum is never bound. */
  function TrajectoryDict(lines: seq<Line>, parseInt: string -> Option<int>): Result<map<int, seq<Line>>>
  {
    match Split(lines, parseInt)
    case Err(e) => Err(e)
    case Ok(bs) => if bs == [] then Err(MissingParticleHeader) else Ok(ToMap(bs))
  }

  /** The loop of parse_trajectory_file: a '#' line stores the block being read
      (except on the first line) and opens a new one; any other line is appended
      to the open block. */
  method ParseTrajectoryFile(lines: seq<Line>, parseInt: string -> Option<int>)
    returns (r: Result<map<int, seq<Line>>>)
    ensures r == TrajectoryDict(lines, parseInt)
  {
    var dataDict: map<int, seq<Line>> := map[];
    var started := false;
    var pnum := 0;
    var parr: seq<Line> := [];
    ghost var bs: seq<Block> := [];
    for idx := 0 to |lines|
      invariant Split(lines[..idx], parseInt) == Ok(bs)
      invariant started <==> bs != []
      invariant started <==> idx > 0
      invariant started ==> dataDict == ToMap(bs[..|bs| - 1])
      invariant !started ==> dataDict == map[]
      invariant started ==> pnum == Last(bs).id && parr == Last(bs).rows
    {
      var line := lines[idx];
      assert lines[..idx + 1][..idx] == lines[..idx];
      assert Last(lines[..idx + 1]) == line;
      if IsMarker(line) {
        if idx != 0 {
          assert ToMap(bs) == ToMap(bs[..|bs| - 1])[Last(bs).id := Last(bs).rows];
          dataDict := dataDict[pnum := parr];
        }
        var id := ParticleId(line, parseInt);
        if id.None? {
          FirstFailureStands(lines, parseInt, idx + 1);
          return Err(BadParticleId(idx));
        }
        pnum := id.value;
        parr := [];
        ghost var before := bs;
        bs := bs + [Block(line, pnum, [])];
        assert bs[..|bs| - 1] == before;
        assert idx != 0 ==> dataDict == ToMap(before);
        started := true;
      } else {
        if !started {
          FirstFailureStands(lines, parseInt, idx + 1);
          return Err(MissingParticleHeader);
        }
        parr := parr + [line];
        ghost var before := bs;
        bs := bs[..|bs| - 1] + [Last(bs).(rows := parr)];
        assert bs[..|bs| - 1] == before[..|before| - 1];
      }
    }
    assert lines[..|lines|] == lines;
    if !started {
      return Err(MissingParticleHeader);
    }
    assert bs == bs[..|bs| - 1] + [Last(bs)];
    dataDict := dataDict[pnum := parr];
    return Ok(dataDict);
  }

  function CountMarkers(lines: seq<Line>): nat
  {
    if lines == [] then 0 else CountMarkers(lines[..|lines| - 1]) + (if IsMarker(Last(lines)) then 1 else 0)
  }

  /** One block per '#' line: the nparts the source counts up front. */
  lemma {:induction false} OneBlockPerMarker(lines: seq<Line>, parseInt: string -> Option<int>)
    requires Split(lines, parseInt).Ok?
    ensures |Split(lines, parseInt).value| == CountMarkers(lines)
    decreases |lines|
  {
    if lines != [] {
      OneBlockPerMarker(lines[..|lines| - 1], parseInt);
    }
  }

  /** The lines of the blocks, each '#' line followed by its rows. */
  function Join(bs: seq<Block>): seq<Line>
  {
    if bs == [] then [] else Join(bs[..|bs| - 1]) + [Last(bs).header] + Last(bs).rows
  }

  /** Splitting loses and reorders nothing: joining the blocks gives back the file. */
  lemma {:induction false} SplitJoinRoundTrip(lines: seq<Line>, parseInt: string -> Option<int>)
    requires Split(lines, parseInt).Ok?
    ensures Join(Split(lines, parseInt).value) == lines
    decreases |lines|
  {
    if lines != [] {
      var init := lines[..|lines| - 1];
      var l := Last(lines);
      SplitJoinRoundTrip(init, parseInt);
      var bs := Split(init, parseInt).value;
      var out := Split(lines, parseInt).value;
      assert lines == init + [l];
      assert Join(out) == Join(out[..|out| - 1]) + [Last(out).header] + Last(out).rows;
      if IsMarker(l) {
        assert out == bs + [Block(l, ParticleId(l, parseInt).value, [])];
        assert out[..|out| - 1] == bs;
      } else {
        var b := Last(bs);
        assert out == bs[..|bs| - 1] + [b.(rows := b.rows + [l])];
        assert out[..|out| - 1] == bs[..|bs| - 1];
        assert Join(bs) == Join(bs[..|bs| - 1]) + [b.header] + b.rows;
      }
    }
  }

  /** The ID keys of the dictionary are exactly the IDs of the blocks. */
  lemma {:induction false} ToMapKeys(bs: seq<Block>, id: int)
    ensures id in ToMap(bs) <==> exists k :: 0 <= k < |bs| && bs[k].id == id
    decreases |bs|
  {
    if bs != [] {
      var init := bs[..|bs| - 1];
      ToMapKeys(init, id);
      if id in ToMap(init) {
        var k :| 0 <= k < |init| && init[k].id == id;
        assert bs[k].id == id;
      }
      if exists k :: 0 <= k < |bs| && bs[k].id == id {
        var k :| 0 <= k < |bs| && bs[k].id == id;
        if k < |bs| - 1 {
          assert init[k].id == id;
        }
      }
    }
  }

  /** A repeated particle ID keeps the rows of its later block. */
  lemma {:induction false} LaterBlockWins(bs: seq<Block>, k: nat)
    requires k < |bs|
    requires forall m :: k < m < |bs| ==> bs[m].id != bs[k].id
    ensures bs[k].id in ToMap(bs) && ToMap(bs)[bs[k].id] == bs[k].rows
    decreases |bs|
  {
    if k < |bs| - 1 {
      var init := bs[..|bs| - 1];
      LaterBlockWins(init, k);
    }
  }
}
