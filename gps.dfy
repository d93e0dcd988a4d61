/** scripts/gps_position.py: choosing the weekly LANL GPS data file that holds a
    requested time, and the sample nearest to that time inside the file.
    Instants are whole seconds counted from 2000-01-01 00:00:00. */
module Gps {
  import opened Common

  const GpsPath: string := "/n/space_data/LANL_GPS/Particle_Data/processed_ascii"
  const DefaultVersion: string := "1.08"
  const SecondsPerDay: int := 86400

  // ---------------------------------------------------------------- file names

  /** The fixed tail of the glob pattern '*_v{version}.ascii'. */
  function Suffix(version: string): string
  {
    "_v" + version + ".ascii"
  }

  /** glob's '*' matches any prefix except one starting with a dot. */
  predicate Matches(name: string, version: string)
  {
    var sfx := Suffix(version);
    |sfx| <= |name| && name[|name| - |sfx|..] == sfx && name[0] != '.'
  }

  /** os.path.join(gpspath, sat, name) */
  function Join(sat: string, name: string): string
  {
    GpsPath + "/" + sat + "/" + name
  }

  /** The glob: the full path of every entry of the satellite's directory that
      matches the pattern, in directory order. */
  function Listing(sat: string, dir: seq<string>, version: string): seq<string>
  {
    if dir == [] then []
    else if Matches(Last(dir), version) then Listing(sat, dir[..|dir| - 1], version) + [Join(sat, Last(dir))]
    else Listing(sat, dir[..|dir| - 1], version)
  }

  /** Every matching entry of the directory is globbed. */
  lemma {:induction false} ListingComplete(sat: string, dir: seq<string>, version: string, name: string)
    requires name in dir && Matches(name, version)
    ensures Join(sat, name) in Listing(sat, dir, version)
  {
    var init := dir[..|dir| - 1];
    if name != Last(dir) {
      assert name in init by { assert dir == init + [Last(dir)]; }
      ListingComplete(sat, init, version, name);
    }
  }

  /** Nothing but matching entries of the directory is globbed. */
  lemma {:induction false} ListingSound(sat: string, dir: seq<string>, version: string, k: nat)
    requires k < |Listing(sat, dir, version)|
    ensures exists name :: name in dir && Matches(name, version) && Listing(sat, dir, version)[k] == Join(sat, name)
  {
    var init := dir[..|dir| - 1];
    var l := Listing(sat, init, version);
    if k < |l| {
      ListingSound(sat, init, version, k);
      var name :| name in init && Matches(name, version) && l[k] == Join(sat, name);
      assert name in dir by { assert dir == init + [Last(dir)]; }
    } else {
      assert Last(dir) in dir;
    }
  }

  // ------------------------------------------------------------------ sorting

  /** Python's ordering of strings: character by character, a proper prefix
      first. */
  predicate LexLe(a: string, b: string)
  {
    |a| == 0 || (|b| > 0 && (a[0] < b[0] || (a[0] == b[0] && LexLe(a[1..], b[1..]))))
  }

  lemma {:induction false} LexTotal(a: string, b: string)
    ensures LexLe(a, b) || LexLe(b, a)
  {
    if |a| > 0 && |b| > 0 && a[0] == b[0] {
      LexTotal(a[1..], b[1..]);
    }
  }

  predicate Ordered(s: seq<string>)
  {
    forall i :: 0 <= i < |s| - 1 ==> LexLe(s[i], s[i + 1])
  }

  function Insert(x: string, s: seq<string>): (r: seq<string>)
    requires Ordered(s)
    ensures Ordered(r) && multiset(r) == multiset(s) + multiset{x}
    ensures |r| > 0 && (r[0] == x || (|s| > 0 && r[0] == s[0]))
  {
    if s == [] then [x]
    else if LexLe(x, s[0]) then OrderedCons(x, s); [x] + s
    else
      LexTotal(x, s[0]);
      var t := Insert(x, s[1..]);
      assert s == [s[0]] + s[1..];
      OrderedCons(s[0], t);
      [s[0]] + t
  }

  /** An element not after the head of an ordered list extends it. */
  lemma OrderedCons(h: string, t: seq<string>)
    requires Ordered(t) && (t == [] || LexLe(h, t[0]))
    ensures Ordered([h] + t)
  {
    var r := [h] + t;
    forall i | 0 <= i < |r| - 1
      ensures LexLe(r[i], r[i + 1])
    {
      if i > 0 {
        assert r[i] == t[i - 1] && r[i + 1] == t[i];
      }
    }
  }

  /** sorted(): an ordered permutation of its input. */
  function Sort(s: seq<string>): (r: seq<string>)
    ensures Ordered(r) && multiset(r) == multiset(s)
  {
    if s == [] then []
    else
      assert s == [s[0]] + s[1..];
      Insert(s[0], Sort(s[1..]))
  }

  // ------------------------------------------------------------- week strings

  /** The regular expression (?<=_)\d{6} matches at p. */
  predicate WeekAt(fn: string, p: int)
  {
    1 <= p && p + 6 <= |fn| && fn[p - 1] == '_' && AllDigits(fn[p..p + 6])
  }

  /** re.search from position p: the leftmost match, if any. */
  function SearchFrom(fn: string, p: nat): (r: Option<nat>)
    requires 1 <= p
    ensures r.Some? ==> p <= r.value && WeekAt(fn, r.value)
    ensures r.Some? ==> forall q :: p <= q < r.value ==> !WeekAt(fn, q)
    ensures r.None? ==> forall q :: p <= q ==> !WeekAt(fn, q)
    decreases |fn| - p
  {
    if p + 6 > |fn| then None
    else if WeekAt(fn, p) then Some(p)
    else SearchFrom(fn, p + 1)
  }

  /** re.search('(?<=_)\d{6}', fn).group(0); without a match .group raises. */
  function WeekString(fn: string): (r: Result<string>)
    ensures r.Err? <==> forall q :: !WeekAt(fn, q)
    ensures r.Err? ==> r.error == NoWeekString(fn)
    ensures r.Ok? ==> |r.value| == 6 && AllDigits(r.value)
    ensures r.Ok? ==> exists q :: WeekAt(fn, q) && (forall p :: p < q ==> !WeekAt(fn, p)) && r.value == fn[q..q + 6]
  {
    match SearchFrom(fn, 1)
    case None => Err(NoWeekString(fn))
    case Some(q) => Ok(fn[q..q + 6])
  }

  /** The week-string list comprehension: the first file without one raises. */
  function WeekStrings(files: seq<string>): (r: Result<seq<string>>)
    ensures r.Ok? <==> forall i :: 0 <= i < |files| ==> WeekString(files[i]).Ok?
    ensures r.Ok? ==> |r.value| == |files| && forall i :: 0 <= i < |files| ==> WeekString(files[i]) == Ok(r.value[i])
    ensures r.Ok? ==> WeekStringsShaped(r.value)
  {
    if files == [] then Ok([])
    else
      match WeekStrings(files[..|files| - 1])
      case Err(e) => Err(e)
      case Ok(ws) =>
        match WeekString(Last(files))
        case Err(e) => Err(e)
        case Ok(w) => Ok(ws + [w])
  }

  // -------------------------------------------------------------------- dates

  datatype Date = Date(year: int, month: int, day: int)

  predicate Leap(y: int)
  {
    y % 4 == 0 && (y % 100 != 0 || y % 400 == 0)
  }

  function DaysIn(y: int, m: int): int
    requires 1 <= m <= 12
  {
    if m == 2 then (if Leap(y) then 29 else 28)
    else if m == 4 || m == 6 || m == 9 || m == 11 then 30
    else 31
  }

  /** What datetime(year, month, day) accepts, for years from 2000 on. */
  predicate ValidDate(d: Date)
  {
    2000 <= d.year && 1 <= d.month <= 12 && 1 <= d.day <= DaysIn(d.year, d.month)
  }

  function DaysBeforeMonth(y: int, m: int): nat
    requires 1 <= m <= 13
  {
    if m == 1 then 0 else DaysBeforeMonth(y, m - 1) + DaysIn(y, m - 1)
  }

  function DaysBeforeYear(y: int): nat
    requires 2000 <= y
    decreases y - 2000
  {
    if y == 2000 then 0 else DaysBeforeYear(y - 1) + DaysBeforeMonth(y - 1, 13)
  }

  /** Days from 2000-01-01 to d. */
  function DayNumber(d: Date): nat
    requires ValidDate(d)
  {
    DaysBeforeYear(d.year) + DaysBeforeMonth(d.year, d.month) + d.day - 1
  }

  /** The instant of midnight starting d. */
  function Midnight(d: Date): int
    requires ValidDate(d)
  {
    SecondsPerDay * DayNumber(d)
  }

  /** Calendar order, as datetime compares dates. */
  predicate Before(a: Date, b: Date)
  {
    a.year < b.year || (a.year == b.year && (a.month < b.month || (a.month == b.month && a.day < b.day)))
  }

  lemma {:induction false} MonthsAdvance(y: int, m1: int, m2: int)
    requires 1 <= m1 < m2 <= 13
    ensures DaysBeforeMonth(y, m1) + DaysIn(y, m1) <= DaysBeforeMonth(y, m2)
    decreases m2
  {
    if m1 < m2 - 1 {
      MonthsAdvance(y, m1, m2 - 1);
    }
  }

  lemma {:induction false} YearsAdvance(y1: int, y2: int)
    requires 2000 <= y1 < y2
    ensures DaysBeforeYear(y1) + DaysBeforeMonth(y1, 13) <= DaysBeforeYear(y2)
    decreases y2
  {
    if y1 < y2 - 1 {
      YearsAdvance(y1, y2 - 1);
    }
  }

  lemma EarlierDateFewerDays(a: Date, b: Date)
    requires ValidDate(a) && ValidDate(b) && Before(a, b)
    ensures DayNumber(a) < DayNumber(b)
  {
    if a.year < b.year {
      if a.month < 12 {
        MonthsAdvance(a.year, a.month, 13);
      }
      YearsAdvance(a.year, b.year);
    } else if a.month < b.month {
      MonthsAdvance(a.year, a.month, b.month);
    }
  }

  /** Counting days preserves calendar order both ways, so comparing the
      instants of two week starts is comparing the dates. */
  lemma DayNumberOrder(a: Date, b: Date)
    requires ValidDate(a) && ValidDate(b)
    ensures Before(a, b) <==> DayNumber(a) < DayNumber(b)
    ensures a == b <==> DayNumber(a) == DayNumber(b)
  {
    if Before(a, b) {
      EarlierDateFewerDays(a, b);
    } else if Before(b, a) {
      EarlierDateFewerDays(b, a);
    }
  }

  /** wkstr_to_date: year 2000 + the first two digits, then month and day;
      datetime rejects a month or day out of range. */
  function WeekDate(wk: string): (r: Result<int>)
    requires |wk| == 6 && AllDigits(wk)
    ensures var d := Date(2000 + DecimalValue(wk[..2]), DecimalValue(wk[2..4]), DecimalValue(wk[4..6]));
            (r.Err? <==> !ValidDate(d)) && (r.Err? ==> r.error == InvalidDate(wk)) &&
            (r.Ok? ==> r.value == Midnight(d))
  {
    assert AllDigits(wk[..2]) && AllDigits(wk[2..4]) && AllDigits(wk[4..6]);
    var d := Date(2000 + DecimalValue(wk[..2]), DecimalValue(wk[2..4]), DecimalValue(wk[4..6]));
    if ValidDate(d) then Ok(Midnight(d)) else Err(InvalidDate(wk))
  }

  predicate WeekStringsShaped(wks: seq<string>)
  {
    forall i :: 0 <= i < |wks| ==> |wks[i]| == 6 && AllDigits(wks[i])
  }

  /** The week-date list comprehension: the first invalid date raises. */
  function WeekDates(wks: seq<string>): (r: Result<seq<int>>)
    requires WeekStringsShaped(wks)
    ensures r.Ok? <==> forall i :: 0 <= i < |wks| ==> WeekDate(wks[i]).Ok?
    ensures r.Ok? ==> |r.value| == |wks| && forall i {:trigger WeekDate(wks[i])} :: 0 <= i < |wks| ==> WeekDate(wks[i]) == Ok(r.value[i])
  {
    if wks == [] then Ok([])
    else
      match WeekDates(wks[..|wks| - 1])
      case Err(e) => Err(e)
      case Ok(ds) =>
        match WeekDate(Last(wks))
        case Err(e) => Err(e)
        case Ok(d) => Ok(ds + [d])
  }

  // ------------------------------------------------------------------- bisect

  predicate Ascending(a: seq<int>)
  {
    forall i, j :: 0 <= i <= j < |a| ==> a[i] <= a[j]
  }

  /** CPython's bisect_right loop between lo and hi. */
  function BisectRight(a: seq<int>, x: int, lo: nat, hi: nat): (k: nat)
    requires lo <= hi <= |a|
    ensures lo <= k <= hi
    decreases hi - lo
  {
    if lo < hi then
      var mid := (lo + hi) / 2;
      if x < a[mid] then BisectRight(a, x, lo, mid) else BisectRight(a, x, mid + 1, hi)
    else lo
  }

  /** bisect.bisect(a, x) */
  function Bisect(a: seq<int>, x: int): (k: nat)
    ensures k <= |a|
  {
    BisectRight(a, x, 0, |a|)
  }

  lemma {:induction false} BisectRightSplits(a: seq<int>, x: int, lo: nat, hi: nat)
    requires lo <= hi <= |a| && Ascending(a)
    ensures var k := BisectRight(a, x, lo, hi);
            (forall i :: lo <= i < k ==> a[i] <= x) && (forall i :: k <= i < hi ==> x < a[i])
    decreases hi - lo
  {
    if lo < hi {
      var mid := (lo + hi) / 2;
      if x < a[mid] {
        BisectRightSplits(a, x, lo, mid);
      } else {
        BisectRightSplits(a, x, mid + 1, hi);
      }
    }
  }

  /** On an ascending list, bisect returns the number of entries not after x. */
  lemma BisectSplits(a: seq<int>, x: int)
    requires Ascending(a)
    ensures forall i :: 0 <= i < Bisect(a, x) ==> a[i] <= x
    ensures forall i :: Bisect(a, x) <= i < |a| ==> x < a[i]
  {
    BisectRightSplits(a, x, 0, |a|);
  }

  // ---------------------------------------------------------- file selection

  /** allfiles[fidx - 1] as a position: fidx - 1 == -1 wraps to the last
      entry, and an empty list has no entry at all. */
  function PickWeek(dates: seq<int>, targ: int): (r: Result<nat>)
    ensures r.Err? <==> dates == []
    ensures r.Err? ==> r.error == IndexOutOfRange
    ensures r.Ok? ==> r.value < |dates|
  {
    if dates == [] then Err(IndexOutOfRange)
    else
      var fidx := Bisect(dates, targ);
      if fidx == 0 then Ok(|dates| - 1) else Ok(fidx - 1)
  }

  /** With ascending week dates and a time not before the first week, the
      chosen week is the latest that starts no later than the time. */
  lemma PickWeekIsLatestStart(dates: seq<int>, targ: int)
    requires Ascending(dates) && dates != [] && dates[0] <= targ
    ensures var k := PickWeek(dates, targ).value;
            dates[k] <= targ && forall i :: k < i < |dates| ==> targ < dates[i]
  {
    BisectSplits(dates, targ);
  }

  /** A time before the first week silently selects the last file. */
  lemma PickWeekWraps(dates: seq<int>, targ: int)
    requires Ascending(dates) && dates != [] && targ < dates[0]
    ensures PickWeek(dates, targ) == Ok(|dates| - 1)
  {
    BisectSplits(dates, targ);
  }

  /** findDataFile: the matching files, sorted, and the one of the week
      holding targ. */
  function FindDataFile(sat: string, dir: seq<string>, targ: int, version: string := DefaultVersion): (r: Result<string>)
    ensures r.Ok? ==> r.value in Sort(Listing(sat, dir, version))
    ensures Listing(sat, dir, version) == [] ==> r == Err(IndexOutOfRange)
  {
    ChooseFile(Sort(Listing(sat, dir, version)), targ)
  }

  /** The rest of findDataFile on the sorted file list: the week string and
      start of every file, and the file of the week holding targ. */
  function ChooseFile(files: seq<string>, targ: int): (r: Result<string>)
    ensures r.Ok? ==> r.value in files
    ensures files == [] ==> r == Err(IndexOutOfRange)
  {
    match WeekStrings(files)
    case Err(e) => Err(e)
    case Ok(wks) =>
      match WeekDates(wks)
      case Err(e) => Err(e)
      case Ok(dates) =>
        match PickWeek(dates, targ)
        case Err(e) => Err(e)
        case Ok(k) => Ok(files[k])
  }

  /** A successful choice is the file whose week start is the latest not after
      the time, when the week starts ascend and the time is not before the
      first of them. */
  lemma ChooseFileChoosesWeek(files: seq<string>, targ: int)
    requires ChooseFile(files, targ).Ok?
    ensures WeekStrings(files).Ok? && WeekDates(WeekStrings(files).value).Ok?
    ensures var dates := WeekDates(WeekStrings(files).value).value;
            PickWeek(dates, targ).Ok? && |dates| == |files| &&
            var k := PickWeek(dates, targ).value;
            ChooseFile(files, targ).value == files[k] &&
            (Ascending(dates) && dates[0] <= targ ==>
               dates[k] <= targ && forall i :: k < i < |dates| ==> targ < dates[i])
  {
    var dates := WeekDates(WeekStrings(files).value).value;
    if Ascending(dates) && dates[0] <= targ {
      PickWeekIsLatestStart(dates, targ);
    }
  }

  // --------------------------------------------------------- nearest sample

  function Dist(a: int, b: int): nat
  {
    if a >= b then a - b else b - a
  }

  /** getPosition's choice between the samples at bisect index - 1 and index:
      the closer one, the earlier on a tie; index - 1 == -1 wraps to the last
      sample, and an index past the end raises. */
  function NearestSample(utc: seq<int>, targ: int): (r: Result<nat>)
    ensures r.Err? <==> Bisect(utc, targ) == |utc|
    ensures r.Err? ==> r.error == IndexOutOfRange
    ensures r.Ok? ==> r.value < |utc|
    ensures r.Ok? && 0 < Bisect(utc, targ) ==> r.value == Bisect(utc, targ) - 1 || r.value == Bisect(utc, targ)
  {
    var idx := Bisect(utc, targ);
    if idx == |utc| then Err(IndexOutOfRange)
    else
      var prev := if idx == 0 then |utc| - 1 else idx - 1;
      if Dist(utc[prev], targ) <= Dist(utc[idx], targ) then Ok(prev) else Ok(idx)
  }

  /** On ascending sample times the chosen sample is as close to targ as any
      other, a tie between the two neighbours goes to the earlier one, and
      the lookup fails exactly when there is no sample after targ. */
  lemma NearestIsClosest(utc: seq<int>, targ: int)
    requires Ascending(utc)
    ensures NearestSample(utc, targ).Err? <==> utc == [] || Last(utc) <= targ
    ensures var r := NearestSample(utc, targ);
            r.Ok? ==> forall j :: 0 <= j < |utc| ==> Dist(utc[r.value], targ) <= Dist(utc[j], targ)
    ensures var r := NearestSample(utc, targ); var idx := Bisect(utc, targ);
            r.Ok? && 0 < idx && Dist(utc[idx - 1], targ) == Dist(utc[idx], targ) ==> r.value == idx - 1
  {
    BisectSplits(utc, targ);
    var idx := Bisect(utc, targ);
    if idx < |utc| {
      var r := NearestSample(utc, targ);
      forall j | 0 <= j < |utc|
        ensures Dist(utc[r.value], targ) <= Dist(utc[j], targ)
      {
        if idx == 0 {
          assert targ < utc[0] <= utc[j] <= utc[|utc| - 1];
        } else if j < idx {
          assert utc[j] <= utc[idx - 1] <= targ;
        } else {
          assert targ < utc[idx] <= utc[j];
        }
      }
    }
  }
}
