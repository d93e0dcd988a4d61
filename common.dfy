/** Shared vocabulary of the flux-mapping model: results with the error kinds the
    Python scripts raise, 3-vectors, sums and decimal digit strings. */
module Common {

  datatype Option<+T> = None | Some(value: T)

  /** The failures the scripts signal by raising (or by Python's own IndexError,
      KeyError, NameError and ValueError), one constructor per cause. */
  datatype Error =
    | FileNotFound(path: string)     // open() / os.path.isfile on a missing file
    | NoPaths                        // fnames[0] on an empty list of map files
    | MalformedTable                 // np.loadtxt / np.vstack shape failures
    | MissingParticleHeader          // a trajectory file not starting with '#'
    | BadParticleId(line: nat)       // int(line.split()[1]) fails on a '#' line
    | DimensionMismatch              // pitch-angle count matches no axis of the flux array
    | NoAccess                       // not_forbidden[0] on an empty index list
    | TooFewTimes                    // fluxdata['times'][1] out of range
    | MissingRun(run: int)           // fluxdata[i] is not a key
    | TooFewFluxValues(run: int)     // str.format runs out of arguments
    | NoWeekString(file: string)     // re.search(...) returned None
    | InvalidDate(week: string)      // datetime(year, mon, day) rejects the date
    | IndexOutOfRange                // list index out of range

  datatype Result<+T> = Ok(value: T) | Err(error: Error)

  /** A Cartesian 3-vector (positions in Earth radii, velocities). */
  datatype Vec = Vec(x: real, y: real, z: real)

  function Last<T>(s: seq<T>): T
    requires |s| > 0
  {
    s[|s| - 1]
  }

  function Sum(s: seq<real>): real
  {
    if s == [] then 0.0 else Sum(s[..|s| - 1]) + Last(s)
  }

  predicate IsDigit(c: char)
  {
    '0' <= c <= '9'
  }

  predicate AllDigits(s: string)
  {
    forall i :: 0 <= i < |s| ==> IsDigit(s[i])
  }

  /** The value of a string of decimal digits, as Python's int() reads it. */
  function DecimalValue(s: string): nat
    requires AllDigits(s)
  {
    if s == [] then 0
    else DecimalValue(s[..|s| - 1]) * 10 + (Last(s) as int - '0' as int)
  }

  function DigitChar(d: nat): (c: char)
    requires d < 10
    ensures IsDigit(c) && c as int - '0' as int == d
  {
    (d + '0' as int) as char
  }

  /** The shortest decimal rendering of n, as str(n) gives it. */
  function Digits(n: nat): (s: string)
    ensures 1 <= |s| && AllDigits(s)
    ensures DecimalValue(s) == n
    ensures |s| > 1 ==> s[0] != '0'
  {
    if n < 10 then [DigitChar(n)]
    else
      var s := Digits(n / 10) + [DigitChar(n % 10)];
      assert s[..|s| - 1] == Digits(n / 10);
      s
  }

  /** Leading zeros do not change the value of a digit string. */
  lemma {:induction false} LeadingZeros(z: nat, s: string)
    requires AllDigits(s)
    ensures AllDigits(Zeros(z) + s)
    ensures DecimalValue(Zeros(z) + s) == DecimalValue(s)
    decreases |s|
  {
    var t := Zeros(z) + s;
    if s == [] {
      ZerosValue(z);
      assert t == Zeros(z);
    } else {
      LeadingZeros(z, s[..|s| - 1]);
      assert t[..|t| - 1] == Zeros(z) + s[..|s| - 1];
    }
  }

  function Zeros(z: nat): (s: string)
    ensures |s| == z && AllDigits(s)
    ensures forall i :: 0 <= i < z ==> s[i] == '0'
  {
    seq(z, _ => '0')
  }

  lemma {:induction false} ZerosValue(z: nat)
    ensures DecimalValue(Zeros(z)) == 0
  {
    if z > 0 {
      assert Zeros(z)[..z - 1] == Zeros(z - 1);
      ZerosValue(z - 1);
    }
  }
}
