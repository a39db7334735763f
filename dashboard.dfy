/** The dashboard script's pure part: the elapsed-time column (`elapsed`) and the
    progress bar chosen for each process's phase (inside `setProcesses`). JavaScript
    numbers are modelled as integers; times are in milliseconds. */
module Dashboard {
  import opened Wrappers
  import opened Types

  // ---------------------------------------------------------------------------
  // JavaScript arithmetic and strings

  /** The quotient JavaScript's `%` goes with: `a / b` rounded toward zero. */
  function TruncDiv(a: int, b: int): int
    requires b > 0
  {
    if a >= 0 then a / b else -((-a) / b)
  }

  /** JavaScript's `%`, which truncates toward zero: the remainder takes the sign of
      the dividend (`JsRemTruncates`). */
  function JsRem(a: int, b: int): (r: int)
    requires b > 0
    ensures a >= 0 ==> r == a % b && 0 <= r < b
    ensures a < 0 ==> -b < r <= 0
  {
    if a >= 0 then a % b else -((-a) % b)
  }

  /** The dividend is the truncated quotient times the divisor plus the remainder. */
  lemma JsRemTruncates(a: int, b: int)
    requires b > 0
    ensures a == TruncDiv(a, b) * b + JsRem(a, b)
    ensures JsRem(-a, b) == -JsRem(a, b)
  {
    if a < 0 {
      var q := (-a) / b;
      assert -a == q * b + (-a) % b;
      assert -q * b == -(q * b);
    }
  }

  /** `Math.floor(a / b)` for a positive divisor: Dafny's `/` already rounds down then. */
  function FloorDiv(a: int, b: int): (q: int)
    requires b > 0
    ensures q * b <= a < q * b + b
  {
    a / b
  }

  predicate IsDigits(s: string)
  {
    forall i :: 0 <= i < |s| ==> '0' <= s[i] <= '9'
  }

  /** The number a string of decimal digits denotes. */
  function DigitsValue(s: string): nat
    requires IsDigits(s)
  {
    if s == [] then 0 else DigitsValue(s[..|s| - 1]) * 10 + (s[|s| - 1] as int - '0' as int)
  }

  function Digit(d: int): char
    requires 0 <= d < 10
  {
    "0123456789"[d]
  }

  /** `String(n)` for a natural number: its shortest decimal form. */
  function NatToString(n: nat): (s: string)
    ensures |s| >= 1 && IsDigits(s)
    ensures DigitsValue(s) == n
    ensures n >= 10 ==> s[0] != '0'
  {
    if n < 10 then [Digit(n)]
    else
      var s := NatToString(n / 10) + [Digit(n % 10)];
      assert s[..|s| - 1] == NatToString(n / 10);
      s
  }

  /** `String(n)` for any integer. */
  function IntToString(n: int): (s: string)
    ensures n >= 0 ==> |s| >= 1 && IsDigits(s) && DigitsValue(s) == n && (n >= 10 ==> s[0] != '0')
    ensures n < 0 ==> |s| > 1 && s[0] == '-' && IsDigits(s[1..]) && DigitsValue(s[1..]) == -n
  {
    if n >= 0 then NatToString(n) else "-" + NatToString(-n)
  }

  /** `s.padStart(2, '0')`: zeros are added in front up to length 2; a longer string
      is left as it is. */
  function PadStart2(s: string): (r: string)
    ensures |r| == if |s| >= 2 then |s| else 2
    ensures r[|r| - |s|..] == s
    ensures forall i :: 0 <= i < |r| - |s| ==> r[i] == '0'
  {
    if |s| >= 2 then s else if |s| == 1 then "0" + s else "00"
  }

  /** `xs.indexOf(x)`: the first position of `x`, or -1. */
  function IndexOf<T(==)>(xs: seq<T>, x: T): (i: int)
    ensures i == -1 <==> x !in xs
    ensures i != -1 ==> 0 <= i < |xs| && xs[i] == x
    ensures forall k :: 0 <= k < i ==> xs[k] != x
  {
    if xs == [] then -1
    else if xs[0] == x then 0
    else
      var j := IndexOf(xs[1..], x);
      if j == -1 then -1 else j + 1
  }

  /** `s.split(sep)` */
  function Split(s: string, sep: char): (fs: seq<string>)
    ensures |fs| >= 1
    decreases |s|
  {
    var i := IndexOf(s, sep);
    if i == -1 then [s] else [s[..i]] + Split(s[i + 1..], sep)
  }

  // ---------------------------------------------------------------------------
  // `elapsed`

  datatype Hms = Hms(hours: int, minutes: int, seconds: int)

  /** The three numbers `elapsed` prints for an elapsed time in milliseconds. */
  function Clock(ms: int): Hms
  {
    var seconds := FloorDiv(ms, 1000);
    Hms(FloorDiv(seconds, 3600), FloorDiv(JsRem(seconds, 3600), 60), JsRem(seconds, 60))
  }

  /** One zero-padded field. */
  function Field(n: int): string
  {
    PadStart2(IntToString(n))
  }

  /** `elapsed(timeString, now)`, with the start and the current instant in milliseconds. */
  function Elapsed(start: int, now: int): string
  {
    var c := Clock(now - start);
    Field(c.hours) + ":" + Field(c.minutes) + ":" + Field(c.seconds)
  }

  /** Reading an `HH:MM:SS` column back: three `:`-separated fields of digits. */
  function ParseClock(s: string): Option<Hms>
  {
    var fs := Split(s, ':');
    if |fs| == 3 && IsDigits(fs[0]) && IsDigits(fs[1]) && IsDigits(fs[2])
    then Some(Hms(DigitsValue(fs[0]), DigitsValue(fs[1]), DigitsValue(fs[2])))
    else None
  }

  /** Multiples of `n` other than 0 are at least `n` away from 0. */
  lemma MulAtLeast(d: int, n: int)
    requires n > 0
    ensures d >= 1 ==> d * n >= n
    ensures d <= -1 ==> d * n <= -n
  {
  }

  /** Quotient and remainder are the only decomposition with the remainder in range. */
  lemma DivUnique(x: int, n: int, q: int, r: int)
    requires n > 0 && 0 <= r < n && x == q * n + r
    ensures x / n == q && x % n == r
  {
    var q', r' := x / n, x % n;
    assert (q - q') * n == r' - r;
    MulAtLeast(q - q', n);
  }

  /** For a non-negative elapsed time the three numbers are hours, minutes and
      seconds of the whole seconds elapsed: minutes and seconds stay below 60 and
      the hours carry the rest, unbounded. */
  lemma ClockDecomposes(ms: int)
    requires ms >= 0
    ensures var c := Clock(ms);
      c.hours * 3600 + c.minutes * 60 + c.seconds == ms / 1000
      && 0 <= c.minutes < 60 && 0 <= c.seconds < 60 && c.hours >= 0
  {
    var es := ms / 1000;
    var q, r := es / 3600, es % 3600;
    var m, sec := r / 60, r % 60;
    assert es == (q * 60 + m) * 60 + sec;
    DivUnique(es, 60, q * 60 + m, sec);
  }

  /** The clock is the only decomposition with minutes and seconds below 60: a column
      that reads `h:m:s` names exactly `h*3600 + m*60 + s` elapsed seconds. */
  lemma ClockIsUnique(ms: int, h: int, m: int, s: int)
    requires ms >= 0 && 0 <= m < 60 && 0 <= s < 60
    requires h * 3600 + m * 60 + s == ms / 1000
    ensures Clock(ms) == Hms(h, m, s)
  {
    ClockDecomposes(ms);
    var c := Clock(ms);
    DivUnique(ms / 1000, 3600, h, m * 60 + s);
    DivUnique(ms / 1000, 3600, c.hours, c.minutes * 60 + c.seconds);
    DivUnique(m * 60 + s, 60, m, s);
    DivUnique(m * 60 + s, 60, c.minutes, c.seconds);
  }

  /** Zeros in front do not change a number. */
  lemma {:induction false} LeadingZero(s: string)
    requires IsDigits(s)
    ensures IsDigits("0" + s) && DigitsValue("0" + s) == DigitsValue(s)
  {
    if s != [] {
      var t := "0" + s;
      assert t[..|t| - 1] == "0" + s[..|s| - 1];
      LeadingZero(s[..|s| - 1]);
    }
  }

  /** A field's digits denote its number. */
  lemma FieldValue(n: int)
    requires n >= 0
    ensures IsDigits(Field(n)) && |Field(n)| >= 2 && DigitsValue(Field(n)) == n && ':' !in Field(n)
  {
    var s := NatToString(n);
    if |s| == 1 {
      LeadingZero(s);
    }
  }

  lemma SplitLast(a: string, sep: char)
    requires sep !in a
    ensures Split(a, sep) == [a]
  {
  }

  lemma SplitFirst(a: string, rest: string, sep: char)
    requires sep !in a
    ensures Split(a + [sep] + rest, sep) == [a] + Split(rest, sep)
  {
    var s := a + [sep] + rest;
    assert s[|a|] == sep;
    assert forall k :: 0 <= k < |a| ==> s[k] == a[k];
    var i := IndexOf(s, sep);
    assert i == |a|;
    assert s[..i] == a;
    assert s[i + 1..] == rest;
  }

  /** Three fields without the separator split back apart. */
  lemma SplitThree(a: string, b: string, c: string)
    requires ':' !in a && ':' !in b && ':' !in c
    ensures Split(a + ":" + b + ":" + c, ':') == [a, b, c]
  {
    var rest := b + [':'] + c;
    assert a + ":" + b + ":" + c == a + [':'] + rest;
    SplitLast(c, ':');
    SplitFirst(b, c, ':');
    assert Split(rest, ':') == [b, c];
    SplitFirst(a, rest, ':');
  }

  /** Three non-negative numbers printed as fields read back as themselves. */
  lemma FieldsReadBack(h: int, m: int, sec: int)
    requires h >= 0 && m >= 0 && sec >= 0
    ensures Split(Field(h) + ":" + Field(m) + ":" + Field(sec), ':') == [Field(h), Field(m), Field(sec)]
    ensures ParseClock(Field(h) + ":" + Field(m) + ":" + Field(sec)) == Some(Hms(h, m, sec))
  {
    FieldValue(h);
    FieldValue(m);
    FieldValue(sec);
    var a, b, d := Field(h), Field(m), Field(sec);
    SplitThree(a, b, d);
    var fs := Split(a + ":" + b + ":" + d, ':');
    assert fs == [a, b, d];
    assert fs[0] == a && fs[1] == b && fs[2] == d;
  }

  /** For a non-negative elapsed time the column is three `:`-separated fields of at
      least two digits each, and they read back as the clock. */
  lemma ElapsedReadsBack(start: int, now: int)
    requires now >= start
    ensures var fs := Split(Elapsed(start, now), ':');
      |fs| == 3 && |fs[0]| >= 2 && |fs[1]| >= 2 && |fs[2]| >= 2
      && IsDigits(fs[0]) && IsDigits(fs[1]) && IsDigits(fs[2])
    ensures ParseClock(Elapsed(start, now)) == Some(Clock(now - start))
  {
    var c := Clock(now - start);
    ClockDecomposes(now - start);
    FieldsReadBack(c.hours, c.minutes, c.seconds);
    FieldValue(c.hours);
    FieldValue(c.minutes);
    FieldValue(c.seconds);
  }

  /** A start in the future (a clock behind the server's) shows negative numbers:
      one millisecond too early reads `-1:-1:-1`. */
  lemma ElapsedBeforeStart()
    ensures Elapsed(1, 0) == "-1:-1:-1"
  {
    assert FloorDiv(-1, 1000) == -1 && FloorDiv(-1, 3600) == -1 && FloorDiv(-1, 60) == -1;
    assert JsRem(-1, 3600) == -1 && JsRem(-1, 60) == -1;
    assert Clock(-1) == Hms(-1, -1, -1);
    assert NatToString(1) == "1";
    assert Field(-1) == "-1";
  }

  // ---------------------------------------------------------------------------
  // Progress bars

  /** `colorMap`: each phase to its position in the phase list (the position of the
      colour in the page's gradient); a repeated phase keeps its last position. */
  function ColorMap(phases: seq<string>): (m: map<string, int>)
    ensures forall x :: x in m <==> x in phases
    ensures forall x :: x in m ==> 0 <= m[x] < |phases| && phases[m[x]] == x
    ensures forall x, k :: x in m && m[x] < k < |phases| ==> phases[k] != x
  {
    if phases == [] then map[]
    else
      var init := phases[..|phases| - 1];
      assert phases == init + [phases[|phases| - 1]];
      ColorMap(init)[phases[|phases| - 1] := |phases| - 1]
  }

  predicate Distinct<T(==)>(xs: seq<T>)
  {
    forall i, j :: 0 <= i < j < |xs| ==> xs[i] != xs[j]
  }

  /** In a list without repeats a phase's position is found by both lookups. */
  lemma PositionOfDistinct(xs: seq<string>, i: int)
    requires Distinct(xs) && 0 <= i < |xs|
    ensures IndexOf(xs, xs[i]) == i
    ensures xs[i] in ColorMap(xs) && ColorMap(xs)[xs[i]] == i
  {
  }

  /** The bar drawn for a process: width in percent, CSS class, and the position of
      its colour in the page's gradient. */
  datatype Bar = Bar(width: int, cls: string, color: int)

  const PLAIN := "progress-bar"
  const PENDING := "progress-bar progress-bar-striped progress-bar-animated"

  /** The choice in `setProcesses`: a build phase at position `i` fills
      `floor((i + 1) / 12 * 100)` percent in its own colour; any other phase gets a
      full, animated bar in the first colour. The fractions `(i + 1) / 12` that are
      whole percentages (quarters) are exact in floating point and the others are at
      least a third of a percent from a whole one, so integer division gives the same
      width as the script. */
  function Progress(phase: string): Bar
  {
    ProgressAmong(BUILD_PHASES, phase)
  }

  /** The same choice against any list of phases. */
  function ProgressAmong(phases: seq<string>, phase: string): Bar
  {
    var index := IndexOf(phases, phase);
    if index >= 0 then Bar(Width(index, |phases|), PLAIN, ColorMap(phases)[phase])
    else Bar(100, PENDING, 0)
  }

  /** `Math.floor((index + 1) / n * 100)` */
  function Width(index: int, n: int): int
    requires n > 0
  {
    (index + 1) * 100 / n
  }

  /** Against a list without repeats, the `i`-th phase fills `(i + 1) / n` of the bar
      in the `i`-th colour. */
  lemma ProgressAmongDistinct(phases: seq<string>, i: int)
    requires Distinct(phases) && 0 <= i < |phases|
    ensures ProgressAmong(phases, phases[i]) == Bar(Width(i, |phases|), PLAIN, i)
  {
    PositionOfDistinct(phases, i);
  }

  /** A phase not listed gets the animated bar. */
  lemma ProgressAmongMissing(phases: seq<string>, phase: string)
    requires phase !in phases
    ensures ProgressAmong(phases, phase) == Bar(100, PENDING, 0)
  {
  }

  lemma BuildPhasesDistinct()
    ensures Distinct(BUILD_PHASES) && |BUILD_PHASES| == 12
  {
    BuildPhasesAreNotFinal("");
  }

  /** The `i`-th build phase fills `(i + 1) * 100 / 12` percent in the `i`-th colour. */
  lemma ProgressOfBuildPhase(i: int)
    requires 0 <= i < |BUILD_PHASES|
    ensures Progress(BUILD_PHASES[i]) == Bar((i + 1) * 100 / 12, PLAIN, i)
  {
    BuildPhasesDistinct();
    ProgressAmongDistinct(BUILD_PHASES, i);
    assert Width(i, 12) == (i + 1) * 100 / 12;
  }

  /** Later phases draw strictly wider bars, all within (0, 100]; the last build
      phase, "postinst", fills the bar. */
  lemma ProgressGrows(i: int, j: int)
    requires 0 <= i < j < |BUILD_PHASES|
    ensures 0 < Progress(BUILD_PHASES[i]).width < Progress(BUILD_PHASES[j]).width <= 100
    ensures Progress("postinst") == Bar(100, PLAIN, 11)
  {
    ProgressOfBuildPhase(i);
    ProgressOfBuildPhase(j);
    ProgressOfBuildPhase(11);
    assert (i + 1) * 100 / 12 < (j + 1) * 100 / 12 by {
      assert (j + 1) * 100 >= (i + 1) * 100 + 100;
    }
  }

  /** A phase outside the build phases, which includes every final phase, gets the
      full animated bar in the first colour. */
  lemma ProgressOfOtherPhase(phase: string)
    ensures !IsBuildPhase(phase) <==> Progress(phase) == Bar(100, PENDING, 0)
    ensures IsFinalPhase(phase) ==> Progress(phase) == Bar(100, PENDING, 0)
  {
    BuildPhasesAreNotFinal(phase);
    BuildPhasesDistinct();
    if !IsBuildPhase(phase) {
      ProgressAmongMissing(BUILD_PHASES, phase);
    } else {
      var i := IndexOf(BUILD_PHASES, phase);
      ProgressOfBuildPhase(i);
    }
  }
}
