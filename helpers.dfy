/**
 * utils/helpers.py: the two input-shape validators, the mm:ss formatter, the
 * text progress bar and the reminder sweep's time window.
 */
module Helpers {
  import opened Strings

  /** One position of the validators' regular expressions: \d or a literal character. */
  datatype Atom = Digit | Lit(c: char)

  predicate AtomMatches(a: Atom, c: char)
  {
    match a
    case Digit => IsDigit(c)
    case Lit(l) => c == l
  }

  /**
   * re.match('^' + p + '$', s) for a pattern made of single-character atoms:
   * each atom consumes one character, and Python's '$' matches at the end of
   * the string or just before a newline that ends it.
   */
  predicate MatchAnchored(p: seq<Atom>, s: string)
  {
    if p == [] then s == "" || s == "\n"
    else s != "" && AtomMatches(p[0], s[0]) && MatchAnchored(p[1..], s[1..])
  }

  /** What an anchored match accepts: one matching character per atom, then at most a final newline. */
  lemma {:induction false} MatchAnchoredShape(p: seq<Atom>, s: string)
    ensures MatchAnchored(p, s) <==>
      (|s| == |p| || (|s| == |p| + 1 && s[|p|] == '\n')) &&
      forall i :: 0 <= i < |p| ==> AtomMatches(p[i], s[i])
  {
    if p != [] && s != [] {
      MatchAnchoredShape(p[1..], s[1..]);
      if |s| >= |p| {
        if AtomMatches(p[0], s[0]) && (forall i :: 0 <= i < |p| - 1 ==> AtomMatches(p[1..][i], s[1..][i])) {
          forall i | 0 <= i < |p|
            ensures AtomMatches(p[i], s[i])
          {
            if i > 0 {
              assert p[i] == p[1..][i - 1] && s[i] == s[1..][i - 1];
            }
          }
        }
        if forall i :: 0 <= i < |p| ==> AtomMatches(p[i], s[i]) {
          forall i | 0 <= i < |p| - 1
            ensures AtomMatches(p[1..][i], s[1..][i])
          {
            assert p[1..][i] == p[i + 1] && s[1..][i] == s[i + 1];
          }
        }
      }
    }
  }

  const TimePattern: seq<Atom> := [Digit, Digit, Lit(':'), Digit, Digit]

  const DatePattern: seq<Atom> :=
    [Digit, Digit, Digit, Digit, Lit('-'), Digit, Digit, Lit('-'), Digit, Digit]

  /** validate_time_format: the pattern ^\d{2}:\d{2}$. */
  function ValidTimeFormat(s: string): (r: bool)
    ensures r <==>
      (|s| == 5 || (|s| == 6 && s[5] == '\n')) &&
      IsDigit(s[0]) && IsDigit(s[1]) && s[2] == ':' && IsDigit(s[3]) && IsDigit(s[4])
  {
    MatchAnchoredShape(TimePattern, s);
    assert |s| >= 5 ==>
      ((forall i :: 0 <= i < 5 ==> AtomMatches(TimePattern[i], s[i])) <==>
       IsDigit(s[0]) && IsDigit(s[1]) && s[2] == ':' && IsDigit(s[3]) && IsDigit(s[4]));
    MatchAnchored(TimePattern, s)
  }

  /** validate_date_format: the pattern ^\d{4}-\d{2}-\d{2}$; no calendar check. */
  function ValidDateFormat(s: string): (r: bool)
    ensures r <==>
      (|s| == 10 || (|s| == 11 && s[10] == '\n')) &&
      IsDigit(s[0]) && IsDigit(s[1]) && IsDigit(s[2]) && IsDigit(s[3]) && s[4] == '-' &&
      IsDigit(s[5]) && IsDigit(s[6]) && s[7] == '-' && IsDigit(s[8]) && IsDigit(s[9])
  {
    MatchAnchoredShape(DatePattern, s);
    assert |s| >= 10 ==>
      ((forall i :: 0 <= i < 10 ==> AtomMatches(DatePattern[i], s[i])) <==>
       IsDigit(s[0]) && IsDigit(s[1]) && IsDigit(s[2]) && IsDigit(s[3]) && s[4] == '-' &&
       IsDigit(s[5]) && IsDigit(s[6]) && s[7] == '-' && IsDigit(s[8]) && IsDigit(s[9]));
    MatchAnchored(DatePattern, s)
  }

  /**
   * The text of a clock reading for a total number of seconds: a minutes
   * field of at least two digits, a colon, and a two-digit seconds field
   * below 60, which recompose the total.
   */
  predicate ClockText(r: string, total: int)
  {
    |r| >= 5 &&
    var k := |r| - 3;
    r[k] == ':' && AllDigits(r[..k]) && AllDigits(r[k + 1..]) &&
    DigitsValue(r[k + 1..]) < 60 &&
    DigitsValue(r[..k]) * 60 + DigitsValue(r[k + 1..]) == total
  }

  /**
   * format_remaining_time: "{m:02d}:{s:02d}" with m = seconds // 60 and
   * s = seconds % 60 (Python's floor division agrees with Dafny's for the
   * positive divisor 60).  For a non-negative count the text reads back as
   * minutes and seconds that recompose the count.
   */
  function FormatRemainingTime(seconds: int): (r: string)
    ensures seconds >= 0 ==> ClockText(r, seconds)
  {
    var mm := Pad2(seconds / 60);
    var ss := Pad2(seconds % 60);
    if seconds >= 0 then
      DivMod60(seconds);
      ColonJoin(mm, ss, seconds / 60, seconds % 60, seconds);
      mm + ":" + ss
    else mm + ":" + ss
  }

  /** Two digit fields around a colon, the second of width two, form the clock text of their total. */
  lemma ColonJoin(mm: string, ss: string, a: nat, b: nat, total: int)
    requires |mm| >= 2 && |ss| == 2 && AllDigits(mm) && AllDigits(ss)
    requires DigitsValue(mm) == a && DigitsValue(ss) == b && b < 60 && a * 60 + b == total
    ensures ClockText(mm + ":" + ss, total)
  {
    var r := mm + ":" + ss;
    assert r[..|mm|] == mm && r[|mm| + 1..] == ss;
  }

  lemma DivMod60(n: int)
    ensures (n / 60) * 60 + n % 60 == n && 0 <= n % 60 < 60
  {
  }

  /** int(x) for a number: truncation toward zero. */
  function Trunc(x: real): (n: int)
    ensures x >= 0.0 ==> n as real <= x < n as real + 1.0
    ensures x < 0.0 ==> n as real - 1.0 < x <= n as real
  {
    if x >= 0.0 then x.Floor else -((-x).Floor)
  }

  lemma ScaleWithin(a: real, p: real)
    requires a >= 0.0 && 0.0 <= p <= 1.0
    ensures 0.0 <= a * p <= a
  {
    assert a * p <= a * 1.0;
  }

  /** Truncating a value in [0, b] gives a whole number in [0, b]. */
  lemma TruncWithin(x: real, b: int)
    requires 0.0 <= x <= b as real
    ensures 0 <= Trunc(x) <= b
  {
  }

  /** For a progress in [0, 1], int(bars * progress) is a count of cells between 0 and bars. */
  lemma CellsWithin(progress: real, bars: int)
    requires 0.0 <= progress <= 1.0 && bars >= 0
    ensures var x := bars as real * progress;
      0 <= Trunc(x) <= bars && Trunc(x) as real <= x < Trunc(x) as real + 1.0
  {
    ScaleWithin(bars as real, progress);
    TruncWithin(bars as real * progress, bars);
  }

  /** The number of filled cells: int(bars * progress). */
  function FilledCells(progress: real, bars: int): (filled: int)
    ensures 0.0 <= progress <= 1.0 && bars >= 0 ==>
      var x := bars as real * progress;
      0 <= filled <= bars && filled as real <= x < filled as real + 1.0
  {
    if 0.0 <= progress <= 1.0 && bars >= 0 then
      CellsWithin(progress, bars);
      Trunc(bars as real * progress)
    else Trunc(bars as real * progress)
  }

  /** More progress never fills fewer cells. */
  lemma FilledGrows(p1: real, p2: real, bars: int)
    requires 0.0 <= p1 <= p2 <= 1.0 && bars >= 0
    ensures FilledCells(p1, bars) <= FilledCells(p2, bars)
  {
    ScaleWithin(bars as real, p2 - p1);
    assert bars as real * p2 - bars as real * p1 == bars as real * (p2 - p1);
  }

  /**
   * create_progress_bar: filled cells then empty cells.  For a progress in
   * [0, 1] the bar is exactly `bars` long, filled cells first.  Outside that
   * range a negative count repeats to nothing, as in Python.
   */
  function CreateProgressBar(progress: real, bars: int := 10): (r: string)
    ensures var f := FilledCells(progress, bars);
      |r| == (if f > 0 then f else 0) + (if bars - f > 0 then bars - f else 0) &&
      (0.0 <= progress <= 1.0 && bars >= 0 ==>
        |r| == bars &&
        (forall i :: 0 <= i < f ==> r[i] == '█') &&
        (forall i :: f <= i < bars ==> r[i] == '░'))
  {
    var filled := FilledCells(progress, bars);
    var empty := bars - filled;
    var r := Repeat('█', filled) + Repeat('░', empty);
    assert forall i :: 0 <= filled <= i < |r| ==> r[i] == Repeat('░', empty)[i - filled];
    r
  }

  /**
   * get_utc_timestamps on a clock reading in microseconds: the end of the
   * window is that instant truncated to the second, and the start is exactly
   * sixty seconds before it, truncated the same way.
   */
  function GetUtcTimestamps(nowMicros: int): (window: (int, int))
    ensures window.1 * 1000000 <= nowMicros < (window.1 + 1) * 1000000
    ensures window.0 == window.1 - 60
  {
    ((nowMicros - 60000000) / 1000000, nowMicros / 1000000)
  }
}
