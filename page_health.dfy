/** The pace axis of the health page: a pace in seconds per kilometre shown
    as minutes and seconds, "m:ss".  JavaScript's `%` truncates toward zero,
    `Math.round` rounds halves up, and a number added to a string is written
    in decimal. */
module PageHealth {
  import opened Series

  // ---------------------------------------------------------------------
  // JavaScript arithmetic and number text
  // ---------------------------------------------------------------------

  /** `a % 60` on numbers: the remainder of the division truncated toward
      zero, carrying the sign of `a`. */
  function Rem60(a: real): (r: real)
    ensures 0.0 <= a ==> 0.0 <= r < 60.0
    ensures a < 0.0 ==> -60.0 < r <= 0.0
  {
    a - 60.0 * Trunc(a / 60.0) as real
  }

  /** `Math.round`: the nearest integer, halves rounded up. */
  function JsRound(x: real): (n: int)
    ensures n as real - 0.5 <= x < n as real + 0.5
  {
    (x + 0.5).Floor
  }

  /** The decimal digit character of `d`. */
  function Digit(d: int): (c: char)
    requires 0 <= d <= 9
    ensures IsDigit(c) && DigitValue(c) == d
  {
    ('0' as int + d) as char
  }

  predicate IsDigit(c: char) {
    '0' <= c <= '9'
  }

  predicate AllDigits(s: string) {
    forall i :: 0 <= i < |s| ==> IsDigit(s[i])
  }

  /** The decimal text of a natural number, without leading zeros. */
  function NaturalText(n: nat): (s: string)
    ensures |s| >= 1 && AllDigits(s)
    decreases n
  {
    if n < 10 then [Digit(n)] else NaturalText(n / 10) + [Digit(n % 10)]
  }

  /** `String(n)` for an integer. */
  function IntText(n: int): string {
    if n < 0 then "-" + NaturalText(-n) else NaturalText(n)
  }

  function DigitValue(c: char): int {
    c as int - '0' as int
  }

  /** The value of a text of decimal digits. */
  function ParseNatural(s: string): nat
    requires AllDigits(s)
  {
    if |s| == 0 then 0 else ParseNatural(s[..|s| - 1]) * 10 + DigitValue(s[|s| - 1])
  }

  lemma {:induction false} ParseNaturalText(n: nat)
    ensures ParseNatural(NaturalText(n)) == n
    decreases n
  {
    var s := NaturalText(n);
    if n >= 10 {
      assert s[..|s| - 1] == NaturalText(n / 10);
      ParseNaturalText(n / 10);
    }
  }

  // ---------------------------------------------------------------------
  // The pace formatter
  // ---------------------------------------------------------------------

  /** The minutes part `(sec - (sec %= 60)) / 60`: the old value less its
      remainder, divided by 60, a whole number. */
  function Minutes(sec: real): (m: int)
    ensures m as real == (sec - Rem60(sec)) / 60.0
  {
    Trunc(sec / 60.0)
  }

  /** The pace formatter as written: minutes, then ":" when the unrounded
      remainder exceeds 9 and ":0" otherwise, then the rounded remainder. */
  function Pace(sec: real): string {
    var rem := Rem60(sec);
    IntText(Minutes(sec)) + (if 9.0 < rem then ":" else ":0") + IntText(JsRound(rem))
  }

  /** The seconds part of a whole number of seconds, as two digits. */
  function TwoDigits(r: int): (s: string)
    requires 0 <= r < 60
    ensures |s| == 2 && AllDigits(s)
  {
    [Digit(r / 10), Digit(r % 10)]
  }

  /** A whole, non-negative number of seconds shows as its minutes, ":" and
      its seconds as exactly two digits, 0 to 59. */
  lemma PaceOfWholeSeconds(n: nat)
    ensures Pace(n as real) == NaturalText(n / 60) + ":" + TwoDigits(n % 60)
  {
    var sec := n as real;
    var rem := Rem60(sec);
    var q := Trunc(sec / 60.0);
    assert q == n / 60 by {
      assert q as real * 60.0 <= sec < q as real * 60.0 + 60.0 by {
        assert sec == (sec / 60.0) * 60.0;
      }
      assert q * 60 <= n < q * 60 + 60;
    }
    assert rem == (n % 60) as real;
    assert JsRound(rem) == n % 60;
    var r := n % 60;
    if r < 10 {
      assert IntText(r) == [Digit(r)];
      assert TwoDigits(r) == ['0', Digit(r)];
    } else {
      assert IntText(r) == NaturalText(r / 10) + [Digit(r % 10)];
      assert NaturalText(r / 10) == [Digit(r / 10)];
    }
  }

  /** The index of the first ':' in `s`, or -1. */
  function ColonAt(s: string): (i: int)
    ensures -1 <= i < |s|
    ensures i >= 0 ==> s[i] == ':' && forall j :: 0 <= j < i ==> s[j] != ':'
    ensures i < 0 ==> forall j :: 0 <= j < |s| ==> s[j] != ':'
  {
    if |s| == 0 then -1
    else if s[0] == ':' then 0
    else
      var i := ColonAt(s[1..]);
      if i < 0 then -1 else i + 1
  }

  /** Reads "m:ss" back into seconds; anything else is not a pace. */
  function ParsePace(s: string): Option<int> {
    var i := ColonAt(s);
    if i < 0 then None else ParseParts(s[..i], s[i + 1..])
  }

  /** The minutes and seconds texts on either side of the colon: digits, at
      least one for the minutes and exactly two for the seconds. */
  function ParseParts(mm: string, ss: string): Option<int> {
    if |mm| == 0 || !AllDigits(mm) || |ss| != 2 || !AllDigits(ss) then None
    else Some(ParseNatural(mm) * 60 + ParseNatural(ss))
  }

  lemma ColonAfterDigits(a: string, b: string)
    requires AllDigits(a)
    ensures ColonAt(a + ":" + b) == |a|
  {
    var s := a + ":" + b;
    forall j | 0 <= j < |a| ensures s[j] != ':' {
      assert s[j] == a[j];
    }
    assert s[|a|] == ':';
  }

  /** Minutes, ':' and two digits read back as minutes times 60 plus the
      two digits' value. */
  lemma ParsePaceOf(mm: string, ss: string)
    requires |mm| > 0 && AllDigits(mm) && |ss| == 2 && AllDigits(ss)
    ensures ParsePace(mm + ":" + ss) == Some(ParseNatural(mm) * 60 + ParseNatural(ss))
  {
    ColonAfterDigits(mm, ss);
    SplitAtColon(mm, ss);
    assert ParsePace(mm + ":" + ss) == ParseParts(mm, ss);
  }

  lemma SplitAtColon(mm: string, ss: string)
    ensures (mm + ":" + ss)[..|mm|] == mm && (mm + ":" + ss)[|mm| + 1..] == ss
  {
    var s := mm + ":" + ss;
    assert s[..|mm|] == mm;
    assert s[|mm| + 1..] == ss;
  }

  /** For a whole, non-negative number of seconds the text reads back to the
      same number: minutes times 60 plus the seconds part. */
  lemma PaceRoundTrip(n: nat)
    ensures ParsePace(Pace(n as real)) == Some(n)
  {
    PaceOfWholeSeconds(n);
    ReadsBack(n / 60, n % 60);
  }

  /** Minutes `m` and two-digit seconds `r` read back to `m * 60 + r`. */
  lemma ReadsBack(m: nat, r: int)
    requires 0 <= r < 60
    ensures ParsePace(NaturalText(m) + ":" + TwoDigits(r)) == Some(m * 60 + r)
  {
    ParsePaceOf(NaturalText(m), TwoDigits(r));
    ParseNaturalText(m);
    TwoDigitsValue(r);
  }

  lemma TwoDigitsValue(r: int)
    requires 0 <= r < 60
    ensures ParseNatural(TwoDigits(r)) == r
  {
    var ss := TwoDigits(r);
    assert ss[..1] == [Digit(r / 10)];
    assert ss[..1][..0] == [];
    assert ParseNatural(ss[..1]) == r / 10;
    assert ParseNatural(ss) == (r / 10) * 10 + r % 10;
  }

  // ---------------------------------------------------------------------
  // Fractional paces
  // ---------------------------------------------------------------------

  /** A remainder that rounds up to 60 is shown as 60 seconds. */
  lemma PaceShowsSixtySeconds()
    ensures Pace(359.6) == "5:60"
  {
    assert Trunc(359.6 / 60.0) == 5;
    assert Rem60(359.6) == 59.6;
    assert JsRound(59.6) == 60;
    assert IntText(60) == "60" by {
      assert NaturalText(6) == "6";
    }
  }

  /** A remainder just above 9 that rounds down loses its leading zero. */
  lemma PaceDropsLeadingZero()
    ensures Pace(309.4) == "5:9"
  {
    assert Trunc(309.4 / 60.0) == 5;
    assert Rem60(309.4) == 9.4;
    assert JsRound(9.4) == 9;
  }

  /** The evidently intended formatter: round the pace to whole seconds
      first, then split it into minutes and seconds. */
  function PaceRounded(sec: real): string {
    Pace(JsRound(sec) as real)
  }

  /** Rounded first, any non-negative pace shows two-digit seconds below 60
      and reads back to the rounded number of seconds. */
  lemma PaceRoundedSpec(sec: real)
    requires sec >= 0.0
    ensures var n := JsRound(sec);
      && n >= 0
      && PaceRounded(sec) == NaturalText(n / 60) + ":" + TwoDigits(n % 60)
      && ParsePace(PaceRounded(sec)) == Some(n)
  {
    var n := JsRound(sec);
    PaceOfWholeSeconds(n);
    PaceRoundTrip(n);
  }
}
