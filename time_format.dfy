/**
 * The `MM:SS` time formatter of the player screen (`formatTime`), and a
 * parser for its output that shows the formatter loses nothing but the
 * fraction of a second.
 */
module TimeFormat {
  import opened Wrappers
  import opened SwiftInt

  predicate IsDigit(c: char) {
    '0' <= c <= '9'
  }

  predicate AllDigits(s: string) {
    forall i :: 0 <= i < |s| ==> IsDigit(s[i])
  }

  function DigitChar(d: nat): (c: char)
    requires d < 10
    ensures IsDigit(c)
  {
    ('0' as int + d) as char
  }

  function DigitValue(c: char): nat
    requires IsDigit(c)
  {
    c as int - '0' as int
  }

  /** The decimal digits of `n` with no leading zero, as `%d` prints them. */
  function Decimal(n: nat): (s: string)
    ensures AllDigits(s)
    ensures |s| == 1 <==> n < 10
    ensures n < 100 ==> |s| <= 2
    ensures 1 <= |s|
    ensures 1 <= n ==> s[0] != '0'
  {
    if n < 10 then [DigitChar(n)] else Decimal(n / 10) + [DigitChar(n % 10)]
  }

  /** The number a string of decimal digits denotes. */
  function DecimalValue(s: string): nat
    requires AllDigits(s)
  {
    if s == [] then 0 else DecimalValue(s[..|s| - 1]) * 10 + DigitValue(s[|s| - 1])
  }

  lemma {:induction false} DecimalRoundTrip(n: nat)
    ensures DecimalValue(Decimal(n)) == n
  {
    var s := Decimal(n);
    if n >= 10 {
      assert s[..|s| - 1] == Decimal(n / 10);
      DecimalRoundTrip(n / 10);
    }
  }

  lemma {:induction false} LeadingZero(s: string)
    requires AllDigits(s)
    ensures DecimalValue("0" + s) == DecimalValue(s)
  {
    if s != [] {
      assert ("0" + s)[..|s|] == "0" + s[..|s| - 1];
      LeadingZero(s[..|s| - 1]);
    }
  }

  /** One field of `%02d`: at least two characters, zero-padded, with a minus sign for negatives. */
  function Field(v: int): (s: string)
    ensures v >= 0 ==> 2 <= |s| && AllDigits(s) && DecimalValue(s) == v
    ensures 0 <= v < 100 ==> |s| == 2
    ensures v >= 10 ==> s[0] != '0'
    ensures v < 0 ==> 2 <= |s| && s[0] == '-' && s[1] != '0'
    ensures v < 0 ==> AllDigits(s[1..]) && DecimalValue(s[1..]) == -v
    ensures -100 < v < 0 ==> |s| <= 3
  {
    if v < 0 then
      DecimalRoundTrip(-v);
      assert ("-" + Decimal(-v))[1..] == Decimal(-v);
      "-" + Decimal(-v)
    else if v < 10 then
      DecimalRoundTrip(v);
      LeadingZero(Decimal(v));
      "0" + Decimal(v)
    else
      DecimalRoundTrip(v);
      Decimal(v)
  }

  /** `String(format: "%02d:%02d", n / 60, n % 60)` with Swift's truncating `/` and `%`. */
  function FormatSeconds(n: int): (s: string)
    ensures |s| >= 5
    ensures n >= 0 ==> s[|s| - 3] == ':'
    ensures 0 <= n < 6000 ==> |s| == 5
  {
    Field(Quot(n, 60)) + ":" + Field(Rem(n, 60))
  }

  /** `formatTime`: the time is first truncated to whole seconds with `Int(time)`. */
  function FormatTime(time: real): (s: string)
    ensures time >= 0.0 ==> ParseTime(s) == Some(time.Floor)
    ensures -1.0 < time < 0.0 ==> ParseTime(s) == Some(0)
    ensures time <= -1.0 ==> ParseTime(s) == None
  {
    FormatSecondsRoundTrip(Truncate(time));
    FormatSeconds(Truncate(time))
  }

  /**
   * Reads back a string of the form `M…M:SS`: at least two minute digits, a
   * colon and two second digits below 60. Yields the whole number of seconds.
   */
  function ParseTime(s: string): Option<nat> {
    if |s| >= 5 && s[|s| - 3] == ':' && AllDigits(s[..|s| - 3]) && AllDigits(s[|s| - 2..])
       && DecimalValue(s[|s| - 2..]) < 60
    then Some(DecimalValue(s[..|s| - 3]) * 60 + DecimalValue(s[|s| - 2..]))
    else None
  }

  /** For a non-negative count of seconds the minutes field is `n / 60`, at least two digits, and the seconds field is `n % 60`, exactly two digits. */
  lemma FormatSecondsFields(n: int)
    requires n >= 0
    ensures var s := FormatSeconds(n);
      && |s| >= 5 && s[|s| - 3] == ':'
      && |s[..|s| - 3]| >= 2 && AllDigits(s[..|s| - 3]) && DecimalValue(s[..|s| - 3]) == n / 60
      && |s[|s| - 2..]| == 2 && AllDigits(s[|s| - 2..]) && DecimalValue(s[|s| - 2..]) == n % 60
  {
    QuotRemOfNatural(n, 60);
    var s, m, r := FormatSeconds(n), Field(n / 60), Field(n % 60);
    assert s == m + ":" + r;
    assert s[..|s| - 3] == m;
    assert s[|s| - 2..] == r;
  }

  /** Parsing the formatter's output gives back the seconds exactly, and fails on every negative input. */
  lemma FormatSecondsRoundTrip(n: int)
    ensures ParseTime(FormatSeconds(n)) == if n >= 0 then Some(n) else None
  {
    var s, q, r := FormatSeconds(n), Quot(n, 60), Rem(n, 60);
    var m, t := Field(q), Field(r);
    assert s == m + ":" + t;
    if n >= 0 {
      FormatSecondsFields(n);
      QuotRemOfNatural(n, 60);
    } else if r < 0 {
      if |t| == 2 {
        assert s[|s| - 2] == '-';
        assert !AllDigits(s[|s| - 2..]);
      } else {
        assert s[|s| - 3] == '-';
      }
    } else {
      assert q < 0;
      assert |t| == 2;
      assert s[..|s| - 3] == m;
      assert !IsDigit(m[0]);
    }
  }

  /** Distinct whole-second counts format differently. */
  lemma FormatSecondsInjective(a: nat, b: nat)
    ensures FormatSeconds(a) == FormatSeconds(b) <==> a == b
  {
    FormatSecondsRoundTrip(a);
    FormatSecondsRoundTrip(b);
  }

  /** Two non-negative times format identically exactly when they fall in the same whole second. */
  lemma FormatTimeSameSecond(t: real, u: real)
    requires t >= 0.0 && u >= 0.0
    ensures FormatTime(t) == FormatTime(u) <==> t.Floor == u.Floor
  {
    FormatSecondsInjective(Truncate(t), Truncate(u));
  }

  lemma FormatFieldExamples()
    ensures Field(0) == "00" && Field(1) == "01" && Field(5) == "05" && Field(62) == "62"
  {
    assert Decimal(0) == "0" && Decimal(1) == "1" && Decimal(5) == "5";
    assert Decimal(6) == "6" && Decimal(2) == "2";
    assert Decimal(62) == Decimal(6) + "2";
  }

  lemma FormatSecondsExamples()
    ensures FormatSeconds(0) == "00:00"
    ensures FormatSeconds(65) == "01:05"
    ensures FormatSeconds(3725) == "62:05"
  {
    FormatFieldExamples();
    assert Field(0) + ":" + Field(0) == "00:00";
    assert Field(1) + ":" + Field(5) == "01:05";
    assert Field(62) + ":" + Field(5) == "62:05";
    FormatSecondsExample(0, 0, 0);
    FormatSecondsExample(65, 1, 5);
    FormatSecondsExample(3725, 62, 5);
  }

  lemma FormatTimeExamples()
    ensures FormatTime(0.0) == "00:00"
    ensures FormatTime(65.4) == "01:05"
    ensures FormatTime(3725.0) == "62:05"
  {
    FormatSecondsExamples();
    assert Truncate(0.0) == 0 && Truncate(65.4) == 65 && Truncate(3725.0) == 3725;
  }

  lemma FormatSecondsExample(n: nat, minutes: nat, seconds: nat)
    requires n == minutes * 60 + seconds && seconds < 60
    ensures FormatSeconds(n) == Field(minutes) + ":" + Field(seconds)
  {
    QuotRemOfNatural(n, 60);
  }
}
