/** formatTime of src/app/page.tsx: a number of seconds shown as minutes, a colon and
    the seconds of the minute padded to two places. Math.floor is FloorQuotient and `%`
    is JavaScript's truncating remainder, so a negative input renders as the source
    renders it (FormatTimeOfNegative). */
module Page {
  import opened Common
  import opened Text

  /** `${mins}:${secs.toString().padStart(2, '0')}` with mins = Math.floor(seconds / 60)
      and secs = seconds % 60. */
  function FormatTime(seconds: int): (t: string)
    ensures |t| >= 3
  {
    var mins := FloorQuotient(seconds, 60);
    var secs := JsRem(seconds, 60);
    IntToString(mins) + ":" + PadStart(IntToString(secs), 2, '0')
  }

  /** A single digit is padded with one leading zero, which does not change its value. */
  lemma PadOneDigit(s: string)
    requires |s| == 1 && AllDigits(s)
    ensures var d := PadStart(s, 2, '0');
            && |d| == 2 && AllDigits(d) && ParseNat(d) == ParseNat(s)
  {
    assert PadStart(s, 2, '0') == "0" + s;
    ParseNatLeadingZero(s);
  }

  /** Two digits for a number below 60, with a leading zero below 10. */
  lemma PadTwoDigits(n: nat)
    requires n < 60
    ensures var d := PadStart(NatToString(n), 2, '0');
            && |d| == 2 && AllDigits(d) && ParseNat(d) == n
  {
    var s := NatToString(n);
    NatToStringShape(n);
    ParseNatToString(n);
    if n < 10 {
      PadOneDigit(s);
    } else {
      NatToStringShape(n / 10);
      assert |s| == 2;
    }
  }

  /** Reads a text of the form "{mins}:{ss}" back: 60 times the digits before the
      colon plus the two digits after it. */
  function ReadTime(t: string): int {
    if |t| < 3 then 0 else 60 * ParseNat(t[..|t| - 3]) + ParseNat(t[|t| - 2..])
  }

  /** For a non-negative input the minutes and the seconds are the quotient and the
      remainder by 60, both written without a sign. */
  lemma FormatTimeOfNat(seconds: int)
    requires seconds >= 0
    ensures FormatTime(seconds) == NatToString(seconds / 60) + ":" + PadStart(NatToString(seconds % 60), 2, '0')
  {
  }

  /** The parts of "{a}:{d}" for a two-character d: the colon sits three from the end. */
  lemma ColonParts(a: string, d: string)
    requires |d| == 2
    ensures var t := a + ":" + d;
            && |t| == |a| + 3 && t[|a|] == ':' && t[..|a|] == a && t[|a| + 1..] == d
  {
    var t := a + ":" + d;
    assert t[..|a|] == a;
    assert t[|a| + 1..] == d;
  }

  /** "{a}:{d}" reads back as 60 a + d. */
  lemma ColonRead(a: string, d: string)
    requires |d| == 2
    ensures ReadTime(a + ":" + d) == 60 * ParseNat(a) + ParseNat(d)
  {
    ColonParts(a, d);
  }

  /** The shape of formatTime's text for a non-negative input: the minutes in digits
      without a leading zero, a colon, and two digits for a value below 60. */
  predicate TimeText(t: string) {
    && |t| >= 4 && t[|t| - 3] == ':'
    && AllDigits(t[..|t| - 3]) && AllDigits(t[|t| - 2..])
    && (t[0] != '0' || |t| == 4)
    && ParseNat(t[|t| - 2..]) < 60
  }

  /** "{a}:{d}" has that shape for digits a without a leading zero and two digits d
      below 60. */
  lemma ColonShape(a: string, d: string)
    requires |a| >= 1 && AllDigits(a) && (a[0] != '0' || |a| == 1)
    requires |d| == 2 && AllDigits(d) && ParseNat(d) < 60
    ensures TimeText(a + ":" + d)
  {
    var t := a + ":" + d;
    assert t[..|a|] == a;
    assert t[|a| + 1..] == d;
  }

  /** For a non-negative input the text has the shape TimeText describes. */
  lemma FormatTimeShape(seconds: int)
    requires seconds >= 0
    ensures TimeText(FormatTime(seconds))
  {
    var mins, secs := seconds / 60, seconds % 60;
    FormatTimeOfNat(seconds);
    MinutesAndSecondsShape(mins, secs);
  }

  lemma MinutesAndSecondsShape(mins: nat, secs: nat)
    requires secs < 60
    ensures TimeText(NatToString(mins) + ":" + PadStart(NatToString(secs), 2, '0'))
  {
    PadTwoDigits(secs);
    NatToStringShape(mins);
    ColonShape(NatToString(mins), PadStart(NatToString(secs), 2, '0'));
  }

  /** Reading the text of a non-negative input back gives the input. */
  lemma FormatTimeReadBack(seconds: int)
    requires seconds >= 0
    ensures ReadTime(FormatTime(seconds)) == seconds
  {
    var mins, secs := seconds / 60, seconds % 60;
    FormatTimeOfNat(seconds);
    MinutesAndSecondsRead(mins, secs);
  }

  lemma MinutesAndSecondsRead(mins: nat, secs: nat)
    requires secs < 60
    ensures ReadTime(NatToString(mins) + ":" + PadStart(NatToString(secs), 2, '0')) == 60 * mins + secs
  {
    PadTwoDigits(secs);
    ParseNatToString(mins);
    ColonRead(NatToString(mins), PadStart(NatToString(secs), 2, '0'));
  }

  /** Distinct non-negative inputs give distinct texts. */
  lemma FormatTimeInjective(s1: int, s2: int)
    requires s1 >= 0 && s2 >= 0 && FormatTime(s1) == FormatTime(s2)
    ensures s1 == s2
  {
    FormatTimeReadBack(s1);
    FormatTimeReadBack(s2);
  }

  /** Under a minute the text starts with "0:". */
  lemma FormatTimeUnderMinute(seconds: int)
    requires 0 <= seconds < 60
    ensures FormatTime(seconds)[..2] == "0:"
  {
    assert FloorQuotient(seconds, 60) == 0;
    assert IntToString(0) == "0";
    var d := PadStart(IntToString(JsRem(seconds, 60)), 2, '0');
    var t := FormatTime(seconds);
    assert t == "0" + ":" + d;
    assert t[..2] == "0" + ":";
  }

  /** A negative input: Math.floor rounds down and `%` keeps the sign, so -5 seconds
      is shown as minute -1 and remainder -5, which padStart leaves as it is. */
  lemma FormatTimeOfNegative()
    ensures FormatTime(-5) == "-1:-5"
  {
    assert NatToString(1) == "1";
    assert NatToString(5) == "5";
    assert PadStart("-5", 2, '0') == "-5";
  }
}
