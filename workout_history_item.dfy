/** formatDuration of src/components/WorkoutHistoryItem.tsx: a saved workout's duration
    in seconds shown as hours and minutes, the leftover seconds dropped. */
module WorkoutHistoryItem {
  import opened Common
  import opened Text

  /** h = Math.floor(seconds / 3600) and m = Math.floor((seconds % 3600) / 60), shown as
      "{h}h {m}m" when h is positive and "{m}m" otherwise. */
  function FormatDuration(seconds: int): (t: string)
    ensures |t| >= 2 && t[|t| - 1] == 'm'
  {
    var h := FloorQuotient(seconds, 3600);
    var m := FloorQuotient(JsRem(seconds, 3600), 60);
    if h > 0 then IntToString(h) + "h " + IntToString(m) + "m" else IntToString(m) + "m"
  }

  /** A reader for the two forms: "{m}m" is 60 m seconds, "{h}h {m}m" is 3600 h + 60 m. */
  function ReadDuration(t: string): int {
    var body := DropLast(t);
    match IndexOf(body, ' ')
    case None => 60 * ParseNat(body)
    case Some(k) => 3600 * ParseNat(DropLast(body[..k])) + 60 * ParseNat(body[k + 1..])
  }

  /** The fields of a non-negative duration: h hours, m < 60 minutes and under a minute
      left over, so the whole minutes are 60 h + m. */
  lemma HoursAndMinutes(seconds: int)
    requires seconds >= 0
    ensures var h, m := FloorQuotient(seconds, 3600), FloorQuotient(JsRem(seconds, 3600), 60);
            && h == seconds / 3600 && h >= 0 && 0 <= m < 60
            && 3600 * h + 60 * m <= seconds < 3600 * h + 60 * m + 60
            && seconds / 60 == 60 * h + m
  {
    var h, r := seconds / 3600, seconds % 3600;
    assert seconds == 3600 * h + r && 0 <= r < 3600;
    var m, q := r / 60, r % 60;
    assert r == 60 * m + q && 0 <= q < 60;
    assert seconds == 60 * (60 * h + m) + q;
  }

  /** The two forms read back. */
  lemma ReadHoursAndMinutes(a: string, b: string)
    requires AllDigits(a)
    ensures ReadDuration(a + "h " + b + "m") == 3600 * ParseNat(a) + 60 * ParseNat(b)
  {
    var body := a + "h" + [' '] + b;
    var t := a + "h " + b + "m";
    assert t == body + "m";
    assert DropLast(t) == body;
    IndexOfAfter(a + "h", ' ', b);
    assert body[..|a| + 1] == a + "h";
    assert DropLast(a + "h") == a;
    assert body[|a| + 2..] == b;
  }

  lemma ReadMinutes(b: string)
    requires AllDigits(b)
    ensures ReadDuration(b + "m") == 60 * ParseNat(b)
  {
    assert DropLast(b + "m") == b;
  }

  /** For a non-negative duration the label reads back as the duration with its leftover
      seconds dropped: its whole minutes, which lie within the minute before it. */
  lemma FormatDurationReadBack(seconds: int)
    requires seconds >= 0
    ensures var v := ReadDuration(FormatDuration(seconds));
            && v == 60 * (seconds / 60)
            && v <= seconds < v + 60
  {
    HoursAndMinutes(seconds);
    var h, m := seconds / 3600, FloorQuotient(JsRem(seconds, 3600), 60);
    var a, b := NatToString(h), NatToString(m);
    ParseNatToString(h);
    ParseNatToString(m);
    NatToStringShape(h);
    NatToStringShape(m);
    var t := FormatDuration(seconds);
    if h > 0 {
      assert t == a + "h " + b + "m";
      ReadHoursAndMinutes(a, b);
    } else {
      assert t == b + "m";
      ReadMinutes(b);
    }
    var v := ReadDuration(t);
    assert v == 60 * (60 * h + m);
  }

  /** The label holds a space, the "{h}h {m}m" form, exactly from one hour up. */
  lemma FormatDurationHasHours(seconds: int)
    requires seconds >= 0
    ensures IndexOf(DropLast(FormatDuration(seconds)), ' ').Some? <==> seconds >= 3600
  {
    HoursAndMinutes(seconds);
    var h, m := seconds / 3600, FloorQuotient(JsRem(seconds, 3600), 60);
    var a, b := NatToString(h), NatToString(m);
    NatToStringShape(h);
    NatToStringShape(m);
    var t := FormatDuration(seconds);
    if h > 0 {
      assert t == a + "h " + b + "m";
      HoursLabelHasSpace(a, b);
    } else {
      assert t == b + "m";
      MinutesLabelHasNoSpace(b);
    }
  }

  lemma HoursLabelHasSpace(a: string, b: string)
    requires AllDigits(a)
    ensures IndexOf(DropLast(a + "h " + b + "m"), ' ').Some?
  {
    IndexOfAfter(a + "h", ' ', b);
    assert DropLast(a + "h " + b + "m") == a + "h" + [' '] + b;
  }

  lemma MinutesLabelHasNoSpace(b: string)
    requires AllDigits(b)
    ensures IndexOf(DropLast(b + "m"), ' ').None?
  {
    assert DropLast(b + "m") == b;
  }

  /** Durations in the same minute get the same label. */
  lemma SameMinuteSameLabel(s1: int, s2: int)
    requires s1 >= 0 && s2 >= 0 && s1 / 60 == s2 / 60
    ensures FormatDuration(s1) == FormatDuration(s2)
  {
    HoursAndMinutes(s1);
    HoursAndMinutes(s2);
    var h1, m1 := FloorQuotient(s1, 3600), FloorQuotient(JsRem(s1, 3600), 60);
    var h2, m2 := FloorQuotient(s2, 3600), FloorQuotient(JsRem(s2, 3600), 60);
    assert 60 * h1 + m1 == 60 * h2 + m2;
    assert h1 == h2 && m1 == m2;
  }
}
