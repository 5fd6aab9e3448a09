/** The workout graph of src/components/WorkoutGraph.tsx: the label formatter
    formatDuration, and the start offset of each interval's bar as the render loop
    accumulates it in currentX, before the offsets are scaled to the drawing width. */
module WorkoutGraph {
  import opened Common
  import opened Text
  import opened WorkoutTypes

  /** formatDuration: m = Math.floor(seconds / 60) and s = seconds % 60, shown as
      "{m}m {s}s" when both are positive, "{m}m" for whole minutes and "{s}s" when m
      is not positive. */
  function FormatDuration(seconds: int): (t: string)
    ensures |t| >= 2
    ensures t[|t| - 1] == 'm' || t[|t| - 1] == 's'
  {
    var m := FloorQuotient(seconds, 60);
    var s := JsRem(seconds, 60);
    if m > 0 && s > 0 then IntToString(m) + "m " + IntToString(s) + "s"
    else if m > 0 then IntToString(m) + "m"
    else IntToString(s) + "s"
  }

  /** A reader for the three forms: "{m}m" is 60 m, "{s}s" is s, and "{m}m {s}s" is
      60 m + s, the minutes being the digits before the "m " that ends at the space. */
  function ReadDuration(t: string): int {
    if t == [] then 0
    else
      var body := DropLast(t);
      if t[|t| - 1] == 'm' then 60 * ParseNat(body)
      else
        match IndexOf(body, ' ')
        case None => ParseNat(body)
        case Some(k) => 60 * ParseNat(DropLast(body[..k])) + ParseNat(body[k + 1..])
  }

  /** The three forms read back: minutes and seconds, whole minutes, seconds. */
  lemma ReadMinutesAndSeconds(a: string, b: string)
    requires AllDigits(a)
    ensures ReadDuration(a + "m " + b + "s") == 60 * ParseNat(a) + ParseNat(b)
  {
    var body := a + "m" + [' '] + b;
    var t := a + "m " + b + "s";
    assert t == body + "s";
    assert DropLast(t) == body;
    IndexOfAfter(a + "m", ' ', b);
    assert body[..|a| + 1] == a + "m";
    assert DropLast(a + "m") == a;
    assert body[|a| + 2..] == b;
  }

  lemma ReadMinutes(a: string)
    ensures ReadDuration(a + "m") == 60 * ParseNat(a)
  {
    assert DropLast(a + "m") == a;
  }

  lemma ReadSeconds(b: string)
    requires AllDigits(b)
    ensures ReadDuration(b + "s") == ParseNat(b)
  {
    assert DropLast(b + "s") == b;
  }

  /** Reading the label of a non-negative duration gives the duration back. */
  lemma FormatDurationReadBack(seconds: int)
    requires seconds >= 0
    ensures ReadDuration(FormatDuration(seconds)) == seconds
  {
    var m, s := seconds / 60, seconds % 60;
    var a, b := NatToString(m), NatToString(s);
    ParseNatToString(m);
    ParseNatToString(s);
    NatToStringShape(m);
    NatToStringShape(s);
    if m > 0 && s > 0 {
      ReadMinutesAndSeconds(a, b);
    } else if m > 0 {
      ReadMinutes(a);
    } else {
      ReadSeconds(b);
    }
  }

  /** Distinct non-negative durations get distinct labels. */
  lemma FormatDurationInjective(s1: int, s2: int)
    requires s1 >= 0 && s2 >= 0 && FormatDuration(s1) == FormatDuration(s2)
    ensures s1 == s2
  {
    FormatDurationReadBack(s1);
    FormatDurationReadBack(s2);
  }

  /** A non-negative label ends in 'm' exactly for whole minutes of at least one minute,
      and under a minute it is the seconds and "s", so 0 is "0s". */
  lemma FormatDurationForms(seconds: int)
    requires seconds >= 0
    ensures var t := FormatDuration(seconds);
            && (t[|t| - 1] == 'm' <==> seconds >= 60 && seconds % 60 == 0)
            && (seconds < 60 ==> t == NatToString(seconds) + "s")
  {
  }

  /** The start offset of each interval's bar: the durations of the intervals before it. */
  function StartOffsets(intervals: seq<Interval>): (xs: seq<int>)
    ensures |xs| == |intervals|
  {
    seq(|intervals|, k requires 0 <= k < |intervals| => SumDurations(intervals[..k]))
  }

  /** The render loop: each bar is placed at currentX, which then moves on by the
      interval's duration; currentX ends at the sum of all durations. */
  method IntervalOffsets(intervals: seq<Interval>) returns (offsets: seq<int>, currentX: int)
    ensures offsets == StartOffsets(intervals)
    ensures currentX == SumDurations(intervals)
  {
    offsets := [];
    currentX := 0;
    for k := 0 to |intervals|
      invariant offsets == StartOffsets(intervals[..k])
      invariant currentX == SumDurations(intervals[..k])
    {
      OffsetsStep(intervals, k);
      offsets := offsets + [currentX];
      currentX := currentX + intervals[k].duration;
    }
    assert intervals[..|intervals|] == intervals;
  }

  /** One more interval adds one offset, the sum so far. */
  lemma OffsetsStep(intervals: seq<Interval>, k: int)
    requires 0 <= k < |intervals|
    ensures StartOffsets(intervals[..k + 1]) == StartOffsets(intervals[..k]) + [SumDurations(intervals[..k])]
    ensures SumDurations(intervals[..k + 1]) == SumDurations(intervals[..k]) + intervals[k].duration
  {
    var p := intervals[..k + 1];
    assert p[..k] == intervals[..k];
    var xs, ys := StartOffsets(p), StartOffsets(intervals[..k]) + [SumDurations(intervals[..k])];
    forall j | 0 <= j < k + 1
      ensures xs[j] == ys[j]
    {
      if j < k {
        assert p[..j] == intervals[..k][..j];
      }
    }
  }

  /** The first bar starts at 0 and each next bar starts where the previous one ends. */
  lemma OffsetsAdjacent(intervals: seq<Interval>, k: int)
    requires 0 <= k < |intervals|
    ensures k == 0 ==> StartOffsets(intervals)[k] == 0
    ensures k + 1 < |intervals| ==>
              StartOffsets(intervals)[k + 1] == StartOffsets(intervals)[k] + intervals[k].duration
  {
    assert intervals[..k + 1][..k] == intervals[..k];
  }

  /** With non-negative durations a prefix sums to between 0 and the total. */
  lemma {:induction false} PrefixSumBelowTotal(intervals: seq<Interval>, n: int)
    requires 0 <= n <= |intervals|
    requires forall i :: 0 <= i < |intervals| ==> intervals[i].duration >= 0
    ensures 0 <= SumDurations(intervals[..n]) <= SumDurations(intervals)
  {
    var a, b := intervals[..n], intervals[n..];
    assert a + b == intervals;
    SumDurationsAppend(a, b);
    SumDurationsNonNegative(a);
    SumDurationsNonNegative(b);
  }

  /** For a workout whose total is the sum of its non-negative durations (what parseZwo
      builds), every bar lies within [0, totalDuration] and the bars never go back. */
  lemma BarsWithinTotal(w: Workout, k: int)
    requires forall i :: 0 <= i < |w.intervals| ==> w.intervals[i].duration >= 0
    requires w.totalDuration == SumDurations(w.intervals)
    requires 0 <= k < |w.intervals|
    ensures 0 <= StartOffsets(w.intervals)[k]
    ensures StartOffsets(w.intervals)[k] + w.intervals[k].duration <= w.totalDuration
    ensures k + 1 < |w.intervals| ==> StartOffsets(w.intervals)[k] <= StartOffsets(w.intervals)[k + 1]
  {
    var ivs := w.intervals;
    assert ivs[..k + 1][..k] == ivs[..k];
    PrefixSumBelowTotal(ivs, k);
    PrefixSumBelowTotal(ivs, k + 1);
  }
}
