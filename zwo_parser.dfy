/** parseZwo (src/lib/workout/zwoParser.ts): the children of a Zwift workout file's
    <workout> node, in document order, mapped to intervals.

    The XML document is abstracted to a record: whether <workout_file> and <workout>
    exist, the text of <name> and <description>, and per child element its tag name
    and the numbers its attributes hold. An attribute that is missing or empty is
    None, which the source replaces by "0" (by "1" for Repeat). The tag name is
    classified into the five names the source compares with, or OtherTag.
    Date.now() is the parameter `now`. */
module ZwoParser {
  import opened Common
  import opened Text
  import opened WorkoutTypes

  /** The tag names parseZwo tests for; any other name is kept as it is. */
  datatype ElementTag = WarmupTag | CooldownTag | SteadyStateTag | IntervalsTTag | RampTag | OtherTag(name: string)

  datatype ZwoElement = ZwoElement(
    tag: ElementTag,
    duration: Option<int>,
    powerLow: Option<real>,
    powerHigh: Option<real>,
    power: Option<real>,
    repeat: Option<int>,
    onDuration: Option<int>,
    offDuration: Option<int>,
    onPower: Option<real>,
    offPower: Option<real>)

  datatype WorkoutFile = WorkoutFile(
    name: Option<string>,
    description: Option<string>,
    workout: Option<seq<ZwoElement>>)

  datatype ZwoDocument = ZwoDocument(workoutFile: Option<WorkoutFile>)

  const InvalidFile := "Invalid ZWO file"
  const NoWorkoutData := "No workout data found"

  function IntOr(a: Option<int>, default: int): int {
    if a.Some? then a.value else default
  }

  function RealOr(a: Option<real>): real {
    if a.Some? then a.value else 0.0
  }

  /** `interval-${n}`. */
  function IntervalId(n: nat): (id: string)
    ensures |id| > 9 && id[..9] == "interval-"
  {
    "interval-" + NatToString(n)
  }

  /** Different counters give different ids. */
  lemma IntervalIdInjective(a: nat, b: nat)
    requires IntervalId(a) == IntervalId(b)
    ensures a == b
  {
    assert IntervalId(a)[9..] == NatToString(a);
    assert IntervalId(b)[9..] == NatToString(b);
    ParseNatToString(a);
    ParseNatToString(b);
  }

  predicate IsSingle(tag: ElementTag) {
    tag.WarmupTag? || tag.CooldownTag? || tag.SteadyStateTag? || tag.RampTag?
  }

  /** The mean of PowerLow and PowerHigh, as a fraction of FTP. */
  function AvgPower(e: ZwoElement): real {
    (RealOr(e.powerLow) + RealOr(e.powerHigh)) / 2.0
  }

  function Percent(f: real): string {
    IntToString(Round(f * 100.0))
  }

  /** Math.round(fraction * ftp): a fraction of FTP in whole watts. */
  function Watts(fraction: real, ftp: int): (w: int)
    ensures (w as real) - 0.5 <= fraction * ftp as real < (w as real) + 0.5
  {
    Round(fraction * ftp as real)
  }

  /** The one interval a Warmup, Cooldown, SteadyState or Ramp element yields. */
  function SingleInterval(e: ZwoElement, ftp: int, n: nat): (iv: Interval)
    requires IsSingle(e.tag)
    ensures iv.duration == IntOr(e.duration, 0)
  {
    var duration := IntOr(e.duration, 0);
    match e.tag
    case WarmupTag =>
      Interval(IntervalId(n), duration, Watts(AvgPower(e), ftp), Warmup,
               Some("Warmup (" + Percent(AvgPower(e)) + "% FTP)"), None)
    case CooldownTag =>
      Interval(IntervalId(n), duration, Watts(AvgPower(e), ftp), Cooldown,
               Some("Cooldown (" + Percent(AvgPower(e)) + "% FTP)"), None)
    case SteadyStateTag =>
      Interval(IntervalId(n), duration, Watts(RealOr(e.power), ftp), Active,
               Some("Steady State (" + Percent(RealOr(e.power)) + "% FTP)"), None)
    case RampTag =>
      Interval(IntervalId(n), duration, Watts(AvgPower(e), ftp), Active,
               Some("Ramp (" + Percent(AvgPower(e)) + "% FTP)"), None)
  }

  function RepeatLabel(e: ZwoElement, i: nat, half: string): string {
    "Interval " + IntToString(i + 1) + "/" + IntToString(IntOr(e.repeat, 1)) + " (" + half + ")"
  }

  /** The active half of repetition i of an IntervalsT element, numbered n. */
  function OnInterval(e: ZwoElement, ftp: int, n: nat, i: nat): (iv: Interval)
  {
    Interval(IntervalId(n), IntOr(e.onDuration, 0), Watts(RealOr(e.onPower), ftp), Active,
             Some(RepeatLabel(e, i, "On")), None)
  }

  /** The recovery half of repetition i of an IntervalsT element, numbered n. */
  function OffInterval(e: ZwoElement, ftp: int, n: nat, i: nat): (iv: Interval)
  {
    Interval(IntervalId(n), IntOr(e.offDuration, 0), Watts(RealOr(e.offPower), ftp), Recovery,
             Some(RepeatLabel(e, i, "Off")), None)
  }

  /** Repetition i of an IntervalsT element, numbered n and n + 1: an active interval
      for OnDuration seconds at OnPower of FTP, then a recovery interval for OffDuration
      seconds at OffPower, with the "On" and "Off" labels. */
  lemma RepeatHalves(e: ZwoElement, ftp: int, n: nat, i: nat)
    ensures var on := OnInterval(e, ftp, n, i);
            && on.id == IntervalId(n) && on.intervalType == Active
            && on.duration == IntOr(e.onDuration, 0)
            && (on.targetPower as real) - 0.5 <= RealOr(e.onPower) * ftp as real < (on.targetPower as real) + 0.5
            && on.description == Some(RepeatLabel(e, i, "On"))
    ensures var off := OffInterval(e, ftp, n + 1, i);
            && off.id == IntervalId(n + 1) && off.intervalType == Recovery
            && off.duration == IntOr(e.offDuration, 0)
            && (off.targetPower as real) - 0.5 <= RealOr(e.offPower) * ftp as real < (off.targetPower as real) + 0.5
            && off.description == Some(RepeatLabel(e, i, "Off"))
  {
  }

  /** Interval m of the first k on/off pairs of an IntervalsT element whose first id is
      `interval-start`: the on half of pair m / 2 when m is even, the off half when odd. */
  function RepeatInterval(e: ZwoElement, ftp: int, start: nat, m: nat): (iv: Interval)
    ensures iv.duration == if m % 2 == 0 then IntOr(e.onDuration, 0) else IntOr(e.offDuration, 0)
  {
    if m % 2 == 0 then OnInterval(e, ftp, start + m, m / 2) else OffInterval(e, ftp, start + m, m / 2)
  }

  function RepeatPairs(e: ZwoElement, ftp: int, start: nat, k: nat): (ivs: seq<Interval>)
    ensures |ivs| == 2 * k
    ensures forall m :: 0 <= m < 2 * k ==> ivs[m] == RepeatInterval(e, ftp, start, m)
  {
    seq(2 * k, m requires 0 <= m < 2 * k => RepeatInterval(e, ftp, start, m))
  }

  /** One more repetition appends its on and its off interval. */
  lemma RepeatStep(e: ZwoElement, ftp: int, start: nat, i: nat, n: nat)
    requires n == start + 2 * i
    ensures RepeatPairs(e, ftp, start, i + 1)
         == RepeatPairs(e, ftp, start, i) + [OnInterval(e, ftp, n, i), OffInterval(e, ftp, n + 1, i)]
  {
    var prev, next := RepeatPairs(e, ftp, start, i), RepeatPairs(e, ftp, start, i + 1);
    assert (2 * i) % 2 == 0 && (2 * i) / 2 == i;
    assert (2 * i + 1) % 2 == 1 && (2 * i + 1) / 2 == i;
    assert next[2 * i] == RepeatInterval(e, ftp, start, 2 * i);
    assert next[2 * i + 1] == RepeatInterval(e, ftp, start, 2 * i + 1);
    ExtendByTwo(next, prev, OnInterval(e, ftp, n, i), OffInterval(e, ftp, n + 1, i));
  }

  lemma ExtendByTwo(next: seq<Interval>, prev: seq<Interval>, x: Interval, y: Interval)
    requires |next| == |prev| + 2
    requires forall m :: 0 <= m < |prev| ==> next[m] == prev[m]
    requires next[|prev|] == x && next[|prev| + 1] == y
    ensures next == prev + [x, y]
  {
    assert forall m :: 0 <= m < |next| ==> next[m] == (prev + [x, y])[m];
  }

  /** The intervals one child element yields, numbered from `start`. */
  function ElementIntervals(e: ZwoElement, ftp: int, start: nat): (ivs: seq<Interval>)
    ensures forall m :: 0 <= m < |ivs| ==> ivs[m].id == IntervalId(start + m)
  {
    if IsSingle(e.tag) then [SingleInterval(e, ftp, start)]
    else if e.tag.IntervalsTTag? then RepeatPairs(e, ftp, start, Max0(IntOr(e.repeat, 1)))
    else []
  }

  /** The intervals array after the forEach has visited the given children. */
  function MapElements(es: seq<ZwoElement>, ftp: int): (ivs: seq<Interval>)
    ensures |ivs| == TotalCount(es)
    decreases |es|
  {
    if es == [] then []
    else
      var before := MapElements(es[..|es| - 1], ftp);
      ElementIds(es[|es| - 1], ftp, |before|);
      before + ElementIntervals(es[|es| - 1], ftp, |before|)
  }

  function Max0(x: int): (m: nat)
    ensures m >= x && (x >= 0 ==> m == x)
  {
    if x < 0 then 0 else x
  }

  function NameOr(t: Option<string>, default: string): string {
    if t.Some? && t.value != "" then t.value else default
  }

  /** parseZwo: the two error cases, else the workout with the mapped intervals and
      their summed durations. */
  function ParseZwoResult(doc: ZwoDocument, ftp: int, now: int): (r: Result<Workout>)
    ensures doc.workoutFile.None? ==> r == Err(InvalidFile)
    ensures doc.workoutFile.Some? && doc.workoutFile.value.workout.None? ==> r == Err(NoWorkoutData)
    ensures r.Ok? <==> doc.workoutFile.Some? && doc.workoutFile.value.workout.Some?
    ensures r.Ok? ==> r.value.intervals == MapElements(doc.workoutFile.value.workout.value, ftp)
    ensures r.Ok? ==> r.value.totalDuration == SumDurations(r.value.intervals)
  {
    if doc.workoutFile.None? then Err(InvalidFile)
    else
      var wf := doc.workoutFile.value;
      if wf.workout.None? then Err(NoWorkoutData)
      else
        var intervals := MapElements(wf.workout.value, ftp);
        Ok(Workout("imported-" + IntToString(now), NameOr(wf.name, "Imported Workout"),
                   Some(NameOr(wf.description, "")), intervals, SumDurations(intervals)))
  }

  /** The forEach over the children, pushing into `intervals` and counting with
      `intervalCount`. */
  method ParseZwo(doc: ZwoDocument, ftp: int, now: int) returns (r: Result<Workout>)
    ensures r == ParseZwoResult(doc, ftp, now)
  {
    if doc.workoutFile.None? {
      return Err(InvalidFile);
    }
    var wf := doc.workoutFile.value;
    var name := NameOr(wf.name, "Imported Workout");
    var description := NameOr(wf.description, "");
    if wf.workout.None? {
      return Err(NoWorkoutData);
    }
    var nodes := wf.workout.value;
    var intervals: seq<Interval> := [];
    var intervalCount: nat := 0;
    var j := 0;
    while j < |nodes|
      invariant 0 <= j <= |nodes|
      invariant intervals == MapElements(nodes[..j], ftp)
      invariant intervalCount == |intervals|
    {
      assert nodes[..j + 1][..j] == nodes[..j];
      intervals, intervalCount := VisitNode(nodes[j], ftp, intervals, intervalCount);
      j := j + 1;
    }
    assert nodes[..j] == nodes;
    r := Ok(Workout("imported-" + IntToString(now), name, Some(description), intervals, SumDurations(intervals)));
  }

  /** The forEach callback for one child node. */
  method VisitNode(node: ZwoElement, ftp: int, intervals: seq<Interval>, intervalCount: nat)
    returns (intervals': seq<Interval>, intervalCount': nat)
    requires intervalCount == |intervals|
    ensures intervals' == intervals + ElementIntervals(node, ftp, intervalCount)
    ensures intervalCount' == |intervals'|
  {
    if IsSingle(node.tag) {
      intervals' := intervals + [SingleInterval(node, ftp, intervalCount)];
      intervalCount' := intervalCount + 1;
    } else if node.tag.IntervalsTTag? {
      intervals', intervalCount' := PushRepeats(node, ftp, intervals, intervalCount);
    } else {
      intervals', intervalCount' := intervals, intervalCount;
    }
  }

  /** The `for (let i = 0; i < repeat; i++)` loop of an IntervalsT element: an on and
      an off interval per repetition. */
  method PushRepeats(node: ZwoElement, ftp: int, intervals: seq<Interval>, intervalCount: nat)
    returns (intervals': seq<Interval>, intervalCount': nat)
    requires intervalCount == |intervals|
    ensures intervals' == intervals + RepeatPairs(node, ftp, intervalCount, Max0(IntOr(node.repeat, 1)))
    ensures intervalCount' == |intervals'|
  {
    var repeat := IntOr(node.repeat, 1);
    intervals', intervalCount' := intervals, intervalCount;
    var i := 0;
    while i < repeat
      invariant 0 <= i <= Max0(repeat)
      invariant intervals' == intervals + RepeatPairs(node, ftp, intervalCount, i)
      invariant intervalCount' == intervalCount + 2 * i == |intervals'|
    {
      RepeatStep(node, ftp, intervalCount, i, intervalCount');
      intervals' := intervals' + [OnInterval(node, ftp, intervalCount', i)];
      intervalCount' := intervalCount' + 1;
      intervals' := intervals' + [OffInterval(node, ftp, intervalCount', i)];
      intervalCount' := intervalCount' + 1;
      i := i + 1;
    }
  }

  // ---------------------------------------------------------------------------
  // Properties of the mapping

  /** What one element contributes: one interval for the four single tags, 2r for
      IntervalsT with Repeat r (none when r <= 0), none for any other tag. */
  function ElementCount(e: ZwoElement): nat {
    if IsSingle(e.tag) then 1
    else if e.tag.IntervalsTTag? then 2 * Max0(IntOr(e.repeat, 1))
    else 0
  }

  function ElementDuration(e: ZwoElement): int {
    if IsSingle(e.tag) then IntOr(e.duration, 0)
    else if e.tag.IntervalsTTag? then Max0(IntOr(e.repeat, 1)) * (IntOr(e.onDuration, 0) + IntOr(e.offDuration, 0))
    else 0
  }

  function TotalCount(es: seq<ZwoElement>): nat
    decreases |es|
  {
    if es == [] then 0 else TotalCount(es[..|es| - 1]) + ElementCount(es[|es| - 1])
  }

  function TotalElementDuration(es: seq<ZwoElement>): int
    decreases |es|
  {
    if es == [] then 0 else TotalElementDuration(es[..|es| - 1]) + ElementDuration(es[|es| - 1])
  }

  /** IntervalsT with Repeat r expands into 2r intervals alternating active on-intervals
      and recovery off-intervals, with the element's durations and powers. */
  lemma IntervalsTExpansion(e: ZwoElement, ftp: int, start: nat)
    requires e.tag.IntervalsTTag?
    ensures var ivs := ElementIntervals(e, ftp, start);
            var r := IntOr(e.repeat, 1);
            && |ivs| == 2 * Max0(r)
            && (r <= 0 ==> ivs == [])
            && forall m :: 0 <= m < |ivs| ==>
                 && ivs[m].id == IntervalId(start + m)
                 && (m % 2 == 0 ==> ivs[m].intervalType == Active
                                    && ivs[m].duration == IntOr(e.onDuration, 0)
                                    && ivs[m].targetPower == Watts(RealOr(e.onPower), ftp))
                 && (m % 2 == 1 ==> ivs[m].intervalType == Recovery
                                    && ivs[m].duration == IntOr(e.offDuration, 0)
                                    && ivs[m].targetPower == Watts(RealOr(e.offPower), ftp))
  {
    var ivs := ElementIntervals(e, ftp, start);
    forall m | 0 <= m < |ivs|
      ensures ivs[m].id == IntervalId(start + m)
      ensures m % 2 == 0 ==> ivs[m] == OnInterval(e, ftp, start + m, m / 2)
      ensures m % 2 == 1 ==> ivs[m] == OffInterval(e, ftp, start + m, m / 2)
    {
      assert ivs[m] == RepeatInterval(e, ftp, start, m);
    }
  }

  /** Warmup and Cooldown yield one interval of their type at the mean of PowerLow and
      PowerHigh, Ramp one active interval at that mean, SteadyState one active interval
      at Power; each carries the element's Duration. */
  lemma SingleElement(e: ZwoElement, ftp: int, start: nat)
    requires IsSingle(e.tag)
    ensures var ivs := ElementIntervals(e, ftp, start);
            && |ivs| == 1
            && ivs[0].id == IntervalId(start)
            && ivs[0].duration == IntOr(e.duration, 0)
            && (e.tag.WarmupTag? ==> ivs[0].intervalType == Warmup)
            && (e.tag.CooldownTag? ==> ivs[0].intervalType == Cooldown)
            && (e.tag.SteadyStateTag? || e.tag.RampTag? ==> ivs[0].intervalType == Active)
            && (e.tag.SteadyStateTag? ==> ivs[0].targetPower == Watts(RealOr(e.power), ftp))
            && (!e.tag.SteadyStateTag? ==> ivs[0].targetPower == Watts(AvgPower(e), ftp))
  {
    var iv := SingleInterval(e, ftp, start);
    assert ElementIntervals(e, ftp, start) == [iv];
    match e.tag
    case WarmupTag =>
    case CooldownTag =>
    case SteadyStateTag =>
    case RampTag =>
  }

  /** The ids of one element's intervals continue the count from `start`. */
  lemma ElementIds(e: ZwoElement, ftp: int, start: nat)
    ensures var ivs := ElementIntervals(e, ftp, start);
            |ivs| == ElementCount(e) && forall m :: 0 <= m < |ivs| ==> ivs[m].id == IntervalId(start + m)
  {
    if e.tag.IntervalsTTag? && !IsSingle(e.tag) {
      IntervalsTExpansion(e, ftp, start);
    }
  }

  /** The output ids are interval-0, interval-1, ... in order, and there are as many
      intervals as the elements contribute. */
  lemma {:induction false} ConsecutiveIds(es: seq<ZwoElement>, ftp: int)
    ensures var ivs := MapElements(es, ftp);
            |ivs| == TotalCount(es) && forall m :: 0 <= m < |ivs| ==> ivs[m].id == IntervalId(m)
    decreases |es|
  {
    if es != [] {
      var before := MapElements(es[..|es| - 1], ftp);
      var added := ElementIntervals(es[|es| - 1], ftp, |before|);
      ConsecutiveIds(es[..|es| - 1], ftp);
      ElementIds(es[|es| - 1], ftp, |before|);
      AppendIds(before, added);
    }
  }

  lemma AppendIds(a: seq<Interval>, b: seq<Interval>)
    requires forall m :: 0 <= m < |a| ==> a[m].id == IntervalId(m)
    requires forall m :: 0 <= m < |b| ==> b[m].id == IntervalId(|a| + m)
    ensures forall m :: 0 <= m < |a + b| ==> (a + b)[m].id == IntervalId(m)
  {
    forall m | 0 <= m < |a + b|
      ensures (a + b)[m].id == IntervalId(m)
    {
      if m >= |a| {
        assert (a + b)[m] == b[m - |a|];
      }
    }
  }

  lemma RepeatPairsDuration(e: ZwoElement, ftp: int, start: nat, k: nat)
    ensures SumDurations(RepeatPairs(e, ftp, start, k)) == k * (IntOr(e.onDuration, 0) + IntOr(e.offDuration, 0))
  {
    var ivs, a, b := RepeatPairs(e, ftp, start, k), IntOr(e.onDuration, 0), IntOr(e.offDuration, 0);
    RepeatDurationsAlternate(e, ftp, start, k);
    AlternatingDurations(ivs, k, a, b);
  }

  lemma RepeatDurationsAlternate(e: ZwoElement, ftp: int, start: nat, k: nat)
    ensures forall m :: 0 <= m < 2 * k ==>
      RepeatPairs(e, ftp, start, k)[m].duration == if m % 2 == 0 then IntOr(e.onDuration, 0) else IntOr(e.offDuration, 0)
  {
    var ivs := RepeatPairs(e, ftp, start, k);
    forall m | 0 <= m < 2 * k
      ensures ivs[m].duration == if m % 2 == 0 then IntOr(e.onDuration, 0) else IntOr(e.offDuration, 0)
    {
      assert ivs[m] == RepeatInterval(e, ftp, start, m);
    }
  }

  /** 2k intervals whose durations alternate between a and b last k * (a + b) seconds. */
  lemma {:induction false} AlternatingDurations(ivs: seq<Interval>, k: nat, a: int, b: int)
    requires |ivs| == 2 * k
    requires forall m :: 0 <= m < |ivs| ==> ivs[m].duration == if m % 2 == 0 then a else b
    ensures SumDurations(ivs) == k * (a + b)
    decreases k
  {
    if k > 0 {
      var n := |ivs|;
      var prev := ivs[..n - 2];
      assert ivs[..n - 1][..n - 2] == prev;
      forall m | 0 <= m < |prev|
        ensures prev[m].duration == if m % 2 == 0 then a else b
      {
        assert prev[m] == ivs[m];
      }
      AlternatingDurations(prev, k - 1, a, b);
      assert SumDurations(ivs) == SumDurations(prev) + ivs[n - 2].duration + ivs[n - 1].duration;
      assert (n - 2) % 2 == 0 && (n - 1) % 2 == 1;
      MulSucc(k, a + b);
    }
  }

  lemma OneDuration(iv: Interval)
    ensures SumDurations([iv]) == iv.duration
  {
    assert [iv][..0] == [];
  }

  lemma ElementDurationSum(e: ZwoElement, ftp: int, start: nat)
    ensures SumDurations(ElementIntervals(e, ftp, start)) == ElementDuration(e)
  {
    if IsSingle(e.tag) {
      OneDuration(SingleInterval(e, ftp, start));
    } else if e.tag.IntervalsTTag? {
      RepeatPairsDuration(e, ftp, start, Max0(IntOr(e.repeat, 1)));
    }
  }

  /** The total duration of an imported workout is what its elements declare: each
      single element its Duration, each IntervalsT Repeat times (OnDuration + OffDuration). */
  lemma {:induction false} TotalDurationByElements(es: seq<ZwoElement>, ftp: int)
    ensures SumDurations(MapElements(es, ftp)) == TotalElementDuration(es)
    decreases |es|
  {
    if es != [] {
      var before := MapElements(es[..|es| - 1], ftp);
      TotalDurationByElements(es[..|es| - 1], ftp);
      SumDurationsAppend(before, ElementIntervals(es[|es| - 1], ftp, |before|));
      ElementDurationSum(es[|es| - 1], ftp, |before|);
    }
  }

  /** An element with any other tag yields nothing. */
  lemma UnknownTagSkipped(es: seq<ZwoElement>, e: ZwoElement, ftp: int)
    requires e.tag.OtherTag?
    ensures MapElements(es + [e], ftp) == MapElements(es, ftp)
  {
    assert (es + [e])[..|es|] == es;
  }
}
