/** The workout data types of src/lib/workout/types.ts and the recorded data point.
    totalDuration is a plain field: nothing in the type ties it to the intervals
    (a hand-built workout may declare any total); parseZwo is what makes it the sum. */
module WorkoutTypes {
  import opened Common

  datatype IntervalType = Warmup | Active | Recovery | Cooldown

  datatype Interval = Interval(
    id: string,
    duration: int,          // seconds
    targetPower: int,       // watts
    intervalType: IntervalType,
    description: Option<string>,
    cadenceTarget: Option<int>)

  datatype Workout = Workout(
    id: string,
    name: string,
    description: Option<string>,
    intervals: seq<Interval>,
    totalDuration: int)

  /** One recorded sample: epoch milliseconds and the telemetry seen at that moment. */
  datatype WorkoutDataPoint = WorkoutDataPoint(timestamp: int, power: int, heartRate: int, cadence: int)

  /** Math.round((endTime - startTime) / 1000) for epoch milliseconds: whole seconds,
      halves up. */
  function DurationSeconds(startTime: int, endTime: int): (d: int)
    ensures d == (endTime - startTime + 500) / 1000
  {
    RoundOfQuotient(endTime - startTime, 1000);
    Round((endTime - startTime) as real / 1000 as real)
  }

  /** The sum of the interval durations, accumulated from the front. */
  function SumDurations(intervals: seq<Interval>): (total: int)
    decreases |intervals|
  {
    if intervals == [] then 0 else SumDurations(intervals[..|intervals| - 1]) + intervals[|intervals| - 1].duration
  }

  lemma {:induction false} SumDurationsAppend(a: seq<Interval>, b: seq<Interval>)
    ensures SumDurations(a + b) == SumDurations(a) + SumDurations(b)
    decreases |b|
  {
    if b == [] {
      assert a + b == a;
    } else {
      var b' := b[..|b| - 1];
      assert (a + b)[..|a + b| - 1] == a + b';
      SumDurationsAppend(a, b');
    }
  }

  lemma {:induction false} SumDurationsNonNegative(intervals: seq<Interval>)
    requires forall i :: 0 <= i < |intervals| ==> intervals[i].duration >= 0
    ensures SumDurations(intervals) >= 0
    decreases |intervals|
  {
    if intervals != [] {
      SumDurationsNonNegative(intervals[..|intervals| - 1]);
    }
  }

  /** The targets of the intervals, in order. */
  function Targets(intervals: seq<Interval>): (ts: seq<int>)
    ensures |ts| == |intervals|
    decreases |intervals|
  {
    if intervals == [] then [] else [intervals[0].targetPower] + Targets(intervals[1..])
  }

  lemma {:induction false} TargetsAt(intervals: seq<Interval>, i: nat)
    requires i < |intervals|
    ensures Targets(intervals)[i] == intervals[i].targetPower
    decreases i
  {
    if i > 0 {
      TargetsAt(intervals[1..], i - 1);
    }
  }
}
