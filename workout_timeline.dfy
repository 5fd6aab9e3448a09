/** The workout timeline of src/lib/workout/workoutStore.ts as pure transitions on a
    snapshot of the store's fields. The `commands` field of a snapshot is the output log
    of the setTargetPower calls the store makes on the Bluetooth store, in order; what
    those calls do to the trainer is BleState.SetTargetPower's business.

    Each transition is one store action. The class in workout_store.dfy performs them
    in place; the lemmas here are about whole runs. */
module WorkoutTimeline {
  import opened Common
  import opened WorkoutTypes

  datatype Snapshot = Snapshot(
    isActive: bool,
    isPaused: bool,
    currentWorkout: Option<Workout>,
    activeIntervalIndex: nat,
    elapsedTime: nat,
    intervalElapsedTime: nat,
    lastCoachFeedback: Option<string>,
    commands: seq<int>)

  const Initial := Snapshot(false, false, None, 0, 0, 0, None, [])

  /** The resistance stopWorkout falls back to. */
  const FallbackPower := 100

  function Max0(d: int): (m: nat)
    ensures m >= d
    ensures d >= 0 ==> m == d
  {
    if d < 0 then 0 else d
  }

  function Intervals(s: Snapshot): seq<Interval> {
    if s.currentWorkout.Some? then s.currentWorkout.value.intervals else []
  }

  /** A tick does something only when the workout is active, not paused and present. */
  predicate Running(s: Snapshot) {
    s.isActive && !s.isPaused && s.currentWorkout.Some?
  }

  /** The store invariant: a workout is held exactly while active; an idle store has
      its index and timers at zero; while active the index is in range (or zero for a
      workout without intervals) and the interval timer has not passed the current
      interval's duration. */
  predicate Valid(s: Snapshot) {
    && (s.isActive <==> s.currentWorkout.Some?)
    && (!s.isActive ==> s.activeIntervalIndex == 0 && s.elapsedTime == 0 && s.intervalElapsedTime == 0)
    && (s.isActive ==>
          var ivs := s.currentWorkout.value.intervals;
          if |ivs| == 0 then (s.activeIntervalIndex == 0 && s.intervalElapsedTime == 0)
          else (s.activeIntervalIndex < |ivs|
                && s.intervalElapsedTime <= Max0(ivs[s.activeIntervalIndex].duration)))
  }

  /** startWorkout: activate, zero the index and both timers, clear the feedback, and
      command the first interval's target if there is one. */
  function Start(s: Snapshot, w: Workout): (r: Snapshot)
    ensures r.isActive && !r.isPaused && r.currentWorkout == Some(w)
    ensures r.activeIntervalIndex == 0 && r.elapsedTime == 0 && r.intervalElapsedTime == 0
    ensures r.lastCoachFeedback.None?
    ensures |w.intervals| > 0 ==> r.commands == s.commands + [w.intervals[0].targetPower]
    ensures |w.intervals| == 0 ==> r.commands == s.commands
    ensures Valid(r)
  {
    var r := Snapshot(true, false, Some(w), 0, 0, 0, None, s.commands);
    if |w.intervals| > 0 then r.(commands := s.commands + [w.intervals[0].targetPower]) else r
  }

  function Pause(s: Snapshot): (r: Snapshot)
    ensures r.isPaused && r.(isPaused := s.isPaused) == s
  {
    s.(isPaused := true)
  }

  function Resume(s: Snapshot): (r: Snapshot)
    ensures !r.isPaused && r.(isPaused := s.isPaused) == s
  {
    s.(isPaused := false)
  }

  /** stopWorkout: reset every field except the coach feedback, then command 100 W. */
  function Stop(s: Snapshot): (r: Snapshot)
    ensures !r.isActive && !r.isPaused && r.currentWorkout.None?
    ensures r.activeIntervalIndex == 0 && r.elapsedTime == 0 && r.intervalElapsedTime == 0
    ensures r.lastCoachFeedback == s.lastCoachFeedback
    ensures r.commands == s.commands + [FallbackPower]
    ensures Valid(r)
  {
    Snapshot(false, false, None, 0, 0, 0, s.lastCoachFeedback, s.commands + [FallbackPower])
  }

  /** tick. */
  function Tick(s: Snapshot): (r: Snapshot)
    ensures !Running(s) ==> r == s
    ensures Running(s) && s.activeIntervalIndex >= |Intervals(s)| ==> r == Stop(s)
    ensures Running(s) && s.activeIntervalIndex < |Intervals(s)| ==>
      var cur := Intervals(s)[s.activeIntervalIndex];
      && (s.intervalElapsedTime < cur.duration ==>
            r == s.(elapsedTime := s.elapsedTime + 1, intervalElapsedTime := s.intervalElapsedTime + 1))
      && (s.intervalElapsedTime >= cur.duration && s.activeIntervalIndex + 1 < |Intervals(s)| ==>
            && r.activeIntervalIndex == s.activeIntervalIndex + 1
            && r.intervalElapsedTime == 0
            && r.elapsedTime == s.elapsedTime + 1
            && r.commands == s.commands + [Intervals(s)[s.activeIntervalIndex + 1].targetPower]
            && r.isActive && !r.isPaused && r.currentWorkout == s.currentWorkout
            && r.lastCoachFeedback == s.lastCoachFeedback)
      && (s.intervalElapsedTime >= cur.duration && s.activeIntervalIndex + 1 >= |Intervals(s)| ==>
            r == Stop(s))
  {
    if !s.isActive || s.isPaused || s.currentWorkout.None? then s
    else
      var ivs := s.currentWorkout.value.intervals;
      var i := s.activeIntervalIndex;
      if i >= |ivs| then Stop(s)
      else if s.intervalElapsedTime >= ivs[i].duration then
        if i + 1 < |ivs| then
          s.(activeIntervalIndex := i + 1, intervalElapsedTime := 0, elapsedTime := s.elapsedTime + 1,
             commands := s.commands + [ivs[i + 1].targetPower])
        else Stop(s)
      else
        s.(elapsedTime := s.elapsedTime + 1, intervalElapsedTime := s.intervalElapsedTime + 1)
  }

  /** skipInterval: move to the next interval without advancing elapsedTime, or stop on
      the last one; without a workout nothing happens. Pausing does not block it. */
  function Skip(s: Snapshot): (r: Snapshot)
    ensures s.currentWorkout.None? ==> r == s
    ensures s.currentWorkout.Some? && s.activeIntervalIndex + 1 < |Intervals(s)| ==>
      && r.activeIntervalIndex == s.activeIntervalIndex + 1
      && r.intervalElapsedTime == 0
      && r.elapsedTime == s.elapsedTime
      && r.commands == s.commands + [Intervals(s)[s.activeIntervalIndex + 1].targetPower]
      && r.isActive == s.isActive && r.isPaused == s.isPaused && r.currentWorkout == s.currentWorkout
      && r.lastCoachFeedback == s.lastCoachFeedback
    ensures s.currentWorkout.Some? && s.activeIntervalIndex + 1 >= |Intervals(s)| ==> r == Stop(s)
  {
    if s.currentWorkout.None? then s
    else
      var ivs := s.currentWorkout.value.intervals;
      var next := s.activeIntervalIndex + 1;
      if next < |ivs| then
        s.(activeIntervalIndex := next, intervalElapsedTime := 0, commands := s.commands + [ivs[next].targetPower])
      else Stop(s)
  }

  lemma TransitionsPreserveValid(s: Snapshot)
    requires Valid(s)
    ensures Valid(Pause(s)) && Valid(Resume(s)) && Valid(Tick(s)) && Valid(Skip(s))
  {
  }

  /** Valid also holds of the initial store. */
  lemma InitialValid()
    ensures Valid(Initial)
  {
  }

  // ---------------------------------------------------------------------------
  // Runs of ticks

  function TickN(s: Snapshot, k: nat): Snapshot
    decreases k
  {
    if k == 0 then s else TickN(Tick(s), k - 1)
  }

  lemma {:induction false} TickNAdd(s: Snapshot, a: nat, b: nat)
    ensures TickN(s, a + b) == TickN(TickN(s, a), b)
    decreases a
  {
    if a > 0 {
      TickNAdd(Tick(s), a - 1, b);
    }
  }

  /** A store that is not running stays as it is, however many ticks come. */
  lemma {:induction false} IdleStaysIdle(s: Snapshot, k: nat)
    requires !Running(s)
    ensures TickN(s, k) == s
    decreases k
  {
    if k > 0 {
      IdleStaysIdle(Tick(s), k - 1);
    }
  }

  /** Interval i of an unpaused, unskipped run takes its duration (at least 0) plus the
      one tick that moves on. */
  function IntervalTicks(iv: Interval): nat {
    Max0(iv.duration) + 1
  }

  function TicksOf(ivs: seq<Interval>): nat
    decreases |ivs|
  {
    if ivs == [] then 0 else IntervalTicks(ivs[0]) + TicksOf(ivs[1..])
  }

  /** With no negative duration the run takes the sum of the durations plus one tick per interval. */
  lemma {:induction false} TicksOfIsSum(ivs: seq<Interval>)
    requires forall i :: 0 <= i < |ivs| ==> ivs[i].duration >= 0
    ensures TicksOf(ivs) == SumDurations(ivs) + |ivs|
    decreases |ivs|
  {
    if ivs != [] {
      TicksOfIsSum(ivs[1..]);
      assert ivs == [ivs[0]] + ivs[1..];
      SumDurationsAppend([ivs[0]], ivs[1..]);
      assert SumDurations([ivs[0]]) == ivs[0].duration by {
        assert [ivs[0]][..0] == [];
      }
    }
  }

  /** Within an interval, the ticks before its end only advance the two timers. */
  lemma {:induction false} WithinInterval(s: Snapshot, k: nat)
    requires Running(s) && s.activeIntervalIndex < |Intervals(s)|
    requires s.intervalElapsedTime + k == Max0(Intervals(s)[s.activeIntervalIndex].duration)
    ensures TickN(s, k) == s.(elapsedTime := s.elapsedTime + k, intervalElapsedTime := s.intervalElapsedTime + k)
    decreases k
  {
    if k > 0 {
      var s1 := Tick(s);
      assert s1 == s.(elapsedTime := s.elapsedTime + 1, intervalElapsedTime := s.intervalElapsedTime + 1);
      WithinInterval(s1, k - 1);
    }
  }

  /** The state at the end of the run from interval i: on the last interval at its
      end, with every later target commanded. */
  function RunEnd(s: Snapshot): Snapshot
    requires s.activeIntervalIndex < |Intervals(s)|
  {
    var ivs := Intervals(s);
    var i := s.activeIntervalIndex;
    Snapshot(s.isActive, s.isPaused, s.currentWorkout, |ivs| - 1, s.elapsedTime + TicksOf(ivs[i..]) - 1,
             Max0(ivs[|ivs| - 1].duration), s.lastCoachFeedback, s.commands + Targets(ivs[i + 1..]))
  }

  /** Finishing a non-last interval from its start reaches the start of the next one. */
  lemma {:induction false} ToNextInterval(s: Snapshot)
    requires Running(s) && s.activeIntervalIndex + 1 < |Intervals(s)| && s.intervalElapsedTime == 0
    ensures var ivs := Intervals(s);
            var i := s.activeIntervalIndex;
            var m := Max0(ivs[i].duration);
            TickN(s, m + 1) == NextStart(s)
  {
    var ivs := Intervals(s);
    var i := s.activeIntervalIndex;
    var m := Max0(ivs[i].duration);
    WithinInterval(s, m);
    var s1 := TickN(s, m);
    TickNAdd(s, m, 1);
    assert TickN(s1, 1) == Tick(s1);
  }

  /** Finishing the last interval from its start: its end, then the stopping tick. */
  lemma {:induction false} ThroughLastInterval(s: Snapshot)
    requires Running(s) && s.activeIntervalIndex + 1 == |Intervals(s)| && s.intervalElapsedTime == 0
    ensures var t := TicksOf(Intervals(s)[s.activeIntervalIndex..]);
            && t >= 1
            && TickN(s, t - 1) == RunEnd(s)
            && TickN(s, t) == Stop(RunEnd(s))
  {
    var ivs := Intervals(s);
    var i := s.activeIntervalIndex;
    var m := Max0(ivs[i].duration);
    assert ivs[i..] == [ivs[i]];
    assert ivs[i..][1..] == [];
    assert TicksOf(ivs[i..]) == m + 1;
    assert ivs[i + 1..] == [];
    WithinInterval(s, m);
    var s1 := TickN(s, m);
    assert s1 == RunEnd(s);
    TickNAdd(s, m, 1);
    assert TickN(s1, 1) == Tick(s1);
  }

  /** The start of the interval after the current one, reached by finishing it. */
  function NextStart(s: Snapshot): Snapshot
    requires s.activeIntervalIndex + 1 < |Intervals(s)|
  {
    var ivs := Intervals(s);
    var i := s.activeIntervalIndex;
    Snapshot(s.isActive, s.isPaused, s.currentWorkout, i + 1, s.elapsedTime + Max0(ivs[i].duration) + 1, 0,
             s.lastCoachFeedback, s.commands + [ivs[i + 1].targetPower])
  }

  lemma {:induction false} RunEndOfNext(s: Snapshot)
    requires s.activeIntervalIndex + 1 < |Intervals(s)|
    ensures RunEnd(NextStart(s)) == RunEnd(s)
  {
    var ivs := Intervals(s);
    var i := s.activeIntervalIndex;
    var s2 := NextStart(s);
    assert Intervals(s2) == ivs && s2.activeIntervalIndex == i + 1;
    NextSuffixes(ivs, i, s.elapsedTime, s.commands);
  }

  /** The arithmetic of RunEndOfNext, stated on the intervals alone. */
  lemma NextSuffixes(ivs: seq<Interval>, i: nat, e: nat, cs: seq<int>)
    requires i + 1 < |ivs|
    ensures e + Max0(ivs[i].duration) + 1 + TicksOf(ivs[i + 1..]) == e + TicksOf(ivs[i..])
    ensures cs + [ivs[i + 1].targetPower] + Targets(ivs[i + 2..]) == cs + Targets(ivs[i + 1..])
  {
    TicksOfSuffix(ivs, i);
    TargetsSuffix(ivs, i + 1);
  }

  lemma TicksOfSuffix(ivs: seq<Interval>, i: nat)
    requires i < |ivs|
    ensures TicksOf(ivs[i..]) == IntervalTicks(ivs[i]) + TicksOf(ivs[i + 1..])
  {
    assert ivs[i..][1..] == ivs[i + 1..];
  }

  lemma TargetsSuffix(ivs: seq<Interval>, i: nat)
    requires i < |ivs|
    ensures Targets(ivs[i..]) == [ivs[i].targetPower] + Targets(ivs[i + 1..])
  {
    assert ivs[i..][1..] == ivs[i + 1..];
  }

  /** From the start of interval i, the run reaches RunEnd after all but one of the
      remaining ticks, and the next tick stops it. */
  lemma {:induction false} RunFrom(s: Snapshot)
    requires Running(s) && s.activeIntervalIndex < |Intervals(s)| && s.intervalElapsedTime == 0
    ensures TicksOf(Intervals(s)[s.activeIntervalIndex..]) >= 1
    ensures TickN(s, TicksOf(Intervals(s)[s.activeIntervalIndex..]) - 1) == RunEnd(s)
    ensures TickN(s, TicksOf(Intervals(s)[s.activeIntervalIndex..])) == Stop(RunEnd(s))
    decreases |Intervals(s)| - s.activeIntervalIndex
  {
    var ivs := Intervals(s);
    var i := s.activeIntervalIndex;
    if i + 1 < |ivs| {
      var s2 := NextStart(s);
      var a, b, t := Max0(ivs[i].duration) + 1, TicksOf(Intervals(s2)[s2.activeIntervalIndex..]), TicksOf(ivs[i..]);
      assert Running(s2) && s2.activeIntervalIndex < |Intervals(s2)| && s2.intervalElapsedTime == 0;
      RunFrom(s2);
      assert t == a + b by { NextTicks(s); }
      assert TickN(s, a) == s2 by { ToNextInterval(s); }
      assert RunEnd(s2) == RunEnd(s) by { RunEndOfNext(s); }
      ComposeRuns(s, a, s2, b, t, RunEnd(s), Stop(RunEnd(s)));
    } else {
      ThroughLastInterval(s);
    }
  }

  /** The ticks left from interval i are those of interval i and those left from i + 1. */
  lemma NextTicks(s: Snapshot)
    requires s.activeIntervalIndex + 1 < |Intervals(s)|
    ensures var s2 := NextStart(s);
            TicksOf(Intervals(s)[s.activeIntervalIndex..])
            == Max0(Intervals(s)[s.activeIntervalIndex].duration) + 1 + TicksOf(Intervals(s2)[s2.activeIntervalIndex..])
  {
    var ivs := Intervals(s);
    var i := s.activeIntervalIndex;
    var s2 := NextStart(s);
    assert Intervals(s2) == ivs && s2.activeIntervalIndex == i + 1;
    TicksOfSuffix(ivs, i);
  }

  /** A run of a ticks followed by a run of b ticks is a run of a + b ticks. */
  lemma ComposeRuns(s: Snapshot, a: nat, mid: Snapshot, b: nat, t: nat, last: Snapshot, after: Snapshot)
    requires b >= 1 && t == a + b && TickN(s, a) == mid
    requires TickN(mid, b - 1) == last && TickN(mid, b) == after
    ensures TickN(s, t - 1) == last && TickN(s, t) == after
  {
    TickNAdd(s, a, b - 1);
    TickNAdd(s, a, b);
  }

  /** The complete schedule of a started workout with at least one interval, ticked with
      no pause and no skip: it is still active after TicksOf(intervals) - 1 ticks, with
      elapsedTime counting every one of them, and the next tick stops it. Over the run
      the commands are the interval targets in order, then the 100 W fallback. */
  lemma Schedule(s0: Snapshot, w: Workout)
    requires |w.intervals| >= 1
    ensures var s := Start(s0, w);
            var t := TicksOf(w.intervals);
            && t >= 1
            && TickN(s, t - 1).isActive
            && TickN(s, t - 1).elapsedTime == t - 1
            && TickN(s, t) == Snapshot(false, false, None, 0, 0, 0, None, s0.commands + Targets(w.intervals) + [FallbackPower])
  {
    var s := Start(s0, w);
    assert w.intervals[0..] == w.intervals;
    RunFrom(s);
    StartRunEnd(s0, w);
  }

  /** Where the run of a started workout ends: on its last interval, at that interval's
      end, with every target commanded. */
  lemma StartRunEnd(s0: Snapshot, w: Workout)
    requires |w.intervals| >= 1
    ensures RunEnd(Start(s0, w))
         == Snapshot(true, false, Some(w), |w.intervals| - 1, TicksOf(w.intervals) - 1,
                     Max0(w.intervals[|w.intervals| - 1].duration), None, s0.commands + Targets(w.intervals))
  {
    var ivs := w.intervals;
    var s := Snapshot(true, false, Some(w), 0, 0, 0, None, s0.commands + [ivs[0].targetPower]);
    assert Start(s0, w) == s;
    assert ivs[0..] == ivs;
    assert s.commands + Targets(ivs[1..]) == s0.commands + Targets(ivs) by {
      TargetsSuffix(ivs, 0);
    }
  }

  /** Before the stopping tick the run is active at every tick. */
  lemma ActiveBeforeEnd(s0: Snapshot, w: Workout, k: nat)
    requires |w.intervals| >= 1 && k < TicksOf(w.intervals)
    ensures TickN(Start(s0, w), k).isActive
  {
    var s := Start(s0, w);
    var t := TicksOf(w.intervals);
    Schedule(s0, w);
    var sk := TickN(s, k);
    TickNAdd(s, k, t - 1 - k);
    if !sk.isActive {
      IdleStaysIdle(sk, t - 1 - k);
    }
  }

  /** A workout without intervals commands nothing on start and stops on the first tick. */
  lemma EmptyWorkoutStopsAtOnce(s0: Snapshot, w: Workout)
    requires |w.intervals| == 0
    ensures Tick(Start(s0, w)) == Snapshot(false, false, None, 0, 0, 0, None, s0.commands + [FallbackPower])
  {
  }
}
