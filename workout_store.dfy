/** The workout store of src/lib/workout/workoutStore.ts as an object whose actions
    overwrite its fields in place. `commands` is the ghost log of the setTargetPower
    calls made on the Bluetooth store. Every action is proved to perform exactly the
    corresponding transition of WorkoutTimeline, where the lemmas about runs live. */
module WorkoutStore {
  import opened Common
  import opened WorkoutTypes
  import opened WorkoutTimeline

  class Store {
    var isActive: bool
    var isPaused: bool
    var currentWorkout: Option<Workout>
    var activeIntervalIndex: nat
    var elapsedTime: nat
    var intervalElapsedTime: nat
    var lastCoachFeedback: Option<string>
    ghost var commands: seq<int>

    ghost function State(): Snapshot
      reads this
    {
      Snapshot(isActive, isPaused, currentWorkout, activeIntervalIndex, elapsedTime,
               intervalElapsedTime, lastCoachFeedback, commands)
    }

    ghost predicate Valid()
      reads this
    {
      WorkoutTimeline.Valid(State())
    }

    constructor ()
      ensures State() == Initial && Valid()
    {
      isActive, isPaused, currentWorkout := false, false, None;
      activeIntervalIndex, elapsedTime, intervalElapsedTime := 0, 0, 0;
      lastCoachFeedback := None;
      commands := [];
    }

    /** The setTargetPower side effect, seen from this store: one entry in the log. */
    method SetTargetPower(watts: int)
      modifies this
      ensures State() == old(State()).(commands := old(commands) + [watts])
    {
      commands := commands + [watts];
    }

    method StartWorkout(w: Workout)
      modifies this
      ensures State() == Start(old(State()), w) && Valid()
    {
      isActive, isPaused, currentWorkout := true, false, Some(w);
      activeIntervalIndex, elapsedTime, intervalElapsedTime := 0, 0, 0;
      lastCoachFeedback := None;
      if |w.intervals| > 0 {
        SetTargetPower(w.intervals[0].targetPower);
      }
    }

    method PauseWorkout()
      requires Valid()
      modifies this
      ensures State() == Pause(old(State())) && Valid()
    {
      isPaused := true;
    }

    method ResumeWorkout()
      requires Valid()
      modifies this
      ensures State() == Resume(old(State())) && Valid()
    {
      isPaused := false;
    }

    method StopWorkout()
      modifies this
      ensures State() == Stop(old(State())) && Valid()
    {
      isActive, isPaused, currentWorkout := false, false, None;
      activeIntervalIndex, elapsedTime, intervalElapsedTime := 0, 0, 0;
      SetTargetPower(FallbackPower);
    }

    method Tick()
      requires Valid()
      modifies this
      ensures State() == WorkoutTimeline.Tick(old(State())) && Valid()
    {
      TransitionsPreserveValid(State());
      if !isActive || isPaused || currentWorkout.None? {
        return;
      }
      var ivs := currentWorkout.value.intervals;
      var i := activeIntervalIndex;
      if i >= |ivs| {
        StopWorkout();
        return;
      }
      if intervalElapsedTime >= ivs[i].duration {
        var next := i + 1;
        if next < |ivs| {
          activeIntervalIndex, intervalElapsedTime, elapsedTime := next, 0, elapsedTime + 1;
          SetTargetPower(ivs[next].targetPower);
        } else {
          StopWorkout();
        }
      } else {
        elapsedTime, intervalElapsedTime := elapsedTime + 1, intervalElapsedTime + 1;
      }
    }

    method SkipInterval()
      requires Valid()
      modifies this
      ensures State() == Skip(old(State())) && Valid()
    {
      TransitionsPreserveValid(State());
      if currentWorkout.None? {
        return;
      }
      var next := activeIntervalIndex + 1;
      if next < |currentWorkout.value.intervals| {
        var target := currentWorkout.value.intervals[next].targetPower;
        activeIntervalIndex, intervalElapsedTime := next, 0;
        SetTargetPower(target);
      } else {
        StopWorkout();
      }
    }
  }
}
