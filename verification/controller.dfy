/**
  The session player as the page keeps it: five mutable state variables
  and the handlers and timer effect that update them in place. Each
  operation is proved against its counterpart in module Session.
 */
module Controller {
  import opened Options
  import opened Workouts
  import opened Session

  class SessionController {
    var selectedWorkout: Option<Workout>
    var isWorkoutActive: bool
    var currentExerciseIndex: int
    var timeLeft: int
    var weeklyGoal: int

    /** The current values of the five state variables. */
    function Snapshot(): State
      reads this
    {
      State(selectedWorkout, isWorkoutActive, currentExerciseIndex, timeLeft, weeklyGoal)
    }

    ghost predicate Valid()
      reads this
    {
      Inv(Snapshot())
    }

    /** The initial `useState` values. */
    constructor ()
      ensures Valid() && Snapshot() == Init()
    {
      selectedWorkout := None;
      isWorkoutActive := false;
      currentExerciseIndex := 0;
      timeLeft := 0;
      weeklyGoal := InitialGoal;
    }

    /** `startWorkout(workout)`, whatever the previous state. */
    method Start(workout: Workout)
      requires Valid() && Playable(workout)
      modifies this
      ensures Valid() && Snapshot() == Session.Start(old(Snapshot()), workout)
      ensures selectedWorkout == Some(workout) && isWorkoutActive
      ensures currentExerciseIndex == 0 && timeLeft == ExerciseSeconds
      ensures weeklyGoal == old(weeklyGoal)
    {
      selectedWorkout := Some(workout);
      isWorkoutActive := true;
      currentExerciseIndex := 0;
      timeLeft := ExerciseSeconds;
    }

    /** `pauseWorkout()`. */
    method Pause()
      requires Valid()
      modifies this
      ensures Valid() && Snapshot() == Session.Pause(old(Snapshot()))
      ensures !isWorkoutActive
      ensures Snapshot().(active := old(isWorkoutActive)) == old(Snapshot())
    {
      isWorkoutActive := false;
    }

    /** `resumeWorkout()`. */
    method Resume()
      requires Valid()
      modifies this
      ensures Valid() && Snapshot() == Session.Resume(old(Snapshot()))
      ensures isWorkoutActive
      ensures Snapshot().(active := old(isWorkoutActive)) == old(Snapshot())
    {
      isWorkoutActive := true;
    }

    /** `stopWorkout()`, from any state. */
    method Stop()
      requires Valid()
      modifies this
      ensures Valid() && Snapshot() == Session.Stop(old(Snapshot()))
      ensures !isWorkoutActive && selectedWorkout.None?
      ensures currentExerciseIndex == 0 && timeLeft == 0
      ensures weeklyGoal == old(weeklyGoal)
    {
      isWorkoutActive := false;
      selectedWorkout := None;
      currentExerciseIndex := 0;
      timeLeft := 0;
    }

    /**
      One firing of the countdown effect, with the one-second timer taken
      as already elapsed.
     */
    method Step()
      requires Valid()
      modifies this
      ensures Valid() && Snapshot() == Tick(old(Snapshot()))
      ensures old(weeklyGoal) <= weeklyGoal <= GoalCap
      ensures selectedWorkout.Some? ==> selectedWorkout == old(selectedWorkout)
      ensures old(selectedWorkout).Some? && selectedWorkout.Some? ==>
        Progress(old(Snapshot())) <= Progress(Snapshot())
    {
      ghost var before := Snapshot();
      if isWorkoutActive && timeLeft > 0 {
        timeLeft := timeLeft - 1;
      } else if timeLeft == 0 && isWorkoutActive && selectedWorkout.Some? {
        if currentExerciseIndex < |selectedWorkout.value.exercises| - 1 {
          currentExerciseIndex := currentExerciseIndex + 1;
          timeLeft := ExerciseSeconds;
        } else {
          isWorkoutActive := false;
          selectedWorkout := None;
          currentExerciseIndex := 0;
          weeklyGoal := Min(GoalCap, weeklyGoal + GoalStep);
        }
      }
      if before.selected.Some? && selectedWorkout.Some? {
        ProgressNeverDecreases(before);
      }
    }

    /** The name shown for the current exercise. */
    function CurrentExercise(): (name: string)
      reads this
      requires Valid() && selectedWorkout.Some?
      ensures name in selectedWorkout.value.exercises
    {
      selectedWorkout.value.exercises[currentExerciseIndex]
    }
  }
}
