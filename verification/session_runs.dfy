/**
  Runs of several ticks: a countdown, one whole exercise, one whole
  workout, and a pause that outlasts any number of ticks.
 */
module SessionRuns {
  import opened Options
  import opened Workouts
  import opened Session

  /** The state after `k` consecutive ticks. */
  function Ticks(s: State, k: nat): State
    decreases k
  {
    if k == 0 then s else Ticks(Tick(s), k - 1)
  }

  /** Ticks compose: `a` ticks then `b` ticks are `a + b` ticks. */
  lemma {:induction false} TicksAdd(s: State, a: nat, b: nat)
    ensures Ticks(s, a + b) == Ticks(Ticks(s, a), b)
    decreases a
  {
    if a > 0 {
      TicksAdd(Tick(s), a - 1, b);
    }
  }

  /** While the clock has `k` seconds or more, `k` ticks only take `k` seconds off it. */
  lemma {:induction false} CountdownTicks(s: State, k: nat)
    requires s.active && k <= s.timeLeft
    ensures Ticks(s, k) == s.(timeLeft := s.timeLeft - k)
    decreases k
  {
    if k > 0 {
      CountdownTicks(Tick(s), k - 1);
    }
  }

  /** Paused, the player stays exactly where it is for any number of ticks. */
  lemma {:induction false} PausedTicks(s: State, k: nat)
    requires !s.active
    ensures Ticks(s, k) == s
    decreases k
  {
    if k > 0 {
      PausedTicks(Tick(s), k - 1);
    }
  }

  /**
    Pausing, letting any number of ticks go by and resuming continues from
    the exact exercise and clock reading at the pause.
   */
  lemma PauseTicksResume(s: State, k: nat)
    requires s.active
    ensures Resume(Ticks(Pause(s), k)) == s
  {
    PausedTicks(Pause(s), k);
  }

  /** Clock readings run from 0 to 60 and the invariant holds along any run. */
  lemma {:induction false} TicksKeepInv(s: State, k: nat)
    requires Inv(s)
    ensures Inv(Ticks(s, k))
    decreases k
  {
    if k > 0 {
      TicksKeepInv(Tick(s), k - 1);
    }
  }

  /**
    From a full minute on an exercise before the last, 60 one-second ticks
    and the immediate advance (61 ticks) bring the next exercise with a
    full minute.
   */
  lemma ExerciseTakesAMinute(s: State)
    requires Inv(s) && s.active && s.selected.Some?
    requires s.timeLeft == ExerciseSeconds && s.index < Count(s) - 1
    ensures Ticks(s, ExerciseSeconds + 1) == s.(index := s.index + 1)
  {
    TicksAdd(s, ExerciseSeconds, 1);
    CountdownTicks(s, ExerciseSeconds);
  }

  /**
    From a full minute on the last exercise, 61 ticks end the session and
    credit the weekly goal.
   */
  lemma LastExerciseCompletes(s: State)
    requires Inv(s) && s.active && s.selected.Some?
    requires s.timeLeft == ExerciseSeconds && s.index == Count(s) - 1
    ensures Ticks(s, ExerciseSeconds + 1) ==
      State(None, false, 0, 0, Min(GoalCap, s.weeklyGoal + GoalStep))
  {
    TicksAdd(s, ExerciseSeconds, 1);
    CountdownTicks(s, ExerciseSeconds);
  }

  /** From the start of exercise `i`, the remaining exercises take 61 ticks each, then the session ends. */
  lemma {:induction false} RemainingExercisesComplete(s: State)
    requires Inv(s) && s.active && s.selected.Some? && s.timeLeft == ExerciseSeconds
    ensures Ticks(s, (ExerciseSeconds + 1) * (Count(s) - s.index)) ==
      State(None, false, 0, 0, Min(GoalCap, s.weeklyGoal + GoalStep))
    decreases Count(s) - s.index
  {
    var m := ExerciseSeconds + 1;
    if s.index == Count(s) - 1 {
      LastExerciseCompletes(s);
    } else {
      var next := s.(index := s.index + 1);
      ExerciseTakesAMinute(s);
      assert m * (Count(s) - s.index) == m + m * (Count(next) - next.index);
      TicksAdd(s, m, m * (Count(next) - next.index));
      RemainingExercisesComplete(next);
    }
  }

  /**
    A workout of `n` exercises started from the start screen runs to the
    end in 61 * n ticks (60 one-second ticks and one immediate advance or
    completion per exercise), returning to the start screen with the weekly
    goal raised by 15 points, capped at 100.
   */
  lemma WorkoutCompletes(s: State, w: Workout)
    requires Inv(s) && Playable(w)
    ensures Ticks(Start(s, w), (ExerciseSeconds + 1) * |w.exercises|) ==
      State(None, false, 0, 0, Min(GoalCap, s.weeklyGoal + GoalStep))
  {
    RemainingExercisesComplete(Start(s, w));
  }

  /** No run of ticks within one session moves the progress bar back. */
  lemma {:induction false} ProgressMonotoneOverRun(s: State, k: nat)
    requires Inv(s) && s.selected.Some?
    requires Ticks(s, k).selected.Some?
    ensures Ticks(s, k).selected == s.selected
    ensures Progress(s) <= Progress(Ticks(s, k))
    decreases k
  {
    if k > 0 {
      var t := Tick(s);
      if t.selected.None? {
        TickWithoutSelection(t);
        EndedSessionTicks(t, k - 1);
        assert false;
      }
      ProgressNeverDecreases(s);
      ProgressMonotoneOverRun(t, k - 1);
    }
  }

  /** Once the session has ended, further ticks leave the player on the start screen. */
  lemma {:induction false} EndedSessionTicks(s: State, k: nat)
    requires Inv(s) && s.selected.None?
    ensures Ticks(s, k) == s
    decreases k
  {
    if k > 0 {
      TickWithoutSelection(s);
      EndedSessionTicks(s, k - 1);
    }
  }
}
