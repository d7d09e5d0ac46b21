/**
  The workout-session state machine as values: the five pieces of state
  the player keeps, the operations that change them, the progress bar's
  value, and what each operation promises.
 */
module Session {
  import opened Options
  import opened Workouts

  /** Seconds on the clock at the start of every exercise. */
  const ExerciseSeconds := 60
  /** Weekly-goal percentage when the app starts. */
  const InitialGoal := 65
  /** Percentage points a completed workout adds to the weekly goal. */
  const GoalStep := 15
  /** The weekly goal never goes above this. */
  const GoalCap := 100

  /**
    The player's state: the selected workout (`None` on the start screen),
    whether the countdown is running, the current exercise and the seconds
    left in it, and the weekly-goal percentage.
   */
  datatype State = State(
    selected: Option<Workout>,
    active: bool,
    index: int,
    timeLeft: int,
    weeklyGoal: int)

  function Min(a: int, b: int): (m: int)
    ensures m <= a && m <= b && (m == a || m == b)
  {
    if a <= b then a else b
  }

  /** The state when the app opens: the start screen, with the goal at its starting value. */
  function Init(): (r: State)
    ensures Inv(r)
    ensures r.selected.None? && !r.active && r.weeklyGoal == InitialGoal
  {
    State(None, false, 0, 0, InitialGoal)
  }

  /**
    What holds in every state the player reaches: the clock is within one
    minute, the goal between its starting value and its cap, a selection
    has a valid exercise index, and with no selection the index and the
    clock are both zero.
   */
  predicate Inv(s: State) {
    0 <= s.timeLeft <= ExerciseSeconds &&
    InitialGoal <= s.weeklyGoal <= GoalCap &&
    (s.selected.None? ==> s.index == 0 && s.timeLeft == 0) &&
    (s.selected.Some? ==> 0 <= s.index < |s.selected.value.exercises|)
  }

  /** Number of exercises of the selected workout. */
  function Count(s: State): int
    requires s.selected.Some?
  {
    |s.selected.value.exercises|
  }

  /** `startWorkout(w)`: select `w` and run its first exercise from a full minute. */
  function Start(s: State, w: Workout): (r: State)
    ensures Inv(s) && Playable(w) ==> Inv(r)
    ensures r.selected == Some(w) && r.weeklyGoal == s.weeklyGoal
    ensures Playable(w) ==> Progress(r) == 0.0
  {
    s.(selected := Some(w), active := true, index := 0, timeLeft := ExerciseSeconds)
  }

  /** `pauseWorkout()`. */
  function Pause(s: State): (r: State)
    ensures Inv(s) ==> Inv(r)
    ensures !r.active && r.(active := s.active) == s
  {
    s.(active := false)
  }

  /** `resumeWorkout()`. */
  function Resume(s: State): (r: State)
    ensures Inv(s) ==> Inv(r)
    ensures r.active && r.(active := s.active) == s
  {
    s.(active := true)
  }

  /** `stopWorkout()`: leave the session without crediting the weekly goal. */
  function Stop(s: State): (r: State)
    ensures Inv(s) ==> Inv(r)
    ensures r.selected.None? && !r.active && r.weeklyGoal == s.weeklyGoal
  {
    s.(active := false, selected := None, index := 0, timeLeft := 0)
  }

  /**
    One firing of the countdown effect: a running clock loses one second;
    a running clock at zero moves to the next exercise, or after the last
    one ends the session and credits the weekly goal; otherwise nothing.
   */
  function Tick(s: State): (r: State)
    ensures Inv(s) ==> Inv(r)
    ensures Inv(s) ==> s.weeklyGoal <= r.weeklyGoal
  {
    if s.active && s.timeLeft > 0 then
      s.(timeLeft := s.timeLeft - 1)
    else if s.timeLeft == 0 && s.active && s.selected.Some? then
      if s.index < |s.selected.value.exercises| - 1 then
        s.(index := s.index + 1, timeLeft := ExerciseSeconds)
      else
        s.(active := false, selected := None, index := 0,
           weeklyGoal := Min(GoalCap, s.weeklyGoal + GoalStep))
    else
      s
  }

  /**
    The progress bar's percentage: exercises done plus the elapsed part of
    the current one, over the number of exercises.
   */
  function Progress(s: State): (p: real)
    requires s.selected.Some? && Playable(s.selected.value)
    ensures Inv(s) ==> 0.0 <= p <= 100.0
  {
    var n := Count(s);
    var done := s.index as real + (ExerciseSeconds - s.timeLeft) as real / 60.0;
    PercentBounds(done, n);
    (done / n as real) * 100.0
  }

  lemma PercentBounds(done: real, n: int)
    requires n > 0
    ensures 0.0 <= done <= n as real ==> 0.0 <= (done / n as real) * 100.0 <= 100.0
  {
    if 0.0 <= done <= n as real {
      assert done / n as real <= 1.0;
    }
  }

  lemma PercentMonotone(x: real, y: real, n: int)
    requires n > 0 && x <= y
    ensures (x / n as real) * 100.0 <= (y / n as real) * 100.0
  {
    assert x / n as real <= y / n as real;
  }

  // ---- what each operation does ----

  /**
    Starting a workout ignores the previous session entirely: two states
    that differ anywhere but in the weekly goal lead to the same session,
    at the first exercise, a full minute left and zero progress.
   */
  lemma StartOpensSession(s: State, t: State, w: Workout)
    requires Playable(w) && s.weeklyGoal == t.weeklyGoal
    ensures Start(s, w) == Start(t, w)
    ensures Start(s, w).selected == Some(w) && Start(s, w).active
    ensures Start(s, w).index == 0 && Start(s, w).timeLeft == ExerciseSeconds
    ensures Start(s, w).weeklyGoal == s.weeklyGoal
    ensures Progress(Start(s, w)) == 0.0
  {
  }

  /** A running clock above zero loses exactly one second and nothing else changes. */
  lemma TickCountsDown(s: State)
    requires s.active && s.timeLeft > 0
    ensures Tick(s).timeLeft == s.timeLeft - 1
    ensures Tick(s).index == s.index && Tick(s).selected == s.selected
    ensures Tick(s).active && Tick(s).weeklyGoal == s.weeklyGoal
  {
  }

  /**
    A running clock at zero on an exercise before the last moves to the
    next exercise with a full minute; the progress bar does not move.
   */
  lemma TickAdvances(s: State)
    requires Inv(s) && s.active && s.timeLeft == 0 && s.selected.Some?
    requires s.index < Count(s) - 1
    ensures Tick(s).index == s.index + 1 && Tick(s).timeLeft == ExerciseSeconds
    ensures Tick(s).selected == s.selected && Tick(s).active
    ensures Tick(s).weeklyGoal == s.weeklyGoal
    ensures Progress(Tick(s)) == Progress(s)
  {
  }

  /**
    A running clock at zero on the last exercise ends the session and
    raises the weekly goal by 15 points, capped at 100: the goal never
    falls and never passes the cap.
   */
  lemma TickCompletes(s: State)
    requires Inv(s) && s.active && s.timeLeft == 0 && s.selected.Some?
    requires s.index == Count(s) - 1
    ensures Tick(s) == State(None, false, 0, 0, Min(GoalCap, s.weeklyGoal + GoalStep))
    ensures s.weeklyGoal <= Tick(s).weeklyGoal <= GoalCap
    ensures Tick(s).weeklyGoal == GoalCap || Tick(s).weeklyGoal == s.weeklyGoal + GoalStep
  {
  }

  /** The session ends on a tick exactly when the last exercise's clock has run out. */
  lemma TickEndsSessionIff(s: State)
    requires Inv(s) && s.selected.Some?
    ensures Tick(s).selected.None? <==>
      s.active && s.timeLeft == 0 && s.index == Count(s) - 1
  {
  }

  /** A paused or stopped player does not move on a tick. */
  lemma TickWhileInactive(s: State)
    requires !s.active
    ensures Tick(s) == s
  {
  }

  /**
    With nothing selected a tick changes nothing, even if the running flag
    was left on: a late tick cannot touch a session that has ended.
   */
  lemma TickWithoutSelection(s: State)
    requires Inv(s) && s.selected.None?
    ensures Tick(s) == s
  {
  }

  /** Only a tick that ends a session changes the weekly goal, and never downward. */
  lemma GoalOnlyRises(s: State, w: Workout)
    requires Inv(s)
    ensures Start(s, w).weeklyGoal == s.weeklyGoal
    ensures Pause(s).weeklyGoal == s.weeklyGoal && Resume(s).weeklyGoal == s.weeklyGoal
    ensures Stop(s).weeklyGoal == s.weeklyGoal
    ensures s.weeklyGoal <= Tick(s).weeklyGoal <= GoalCap
    ensures Tick(s).weeklyGoal != s.weeklyGoal ==> s.selected.Some? && Tick(s).selected.None?
  {
  }

  /** Pausing then resuming restores the exercise, the clock and the selection. */
  lemma PauseThenResume(s: State)
    ensures Resume(Pause(s)).index == s.index
    ensures Resume(Pause(s)).timeLeft == s.timeLeft
    ensures Resume(Pause(s)).selected == s.selected
    ensures Resume(Pause(s)).weeklyGoal == s.weeklyGoal
    ensures s.active ==> Resume(Pause(s)) == s
  {
  }

  /** Stopping from any state leaves the start screen with a cleared session. */
  lemma StopClears(s: State)
    ensures !Stop(s).active && Stop(s).selected.None?
    ensures Stop(s).index == 0 && Stop(s).timeLeft == 0
    ensures Stop(s).weeklyGoal == s.weeklyGoal
    ensures Inv(s) ==> Inv(Stop(s))
  {
  }

  /**
    Within a session the progress bar never moves back: a tick that keeps
    the session leaves the percentage equal or higher.
   */
  lemma ProgressNeverDecreases(s: State)
    requires Inv(s) && s.selected.Some?
    requires Tick(s).selected.Some?
    ensures Tick(s).selected == s.selected
    ensures Progress(s) <= Progress(Tick(s))
  {
    var t := Tick(s);
    var n := Count(s);
    var before := s.index as real + (ExerciseSeconds - s.timeLeft) as real / 60.0;
    var after := t.index as real + (ExerciseSeconds - t.timeLeft) as real / 60.0;
    assert before <= after;
    PercentMonotone(before, after, n);
  }

  /** The bar is full exactly when the last exercise's clock reads zero. */
  lemma ProgressFullIff(s: State)
    requires Inv(s) && s.selected.Some?
    ensures Progress(s) == 100.0 <==> s.index == Count(s) - 1 && s.timeLeft == 0
  {
    var n := Count(s);
    var done := s.index as real + (ExerciseSeconds - s.timeLeft) as real / 60.0;
    if Progress(s) == 100.0 {
      assert done == n as real;
    }
  }
}
