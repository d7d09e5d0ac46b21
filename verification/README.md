# Workout session player

A model of the workout-session logic of a single-screen fitness app.
The page has a catalog of four workouts, each with five exercises. Picking
one opens a session player. The player counts each exercise down from one
minute and moves to the next exercise at zero. It can be paused, resumed
or stopped. When the last exercise runs out, the session ends and the
weekly-goal percentage rises by 15 points, capped at 100. The page also
shows the clock as `m:ss` and a progress bar.

The model has six modules:

- `Options` (`options.dfy`) holds `Option`, which stands for a `null` selection.
- `Workouts` (`workouts.dfy`) holds the `Workout` record and the static catalog.
- `TimeFormat` (`time_format.dfy`) holds `formatTime`. JavaScript's `Math.floor`,
  truncating `%`, `toString` (for integers a JavaScript number holds
  exactly, below 10^21) and `padStart` are written out. A parser reads
  the rendering back, and the round trip is proved.
- `Session` (`session.dfy`) is the state machine as values. A `State` holds
  the page's five state variables. `Start`, `Pause`, `Resume`, `Stop` and
  `Tick` are functions on it, next to the progress percentage (exact `real`
  arithmetic) and the invariant `Inv`.
- `SessionRuns` (`session_runs.dfy`) covers runs of many ticks: a countdown,
  a whole exercise, a whole workout, and a pause during any number of ticks.
- `Controller` (`controller.dfy`) holds the class `SessionController`. Its
  fields mirror the page's state variables. Its handlers and `Step` (the
  timer effect) update them in place, and each one is proved equal to its
  `Session` counterpart.

A `Tick`/`Step` is one firing of the countdown effect. A running clock
above zero loses one second (the one-second timer is taken as elapsed).
At zero, the advance or the completion happens at once, as its own tick.
So one exercise takes 61 ticks: 60 timed seconds and one immediate advance.
A workout of n exercises ends after 61·n ticks. Counting only the timed
seconds, that is 60·n.

The handlers do not check the current state, and neither does the model.
`Resume` on the start screen sets the running flag with nothing selected.
`Inv` keeps the clock and the index at 0 when nothing is selected, so a
tick then changes nothing.

`Controller.SessionController.Start` requires a workout with at least one
exercise (`Playable`). The exercise lookups and the progress division need
it. `Session.Start` has no such requirement: only its invariant and
progress clauses are conditional on `Playable`. The catalog, which is
the only source of workouts, has five exercises in each.

## Model

| member | source | states |
|---|---|---|
| `Workouts.Catalog` | src/pages/Index.tsx:17-54 | the catalog holds four workouts with distinct ids, each with exactly five exercises |
| `TimeFormat.FloorDiv` | src/pages/Index.tsx:113 | the minutes are the floor of seconds / 60: q·60 ≤ seconds < (q+1)·60 |
| `TimeFormat.JsRem` | src/pages/Index.tsx:114 | JavaScript's remainder r satisfies a = q·b + r for an integer q, lies strictly between -b and b, equals the mathematical remainder for non-negative a and is never positive for negative a, which fixes the truncating remainder uniquely |
| `TimeFormat.PadStart` | src/pages/Index.tsx:115 | padding leaves a long enough string alone, otherwise yields exactly the target length, with the original as suffix and only filler before it |
| `TimeFormat.NatToString` | src/pages/Index.tsx:115 | the decimal rendering of a natural number is non-empty, all digits, one digit exactly below 10, and has no leading zero unless the number is 0 |
| `TimeFormat.IntToString` | src/pages/Index.tsx:115 | an integer renders with a minus sign exactly when negative, followed by digits whose value is the magnitude and with no leading zero except for 0 itself |
| `TimeFormat.FormatTime` | src/pages/Index.tsx:112-116 | for seconds ≥ 0 the text is the decimal minutes (seconds / 60), a colon, and exactly two digits for seconds % 60; a negative count starts with a minus sign |
| `TimeFormat.FormatTimeRoundTrip` | src/pages/Index.tsx:112-116 | parsing the rendering of any seconds ≥ 0 as mins·60 + ss gives the same seconds back |
| `TimeFormat.OneMinute` | src/pages/Index.tsx:112-116 | one minute renders as "1:00" |
| `Session.Progress` | src/pages/Index.tsx:119 | in every reachable state the progress percentage lies in [0, 100] |
| `Session.Min` | src/pages/Index.tsx:84 | `Math.min`: the result is no larger than either argument and equals one of them |
| `Session.Init` | src/pages/Index.tsx:58-62 | the initial state is the start screen, not running, with goal 65, and satisfies the invariant |
| `Session.Start` | src/pages/Index.tsx:90-95 | starting selects the workout, keeps the goal, gives progress 0 for a playable workout, and keeps the invariant |
| `Session.Pause` | src/pages/Index.tsx:97-99 | pausing clears the running flag, changes nothing else, and keeps the invariant |
| `Session.Resume` | src/pages/Index.tsx:101-103 | resuming sets the running flag, changes nothing else, and keeps the invariant |
| `Session.Stop` | src/pages/Index.tsx:105-110 | stopping leaves no selection and not running, keeps the goal, and keeps the invariant |
| `Session.Tick` | src/pages/Index.tsx:72-88 | a tick keeps the invariant (index within the exercise list, clock in [0, 60], goal in [65, 100]) and never lowers the goal |
| `Session.StartOpensSession` | src/pages/Index.tsx:90-95 | start selects the workout, runs, and sets index 0, clock 60 and progress 0, whatever the prior state; only the goal carries over |
| `Session.TickCountsDown` | src/pages/Index.tsx:74-75 | a running clock above 0 loses exactly one second; index, selection, running flag and goal are unchanged |
| `Session.TickAdvances` | src/pages/Index.tsx:76-79 | at 0 before the last exercise the index rises by one and the clock resets to 60; selection and goal are unchanged and progress stays equal |
| `Session.TickCompletes` | src/pages/Index.tsx:80-85 | at 0 on the last exercise the session ends (not running, no selection, index 0) and the goal becomes min(100, goal + 15), never lower and never above 100 |
| `Session.TickEndsSessionIff` | src/pages/Index.tsx:76-85 | a tick ends a session if and only if the player is running, the clock is 0 and the exercise is the last |
| `Session.TickWhileInactive` | src/pages/Index.tsx:74-76 | a tick while not running changes nothing |
| `Session.TickWithoutSelection` | src/pages/Index.tsx:76 | with nothing selected a tick changes nothing, even with the running flag on |
| `Session.GoalOnlyRises` | src/pages/Index.tsx:84 | no operation lowers the goal or takes it above 100; only a tick that ends a session changes it |
| `Session.PauseThenResume` | src/pages/Index.tsx:97-103 | pause then resume keeps index, clock, selection and goal, and restores a running state exactly |
| `Session.StopClears` | src/pages/Index.tsx:105-110 | stop from any state gives not running, no selection, index 0, clock 0, goal unchanged |
| `Session.ProgressNeverDecreases` | src/pages/Index.tsx:119 | a tick that keeps the session keeps its workout and never lowers the progress percentage |
| `Session.ProgressFullIff` | src/pages/Index.tsx:119 | progress is exactly 100 if and only if the last exercise's clock reads 0 |
| `SessionRuns.CountdownTicks` | src/pages/Index.tsx:74-75 | k ticks on a running clock of at least k seconds take exactly k seconds off and change nothing else |
| `SessionRuns.PausedTicks` | src/pages/Index.tsx:74-76 | a paused player is unchanged by any number of ticks |
| `SessionRuns.PauseTicksResume` | src/pages/Index.tsx:97-103 | pause, any number of ticks, then resume returns the running state exactly as it was |
| `SessionRuns.TicksKeepInv` | src/pages/Index.tsx:72-88 | the invariant holds after any number of ticks |
| `SessionRuns.ExerciseTakesAMinute` | src/pages/Index.tsx:74-79 | from a full minute before the last exercise, 61 ticks reach the next exercise at a full minute |
| `SessionRuns.LastExerciseCompletes` | src/pages/Index.tsx:74-85 | from a full minute on the last exercise, 61 ticks end the session and credit the goal |
| `SessionRuns.RemainingExercisesComplete` | src/pages/Index.tsx:72-88 | from a full minute on exercise i of n, 61·(n − i) ticks end the session with the goal credited once |
| `SessionRuns.WorkoutCompletes` | src/pages/Index.tsx:72-95 | a started workout of n exercises ends after 61·n ticks, back at the start screen with goal min(100, goal + 15) |
| `SessionRuns.ProgressMonotoneOverRun` | src/pages/Index.tsx:119 | over any run of ticks within one session the workout stays the same and progress never decreases |
| `SessionRuns.EndedSessionTicks` | src/pages/Index.tsx:76 | once no workout is selected, any number of ticks leave the state unchanged |
| `Controller.SessionController.constructor` | src/pages/Index.tsx:58-62 | the state variables start as nothing selected, not running, index 0, clock 0, goal 65, and satisfy the invariant |
| `Controller.SessionController.Start` | src/pages/Index.tsx:90-95 | updates the fields in place to `Session.Start` of the old state and keeps the invariant |
| `Controller.SessionController.Pause` | src/pages/Index.tsx:97-99 | clears the running flag and changes no other field |
| `Controller.SessionController.Resume` | src/pages/Index.tsx:101-103 | sets the running flag and changes no other field |
| `Controller.SessionController.Stop` | src/pages/Index.tsx:105-110 | clears selection, running flag, index and clock in place; goal unchanged |
| `Controller.SessionController.Step` | src/pages/Index.tsx:72-88 | updates the fields to `Session.Tick` of the old state, keeps the invariant, never lowers the goal or passes 100, and never lowers progress within a session |
| `Controller.SessionController.CurrentExercise` | src/pages/Index.tsx:150 | in a valid state with a selection, the exercise lookup is in bounds and names one of the workout's exercises |

## Left out

- Rendering: the JSX, cards, buttons, icons and the image picked by `currentExerciseIndex % 3`. These are presentation only.
- The dark-mode effect, which writes to the DOM.
- Real time: `setTimeout`, `clearTimeout` and React's re-render scheduling. Each firing of the effect is an explicit `Step`.
- The `duration`, `calories`, `icon` and `gradient` fields of a workout. They are only displayed, so `Workout` holds just id, name and exercises.
- The hard-coded monthly statistics. They are static text.
- JavaScript floating point in the progress value. `Session.Progress` uses exact reals.
- `TimeFormat.FormatTime` for non-integer input and for magnitudes beyond 2^53, where a JavaScript number loses integer precision (so `Math.floor` and `%` no longer match the model) and `toString` switches to exponent notation from 1e21. The model takes unbounded integers; the clock only ever holds whole seconds in [0, 60].
- A workout with no exercises. The type in the source allows one, but the catalog never has one. `Controller.SessionController.Start` requires `Playable`, and `Session.Progress` requires a playable selection. For an empty list the source would divide by zero.
- Guards on the handlers: there are none, in the page or in the model. Start, pause, resume and stop are limited only by which screen shows their buttons.
- Time is counted in effect firings: a two-exercise workout ends after 122 `Step`s, 120 of them timed seconds and 2 immediate advances.
