# Workout timer: countdown state machine and duration editing

This project models the logic of a single-screen workout timer written in React.

- **Setup screen** (`src/App.jsx`). The user edits a duration `time`, in seconds, as a minutes field and a seconds field. Each field's `onChange` rebuilds `time` from the typed number and the other field's current value. The seconds are capped at 59 from above only. `handleStart` shows the countdown screen and bumps a `key`, so React mounts a fresh countdown. `handleNewTimer` goes back to setup.
- **Countdown screen** (`src/Timer.jsx`):
  - Preparation counts `prepCount` 3, 2, 1, one second per step, then starts running.
  - Running counts `timeLeft` down once per second. The tick that finds it at 1 or below clamps it to 0, stops running, plays the done sound and shows the overlay.
  - Clicking the overlay restarts preparation. "Start New Timer" and Cancel go back to setup.
  - The start sound plays when the preparation effect runs with `prepCount === 3`.
- **Display**: both screens split seconds into `Math.floor(t / 60)` and `t % 60`, each padded to two characters. The countdown screen defines a `formatTime` helper for this but renders the same split inline, as the setup screen does; nothing calls `formatTime`. It is modelled with the inline split it duplicates.

Modules:

- `Clock` (clock.dfy) holds the display arithmetic and strings. It models JavaScript's operators explicitly. `Math.floor` floors, but `%` keeps the sign of the dividend. `String(n)` of an integer is modelled as its decimal digits with a leading minus sign when it is negative, which is what JavaScript prints below 10^21. `padStart(2, "0")` pads on the left.
- `TimerState` (timer_state.dfy) is the countdown screen as a pure state machine over `Snapshot` values.
  - Every callback or click is one transition function.
  - React re-runs an effect only when a dependency changes. The setters `SetPrep` and `SetRunning` therefore fold in the preparation effect (start sound) and the running effect (the interval is cleared and, when running, started again).
  - `intervalLive` records whether `intervalRef` holds an uncleared interval. `ended` records that `onEnd` was called, after which the host unmounts the screen. `startCues` and `doneCues` count sound plays.
  - The lemmas prove exact step counts, bounds and how many times each sound plays.
- `TimerComponent` (timer_component.dfy) is the same screen as a class whose fields the methods update in place. Each method is proved to change the fields exactly as the matching `TimerState` transition changes a snapshot.
- `App` (app.dfy) holds the duration-editing arithmetic as functions with their lemmas. Its `AppComponent` class owns the setup-screen state and the mounted `Timer` object.

Two behaviours of the code as written are stated as lemmas:

- A negative duration is possible. The seconds field has no lower cap, so typing `-5` with 0 minutes gives `time == -5`. Such a duration is displayed inconsistently (`"-1 : -5"`). The countdown still ends on its first tick.
- If the `duration` prop of a running countdown changed, the countdown would stall. The interval is cleared but `isRunning` stays true, so no new interval starts after preparation. This cannot happen in the app: the edit fields exist only while no countdown is mounted (the `AppComponent` methods require `!timerStarted`), and `AppComponent.Valid()`, which every method keeps, holds the mounted countdown's `duration` equal to `time`. A new duration reaches the countdown only by remounting through `key`.

## Model

| member | source | states |
|---|---|---|
| `Clock.MinutesOf` | src/Timer.jsx:102 | `Math.floor(t / 60)`: the result m satisfies m·60 ≤ t < m·60 + 60, for every integer t |
| `Clock.SecondsOf` | src/Timer.jsx:103 | JavaScript `t % 60`: in [0, 60) and recombining with the minutes to t when t ≥ 0; in (-60, 0] when t < 0; always congruent to t modulo 60 |
| `Clock.NaturalString` | src/Timer.jsx:104 | `String(n)` for n ≥ 0: a non-empty digit string denoting n, without a leading zero, one character exactly when n < 10 |
| `Clock.NumberString` | src/Timer.jsx:104 | `String(n)`: a non-empty shortest notation without leading zeros; digits denoting n when n ≥ 0, a '-' followed by digits denoting -n when n < 0 |
| `Clock.PadTwo` | src/Timer.jsx:104-107 | `padStart(2, "0")`: the result is the input with just enough leading '0's to reach length 2, and the input unchanged if it is already that long |
| `Clock.PadTwoKeepsValue` | src/Timer.jsx:104-107 | padding a digit string keeps it a digit string denoting the same number |
| `Clock.LeadingZeros` | src/Timer.jsx:104-107 | any number of leading zeros leaves the value of a digit string unchanged |
| `Clock.PaddedReadsBack` | src/Timer.jsx:127-129 | a padded non-negative number is a digit string denoting that number, exactly two characters when it is below 100 |
| `Clock.ClockFields` | src/Timer.jsx:127-129 | both display fields are at least two characters long, for every count |
| `Clock.ClockFieldsReadBack` | src/App.jsx:86-88 | for t ≥ 0 the minutes field is at least two digits denoting floor(t/60), the seconds field exactly two digits denoting t % 60 < 60, and minutes·60 + seconds = t |
| `Clock.FormatTime` | src/Timer.jsx:101-108 | `formatTime`, which nothing calls: the formatted text is at least seven characters: two fields of at least two characters and the " : " separator |
| `Clock.FormatTimeParsesBack` | src/Timer.jsx:101-108 | for t ≥ 0, reading the formatted text back (minutes digits, " : ", two seconds digits) gives exactly t |
| `Clock.ParseFields` | src/Timer.jsx:104-107 | two digit fields joined by " : ", with a two-digit seconds field, read back as minutes·60 + seconds |
| `Clock.NegativeCountMisreads` | src/Timer.jsx:127-129 | for every negative t that is not a whole number of minutes, both display fields carry a minus sign, the seconds field shows the magnitude (-t) % 60, and the fields recombine to t − 60 rather than t |
| `Clock.MinusFiveDisplay` | src/App.jsx:86-88 | -5 seconds is displayed as the fields "-1" and "-5", which recombine to -65 |
| `TimerState.SetPrep` | src/Timer.jsx:82-86 | the preparation setters followed by the preparation effect: the start sound plays, once, exactly when (`isPreparing`, `prepCount`) moves to (true, 3) from any other pair; nothing but those two values and the sound count changes |
| `TimerState.SetRunning` | src/Timer.jsx:39-57 | `setIsRunning` followed by the running effect: turning running on starts an interval, turning it off leaves none, setting the same value again starts no second one; an interval stays live only while running, and nothing else changes |
| `TimerState.Mount` | src/Timer.jsx:4-9 | mounting gives preparation at 3 with `timeLeft` equal to the duration, nothing running, no overlay, the start sound played once and the done sound not at all |
| `TimerState.PrepStep` | src/Timer.jsx:82-99 | a preparation step lowers a count above 1 by one and changes nothing else. From 1 it leaves preparation and sets `isRunning`, starting an interval only if it was not already running. No sound plays and the invariant is kept |
| `TimerState.RunTick` | src/Timer.jsx:39-57 | a tick with `timeLeft` > 1 only decrements it. A tick with `timeLeft` ≤ 1 sets it to exactly 0, clears the interval, stops running, shows the overlay and plays the done sound once. `timeLeft` is never negative afterwards and the invariant is kept |
| `TimerState.DurationChanged` | src/Timer.jsx:22-37 | an unchanged duration changes nothing. A new one sets `timeLeft` to it, re-enters preparation at 3, hides the overlay and clears the interval. `isRunning` is left alone, the screen stays mounted, and the start sound plays unless preparation was already at 3 |
| `TimerState.OverlayClick` | src/Timer.jsx:59-68 | the overlay click hides the overlay, restores `timeLeft` to the duration, re-enters preparation at 3 and plays the start sound once |
| `TimerState.Stop` | src/Timer.jsx:70-80 | Cancel clears the interval, stops running and calls `onEnd`; every other field, the duration included, is kept |
| `TimerState.NewTimerClick` | src/Timer.jsx:156-160 | "Start New Timer" only calls `onEnd` |
| `TimerState.PrepStepsReachRunning` | src/Timer.jsx:88-97 | from `prepCount` c, fewer than c steps only lower the count. The c-th step leaves preparation with `isRunning` set, so from 3 exactly three steps reach running. No sound plays on the way |
| `TimerState.TicksComplete` | src/Timer.jsx:41-53 | a running countdown at t completes after exactly t ticks when t ≥ 1, and after exactly one tick when t ≤ 0. Earlier ticks each lower `timeLeft` by one; after completion no further tick arrives |
| `TimerState.TicksStayInRange` | src/Timer.jsx:42-51 | over any number of ticks from the start of a run, `timeLeft` stays within [0, duration] and the invariant holds. The done sound plays at most once, and it has played exactly when the needed number of ticks has passed |
| `TimerState.WholeRun` | src/Timer.jsx:39-99 | from mounting, three preparation steps reach running with `timeLeft` equal to the duration. The needed number of ticks then complete the run with `timeLeft` 0 and the overlay shown, each sound having played exactly once |
| `TimerState.RestartRepeatsMount` | src/Timer.jsx:59-68 | clicking the overlay after a completed run gives exactly the freshly mounted state, apart from the sound counts. The start sound count goes up by one |
| `TimerState.StartCueOnlyAtThree` | src/Timer.jsx:82-86 | every transition either leaves the start-sound count alone or raises it by one while entering preparation at 3 |
| `TimerState.StopIsFinal` | src/Timer.jsx:70-80 | after Cancel no preparation step or tick changes the state. `stopTimer` clears the interval but leaves a pending preparation timeout; it is the unmount after `onEnd` that cancels that one |
| `TimerState.DurationChangeWhileRunningStalls` | src/Timer.jsx:22-37 | changing the duration of a running countdown leaves `isRunning` set with no interval. After the three preparation steps no tick ever arrives, so the countdown never moves |
| `TimerComponent.Timer.constructor` | src/Timer.jsx:3-20 | the fields start as `TimerState.Mount` and satisfy the invariant |
| `TimerComponent.Timer.PrepStep` | src/Timer.jsx:82-99 | updates the fields exactly as `TimerState.PrepStep` and keeps the invariant |
| `TimerComponent.Timer.RunTick` | src/Timer.jsx:41-53 | updates the fields exactly as `TimerState.RunTick` and keeps the invariant |
| `TimerComponent.Timer.DurationChanged` | src/Timer.jsx:22-37 | updates the fields exactly as `TimerState.DurationChanged` and keeps the invariant |
| `TimerComponent.Timer.OverlayClick` | src/Timer.jsx:59-68 | updates the fields exactly as `TimerState.OverlayClick` and keeps the invariant |
| `TimerComponent.Timer.Stop` | src/Timer.jsx:70-80 | updates the fields exactly as `TimerState.Stop` and keeps the invariant |
| `TimerComponent.Timer.NewTimerClick` | src/Timer.jsx:156-160 | updates the fields exactly as `TimerState.NewTimerClick` and keeps the invariant |
| `TimerComponent.Timer.SetPrep` | src/Timer.jsx:82-86 | the two preparation setters followed by the preparation effect, exactly as `TimerState.SetPrep` |
| `TimerComponent.Timer.SetRunning` | src/Timer.jsx:39-57 | `setIsRunning` followed by the running effect, exactly as `TimerState.SetRunning` |
| `App.MinutesEdited` | src/App.jsx:59-63 | for non-negative `time` and minutes, the new time's minutes field is the typed minutes and its seconds field is unchanged |
| `App.MinutesEditKeepsSecondsExactly` | src/App.jsx:59-63 | a minutes edit keeps `time % 60` if and only if the seconds are 0, or the seconds and the typed minutes do not have opposite signs |
| `App.MinutesEditShowsTypedMinutes` | src/App.jsx:58-62 | after a minutes edit the minutes field shows the typed value if and only if the kept `time % 60` is not negative |
| `App.SecondsEditKeepsMinutesExactly` | src/App.jsx:71-76 | a seconds edit keeps the minutes field if and only if the typed value is not negative, for every `time`, negative included |
| `App.SecondsEditShowsTypedSeconds` | src/App.jsx:71-76 | the seconds field shows the typed value (capped at 59) if and only if: the entry is non-negative and either `time` ≥ 0 or the entry is 0; or the entry is in (-60, 0) and `time` < 60 |
| `App.SecondsEdited` | src/App.jsx:72-77 | for non-negative input the minutes field is kept and the new seconds field is the typed value capped at 59. Above 59 the seconds become 59. A negative entry drops the time below the current minutes boundary, because there is no lower cap |
| `App.NegativeSecondsGiveNegativeTime` | src/App.jsx:74-76 | with no whole minutes, a negative seconds entry becomes the duration itself, which is negative |
| `App.EditsCompose` | src/App.jsx:59-77 | setting minutes m ≥ 0 and seconds s in [0, 59], in either order, gives m·60 + s |
| `App.AppComponent.constructor` | src/App.jsx:6-9 | the setup screen starts with `time` 30, not editing, `key` 0 and no countdown mounted |
| `App.AppComponent.HandleStart` | src/App.jsx:14-17 | from the setup screen, `timerStarted` becomes true and `key` goes up by exactly one. A fresh countdown is mounted in the `Mount` state for the current `time`; `time` and `editing` are kept |
| `App.AppComponent.HandleNewTimer` | src/App.jsx:19-21 | `timerStarted` becomes false and the countdown is unmounted; `time`, `key` and `editing` are kept |
| `App.AppComponent.BeginEditing` | src/App.jsx:50-52 | on the setup screen only, a click on the display opens the editing fields |
| `App.AppComponent.EndEditing` | src/App.jsx:64 | on the setup screen while editing, a field losing focus closes the editing fields |
| `App.AppComponent.MinutesChanged` | src/App.jsx:59-63 | on the setup screen while the fields are open, `time` becomes `MinutesEdited` of the old time and the typed minutes; nothing else changes |
| `App.AppComponent.SecondsChanged` | src/App.jsx:72-77 | on the setup screen while the fields are open, `time` becomes `SecondsEdited` of the old time and the typed seconds; nothing else changes |
| `App.AppComponent.Cancel` | src/App.jsx:102-108 | the countdown's Cancel runs `stopTimer` and then its `onEnd`, `handleNewTimer`: back to setup with `time` and `key` kept |
| `App.AppComponent.StartNewTimer` | src/App.jsx:102-108 | the overlay's "Start New Timer" calls `onEnd`: back to setup with `time` and `key` kept |

## Left out

- Scheduling: the real-time behaviour of `setTimeout` and `setInterval` is not modelled. Each firing of a pending callback is one transition, and the order of React's effect cleanups is reduced to its effect on the modelled state.
- The two 3000 ms timeouts (src/Timer.jsx:28-31 and 64-67) are not modelled. They race with the step-wise preparation and set the same two values the last preparation step sets. The one in `handleOverlayClick` is never stored, so `stopTimer` cannot cancel it.
- The reset effect's cleanup passes the ref object to `clearTimeout`, not `.current` (src/Timer.jsx:34). It only concerns the 3000 ms timeout above, so it has no effect on the modelled state.
- Audio: the `Audio` objects, preloading, `play`, and the pause and rewind of the start sound in `stopTimer` are not modelled. A sound play is a counter; a pause is not recorded.
- Input parsing: `Number(e.target.value)` can give NaN or a fraction. The model takes the typed minutes and seconds as integers.
- `Clock.NaturalString` and `Clock.NumberString`: JavaScript numbers are doubles and the model uses unbounded integers. A long minutes entry (src/App.jsx:60-62) can make `time` so large that the model no longer matches: above 2^53 the arithmetic of `minutes * 60 + seconds`, `Math.floor` and `%` is no longer exact, and from 10^21 on `String(n)` prints exponent form ("1e+21"), not the digits these functions produce.
- Presentation: JSX markup, class names, animation keys, the dark-mode toggle, and the `prepCount` shown during preparation are not modelled.
- React StrictMode, which may call a state updater twice in development, is not modelled.
- tailwind.config.js and vite.config.js hold only build and theme settings.
