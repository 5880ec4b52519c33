/**
 * The countdown screen as a discrete state machine.
 *
 * A snapshot holds the component's React state (`timeLeft`, `isRunning`,
 * `isPreparing`, `prepCount`, `showOverlay`), the `duration` prop it was
 * given, whether `intervalRef` holds a live running interval, whether
 * `onEnd` has been called (the host then unmounts the screen), and how many
 * times each sound has been played.
 *
 * Each timer callback and each click is one transition. React re-runs an
 * effect only when one of its dependencies changes value, so the
 * preparation effect (which plays the start sound when it runs with
 * `isPreparing` and `prepCount == 3`) and the running effect (which clears
 * the interval and, when `isRunning` is now true, starts a new one) are
 * folded into the setters `SetPrep` and `SetRunning` below.
 */
module TimerState {

  datatype Snapshot = Snapshot(
    duration: int,
    timeLeft: int,
    isRunning: bool,
    isPreparing: bool,
    prepCount: int,
    showOverlay: bool,
    intervalLive: bool,
    ended: bool,
    startCues: nat,
    doneCues: nat)

  /** `x` lies between 0 and `bound`, whichever of the two is smaller. */
  predicate Between(x: int, bound: int)
  {
    if bound >= 0 then 0 <= x <= bound else bound <= x <= 0
  }

  /** What holds in every state the screen can reach. */
  predicate Invariant(s: Snapshot)
  {
    && 1 <= s.prepCount <= 3
    && Between(s.timeLeft, s.duration)
    && (s.intervalLive ==> s.isRunning && !s.isPreparing)
    && (s.showOverlay ==> s.timeLeft == 0 && !s.isRunning && !s.isPreparing)
  }

  /** The state after a completed run, as the last running tick leaves it. */
  function Completed(s: Snapshot): Snapshot
  {
    s.(timeLeft := 0, isRunning := false, intervalLive := false, showOverlay := true, doneCues := s.doneCues + 1)
  }

  /**
   * Mounting the screen: the initial React state, after which the
   * preparation effect runs once with `prepCount == 3` and plays the start
   * sound.
   */
  function Mount(duration: int): (s: Snapshot)
    ensures Invariant(s)
    ensures s.isPreparing && s.prepCount == 3 && !s.isRunning && !s.intervalLive && !s.showOverlay && !s.ended
    ensures s.timeLeft == s.duration == duration
    ensures s.startCues == 1 && s.doneCues == 0
  {
    Snapshot(duration, duration, false, true, 3, false, false, false, 1, 0)
  }

  /**
   * `setIsPreparing(preparing)` and `setPrepCount(count)`, followed by the
   * preparation effect when either value changed. The start sound therefore
   * plays exactly when the pair moves to (preparing, 3) from any other pair.
   */
  function SetPrep(s: Snapshot, preparing: bool, count: int): (r: Snapshot)
    ensures r.isPreparing == preparing && r.prepCount == count
    ensures r.startCues == s.startCues + 1 <==> preparing && count == 3 && !(s.isPreparing && s.prepCount == 3)
    ensures r.startCues == s.startCues || r.startCues == s.startCues + 1
    ensures r.(isPreparing := s.isPreparing, prepCount := s.prepCount, startCues := s.startCues) == s
  {
    var rerun := preparing != s.isPreparing || count != s.prepCount;
    s.(isPreparing := preparing, prepCount := count,
       startCues := if rerun && preparing && count == 3 then s.startCues + 1 else s.startCues)
  }

  /**
   * `setIsRunning(running)`, followed by the running effect when the value
   * changed: its cleanup clears the old interval and, if running, it starts
   * a new one. An interval is live afterwards only while running, and a
   * repeated `setIsRunning(true)` starts no second one.
   */
  function SetRunning(s: Snapshot, running: bool): (r: Snapshot)
    ensures r.isRunning == running
    ensures !s.isRunning && running ==> r.intervalLive
    ensures !running ==> (r.intervalLive <==> s.intervalLive && !s.isRunning)
    ensures s.isRunning && running ==> r.intervalLive == s.intervalLive
    ensures (s.intervalLive ==> s.isRunning) ==> (r.intervalLive ==> r.isRunning)
    ensures r.(isRunning := s.isRunning, intervalLive := s.intervalLive) == s
  {
    s.(isRunning := running, intervalLive := if running != s.isRunning then running else s.intervalLive)
  }

  /**
   * The one-second preparation timeout fires: it counts `prepCount` down, and
   * from 1 it leaves preparation and starts running. It is pending exactly
   * while `isPreparing` holds and the screen is mounted.
   */
  function PrepStep(s: Snapshot): (r: Snapshot)
    requires s.isPreparing && !s.ended
    ensures Invariant(s) ==> Invariant(r)
    ensures Invariant(s) && s.prepCount > 1 ==> r == s.(prepCount := s.prepCount - 1)
    ensures Invariant(s) && s.prepCount == 1 ==>
      !r.isPreparing && r.isRunning && r.prepCount == 1 && (r.intervalLive <==> !s.isRunning)
    ensures r.timeLeft == s.timeLeft && r.duration == s.duration && r.showOverlay == s.showOverlay && !r.ended
    ensures Invariant(s) ==> r.startCues == s.startCues && r.doneCues == s.doneCues
  {
    if s.prepCount > 1 then
      SetPrep(s, true, s.prepCount - 1)
    else
      SetRunning(SetPrep(s, false, s.prepCount), true)
  }

  /**
   * The running interval fires: the updater decrements `timeLeft`; when the
   * previous value is at most 1 it clears the interval, plays the done sound,
   * stops running, shows the overlay and leaves `timeLeft` at exactly 0.
   */
  function RunTick(s: Snapshot): (r: Snapshot)
    requires s.intervalLive && !s.ended
    ensures Invariant(s) ==> Invariant(r)
    ensures r.timeLeft >= 0
    ensures s.timeLeft > 1 ==> r == s.(timeLeft := s.timeLeft - 1) && r.isRunning == s.isRunning
    ensures s.timeLeft <= 1 ==>
      r.timeLeft == 0 && !r.isRunning && !r.intervalLive && r.showOverlay && r.doneCues == s.doneCues + 1
    ensures r.startCues == s.startCues && r.isPreparing == s.isPreparing && r.prepCount == s.prepCount
  {
    if s.timeLeft <= 1 then
      var r := s.(intervalLive := false, doneCues := s.doneCues + 1);
      SetRunning(r, false).(showOverlay := true, timeLeft := 0)
    else
      s.(timeLeft := s.timeLeft - 1)
  }

  /**
   * A new `duration` prop: when it differs from the old one, the reset effect's
   * cleanup clears the running interval, and the effect resets `timeLeft`,
   * preparation and the overlay. `isRunning` is left as it was.
   */
  function DurationChanged(s: Snapshot, duration: int): (r: Snapshot)
    requires !s.ended
    ensures Invariant(s) ==> Invariant(r)
    ensures duration == s.duration ==> r == s
    ensures duration != s.duration ==>
      && r.duration == r.timeLeft == duration
      && r.isPreparing && r.prepCount == 3 && !r.showOverlay && !r.intervalLive
      && r.isRunning == s.isRunning && r.doneCues == s.doneCues && !r.ended
      && r.startCues == s.startCues + (if s.isPreparing && s.prepCount == 3 then 0 else 1)
  {
    if duration == s.duration then s
    else
      var cleared := s.(intervalLive := false);
      SetPrep(cleared.(duration := duration, timeLeft := duration), true, 3).(showOverlay := false)
  }

  /**
   * A click on the completion overlay: hide it, restore `timeLeft` to the
   * duration and re-enter preparation at 3.
   */
  function OverlayClick(s: Snapshot): (r: Snapshot)
    requires s.showOverlay && !s.ended
    ensures Invariant(s) ==> Invariant(r)
    ensures !r.showOverlay && r.timeLeft == s.duration && r.isPreparing && r.prepCount == 3
    ensures r.isRunning == s.isRunning && r.intervalLive == s.intervalLive && r.duration == s.duration
    ensures Invariant(s) ==> r.startCues == s.startCues + 1 && r.doneCues == s.doneCues
  {
    SetPrep(s.(showOverlay := false, timeLeft := s.duration), true, 3)
  }

  /**
   * The Cancel button (`stopTimer`): clear the interval, stop running and
   * call `onEnd`, after which the host unmounts the screen.
   */
  function Stop(s: Snapshot): (r: Snapshot)
    requires !s.ended
    ensures Invariant(s) ==> Invariant(r)
    ensures r.ended && !r.isRunning && !r.intervalLive
    ensures r.timeLeft == s.timeLeft && r.isPreparing == s.isPreparing && r.prepCount == s.prepCount
    ensures r.showOverlay == s.showOverlay && r.startCues == s.startCues && r.doneCues == s.doneCues
    ensures r == s.(isRunning := false, intervalLive := false, ended := true)
  {
    SetRunning(s.(intervalLive := false), false).(ended := true)
  }

  /** The overlay's "Start New Timer" button: only `onEnd` is called. */
  function NewTimerClick(s: Snapshot): (r: Snapshot)
    requires s.showOverlay && !s.ended
    ensures Invariant(s) ==> Invariant(r)
    ensures r.ended && r.(ended := false) == s
  {
    s.(ended := true)
  }

  /** `n` firings of the preparation timeout; none arrives once preparation is over. */
  function PrepSteps(s: Snapshot, n: nat): Snapshot
    decreases n
  {
    if n == 0 || !s.isPreparing || s.ended then s else PrepSteps(PrepStep(s), n - 1)
  }

  /** `n` firings of the running interval; none arrives once it is cleared. */
  function Ticks(s: Snapshot, n: nat): Snapshot
    decreases n
  {
    if n == 0 || !s.intervalLive || s.ended then s else Ticks(RunTick(s), n - 1)
  }

  /** How many ticks a run that starts with `timeLeft` needs to complete. */
  function TicksNeeded(timeLeft: int): nat
  {
    if timeLeft <= 1 then 1 else timeLeft
  }

  /**
   * Preparation from `prepCount == c` takes exactly `c` steps: fewer leave it
   * preparing with the count lowered, and the `c`-th leaves preparation and
   * sets `isRunning`. No sound plays on the way; the interval starts only if
   * the screen was not already running.
   */
  lemma {:induction false} PrepStepsReachRunning(s: Snapshot, n: nat)
    requires Invariant(s) && s.isPreparing && !s.ended
    ensures n < s.prepCount ==> PrepSteps(s, n) == s.(prepCount := s.prepCount - n)
    ensures n >= s.prepCount ==>
      PrepSteps(s, n) == s.(isPreparing := false, prepCount := 1, isRunning := true, intervalLive := !s.isRunning)
    decreases n
  {
    if n > 0 {
      var next := PrepStep(s);
      if s.prepCount > 1 {
        PrepStepsReachRunning(next, n - 1);
      } else {
        assert !next.isPreparing;
        assert PrepSteps(s, n) == next;
      }
    }
  }

  /**
   * A running countdown with `timeLeft` t completes after exactly
   * `TicksNeeded(t)` ticks (t ticks when t >= 1, one tick when t <= 0).
   * Before that, each tick lowers `timeLeft` by one and the timer keeps
   * running; at that tick the done sound plays once, and later firings no
   * longer arrive.
   */
  lemma {:induction false} TicksComplete(s: Snapshot, n: nat)
    requires Invariant(s) && s.intervalLive && !s.ended
    ensures n < TicksNeeded(s.timeLeft) ==> Ticks(s, n) == s.(timeLeft := s.timeLeft - n)
    ensures n >= TicksNeeded(s.timeLeft) ==> Ticks(s, n) == Completed(s)
    decreases n
  {
    if n > 0 {
      var next := RunTick(s);
      if s.timeLeft > 1 {
        TicksComplete(next, n - 1);
      } else {
        assert next == Completed(s);
        assert Ticks(s, n) == next;
      }
    }
  }

  /**
   * `timeLeft` of a running countdown stays between 0 and the duration on
   * every tick, and the done sound has played at most once.
   */
  lemma TicksStayInRange(s: Snapshot, n: nat)
    requires Invariant(s) && s.intervalLive && !s.ended && s.timeLeft == s.duration
    ensures Invariant(Ticks(s, n))
    ensures s.duration >= 0 ==> 0 <= Ticks(s, n).timeLeft <= s.duration
    ensures Ticks(s, n).doneCues <= s.doneCues + 1
    ensures Ticks(s, n).doneCues == s.doneCues + 1 <==> n >= TicksNeeded(s.duration)
  {
    TicksComplete(s, n);
  }

  /**
   * A whole run from mounting: three preparation steps reach running with
   * `timeLeft` still the duration, and `TicksNeeded(duration)` ticks then
   * complete it. Each sound has played exactly once.
   */
  lemma WholeRun(duration: int)
    ensures var running := PrepSteps(Mount(duration), 3);
      && running.isRunning && running.intervalLive && !running.isPreparing
      && running.timeLeft == duration && running.startCues == 1 && running.doneCues == 0
      && var done := Ticks(running, TicksNeeded(duration));
      && done.timeLeft == 0 && done.showOverlay && !done.isRunning && !done.intervalLive
      && done.startCues == 1 && done.doneCues == 1
  {
    var s := Mount(duration);
    PrepStepsReachRunning(s, 3);
    TicksComplete(PrepSteps(s, 3), TicksNeeded(duration));
  }

  /**
   * Clicking the overlay after a completed run puts the screen back in its
   * mounted state (apart from the sound counts), so the next run repeats the
   * same steps; the start sound plays again, once.
   */
  lemma RestartRepeatsMount(s: Snapshot)
    requires Invariant(s) && s.showOverlay && !s.ended
    ensures OverlayClick(s) == Mount(s.duration).(startCues := s.startCues + 1, doneCues := s.doneCues)
  {
  }

  /**
   * The start sound plays only on entering preparation with `prepCount == 3`:
   * every transition either keeps the count of start sounds or adds one and
   * lands there.
   */
  lemma StartCueOnlyAtThree(s: Snapshot, duration: int)
    requires Invariant(s) && !s.ended
    ensures s.isPreparing ==> StartCueAt(s, PrepStep(s))
    ensures s.intervalLive ==> StartCueAt(s, RunTick(s))
    ensures StartCueAt(s, DurationChanged(s, duration))
    ensures s.showOverlay ==> StartCueAt(s, OverlayClick(s))
    ensures StartCueAt(s, Stop(s))
    ensures s.showOverlay ==> StartCueAt(s, NewTimerClick(s))
  {
  }

  predicate StartCueAt(s: Snapshot, r: Snapshot)
  {
    r.startCues == s.startCues || (r.startCues == s.startCues + 1 && r.isPreparing && r.prepCount == 3)
  }

  /**
   * After Cancel no further timeout or interval firing changes anything.
   * This rests on the unmount that follows `onEnd`: `stopTimer` itself clears
   * the interval but not a pending one-second preparation timeout
   * (src/Timer.jsx:70-80 against 89-96); the effect cleanup run at unmount
   * cancels it, which `PrepSteps` reflects by stopping on `ended`.
   */
  lemma StopIsFinal(s: Snapshot, n: nat)
    requires !s.ended
    ensures PrepSteps(Stop(s), n) == Stop(s) && Ticks(Stop(s), n) == Stop(s)
  {
  }

  /**
   * A duration change while the countdown runs stalls it: the interval is
   * cleared but `isRunning` stays true, so when preparation ends the running
   * effect does not run again and no interval ever fires. (The setup screen
   * never changes the duration of a mounted countdown; it mounts a new one.)
   */
  lemma DurationChangeWhileRunningStalls(s: Snapshot, duration: int, n: nat)
    requires Invariant(s) && s.isRunning && !s.ended && duration != s.duration
    ensures var after := PrepSteps(DurationChanged(s, duration), 3);
      && !after.isPreparing && after.isRunning && !after.intervalLive && after.timeLeft == duration
      && Ticks(after, n) == after
  {
    PrepStepsReachRunning(DurationChanged(s, duration), 3);
  }
}
