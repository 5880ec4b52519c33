/**
 * The countdown screen as an object whose fields React's setters update in
 * place. Every callback is one method, proved to move the fields exactly as
 * the matching transition of `TimerState` moves a snapshot, so the lemmas
 * proved there (step counts, bounds, sounds played once) hold of the object.
 */
module TimerComponent {
  import opened TimerState

  class Timer {
    var duration: int
    var timeLeft: int
    var isRunning: bool
    var isPreparing: bool
    var prepCount: int
    var showOverlay: bool
    /** `intervalRef.current` holds an interval that has not been cleared. */
    var intervalLive: bool
    /** `onEnd` has been called; the host unmounts the screen. */
    var ended: bool
    /** Times `startSoundRef.current.play()` ran. */
    var startCues: nat
    /** Times `doneSoundRef.current.play()` ran. */
    var doneCues: nat

    function State(): Snapshot
      reads this
    {
      Snapshot(duration, timeLeft, isRunning, isPreparing, prepCount, showOverlay, intervalLive, ended, startCues, doneCues)
    }

    ghost predicate Valid()
      reads this
    {
      Invariant(State())
    }

    /** Mounting: initial state, then the preparation effect plays the start sound. */
    constructor (duration: int)
      ensures State() == Mount(duration) && Valid()
    {
      this.duration := duration;
      timeLeft := duration;
      isRunning := false;
      isPreparing := true;
      prepCount := 3;
      showOverlay := false;
      intervalLive := false;
      ended := false;
      startCues := 0;
      doneCues := 0;
      new;
      startCues := startCues + 1;
    }

    /** The two preparation setters, then the preparation effect if either value changed. */
    method SetPrep(preparing: bool, count: int)
      modifies this
      ensures State() == TimerState.SetPrep(old(State()), preparing, count)
    {
      var rerun := preparing != isPreparing || count != prepCount;
      isPreparing := preparing;
      prepCount := count;
      if rerun && isPreparing && prepCount == 3 {
        startCues := startCues + 1;
      }
    }

    /** `setIsRunning`, then the running effect if the value changed. */
    method SetRunning(running: bool)
      modifies this
      ensures State() == TimerState.SetRunning(old(State()), running)
    {
      if running != isRunning {
        isRunning := running;
        intervalLive := running;
      }
    }

    /** The one-second preparation timeout fires. */
    method PrepStep()
      requires Valid() && isPreparing && !ended
      modifies this
      ensures State() == TimerState.PrepStep(old(State())) && Valid()
    {
      if prepCount > 1 {
        SetPrep(true, prepCount - 1);
      } else {
        SetPrep(false, prepCount);
        SetRunning(true);
      }
    }

    /** The running interval fires and its updater runs on `timeLeft`. */
    method RunTick()
      requires Valid() && intervalLive && !ended
      modifies this
      ensures State() == TimerState.RunTick(old(State())) && Valid()
    {
      if timeLeft <= 1 {
        intervalLive := false;
        doneCues := doneCues + 1;
        SetRunning(false);
        showOverlay := true;
        timeLeft := 0;
      } else {
        timeLeft := timeLeft - 1;
      }
    }

    /** The `duration` prop changes: the reset effect's cleanup, then its body. */
    method DurationChanged(newDuration: int)
      requires Valid() && !ended
      modifies this
      ensures State() == TimerState.DurationChanged(old(State()), newDuration) && Valid()
    {
      if newDuration != duration {
        intervalLive := false;
        duration := newDuration;
        timeLeft := newDuration;
        SetPrep(true, 3);
        showOverlay := false;
      }
    }

    /** `handleOverlayClick`. */
    method OverlayClick()
      requires Valid() && showOverlay && !ended
      modifies this
      ensures State() == TimerState.OverlayClick(old(State())) && Valid()
    {
      showOverlay := false;
      timeLeft := duration;
      SetPrep(true, 3);
    }

    /** `stopTimer`, behind the Cancel button. */
    method Stop()
      requires Valid() && !ended
      modifies this
      ensures State() == TimerState.Stop(old(State())) && Valid()
    {
      intervalLive := false;
      SetRunning(false);
      ended := true;
    }

    /** The overlay's "Start New Timer" button. */
    method NewTimerClick()
      requires Valid() && showOverlay && !ended
      modifies this
      ensures State() == TimerState.NewTimerClick(old(State())) && Valid()
    {
      ended := true;
    }
  }
}
