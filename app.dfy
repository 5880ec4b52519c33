/**
 * The setup screen: editing the duration as separate minutes and seconds
 * fields, and switching to and from the countdown screen.
 *
 * The duration `time` is a whole number of seconds. It is shown and edited
 * as `Math.floor(time / 60)` and `time % 60`; each field's `onChange`
 * rebuilds `time` from the typed value and the other field's current value.
 */
module App {
  import opened Clock
  import TimerState
  import TimerComponent

  /** The minutes field's `onChange`: the typed minutes, keeping `time % 60`. */
  function MinutesEdited(time: int, minutes: int): (r: int)
    ensures time >= 0 && minutes >= 0 ==> r >= 0 && MinutesOf(r) == minutes && SecondsOf(r) == SecondsOf(time)
  {
    minutes * 60 + SecondsOf(time)
  }

  /**
   * Exactly when a minutes edit keeps the seconds field: the seconds are 0,
   * or the old seconds and the new minutes do not have opposite signs. With
   * JavaScript's remainder a positive seconds part under negative minutes (or
   * the reverse) reads back as a different remainder.
   */
  lemma MinutesEditKeepsSecondsExactly(time: int, minutes: int)
    ensures var seconds := SecondsOf(time);
      SecondsOf(MinutesEdited(time, minutes)) == seconds
      <==> seconds == 0 || (seconds > 0 && minutes >= 0) || (seconds < 0 && minutes <= 0)
  {
    var seconds := SecondsOf(time);
    var r := MinutesEdited(time, minutes);
    if seconds > 0 && minutes < 0 {
      assert r < 0;
      assert SecondsOf(r) <= 0;
    } else if seconds < 0 && minutes > 0 {
      assert r > 0;
      assert SecondsOf(r) >= 0;
    } else if seconds < 0 {
      assert -r == -minutes * 60 - seconds;
      assert (-r) % 60 == -seconds;
    } else if seconds > 0 {
      assert r % 60 == seconds;
    }
  }

  /**
   * Exactly when a minutes edit shows the typed minutes: when the kept
   * remainder is not negative. A negative remainder pulls the floored minutes
   * one below the typed value.
   */
  lemma MinutesEditShowsTypedMinutes(time: int, minutes: int)
    ensures MinutesOf(MinutesEdited(time, minutes)) == minutes <==> SecondsOf(time) >= 0
  {
    var r := MinutesEdited(time, minutes);
    if SecondsOf(time) < 0 {
      assert r < minutes * 60;
    }
  }

  /**
   * The seconds field's `onChange`: the typed seconds, capped at 59 (there is
   * no lower cap), keeping `Math.floor(time / 60)`.
   */
  function SecondsEdited(time: int, secs: int): (r: int)
    ensures time >= 0 && secs >= 0 ==>
      r >= 0 && MinutesOf(r) == MinutesOf(time) && SecondsOf(r) == (if secs > 59 then 59 else secs)
    ensures 0 <= secs <= 59 && time >= 0 ==> SecondsOf(r) == secs
    ensures secs > 59 ==> r == MinutesOf(time) * 60 + 59
    ensures secs < 0 ==> r < MinutesOf(time) * 60
  {
    var clamped := if secs > 59 then 59 else secs;
    MinutesOf(time) * 60 + clamped
  }

  /**
   * Exactly when a seconds edit keeps the minutes field: when the typed value
   * is not negative, whatever the sign of `time`.
   */
  lemma SecondsEditKeepsMinutesExactly(time: int, secs: int)
    ensures MinutesOf(SecondsEdited(time, secs)) == MinutesOf(time) <==> secs >= 0
  {
    var r := SecondsEdited(time, secs);
    if secs < 0 {
      assert r < MinutesOf(time) * 60;
    } else {
      assert MinutesOf(time) * 60 <= r < MinutesOf(time) * 60 + 60;
    }
  }

  /**
   * Exactly when a seconds edit shows the typed value (capped at 59) in the
   * seconds field. For a non-negative entry that is when `time` is not
   * negative or the entry is 0: under negative minutes a positive remainder
   * reads back with JavaScript's `%` as that remainder minus 60. A negative
   * entry is shown only with no positive minutes and above -60.
   */
  lemma SecondsEditShowsTypedSeconds(time: int, secs: int)
    ensures var shown := if secs > 59 then 59 else secs;
      SecondsOf(SecondsEdited(time, secs)) == shown
      <==> (secs >= 0 && (time >= 0 || secs == 0)) || (secs < 0 && time < 60 && secs > -60)
  {
    var m := MinutesOf(time);
    var shown := if secs > 59 then 59 else secs;
    var r := SecondsEdited(time, secs);
    assert r == m * 60 + shown;
    if secs >= 0 {
      if time < 0 && secs != 0 {
        assert r < 0;
        assert -r == -m * 60 - shown;
        assert (-r) % 60 == 60 - shown;
      } else if time >= 0 {
        assert r % 60 == shown;
      }
    } else if time >= 60 {
      if r >= 0 {
        assert SecondsOf(r) >= 0;
      }
    } else if secs > -60 {
      assert -r == -m * 60 - secs;
      assert (-r) % 60 == -secs;
    } else {
      assert -r == -m * 60 - secs;
      assert (-r) % 60 < 60 <= -secs;
    }
  }

  /**
   * Because the seconds are capped only from above, a negative entry with no
   * whole minutes set makes the duration itself negative.
   */
  lemma NegativeSecondsGiveNegativeTime(time: int, secs: int)
    requires 0 <= time < 60 && secs < 0
    ensures SecondsEdited(time, secs) == secs
  {
    assert MinutesOf(time) == 0;
  }

  /**
   * The two edits are independent: setting minutes and seconds, in either
   * order, gives `minutes * 60 + secs`.
   */
  lemma EditsCompose(time: int, minutes: int, secs: int)
    requires time >= 0 && minutes >= 0 && 0 <= secs <= 59
    ensures SecondsEdited(MinutesEdited(time, minutes), secs) == minutes * 60 + secs
    ensures MinutesEdited(SecondsEdited(time, secs), minutes) == minutes * 60 + secs
  {
    assert MinutesOf(MinutesEdited(time, minutes)) == minutes;
    assert SecondsOf(SecondsEdited(time, secs)) == secs;
  }

  class AppComponent {
    var time: int
    var editing: bool
    var key: int
    var timerStarted: bool
    /** The mounted countdown screen, present exactly while `timerStarted`. */
    var timer: TimerComponent.Timer?

    ghost predicate Valid()
      reads this, timer
    {
      && (timerStarted <==> timer != null)
      && (timer != null ==> timer.Valid() && !timer.ended && timer.duration == time)
    }

    constructor ()
      ensures Valid() && time == 30 && !editing && key == 0 && !timerStarted
    {
      time := 30;
      editing := false;
      key := 0;
      timerStarted := false;
      timer := null;
    }

    /**
     * `handleStart`: show the countdown and bump `key`, so React mounts a
     * fresh countdown screen for the current duration.
     */
    method HandleStart()
      requires !timerStarted
      modifies this
      ensures Valid() && timerStarted && key == old(key) + 1
      ensures fresh(timer) && timer.State() == TimerState.Mount(time)
      ensures time == old(time) && editing == old(editing)
    {
      timerStarted := true;
      key := key + 1;
      timer := new TimerComponent.Timer(time);
    }

    /** `handleNewTimer`, the countdown's `onEnd`: back to the setup screen. */
    method HandleNewTimer()
      modifies this
      ensures Valid() && !timerStarted && timer == null
      ensures time == old(time) && key == old(key) && editing == old(editing)
    {
      timerStarted := false;
      timer := null;
    }

    /** A click on the time display opens the two fields. */
    method BeginEditing()
      requires Valid() && !timerStarted
      modifies this`editing
      ensures Valid() && editing
    {
      editing := true;
    }

    /** Either field losing focus closes them. */
    method EndEditing()
      requires Valid() && !timerStarted && editing
      modifies this`editing
      ensures Valid() && !editing
    {
      editing := false;
    }

    /** The minutes field's `onChange`; the fields are shown only on the setup screen. */
    method MinutesChanged(minutes: int)
      requires Valid() && !timerStarted && editing
      modifies this`time
      ensures Valid() && time == MinutesEdited(old(time), minutes)
    {
      var seconds := SecondsOf(time);
      time := minutes * 60 + seconds;
    }

    /** The seconds field's `onChange`. */
    method SecondsChanged(secs: int)
      requires Valid() && !timerStarted && editing
      modifies this`time
      ensures Valid() && time == SecondsEdited(old(time), secs)
    {
      var minutes := MinutesOf(time);
      var capped := secs;
      if capped > 59 {
        capped := 59;
      }
      time := minutes * 60 + capped;
    }

    /**
     * The countdown's Cancel button: `stopTimer` stops it and calls `onEnd`,
     * which is `handleNewTimer`. The duration and `key` are kept.
     */
    method Cancel()
      requires Valid() && timerStarted
      modifies this, timer
      ensures Valid() && !timerStarted
      ensures time == old(time) && key == old(key) && editing == old(editing)
    {
      timer.Stop();
      HandleNewTimer();
    }

    /** The overlay's "Start New Timer" button: `onEnd`, back to setup. */
    method StartNewTimer()
      requires Valid() && timerStarted && timer.showOverlay
      modifies this, timer
      ensures Valid() && !timerStarted
      ensures time == old(time) && key == old(key) && editing == old(editing)
    {
      timer.NewTimerClick();
      HandleNewTimer();
    }
  }
}
