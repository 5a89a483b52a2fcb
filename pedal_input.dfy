/** The footswitch handling of the performance window (app/ui_input.py). A
    page-turn pedal sends PageUp/PageDown or Left/Right key presses. Holding
    both keys of a pair arms a timer that closes the window; pressing both
    keys of a pair within a short window toggles on-stage mode. The clock
    reading is a parameter, and the toggle callback is the returned flag. */
module PedalInput {

  /** Qt key codes of the keys a pedal sends. */
  const KeyLeft: int := 0x0100_0012
  const KeyRight: int := 0x0100_0014
  const KeyPageUp: int := 0x0100_0016
  const KeyPageDown: int := 0x0100_0017

  // ---------- the exit combo ----------

  /** `exit_combo_active`: both page keys, or both arrow keys, are down. */
  predicate ExitComboActive(pressed: set<int>) {
    (KeyPageUp in pressed && KeyPageDown in pressed) || (KeyLeft in pressed && KeyRight in pressed)
  }

  /** The combo holds exactly when one of the two pairs is held, so pressing
      more keys keeps it, and no single key or mixed pair makes it. */
  lemma ExitComboSpec(pressed: set<int>, more: set<int>)
    ensures ExitComboActive(pressed) <==> {KeyPageUp, KeyPageDown} <= pressed || {KeyLeft, KeyRight} <= pressed
    ensures ExitComboActive(pressed) && pressed <= more ==> ExitComboActive(more)
    ensures !ExitComboActive({KeyPageUp, KeyLeft}) && !ExitComboActive({KeyPageDown, KeyRight})
    ensures forall k :: !ExitComboActive({k})
  {
  }

  /** The timer that closes the window once the combo has been held long
      enough; `starts` counts how often it was (re)started. */
  class ExitTimer {
    var active: bool
    var interval: int
    var starts: nat

    constructor ()
      ensures !active && starts == 0
    {
      active := false;
      interval := 0;
      starts := 0;
    }

    /** `QTimer.start(ms)`. */
    method Start(ms: int)
      modifies this
      ensures active && interval == ms && starts == old(starts) + 1
    {
      active := true;
      interval := ms;
      starts := starts + 1;
    }

    /** `QTimer.stop()`. */
    method Stop()
      modifies this
      ensures !active && interval == old(interval) && starts == old(starts)
    {
      active := false;
    }
  }

  /** `start_or_stop_exit_timer`: afterwards the timer runs exactly when the
      combo is held; it is started, with the hold time, only when the combo is
      held and it was not already running, so holding on does not restart it. */
  method StartOrStopExitTimer(timer: ExitTimer, exitHoldMs: int, pressed: set<int>)
    modifies timer
    ensures timer.active == ExitComboActive(pressed)
    ensures var started := ExitComboActive(pressed) && !old(timer.active);
      timer.starts == old(timer.starts) + (if started then 1 else 0)
      && timer.interval == (if started then exitHoldMs else old(timer.interval))
  {
    if ExitComboActive(pressed) {
      if !timer.active {
        timer.Start(exitHoldMs);
      }
    } else {
      if timer.active {
        timer.Stop();
      }
    }
  }

  // ---------- the on-stage toggle combo ----------

  /** The keys the toggle detector listens to. */
  predicate IsPedal(key: int) {
    key == KeyPageUp || key == KeyPageDown || key == KeyLeft || key == KeyRight
  }

  /** The other key of a pedal's pair. */
  function Paired(key: int): (r: int)
    requires IsPedal(key)
    ensures IsPedal(r) && r != key
    ensures ExitComboActive({key, r})
  {
    if key == KeyPageUp || key == KeyPageDown then
      (if key == KeyPageUp then KeyPageDown else KeyPageUp)
    else
      (if key == KeyLeft then KeyRight else KeyLeft)
  }

  /** Pairing is symmetric: each key of a pair is the other's partner. */
  lemma PairedInvolution(key: int)
    requires IsPedal(key)
    ensures Paired(Paired(key)) == key
  {
  }

  /** Python's `abs` on integers. */
  function Abs(x: int): nat {
    if x < 0 then -x else x
  }

  /** `maybe_handle_onstage_toggle_combo` at time `now`: whether the toggle
      fired, and the pedal-down timestamps afterwards. */
  function ToggleOf(last: map<int, int>, key: int, latched: bool, window: int, now: int): (bool, map<int, int>) {
    if !IsPedal(key) || latched then (false, last)
    else
      var last' := last[key := now];
      var other := Paired(key);
      if other !in last' then (false, last')
      else (Abs(now - last'[other]) <= window, last')
  }

  /** A key that is not a pedal key, or any key while the combo is latched,
      changes nothing and does not fire. */
  lemma ToggleIgnored(last: map<int, int>, key: int, latched: bool, window: int, now: int)
    requires !IsPedal(key) || latched
    ensures ToggleOf(last, key, latched, window, now) == (false, last)
  {
  }

  /** Otherwise the key's press time is recorded, nothing else changes, and
      the toggle fires exactly when the paired key went down no more than
      `window` milliseconds away from now. */
  lemma ToggleRecords(last: map<int, int>, key: int, window: int, now: int)
    requires IsPedal(key)
    ensures var (fired, last') := ToggleOf(last, key, false, window, now);
      last' == last[key := now]
      && (fired <==> Paired(key) in last && Abs(now - last[Paired(key)]) <= window)
  {
  }

  /** Two presses of a pair, at `t1` then `t2`, with nothing latched: the
      second one toggles exactly when the two are at most `window` apart,
      whatever was recorded before. */
  lemma TwoPresses(last: map<int, int>, key: int, window: int, t1: int, t2: int)
    requires IsPedal(key)
    ensures var (_, after) := ToggleOf(last, key, false, window, t1);
      ToggleOf(after, Paired(key), false, window, t2).0 <==> Abs(t2 - t1) <= window
  {
    ToggleRecords(last, key, window, t1);
    ToggleRecords(last[key := t1], Paired(key), window, t2);
  }

  /** The pedal-down timestamps the main window keeps between key events. */
  class PedalState {
    var lastPedalDown: map<int, int>

    constructor ()
      ensures lastPedalDown == map[]
    {
      lastPedalDown := map[];
    }

    /** `maybe_handle_onstage_toggle_combo(key, latched, ...)` at `now`; the
        result says whether the toggle callback was called. */
    method MaybeHandleOnstageToggleCombo(key: int, comboLatched: bool, comboWindowMs: int, now: int)
      returns (fired: bool)
      modifies this
      ensures (fired, lastPedalDown) == ToggleOf(old(lastPedalDown), key, comboLatched, comboWindowMs, now)
    {
      if !IsPedal(key) {
        return false;
      }
      if comboLatched {
        return false;
      }
      lastPedalDown := lastPedalDown[key := now];
      var other := Paired(key);
      if other !in lastPedalDown {
        return false;
      }
      var otherTs := lastPedalDown[other];
      if Abs(now - otherTs) <= comboWindowMs {
        return true;
      }
      return false;
    }
  }
}
