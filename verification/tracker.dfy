/**
  The chord tracker: one iteration of the remapper's event loop. Each
  iteration reads one event and either writes it through unchanged,
  suppresses it, writes the replacement key's press report, or hands a
  release to the scheduler.
 */
module Tracker {
  import opened Events
  import opened Scheduler

  /** The three flags of `key_state`. */
  datatype KeyState = KeyState(meta: bool, shift: bool, active: bool)

  /** The whole mutable state of the loop: the key flags and the scheduler slot. */
  datatype Sys = Sys(keys: KeyState, slot: Slot)

  const Init: Sys := Sys(KeyState(false, false, false), Idle)

  /** The invariant the loop keeps: a pending release never coexists with an active chord. */
  predicate Inv(s: Sys) {
    && Valid(s.slot)
    && (s.slot.pending ==> !s.keys.active)
  }

  /** Status codes of libevdev_next_event, and EAGAIN as on Linux. */
  const READ_STATUS_SUCCESS: s32 := 0
  const EAGAIN: s32 := 11

  /** The state after an iteration, what it wrote, and whether the loop goes on. */
  datatype Outcome = Outcome(sys: Sys, out: seq<Event>, running: bool)

  predicate ChordHeld(k: KeyState) {
    k.meta && k.shift
  }

  predicate IsModifier(e: Event) {
    IsKey(e, KEY_LEFTMETA) || IsKey(e, KEY_LEFTSHIFT)
  }

  /**
    The events the remapper keeps from the output, stated independently of
    the dispatch below: F23 while Meta and Shift are both held, and Meta or
    Shift while the chord is active.
   */
  predicate Swallowed(k: KeyState, e: Event) {
    || (IsKey(e, KEY_F23) && ChordHeld(k))
    || (IsModifier(e) && k.active)
  }

  /** The event dispatch for a successfully read event (the body under `switch (event.code)`). */
  function Dispatch(s: Sys, e: Event, spawned: bool): (r: Outcome)
    ensures r.running
    // only Meta and Shift move their flags, only F23 touches the chord and the scheduler
    ensures !IsModifier(e) ==> r.sys.keys.meta == s.keys.meta && r.sys.keys.shift == s.keys.shift
    ensures !IsKey(e, KEY_F23) ==> r.sys.keys.active == s.keys.active && r.sys.slot == s.slot
    // nothing is invented: what is written is the event itself or the press report
    ensures r.out == [] || r.out == [e] || r.out == PressReport
  {
    var k := s.keys;
    if e.kind != EV_KEY then
      Outcome(s, [e], true)
    else if e.code == KEY_LEFTMETA then
      Outcome(s.(keys := k.(meta := e.value != KEY_RELEASED)), if k.active then [] else [e], true)
    else if e.code == KEY_LEFTSHIFT then
      Outcome(s.(keys := k.(shift := e.value != KEY_RELEASED)), if k.active then [] else [e], true)
    else if e.code == KEY_F23 && k.meta && k.shift then
      if e.value == KEY_PRESSED then
        Outcome(Sys(k.(active := true), Cancel(s.slot)), PressReport, true)
      else if e.value == KEY_RELEASED && k.active then
        Outcome(Sys(k.(active := false), Schedule(s.slot, spawned)), [], true)
      else
        Outcome(s, [], true)
    else
      Outcome(s, [e], true)
  }

  /**
    One iteration of the loop: `rc` is what libevdev_next_event returned and
    `e` the event it filled in; `spawned` is whether a timer thread started
    by this iteration would be created. Success dispatches the event;
    -EAGAIN retries; any other negative status ends the loop; a positive
    status matches no branch and the event is dropped.
   */
  function Step(s: Sys, rc: s32, e: Event, spawned: bool): (r: Outcome)
    // the read status decides whether the loop goes on and whether anything happens
    ensures r.running <==> (rc >= 0 || rc == -EAGAIN)
    ensures rc != READ_STATUS_SUCCESS ==> r.sys == s && r.out == []
    // identity for every event other than Meta, Shift and F23
    ensures rc == READ_STATUS_SUCCESS && !IsModifier(e) && !IsKey(e, KEY_F23) ==>
              r.sys == s && r.out == [e]
    // Meta and Shift: the flag follows `value != 0`; the event is written iff the chord is not active
    ensures rc == READ_STATUS_SUCCESS && IsKey(e, KEY_LEFTMETA) ==>
              && r.sys == s.(keys := s.keys.(meta := e.value != KEY_RELEASED))
              && r.out == (if s.keys.active then [] else [e])
    ensures rc == READ_STATUS_SUCCESS && IsKey(e, KEY_LEFTSHIFT) ==>
              && r.sys == s.(keys := s.keys.(shift := e.value != KEY_RELEASED))
              && r.out == (if s.keys.active then [] else [e])
    // F23 without both modifiers behaves as itself
    ensures rc == READ_STATUS_SUCCESS && IsKey(e, KEY_F23) && !ChordHeld(s.keys) ==>
              r.sys == s && r.out == [e]
    // F23 with both modifiers: never written; a press activates and cancels, a release of an
    // active chord deactivates and schedules, anything else is ignored
    ensures rc == READ_STATUS_SUCCESS && IsKey(e, KEY_F23) && ChordHeld(s.keys) ==>
              && r.sys.keys.meta == s.keys.meta && r.sys.keys.shift == s.keys.shift
              && (e.value == KEY_PRESSED ==>
                    r.out == PressReport && r.sys.keys.active && r.sys.slot == Cancel(s.slot))
              && (e.value == KEY_RELEASED && s.keys.active ==>
                    r.out == [] && !r.sys.keys.active && r.sys.slot == Schedule(s.slot, spawned))
              && (e.value != KEY_PRESSED && !(e.value == KEY_RELEASED && s.keys.active) ==>
                    r.out == [] && r.sys == s)
  {
    if rc == READ_STATUS_SUCCESS then Dispatch(s, e, spawned)
    else if rc == -EAGAIN then Outcome(s, [], true)
    else if rc < 0 then Outcome(s, [], false)
    else Outcome(s, [], true)
  }

  /**
    A successfully read event is written out unchanged exactly when it is not
    one the remapper swallows; a swallowed event never appears in the output.
   */
  lemma ForwardedIffNotSwallowed(s: Sys, e: Event, spawned: bool)
    ensures Step(s, READ_STATUS_SUCCESS, e, spawned).out == [e] <==> !Swallowed(s.keys, e)
    ensures Swallowed(s.keys, e) ==> e !in Step(s, READ_STATUS_SUCCESS, e, spawned).out
  {
  }

  /**
    Raw chord keys never leak: with Meta and Shift held no F23 event is
    written, and while the chord is active no Meta or Shift event is written.
   */
  lemma NoRawChordKeyLeaks(s: Sys, rc: s32, e: Event, spawned: bool)
    ensures ChordHeld(s.keys) ==>
              forall o <- Step(s, rc, e, spawned).out :: !IsKey(o, KEY_F23)
    ensures s.keys.active ==>
              forall o <- Step(s, rc, e, spawned).out :: !IsModifier(o)
  {
  }

  /**
    Every iteration keeps the invariant. The only place a release is
    scheduled also clears the active flag, and the only place the flag is set
    first cancels the pending release.
   */
  lemma StepPreservesInv(s: Sys, rc: s32, e: Event, spawned: bool)
    requires Inv(s)
    ensures Inv(Step(s, rc, e, spawned).sys)
  {
  }
}
