/**
  The event loop over a whole run: iterations of the tracker interleaved
  with expiries of the release timer, then the shutdown cancel. The
  timer's expiry is an environment step that may come between any two
  reads.
 */
module EventLoop {
  import opened Events
  import opened Scheduler
  import opened Tracker

  /** One thing that happens to the loop: a read returns, or the live release timer expires. */
  datatype Input = Read(rc: s32, ev: Event, spawned: bool) | Expire

  function Apply(s: Sys, i: Input): (r: Outcome)
    // an expiry leaves the key flags alone and writes the release report only when one is pending
    ensures i.Expire? ==> r.running && r.sys.keys == s.keys && !r.sys.slot.pending
    ensures i.Expire? ==> r.out == (if s.slot.pending then ReleaseReport else [])
    // whatever happens, at most one report of two events is written
    ensures |r.out| <= 2
  {
    match i
    case Read(rc, e, spawned) => Step(s, rc, e, spawned)
    case Expire =>
      var f := Fire(s.slot);
      Outcome(s.(slot := f.slot), f.out, true)
  }

  /**
    The loop from state `s` over `ins`: everything written, the final
    state, and whether the loop is still running. A fatal read ends it,
    and later inputs are never consumed.
   */
  function Run(s: Sys, ins: seq<Input>): (r: Outcome)
    // each input writes at most one two-event report
    ensures |r.out| <= 2 * |ins|
    // nothing is invented: every written event is a read event or part of a report
    ensures forall o <- r.out :: o in PressReport || o in ReleaseReport || ReadFrom(o, ins)
    decreases |ins|
  {
    if ins == [] then Outcome(s, [], true)
    else
      var o := Apply(s, ins[0]);
      if !o.running then o
      else
        var rest := Run(o.sys, ins[1..]);
        Outcome(rest.sys, o.out + rest.out, rest.running)
  }

  /** Some successful read of `ins` carried the event `o`. */
  predicate ReadFrom(o: Event, ins: seq<Input>) {
    exists j :: 0 <= j < |ins| && ins[j].Read? && ins[j].rc == READ_STATUS_SUCCESS && ins[j].ev == o
  }

  /**
    A whole process lifetime: the loop from the initial state, then the
    cancel before teardown. Afterwards no release is pending, and the key
    flags and the output are those the loop ended with.
   */
  function Session(ins: seq<Input>): (r: Outcome)
    ensures !r.running
    ensures !r.sys.slot.pending
    ensures Inv(r.sys)
    ensures r.sys.keys == Run(Init, ins).sys.keys && r.out == Run(Init, ins).out
  {
    var r := Run(Init, ins);
    RunPreservesInv(Init, ins);
    Outcome(r.sys.(slot := Cancel(r.sys.slot)), r.out, false)
  }

  /** A timer expiry keeps the invariant, and never releases the key while the chord is active. */
  lemma ExpirePreservesInv(s: Sys)
    requires Inv(s)
    ensures Inv(Apply(s, Expire).sys)
    ensures Apply(s, Expire).out != [] ==> !s.keys.active
  {
  }

  /** Pending excludes active, at every point of every run from a state that satisfies it. */
  lemma {:induction false} RunPreservesInv(s: Sys, ins: seq<Input>)
    requires Inv(s)
    ensures Inv(Run(s, ins).sys)
    decreases |ins|
  {
    if ins != [] {
      var o := Apply(s, ins[0]);
      match ins[0] {
        case Read(rc, e, spawned) => StepPreservesInv(s, rc, e, spawned);
        case Expire => ExpirePreservesInv(s);
      }
      if o.running {
        RunPreservesInv(o.sys, ins[1..]);
      }
    }
  }

  /**
    A session holds the invariant throughout, and after the final cancel no
    timer can write: an expiry then finds nothing pending.
   */
  lemma SessionEndsIdle(ins: seq<Input>)
    ensures Inv(Run(Init, ins).sys)
    ensures Fire(Session(ins).sys.slot).out == []
  {
    RunPreservesInv(Init, ins);
  }

  /** A retried read ("try again") changes nothing: the run is as if it never happened. */
  lemma RetryIsNoop(s: Sys, e: Event, spawned: bool, ins: seq<Input>)
    ensures Run(s, [Read(-EAGAIN, e, spawned)] + ins) == Run(s, ins)
  {
    assert ([Read(-EAGAIN, e, spawned)] + ins)[1..] == ins;
  }

  /** A fatal read ends the loop with nothing written; what follows it is never read. */
  lemma FatalReadStops(s: Sys, rc: s32, e: Event, spawned: bool, ins: seq<Input>)
    requires rc < 0 && rc != -EAGAIN
    ensures Run(s, [Read(rc, e, spawned)] + ins) == Outcome(s, [], false)
  {
  }

  /**
    Inputs under which the output is a faithful account of the
    replacement key: on every successful read a timer thread would start,
    and the physical keyboard sends no replacement-key event of its own.
   */
  predicate Cooperative(ins: seq<Input>) {
    forall i :: 0 <= i < |ins| && ins[i].Read? && ins[i].rc == READ_STATUS_SUCCESS ==>
      ins[i].spawned && !IsKey(ins[i].ev, REPLACE_KEY)
  }

  /** The key-down flag of `s` as the output should show it: chord active or release pending. */
  predicate Holding(s: Sys) {
    s.keys.active || s.slot.pending
  }

  lemma StepTracksReplaceKey(s: Sys, rc: s32, e: Event)
    requires Inv(s)
    requires !IsKey(e, REPLACE_KEY)
    ensures ReplaceKeyDown(Step(s, rc, e, true).out, Holding(s)) == Holding(Step(s, rc, e, true).sys)
  {
    var r := Step(s, rc, e, true);
    if r.out == PressReport {
      ReportsSetReplaceKey(Holding(s));
    } else {
      assert r.out == [] || r.out == [e];
      ReplaceKeyDownUntouched(r.out, Holding(s));
    }
  }

  lemma ExpireTracksReplaceKey(s: Sys)
    requires Inv(s)
    ensures ReplaceKeyDown(Apply(s, Expire).out, Holding(s)) == Holding(Apply(s, Expire).sys)
  {
    if s.slot.pending {
      ReportsSetReplaceKey(Holding(s));
    }
  }

  /**
    No stale release and no key left down by the scheduler: when every timer
    starts and the keyboard sends no replacement-key event of its own, the
    replacement key as last written is down exactly while the
    chord is active or its release is pending. In particular it is never
    down while the chord is idle and nothing is pending. (The chord itself
    can stay active after every chord key is up; see
    `ModifiersReleasedFirstSwallowed`.)
   */
  lemma {:induction false} RunTracksReplaceKey(s: Sys, ins: seq<Input>)
    requires Inv(s)
    requires Cooperative(ins)
    ensures ReplaceKeyDown(Run(s, ins).out, Holding(s)) == Holding(Run(s, ins).sys)
    decreases |ins|
  {
    if ins != [] {
      var o := Apply(s, ins[0]);
      match ins[0] {
        case Read(rc, e, spawned) =>
          if rc == READ_STATUS_SUCCESS {
            assert spawned && !IsKey(e, REPLACE_KEY) by { assert ins[0] == Read(rc, e, spawned); }
            StepTracksReplaceKey(s, rc, e);
          }
          StepPreservesInv(s, rc, e, spawned);
        case Expire =>
          ExpireTracksReplaceKey(s);
          ExpirePreservesInv(s);
      }
      if o.running {
        var rest := Run(o.sys, ins[1..]);
        assert Cooperative(ins[1..]) by {
          forall i | 0 <= i < |ins[1..]| && ins[1..][i].Read? && ins[1..][i].rc == READ_STATUS_SUCCESS
            ensures ins[1..][i].spawned && !IsKey(ins[1..][i].ev, REPLACE_KEY)
          {
            assert ins[1..][i] == ins[i + 1];
          }
        }
        RunTracksReplaceKey(o.sys, ins[1..]);
        ReplaceKeyDownAppend(o.out, rest.out, Holding(s));
      }
    }
  }

  /**
    At teardown the replacement key is left down exactly when the loop ended
    with the chord active or a release pending: the shutdown cancel drops a
    pending release without writing it.
   */
  lemma SessionLeavesKeyDown(ins: seq<Input>)
    requires Cooperative(ins)
    ensures ReplaceKeyDown(Session(ins).out, false) <==> Holding(Run(Init, ins).sys)
  {
    RunTracksReplaceKey(Init, ins);
    SessionEndsIdle(ins);
  }

  /** Each event read successfully, with every timer thread starting. */
  function Reads(evs: seq<Event>): seq<Input>
  {
    seq(|evs|, i requires 0 <= i < |evs| => Read(READ_STATUS_SUCCESS, evs[i], true))
  }

  /** No event of `evs` is swallowed when it arrives, starting from `s`. */
  predicate ChordFree(s: Sys, evs: seq<Event>)
    decreases |evs|
  {
    evs == [] ||
    (!Swallowed(s.keys, evs[0]) && ChordFree(Step(s, READ_STATUS_SUCCESS, evs[0], true).sys, evs[1..]))
  }

  /**
    Identity: a stream in which no event is swallowed is written out
    unchanged, with the chord never activated and the scheduler untouched.
   */
  lemma {:induction false} ChordFreeIsIdentity(s: Sys, evs: seq<Event>)
    requires ChordFree(s, evs)
    ensures Run(s, Reads(evs)).out == evs
    ensures Run(s, Reads(evs)).running
    ensures Run(s, Reads(evs)).sys.keys.active == s.keys.active
    ensures Run(s, Reads(evs)).sys.slot == s.slot
    decreases |evs|
  {
    if evs != [] {
      var o := Step(s, READ_STATUS_SUCCESS, evs[0], true);
      ForwardedIffNotSwallowed(s, evs[0], true);
      assert Reads(evs)[1..] == Reads(evs[1..]);
      ChordFreeIsIdentity(o.sys, evs[1..]);
      assert evs == [evs[0]] + evs[1..];
    }
  }

  /**
    Any interleaving of Meta and Shift presses and releases, with no F23 at
    all, is written out unchanged when the chord is not active.
   */
  lemma {:induction false} WithoutF23IsChordFree(s: Sys, evs: seq<Event>)
    requires !s.keys.active
    requires forall i :: 0 <= i < |evs| ==> !IsKey(evs[i], KEY_F23)
    ensures ChordFree(s, evs)
    ensures Run(s, Reads(evs)).out == evs
    decreases |evs|
  {
    if evs != [] {
      var o := Step(s, READ_STATUS_SUCCESS, evs[0], true);
      assert !o.sys.keys.active;
      WithoutF23IsChordFree(o.sys, evs[1..]);
    }
    ChordFreeIsIdentity(s, evs);
  }

  function Press(code: u16): Input { Read(READ_STATUS_SUCCESS, Key(code, KEY_PRESSED), true) }
  function Release(code: u16): Input { Read(READ_STATUS_SUCCESS, Key(code, KEY_RELEASED), true) }

  /** The loop on the suffix of `ins` from position `k` is one input followed by the rest. */
  lemma RunSuffix(s: Sys, ins: seq<Input>, k: nat)
    requires k < |ins|
    ensures Apply(s, ins[k]).running ==>
              Run(s, ins[k..]) == Outcome(Run(Apply(s, ins[k]).sys, ins[k + 1..]).sys,
                                          Apply(s, ins[k]).out + Run(Apply(s, ins[k]).sys, ins[k + 1..]).out,
                                          Run(Apply(s, ins[k]).sys, ins[k + 1..]).running)
  {
    assert ins[k..][0] == ins[k];
    assert ins[k..][1..] == ins[k + 1..];
  }

  const Chord: seq<Input> := [Press(KEY_LEFTMETA), Press(KEY_LEFTSHIFT), Press(KEY_F23)]
  const ChordDown: KeyState := KeyState(true, true, true)
  const ChordUp: KeyState := KeyState(true, true, false)
  const ModifiersWritten: seq<Event> := [Key(KEY_LEFTMETA, KEY_PRESSED), Key(KEY_LEFTSHIFT, KEY_PRESSED)]

  /** Meta, Shift and F23 pressed from the initial state: both modifiers are written, then the press report. */
  lemma {:induction false} ChordFromInit(rest: seq<Input>)
    ensures Run(Init, Chord + rest).out == ModifiersWritten + PressReport + Run(Sys(ChordDown, Idle), rest).out
    ensures Run(Init, Chord + rest).sys == Run(Sys(ChordDown, Idle), rest).sys
  {
    var ins := Chord + rest;
    var s1 := Sys(KeyState(true, false, false), Idle);
    var s2 := Sys(KeyState(true, true, false), Idle);
    RunSuffix(s2, ins, 2);
    RunSuffix(s1, ins, 1);
    RunSuffix(Init, ins, 0);
    assert ins[3..] == rest;
    assert ins[0..] == ins;
  }

  /**
    The Copilot key pressed, released, pressed again before the release
    delay ran out, and released: the first timer's expiry finds nothing
    pending, and one release follows the last press. The second press is
    written again; there is no deduplication.
   */
  lemma RepressWithinDelay()
    ensures
      var ins := Chord + [Release(KEY_F23), Press(KEY_F23), Expire, Release(KEY_F23), Expire];
      && Run(Init, ins).out == ModifiersWritten + PressReport + PressReport + ReleaseReport
      && !Holding(Run(Init, ins).sys)
  {
    var rest := [Release(KEY_F23), Press(KEY_F23), Expire, Release(KEY_F23), Expire];
    var pending := Sys(ChordUp, Slot(true, true));
    var reactivated := Sys(ChordDown, Slot(false, true));
    var released := Sys(ChordUp, Slot(false, true));
    assert rest[5..] == [];
    RunSuffix(pending, rest, 4);
    RunSuffix(reactivated, rest, 3);
    RunSuffix(reactivated, rest, 2);
    RunSuffix(pending, rest, 1);
    RunSuffix(Sys(ChordDown, Idle), rest, 0);
    assert rest[0..] == rest;
    ChordFromInit(rest);
  }

  /**
    Meta released before F23: the F23 release is written raw and the chord
    stays active with no release pending, so the replacement key stays down.
   */
  lemma ModifierReleasedFirst()
    ensures
      var ins := Chord + [Release(KEY_LEFTMETA), Release(KEY_F23), Expire];
      && Run(Init, ins).out == ModifiersWritten + PressReport + [Key(KEY_F23, KEY_RELEASED)]
      && Run(Init, ins).sys.keys.active
      && !Run(Init, ins).sys.slot.pending
      && ReplaceKeyDown(Run(Init, ins).out, false)
  {
    var rest := [Release(KEY_LEFTMETA), Release(KEY_F23), Expire];
    var metaUp := Sys(KeyState(false, true, true), Idle);
    assert rest[3..] == [];
    RunSuffix(metaUp, rest, 2);
    RunSuffix(metaUp, rest, 1);
    RunSuffix(Sys(ChordDown, Idle), rest, 0);
    assert rest[0..] == rest;
    ChordFromInit(rest);
    ReplaceKeyDownAppend(ModifiersWritten + PressReport, [Key(KEY_F23, KEY_RELEASED)], false);
    ReplaceKeyDownAppend(ModifiersWritten, PressReport, false);
    ReportsSetReplaceKey(ReplaceKeyDown(ModifiersWritten, false));
  }

  /**
    Meta released before F23, then Shift: every chord key is physically up,
    but the chord stays active. The Meta and Shift releases are swallowed, so
    Meta, Shift and the replacement key all stay down on the virtual device.
   */
  lemma ModifiersReleasedFirstSwallowed()
    ensures
      var ins := Chord + [Release(KEY_LEFTMETA), Release(KEY_F23), Release(KEY_LEFTSHIFT), Expire, Expire];
      && Run(Init, ins).out == ModifiersWritten + PressReport + [Key(KEY_F23, KEY_RELEASED)]
      && Run(Init, ins).sys == Sys(KeyState(false, false, true), Idle)
      && ReplaceKeyDown(Run(Init, ins).out, false)
  {
    var rest := [Release(KEY_LEFTMETA), Release(KEY_F23), Release(KEY_LEFTSHIFT), Expire, Expire];
    var metaUp := Sys(KeyState(false, true, true), Idle);
    var allUp := Sys(KeyState(false, false, true), Idle);
    assert rest[5..] == [];
    RunSuffix(allUp, rest, 4);
    RunSuffix(allUp, rest, 3);
    RunSuffix(metaUp, rest, 2);
    RunSuffix(metaUp, rest, 1);
    RunSuffix(Sys(ChordDown, Idle), rest, 0);
    assert rest[0..] == rest;
    ChordFromInit(rest);
    ReplaceKeyDownAppend(ModifiersWritten + PressReport, [Key(KEY_F23, KEY_RELEASED)], false);
    ReplaceKeyDownAppend(ModifiersWritten, PressReport, false);
    ReportsSetReplaceKey(ReplaceKeyDown(ModifiersWritten, false));
  }

  /**
    The F23 release arrives with a positive read status and is dropped: the
    chord stays active, and the Meta and Shift releases that follow are
    swallowed, although no modifier went up before F23.
   */
  lemma DroppedF23ReleaseLeavesChordActive()
    ensures
      var ins := Chord + [Read(1, Key(KEY_F23, KEY_RELEASED), true),
                          Release(KEY_LEFTMETA), Release(KEY_LEFTSHIFT)];
      && Run(Init, ins).out == ModifiersWritten + PressReport
      && Run(Init, ins).sys == Sys(KeyState(false, false, true), Idle)
      && ReplaceKeyDown(Run(Init, ins).out, false)
  {
    var rest := [Read(1, Key(KEY_F23, KEY_RELEASED), true), Release(KEY_LEFTMETA), Release(KEY_LEFTSHIFT)];
    var metaUp := Sys(KeyState(false, true, true), Idle);
    var allUp := Sys(KeyState(false, false, true), Idle);
    assert rest[3..] == [];
    RunSuffix(metaUp, rest, 2);
    RunSuffix(Sys(ChordDown, Idle), rest, 1);
    RunSuffix(Sys(ChordDown, Idle), rest, 0);
    assert rest[0..] == rest;
    ChordFromInit(rest);
    ReplaceKeyDownAppend(ModifiersWritten, PressReport, false);
    ReportsSetReplaceKey(ReplaceKeyDown(ModifiersWritten, false));
  }

  /**
    The timer thread fails to start: nothing is pending and the chord is not
    active, yet the replacement key was pressed and is never released.
   */
  lemma FailedSpawnLeavesKeyDown()
    ensures
      var ins := Chord + [Read(READ_STATUS_SUCCESS, Key(KEY_F23, KEY_RELEASED), false), Expire];
      && Run(Init, ins).out == ModifiersWritten + PressReport
      && !Holding(Run(Init, ins).sys)
      && ReplaceKeyDown(Run(Init, ins).out, false)
  {
    var rest := [Read(READ_STATUS_SUCCESS, Key(KEY_F23, KEY_RELEASED), false), Expire];
    var dropped := Sys(ChordUp, Idle);
    assert rest[2..] == [];
    RunSuffix(dropped, rest, 1);
    RunSuffix(Sys(ChordDown, Idle), rest, 0);
    assert rest[0..] == rest;
    ChordFromInit(rest);
    ReplaceKeyDownAppend(ModifiersWritten, PressReport, false);
    ReportsSetReplaceKey(ReplaceKeyDown(ModifiersWritten, false));
  }

  /** Shutdown while a release is pending: the release is dropped and the key is left down. */
  lemma ShutdownDropsPendingRelease()
    ensures
      var ins := Chord + [Release(KEY_F23)];
      && Run(Init, ins).sys.slot.pending
      && Session(ins).out == ModifiersWritten + PressReport
      && !Session(ins).sys.slot.pending
      && ReplaceKeyDown(Session(ins).out, false)
  {
    var rest := [Release(KEY_F23)];
    assert rest[1..] == [];
    RunSuffix(Sys(ChordDown, Idle), rest, 0);
    assert rest[0..] == rest;
    ChordFromInit(rest);
    ReplaceKeyDownAppend(ModifiersWritten, PressReport, false);
    ReportsSetReplaceKey(ReplaceKeyDown(ModifiersWritten, false));
  }
}
