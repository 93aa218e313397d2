/**
  The delayed-release scheduler with its thread mechanics removed. The
  slot records whether a release is pending (`release_pending`) and
  whether `release_thread` holds a thread handle (is non-zero). Schedule,
  Cancel and Fire are atomic transitions of the slot. Fire is the expiry of
  the live timer thread. A thread that Cancel or Schedule has cancelled
  and joined never fires.
 */
module Scheduler {
  import opened Events

  datatype Slot = Slot(pending: bool, thread: bool)

  /** No release pending and no timer thread ever started. */
  const Idle: Slot := Slot(false, false)

  /** A pending release always has a timer thread behind it. */
  predicate Valid(s: Slot) {
    s.pending ==> s.thread
  }

  /**
    schedule_delayed_release: cancel and join a pending timer, mark a release
    pending, then start a new timer thread. `spawned` is whether
    pthread_create succeeded. If it failed, the pending mark is withdrawn.
   */
  function Schedule(s: Slot, spawned: bool): (s': Slot)
    ensures s'.pending <==> spawned
    ensures s'.thread <==> s.thread || spawned
    ensures Valid(s')
  {
    var marked := Slot(true, s.thread);
    if spawned then marked.(thread := true) else marked.(pending := false)
  }

  /**
    cancel_delayed_release: when a release is pending and a thread exists,
    cancel and join that thread and withdraw the pending release.
   */
  function Cancel(s: Slot): (s': Slot)
    ensures Valid(s) ==> !s'.pending
    ensures !s.pending ==> s' == s
    ensures s'.thread == s.thread
    ensures Valid(s) ==> Valid(s')
  {
    if s.pending && s.thread then s.(pending := false) else s
  }

  datatype Fired = Fired(slot: Slot, out: seq<Event>)

  /**
    The post-sleep body of delayed_release_thread: if the release is still
    pending, write the replacement key's release and a report, and clear the
    pending mark. Otherwise write nothing.
   */
  function Fire(s: Slot): (r: Fired)
    ensures !r.slot.pending
    ensures r.slot.thread == s.thread
    ensures s.pending ==> r.out == ReleaseReport
    ensures !s.pending ==> r.out == [] && r.slot == s
  {
    if s.pending then Fired(s.(pending := false), ReleaseReport) else Fired(s, [])
  }

  /** A timer whose release was cancelled writes nothing, unless a new Schedule comes in between. */
  lemma FireAfterCancelIsSilent(s: Slot)
    requires Valid(s)
    ensures Fire(Cancel(s)).out == []
  {
  }

  /** Cancelling when nothing is pending changes nothing; cancelling twice is cancelling once. */
  lemma CancelIdempotent(s: Slot)
    ensures !s.pending ==> Cancel(s) == s
    ensures Cancel(Cancel(s)) == Cancel(s)
  {
  }

  /** One scheduled release is written at most once: a second expiry is silent. */
  lemma FireAtMostOnce(s: Slot)
    ensures Fire(Fire(s).slot).out == []
  {
  }

  /**
    A successfully scheduled release is written exactly once when it
    expires, whatever was pending before. If the timer thread could not be
    created, nothing is ever written.
   */
  lemma ScheduleThenFire(s: Slot, spawned: bool)
    ensures Fire(Schedule(s, spawned)).out == (if spawned then ReleaseReport else [])
    ensures Fire(Fire(Schedule(s, spawned)).slot).out == []
  {
  }
}
