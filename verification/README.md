# remap-copilot: event-translation core in Dafny

remap-copilot grabs a keyboard's evdev device and replays its events through a
uinput virtual device. On the way it turns the Copilot key's chord
(Left Meta + Left Shift + F23) into the replacement key (Right Control by
default). The replacement key is pressed at once. Its release is written by
a timer thread a configurable delay after F23 goes up. A new chord press
within that delay cancels the pending release.

This project models that core as pure functions:

- `events.dfy` (module `Events`): the evdev codes the core uses, the
  `input_event` field widths, and the press and release reports.
  `ReplaceKeyDown` reads from an output stream whether the replacement key
  was last written down.
- `scheduler.dfy` (module `Scheduler`): the delayed-release scheduler as a
  single slot. The slot holds `release_pending` and whether
  `release_thread` holds a thread handle. `Schedule`, `Cancel` and `Fire`
  are atomic transitions on it. `Fire` is the post-sleep body of the timer
  thread.
- `tracker.dfy` (module `Tracker`): the three flags of `key_state`, and
  `Step`, one iteration of the `while (running)` loop. `Step` covers the
  read status, the dispatch on the event code, and the writes.
- `event_loop.dfy` (module `EventLoop`): runs of the loop. Timer expiries
  are interleaved between reads as environment steps. A `Session` is a run
  from the initial state followed by the cancel before teardown. The
  trace-level lemmas are here.
- `delay.dfy` (module `Delay`): the `--delay` bound check with C's
  int-to-unsigned conversion, and the millisecond-to-`timespec` split.

Collaborators become parameters:

- The event and status from `libevdev_next_event` are inputs to `Step`.
- Whether `pthread_create` succeeded is the `spawned` input.
- A timer expiry is the `Expire` input.
- Writes to the virtual device are appended to an output sequence.

### Behaviour worth knowing (the model follows the code)

- **Repeated presses.** A chord press while the chord is already active, or
  while a release is pending, writes the press report again. It is not
  deduplicated. `RepressWithinDelay` shows the two press reports.
- **Modifier released before F23.** One might expect raw Meta, Shift and
  F23 never to be written while the chord is active. The code only
  suppresses F23 while both modifiers are held. If Meta or Shift goes up
  before F23, then:
  - the F23 release is written raw;
  - `copilot_active` stays set;
  - no release is scheduled;
  - the Meta and Shift releases that arrive while `copilot_active` is set
    are swallowed (src/main.c:337, 341).

  The replacement key, and Meta and Shift with it, then stay down on the
  virtual device until the next chord (`ModifierReleasedFirst`,
  `ModifiersReleasedFirstSwallowed`). This happens when a modifier goes up
  before F23, or when the F23 release is lost because the loop drops events
  that come with a positive read status (see below).
- **Shutdown with a release pending.** The final `cancel_delayed_release`
  drops the pending release without writing it
  (`ShutdownDropsPendingRelease`, `SessionLeavesKeyDown`).
- **Positive read status.** A positive status from `libevdev_next_event`
  (`LIBEVDEV_READ_STATUS_SYNC`) matches none of the loop's branches. The
  event is dropped and the loop goes on. If the dropped event is the F23
  release, `copilot_active` stays set and the Meta and Shift releases that
  follow are swallowed (`DroppedF23ReleaseLeavesChordActive`).

## Model

| member | source | states |
|---|---|---|
| Scheduler.Schedule | src/main.c:129-149 | afterwards a release is pending exactly when the timer thread was created; a failed `pthread_create` withdraws the pending mark; a pending release always has a thread handle |
| Scheduler.Cancel | src/main.c:152-160 | with a thread behind every pending release, nothing is pending afterwards; with nothing pending it changes nothing; the thread handle is kept |
| Scheduler.Fire | src/main.c:116-122 | a pending release is written as exactly the replacement key's release and a report, and the mark is cleared; with nothing pending nothing is written and nothing changes |
| Scheduler.FireAfterCancelIsSilent | src/main.c:152-160 | a timer expiring after a cancel, with no schedule in between, writes nothing |
| Scheduler.CancelIdempotent | src/main.c:152-160 | cancelling when nothing is pending is a no-op; a second cancel adds nothing |
| Scheduler.FireAtMostOnce | src/main.c:116-121 | one scheduled release is written at most once |
| Scheduler.ScheduleThenFire | src/main.c:137-148 | a successfully scheduled release expires into exactly one release report; if the thread could not be created nothing is ever written |
| Tracker.Dispatch | src/main.c:332-366 | the dispatch of a successfully read event keeps the loop running; only Meta and Shift move their flags; only F23 touches the chord flag and the scheduler; what it writes is nothing, the event itself, or the press report |
| Tracker.Step | src/main.c:327-375 | success dispatches, -EAGAIN retries with no effect, other negative statuses stop the loop; non-chord events are written unchanged; Meta/Shift set their flag to `value != 0` and are written iff the chord is not active; F23 without both modifiers is written unchanged; F23 with both is never written: a press cancels the pending release, writes the press report and activates, a release of an active chord deactivates and schedules the release, anything else is ignored |
| Tracker.ForwardedIffNotSwallowed | src/main.c:332-363 | a read event is written out unchanged if and only if it is not F23 under held Meta and Shift, or Meta/Shift under an active chord; a swallowed event never appears in the output |
| Tracker.NoRawChordKeyLeaks | src/main.c:335-357 | with Meta and Shift held no F23 event is written; while the chord is active no Meta or Shift event is written |
| Tracker.StepPreservesInv | src/main.c:344-357 | every iteration keeps "a pending release excludes an active chord" and "a pending release has a thread" |
| EventLoop.Apply | src/main.c:116-121 | an expiry leaves the key flags alone, clears the pending release and writes the release report exactly when one was pending; any input writes at most two events |
| EventLoop.Run | src/main.c:327-375 | the loop writes at most two events per input and invents nothing: every written event is the event of a successful read or part of the press or release report |
| EventLoop.Session | src/main.c:377 | the teardown cancel ends the session with no release pending and the invariant holding, keeping the key flags and output the loop ended with |
| EventLoop.ExpirePreservesInv | src/main.c:116-121 | a timer expiry keeps the invariant and never writes a release while the chord is active |
| EventLoop.RunPreservesInv | src/main.c:327-375 | the invariant holds after any interleaving of reads and expiries |
| EventLoop.SessionEndsIdle | src/main.c:377 | the invariant holds when the loop ends, and after the final cancel a timer expiry writes nothing |
| EventLoop.RetryIsNoop | src/main.c:368-369 | a "try again" read leaves the rest of the run exactly as if it had not happened |
| EventLoop.FatalReadStops | src/main.c:371-374 | a fatal read ends the loop with nothing written; later events are never read |
| EventLoop.StepTracksReplaceKey | src/main.c:343-357 | under the invariant, when the timer thread starts and the event read is not the replacement key, one iteration keeps the last written state of the replacement key equal to "chord active or release pending" |
| EventLoop.ExpireTracksReplaceKey | src/main.c:116-121 | under the invariant, a timer expiry keeps the last written state of the replacement key equal to "chord active or release pending" |
| EventLoop.RunTracksReplaceKey | src/main.c:327-375 | no stale release, and the key is never down while the chord is idle and nothing is pending: when every successful read would start its timer thread and none reads the replacement key itself, the replacement key as last written is down exactly while the chord is active or its release is pending |
| EventLoop.SessionLeavesKeyDown | src/main.c:377 | when every successful read would start its timer thread and none reads the replacement key itself, at teardown the replacement key is left down exactly when the loop ended with the chord active or a release pending |
| EventLoop.ChordFreeIsIdentity | src/main.c:332-363 | a stream in which no event is swallowed is written out unchanged, with the chord and the scheduler untouched |
| EventLoop.WithoutF23IsChordFree | src/main.c:335-342 | any interleaving of Meta and Shift (and other keys) with no F23 is written out unchanged while the chord is inactive |
| EventLoop.RepressWithinDelay | src/main.c:345-357 | Meta, Shift, F23 down, F23 up, F23 down, expiry, F23 up, expiry writes the modifiers, two press reports and one release report; the stale expiry writes nothing |
| EventLoop.ModifierReleasedFirst | src/main.c:335-359 | releasing Meta before F23 writes the F23 release raw and leaves the chord active with nothing pending, so the replacement key stays down |
| EventLoop.ModifiersReleasedFirstSwallowed | src/main.c:335-342 | releasing Meta, then F23, then Shift leaves every chord key physically up but the chord active; the Meta and Shift releases are swallowed, so Meta, Shift and the replacement key stay down on the virtual device |
| EventLoop.DroppedF23ReleaseLeavesChordActive | src/main.c:331-374 | an F23 release read with a positive status is dropped, so the chord stays active and the following Meta and Shift releases are swallowed, leaving Meta, Shift and the replacement key down |
| EventLoop.FailedSpawnLeavesKeyDown | src/main.c:144-148 | when the timer thread cannot be created the replacement key is pressed and never released |
| EventLoop.ShutdownDropsPendingRelease | src/main.c:377 | a release pending at shutdown is dropped and the replacement key is left down |
| Delay.ToUnsigned | src/main.c:253 | storing atoi's result in the unsigned delay keeps non-negative values and adds 2^32 to negative ones |
| Delay.CheckDelay | src/main.c:253-256 | a delay is accepted if and only if atoi gave a value from 0 to 10000, and the accepted value is that one |
| Delay.ToTimespec | src/main.c:112-113 | the nanosecond field stays below 10^9 and is a whole number of milliseconds; seconds times 1000 plus nanoseconds over 10^6 is the delay; the unsigned product never wraps |
| Delay.AcceptedDelaySleepsAtMostTenSeconds | src/main.c:253-256 | every accepted delay sleeps at most ten seconds; the default of 300 ms sleeps 0 s and 300000000 ns |

## Left out

- Thread mechanics (`pthread_create`, `pthread_cancel`, `pthread_join`, the mutex, `nanosleep`): Schedule, Cancel and Fire are atomic steps, and an expiry may come between any two reads. Timing (a release comes at least the delay after scheduling) is not modelled. Nor is the window in which a cancel holding the mutex joins a timer thread that is itself waiting for that mutex: `pthread_mutex_lock` (src/main.c:116) is not a cancellation point, so the `pthread_join` at src/main.c:156 waits forever while holding `release_mutex`, the loop deadlocks, and the grabbed keyboard stops responding.
- A timer expiring between the loop's exit and the final cancel: inputs after the loop stops are not consumed.
- libevdev and uinput I/O (reading, writing, grab and ungrab, device creation and destruction): reads are inputs, and writes are appended to the output sequence. Whether destroying the uinput device releases a key left down is outside the model.
- Device discovery and listing (`find_keyboard_device`, `list_devices`) and the startup flush `clear_keyboard_state`: filesystem and device enumeration. The model starts from the state after the flush, with nothing written.
- Command-line parsing (`getopt_long`, `atoi` itself, `print_usage`), the verbose logging, the signal handler and the `running` flag, and the failure exits: the model keeps only the numeric bound check on the delay. A signal corresponds to the end of the input sequence.
- The delay value itself inside the scheduler: with timing abstracted away it plays no part in Schedule, Cancel or Fire.
- A build-time `COPILOT_REPLACE_KEY` other than Right Control: `REPLACE_KEY` is the default.
- EventLoop.RunTracksReplaceKey: assumes that on every successful read the timer thread would start and the event read is not the replacement key (reads with any other status write nothing and are unconstrained). Both cases break the correspondence, as `FailedSpawnLeavesKeyDown` shows for the first. It matches the written key to the chord flags only; it does not say the chord flag itself is cleared once every chord key is up, which is false (`ModifiersReleasedFirstSwallowed`).
- EventLoop.SessionLeavesKeyDown: holds under the same two assumptions as `RunTracksReplaceKey`; with a failed timer thread the key is left down with neither flag set (`FailedSpawnLeavesKeyDown`).
- Serialisation of writes: the timer thread writes the release and its report while holding `release_mutex`, but the loop's forwarding write (src/main.c:363) does not take that lock, so a forwarded event can land between the replacement key's release and its report. The model writes the release pair as one step.
