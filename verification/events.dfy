/**
  The part of the Linux evdev event vocabulary that the remapper inspects or
  writes. Numeric values are those of linux/input-event-codes.h; the field
  widths are those of `struct input_event` (16-bit type and code, signed
  32-bit value).
 */
module Events {

  newtype u16 = x: int | 0 <= x < 0x1_0000
  newtype s32 = x: int | -0x8000_0000 <= x < 0x8000_0000

  const EV_SYN: u16 := 0
  const EV_KEY: u16 := 1
  const SYN_REPORT: u16 := 0

  const KEY_LEFTSHIFT: u16 := 42
  const KEY_RIGHTCTRL: u16 := 97
  const KEY_LEFTMETA: u16 := 125
  const KEY_F23: u16 := 193

  const KEY_RELEASED: s32 := 0
  const KEY_PRESSED: s32 := 1

  /** The key the chord is remapped to (the build-time default of COPILOT_REPLACE_KEY). */
  const REPLACE_KEY: u16 := KEY_RIGHTCTRL

  /** One input event: its type (`kind`), code and value. */
  datatype Event = Event(kind: u16, code: u16, value: s32)

  function Key(code: u16, value: s32): Event {
    Event(EV_KEY, code, value)
  }

  const Syn: Event := Event(EV_SYN, SYN_REPORT, 0)

  predicate IsKey(e: Event, code: u16) {
    e.kind == EV_KEY && e.code == code
  }

  /** What the remapper writes when the chord is pressed: replacement key down, then a report. */
  const PressReport: seq<Event> := [Key(REPLACE_KEY, KEY_PRESSED), Syn]

  /** What the delayed release writes: replacement key up, then a report. */
  const ReleaseReport: seq<Event> := [Key(REPLACE_KEY, KEY_RELEASED), Syn]

  /**
    Whether the replacement key is down as far as a reader of the output
    stream `out` can tell: the last replacement-key event in `out` has a
    non-zero value, or, when `out` holds none, the state `before` it.
   */
  function ReplaceKeyDown(out: seq<Event>, before: bool): bool
    decreases |out|
  {
    if out == [] then before
    else if IsKey(out[|out| - 1], REPLACE_KEY) then out[|out| - 1].value != KEY_RELEASED
    else ReplaceKeyDown(out[..|out| - 1], before)
  }

  /** Reading two pieces of output one after the other is reading their concatenation. */
  lemma {:induction false} ReplaceKeyDownAppend(a: seq<Event>, b: seq<Event>, before: bool)
    ensures ReplaceKeyDown(a + b, before) == ReplaceKeyDown(b, ReplaceKeyDown(a, before))
    decreases |b|
  {
    if b == [] {
      assert a + b == a;
    } else {
      var n := |b| - 1;
      assert (a + b)[|a + b| - 1] == b[n];
      assert (a + b)[..|a + b| - 1] == a + b[..n];
      if !IsKey(b[n], REPLACE_KEY) {
        ReplaceKeyDownAppend(a, b[..n], before);
      }
    }
  }

  /** Output that never mentions the replacement key leaves its state alone. */
  lemma {:induction false} ReplaceKeyDownUntouched(out: seq<Event>, before: bool)
    requires forall i :: 0 <= i < |out| ==> !IsKey(out[i], REPLACE_KEY)
    ensures ReplaceKeyDown(out, before) == before
    decreases |out|
  {
    if out != [] {
      ReplaceKeyDownUntouched(out[..|out| - 1], before);
    }
  }

  /** The press report leaves the key down, the release report leaves it up, whatever came before. */
  lemma ReportsSetReplaceKey(before: bool)
    ensures ReplaceKeyDown(PressReport, before)
    ensures !ReplaceKeyDown(ReleaseReport, before)
  {
    assert PressReport[..1] == [Key(REPLACE_KEY, KEY_PRESSED)];
    assert ReleaseReport[..1] == [Key(REPLACE_KEY, KEY_RELEASED)];
  }
}
