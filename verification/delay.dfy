/**
  The release delay: the bound check on the `--delay` option and the split
  of a delay in milliseconds into the seconds and nanoseconds of a
  `struct timespec` for the timer's sleep.
 */
module Delay {
  import opened Events

  /** The C `unsigned int` the delay is kept in. */
  newtype u32 = x: int | 0 <= x < 0x1_0000_0000

  const MAX_DELAY_MS: u32 := 10000
  const DEFAULT_DELAY_MS: u32 := 300

  /** Conversion of a C `int` to `unsigned int`: modulo 2^32. */
  function ToUnsigned(a: s32): (u: u32)
    ensures a >= 0 ==> u as int == a as int
    ensures a < 0 ==> u as int == a as int + 0x1_0000_0000
  {
    (a as int % 0x1_0000_0000) as u32
  }

  datatype Parsed = Rejected | Accepted(ms: u32)

  /**
    The check on the value atoi produced for `--delay`. That value is stored
    in an unsigned variable, so the `< 0` half of the check never holds; a
    negative value wraps to at least 2^31 and is refused by the upper bound
    instead. The accepted range is therefore exactly 0 to 10000.
   */
  function CheckDelay(a: s32): (r: Parsed)
    ensures r.Accepted? <==> 0 <= a <= 10000
    ensures r.Accepted? ==> r.ms as int == a as int
  {
    var d := ToUnsigned(a);
    if d < 0 || d > MAX_DELAY_MS then Rejected else Accepted(d)
  }

  datatype Timespec = Timespec(sec: int, nsec: int)

  /**
    The sleep interval for a delay of `d` milliseconds. The nanosecond field
    is computed in unsigned 32-bit arithmetic, written out here with its
    wrap-around.
   */
  function ToTimespec(d: u32): (ts: Timespec)
    ensures 0 <= ts.nsec < 1_000_000_000
    ensures ts.nsec % 1_000_000 == 0
    ensures ts.sec * 1000 + ts.nsec / 1_000_000 == d as int
    ensures ts.sec * 1_000_000_000 + ts.nsec == d as int * 1_000_000
  {
    var sec := d / 1000;
    var nsec := ((d % 1000) as int * 1_000_000) % 0x1_0000_0000;
    assert (d % 1000) as int * 1_000_000 < 0x1_0000_0000;
    Timespec(sec as int, nsec)
  }

  /** Every delay the option check accepts, and the default, become a sleep of at most ten seconds. */
  lemma AcceptedDelaySleepsAtMostTenSeconds(a: s32)
    requires CheckDelay(a).Accepted?
    ensures ToTimespec(CheckDelay(a).ms).sec <= 10
    ensures ToTimespec(DEFAULT_DELAY_MS) == Timespec(0, 300_000_000)
  {
  }
}
