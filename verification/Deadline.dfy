/**
 The absolute time a timed receive waits for: entry time plus the timeout in milliseconds.
 */
module Deadline {

  const NSEC_PER_SEC: int := 1_000_000_000
  const NSEC_PER_MSEC: int := 1_000_000

  datatype TimeSpec = TimeSpec(sec: int, nsec: int)

  predicate Normalised(t: TimeSpec) {
    0 <= t.sec && 0 <= t.nsec < 1_000_000_000
  }

  /** t is normalised and lies this many milliseconds after `enter`. */
  predicate IsLater(enter: TimeSpec, timeout: int, t: TimeSpec) {
    && 0 <= t.sec && 0 <= t.nsec < 1_000_000_000
    && t.sec * 1_000_000_000 + t.nsec == enter.sec * 1_000_000_000 + enter.nsec + timeout * 1_000_000
  }

  /** The nanosecond field before it is normalised; computed in a double. */
  function RawNsec(enter: TimeSpec, timeout: int): int {
    enter.nsec + timeout * NSEC_PER_MSEC
  }

  /** The seconds are summed as reals and cut back to an integer. */
  function FutureTimeout(enter: TimeSpec, timeout: int): TimeSpec {
    var nsec := RawNsec(enter, timeout);
    if nsec >= NSEC_PER_SEC then
      TimeSpec((enter.sec as real + nsec as real / NSEC_PER_SEC as real).Floor, nsec % NSEC_PER_SEC)
    else TimeSpec(enter.sec, nsec)
  }

  lemma FloorOfSum(a: int, b: int)
    requires 0 <= b
    ensures (a as real + b as real / NSEC_PER_SEC as real).Floor == a + b / NSEC_PER_SEC
  {
    var q, r := b / NSEC_PER_SEC, b % NSEC_PER_SEC;
    assert b == q * NSEC_PER_SEC + r;
    assert b as real / NSEC_PER_SEC as real == q as real + r as real / NSEC_PER_SEC as real;
  }

  /** The deadline is normalised and lies exactly `timeout` milliseconds after the entry time; the
      intermediate value is small enough for a double to hold exactly. */
  lemma DeadlineExact(enter: TimeSpec, timeout: int)
    requires Normalised(enter) && 1 <= timeout <= 0x7FFF_FFFF
    ensures IsLater(enter, timeout, FutureTimeout(enter, timeout))
    ensures enter.nsec + timeout * 1_000_000 == RawNsec(enter, timeout) < 0x20_0000_0000_0000
  {
    FloorOfSum(enter.sec, RawNsec(enter, timeout));
  }

  /** A longer timeout gives a later deadline. */
  lemma DeadlineMonotone(enter: TimeSpec, t: int, u: int)
    requires Normalised(enter) && 1 <= t < u <= 0x7FFF_FFFF
    ensures var a, b := FutureTimeout(enter, t), FutureTimeout(enter, u);
            a.sec < b.sec || (a.sec == b.sec && a.nsec < b.nsec)
  {
    DeadlineExact(enter, t);
    DeadlineExact(enter, u);
  }
}
