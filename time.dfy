/** Elapsed-time arithmetic: Rust's `Duration` and the conversion to whole
    milliseconds used everywhere in the measurement code. */
module Time {

  const NanosPerMilli: nat := 1_000_000
  const NanosPerSec: nat := 1_000_000_000

  /** A `std::time::Duration`: whole seconds plus the sub-second nanoseconds. */
  datatype Duration = Duration(secs: nat, subsecNanos: nat) {
    ghost predicate Valid() { subsecNanos < NanosPerSec }

    /** The whole duration in nanoseconds. */
    function TotalNanos(): nat { secs * NanosPerSec + subsecNanos }
  }

  /** `secs * 1_000 + subsec_nanos / 1_000_000`: the duration truncated to
      whole milliseconds. */
  function AsMillis(d: Duration): (ms: nat)
    requires d.Valid()
    ensures ms * NanosPerMilli <= d.TotalNanos() < (ms + 1) * NanosPerMilli
  {
    d.secs * 1_000 + d.subsecNanos / NanosPerMilli
  }

  /** A longer duration never gives fewer milliseconds. */
  lemma AsMillisMonotone(d: Duration, e: Duration)
    requires d.Valid() && e.Valid()
    requires d.TotalNanos() <= e.TotalNanos()
    ensures AsMillis(d) <= AsMillis(e)
  {
  }

  /** Comparing whole seconds (`as_secs() >= 10`) is the same as comparing
      milliseconds against the same bound in milliseconds. */
  lemma SecsAtLeastIffMillisAtLeast(d: Duration, bound: nat)
    requires d.Valid()
    ensures d.secs >= bound <==> AsMillis(d) >= bound * 1_000
  {
  }
}
