/**
 * Time as the lifecycle engine sees it: timestamps, their textual (ISO) form,
 * and the clock `datetime.utcnow()` reads.
 */
module Time {
  import opened Common
  import Text

  /** A point in time, as an abstract count of clock ticks. */
  type Timestamp = nat

  /** Stand-in for `datetime.isoformat()`: the textual form stored by `to_dict`. */
  function IsoFormat(t: Timestamp): string {
    Text.NatToString(t)
  }

  /** Stand-in for `datetime.fromisoformat`; None where Python raises ValueError. */
  function FromIsoFormat(s: string): Option<Timestamp> {
    Text.ParseNat(s)
  }

  /** Parsing the ISO text of a timestamp gives back that timestamp. */
  lemma IsoRoundTrip(t: Timestamp)
    ensures FromIsoFormat(IsoFormat(t)) == Some(t)
  {
    Text.ParseNatToString(t);
  }

  /** The wall clock behind `datetime.utcnow()`: each reading is no earlier than the last. */
  class Clock {
    var now: Timestamp

    constructor (start: Timestamp)
      ensures now == start
    {
      now := start;
    }

    method UtcNow() returns (t: Timestamp)
      modifies this
      ensures old(now) <= t && now == t
    {
      now := now + 1;
      t := now;
    }
  }
}
