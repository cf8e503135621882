/** A schedule that recurs at a constant delay. */
module CronDelay {
  import opened Calendar

  const SECOND: int := 1_000_000_000

  /** The remainder of Go's integer division, which takes the sign of the dividend. */
  function Rem(a: int, b: int): int
    requires b > 0
  {
    if a >= 0 then a % b else -((-a) % b)
  }

  /** The delay, in nanoseconds, between activations. */
  datatype ConstantDelaySchedule = ConstantDelaySchedule(delay: int) {

    function Next(t: Time): Time { t.Add(delay - t.nsec) }
  }

  /** Delays below a second become one second; fractions of a second are dropped. */
  function Every(duration: int): ConstantDelaySchedule {
    var d := if duration < SECOND then SECOND else duration;
    ConstantDelaySchedule(d - Rem(d, SECOND))
  }

  /** Activations of Every fall on whole seconds, strictly later than `t`, and keep
      a distance of the duration's whole seconds, one at least. */
  lemma EveryActivations(duration: int, t: Time)
    ensures var r := Every(duration).Next(t);
      && r.nsec == 0 && r.offset == t.offset && r.After(t)
      && r.utc == t.utc + (if duration < SECOND then 1 else duration / SECOND)
  {
    var d := if duration < SECOND then SECOND else duration;
    var k := d / SECOND;
    assert d - Rem(d, SECOND) == k * SECOND;
    assert k >= 1;
    assert t.nsec + (k * SECOND - t.nsec) == k * SECOND;
  }
}
