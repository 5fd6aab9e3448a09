/** The zone selection of src/components/HeartRateZoneBar.tsx: the heart rate as a
    clamped percentage of the maximum, and five zones chosen by an if/else chain.

    The source does not guard the division. For maxHr == 0 the quotient is +Infinity
    (clamped to 100), -Infinity (clamped to 0) or, for a heart rate of 0, NaN; NaN
    passes through Math.max and Math.min, fails every `<` test and lands in zone 5.
    The percentage is None exactly for that NaN. */
module HeartRateZoneBar {
  import opened Common

  function HeartRatePercentage(currentHr: int, maxHr: int): (pct: Option<real>)
    ensures pct.None? <==> currentHr == 0 && maxHr == 0
    ensures pct.Some? ==> 0.0 <= pct.value <= 100.0
    ensures maxHr == 0 && currentHr > 0 ==> pct == Some(100.0)
    ensures maxHr == 0 && currentHr < 0 ==> pct == Some(0.0)
  {
    if maxHr == 0 then
      if currentHr > 0 then Some(100.0) else if currentHr < 0 then Some(0.0) else None
    else
      var raw := (currentHr as real / maxHr as real) * 100.0;
      Some(if raw < 0.0 then 0.0 else if raw > 100.0 then 100.0 else raw)
  }

  /** The if/else chain: thresholds at 60, 70, 80 and 90 percent; NaN fails them all. */
  function ZoneOfPercentage(pct: Option<real>): (zone: int)
    ensures 1 <= zone <= 5
    ensures pct.None? ==> zone == 5
  {
    match pct
    case None => 5
    case Some(p) =>
      if p < 60.0 then 1
      else if p < 70.0 then 2
      else if p < 80.0 then 3
      else if p < 90.0 then 4
      else 5
  }

  function HeartRateZone(currentHr: int, maxHr: int): (zone: int)
    ensures 1 <= zone <= 5
  {
    ZoneOfPercentage(HeartRatePercentage(currentHr, maxHr))
  }

  function B(b: bool): int {
    if b then 1 else 0
  }

  /** Reference definition without division, for maxHr > 0 and a non-negative heart
      rate: one more than the number of thresholds t with 100 * hr >= t * maxHr. */
  function ZoneByCrossMultiplication(currentHr: int, maxHr: int): (zone: int)
    ensures 1 <= zone <= 5
  {
    var h := 100 * currentHr;
    1 + B(h >= 60 * maxHr) + B(h >= 70 * maxHr) + B(h >= 80 * maxHr) + B(h >= 90 * maxHr)
  }

  lemma PercentageAtLeast(currentHr: int, maxHr: int, t: int)
    requires maxHr > 0 && currentHr >= 0 && 0 <= t <= 100
    ensures HeartRatePercentage(currentHr, maxHr).value >= t as real <==> 100 * currentHr >= t * maxHr
  {
    var m := maxHr as real;
    var q := currentHr as real / m;
    var raw := q * 100.0;
    assert q * m == currentHr as real;
    assert raw * m == 100.0 * (q * m);
    assert HeartRatePercentage(currentHr, maxHr).value >= t as real <==> raw >= t as real;
    if raw >= t as real {
      MulMono(t as real, raw, m);
    } else {
      MulStrictMono(raw, t as real, m);
    }
  }

  lemma HeartRateZoneAgrees(currentHr: int, maxHr: int)
    requires maxHr > 0 && currentHr >= 0
    ensures HeartRateZone(currentHr, maxHr) == ZoneByCrossMultiplication(currentHr, maxHr)
  {
    PercentageAtLeast(currentHr, maxHr, 60);
    PercentageAtLeast(currentHr, maxHr, 70);
    PercentageAtLeast(currentHr, maxHr, 80);
    PercentageAtLeast(currentHr, maxHr, 90);
  }

  /** For a fixed non-negative maximum a higher heart rate never means a lower zone. */
  lemma HeartRateZoneMonotone(h1: int, h2: int, maxHr: int)
    requires h1 <= h2 && maxHr >= 0
    ensures HeartRateZone(h1, maxHr) <= HeartRateZone(h2, maxHr)
  {
    if maxHr > 0 {
      var m := maxHr as real;
      assert h1 as real / m <= h2 as real / m;
      MulMono(h1 as real / m, h2 as real / m, 100.0);
    }
  }
}
