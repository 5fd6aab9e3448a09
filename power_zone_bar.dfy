/** The zone selection of src/components/PowerZoneBar.tsx: the power as a clamped
    percentage of FTP, the six Coggan zones chosen by an if/else chain on it, and the
    bar fill. */
module PowerZoneBar {
  import opened Common

  /** FTP used for the division: a non-positive FTP is replaced by 200 W. */
  function SafeFtp(ftp: int): (f: int)
    ensures f > 0
    ensures ftp > 0 ==> f == ftp
    ensures ftp <= 0 ==> f == 200
  {
    if ftp > 0 then ftp else 200
  }

  /** Math.min(150, Math.max(0, currentPower / safeFtp * 100)). */
  function PowerPercentage(currentPower: int, ftp: int): (pct: real)
    ensures 0.0 <= pct <= 150.0
  {
    var raw := (currentPower as real / SafeFtp(ftp) as real) * 100.0;
    if raw < 0.0 then 0.0 else if raw > 150.0 then 150.0 else raw
  }

  /** The if/else chain: thresholds at 55, 75, 90, 105 and 120 percent. */
  function ZoneOfPercentage(pct: real): (zone: int)
    ensures 1 <= zone <= 6
    ensures zone == 1 <==> pct < 55.0
    ensures 2 <= zone ==> Threshold(zone) <= pct
    ensures zone < 6 ==> pct < Threshold(zone + 1)
  {
    if pct < 55.0 then 1
    else if pct < 75.0 then 2
    else if pct < 90.0 then 3
    else if pct < 105.0 then 4
    else if pct < 120.0 then 5
    else 6
  }

  function PowerZone(currentPower: int, ftp: int): (zone: int)
    ensures 1 <= zone <= 6
  {
    ZoneOfPercentage(PowerPercentage(currentPower, ftp))
  }

  /** Math.min(100, percentage / 150 * 100): the width of the bar. */
  function VisualPercentage(pct: real): (w: real)
    requires 0.0 <= pct <= 150.0
    ensures 0.0 <= w <= 100.0
    ensures w == pct * 2.0 / 3.0
  {
    var v := (pct / 150.0) * 100.0;
    if v < 100.0 then v else 100.0
  }

  /** The lower bound, in percent, of each zone above the first. */
  function Threshold(zone: int): real
    requires 2 <= zone <= 6
  {
    [55.0, 75.0, 90.0, 105.0, 120.0][zone - 2]
  }

  /** Reference definition without division: for a non-negative power, the zone is one
      more than the number of thresholds t with 100 * power >= t * safeFtp. */
  function ZoneByCrossMultiplication(currentPower: int, ftp: int): (zone: int)
    ensures 1 <= zone <= 6
  {
    var p, f := 100 * currentPower, SafeFtp(ftp);
    1 + B(p >= 55 * f) + B(p >= 75 * f) + B(p >= 90 * f) + B(p >= 105 * f) + B(p >= 120 * f)
  }

  function B(b: bool): int {
    if b then 1 else 0
  }

  lemma PercentageAtLeast(currentPower: int, ftp: int, t: int)
    requires currentPower >= 0 && 0 <= t <= 150
    ensures PowerPercentage(currentPower, ftp) >= t as real <==> 100 * currentPower >= t * SafeFtp(ftp)
  {
    var f := SafeFtp(ftp) as real;
    var q := currentPower as real / f;
    var raw := q * 100.0;
    assert q * f == currentPower as real;
    assert raw * f == 100.0 * (q * f);
    assert PowerPercentage(currentPower, ftp) >= t as real <==> raw >= t as real;
    if raw >= t as real {
      MulMono(t as real, raw, f);
    } else {
      MulStrictMono(raw, t as real, f);
    }
  }

  /** For a non-negative power the chain picks the zone that comparing 100 * power with
      each threshold times FTP picks. */
  lemma PowerZoneAgrees(currentPower: int, ftp: int)
    requires currentPower >= 0
    ensures PowerZone(currentPower, ftp) == ZoneByCrossMultiplication(currentPower, ftp)
  {
    PercentageAtLeast(currentPower, ftp, 55);
    PercentageAtLeast(currentPower, ftp, 75);
    PercentageAtLeast(currentPower, ftp, 90);
    PercentageAtLeast(currentPower, ftp, 105);
    PercentageAtLeast(currentPower, ftp, 120);
  }

  lemma PercentageMono(p1: int, p2: int, ftp: int)
    requires p1 <= p2
    ensures PowerPercentage(p1, ftp) <= PowerPercentage(p2, ftp)
  {
    var f := SafeFtp(ftp) as real;
    assert p1 as real / f <= p2 as real / f;
    MulMono(p1 as real / f, p2 as real / f, 100.0);
  }

  /** For a fixed FTP more power never means a lower zone. */
  lemma PowerZoneMonotone(p1: int, p2: int, ftp: int)
    requires p1 <= p2
    ensures PowerZone(p1, ftp) <= PowerZone(p2, ftp)
  {
    PercentageMono(p1, p2, ftp);
  }

  /** The zone a percentage falls in is the one whose range contains it. */
  lemma ZoneRanges(pct: real)
    ensures var z := ZoneOfPercentage(pct);
            && (z == 1 <==> pct < 55.0)
            && (2 <= z ==> Threshold(z) <= pct)
            && (z < 6 ==> pct < Threshold(z + 1))
  {
  }
}
