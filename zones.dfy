/** The training-zone table of src/lib/workout/zones.ts and calculateZones, which turns
    its percentages of FTP into watts with Math.round. */
module Zones {
  import opened Common

  datatype ZoneDefinition = ZoneDefinition(
    id: int, name: string, min: int, max: int, color: string, description: string)

  datatype TrainingZone = TrainingZone(
    id: int, name: string, minPercent: int, maxPercent: int,
    minPower: int, maxPower: int, color: string, description: string)

  const ZonesDefinition: seq<ZoneDefinition> := [
    ZoneDefinition(1, "Active Recovery", 0, 55, "bg-gray-400", "Easy spinning, recovery"),
    ZoneDefinition(2, "Endurance", 56, 75, "bg-blue-500", "All day pace, base building"),
    ZoneDefinition(3, "Tempo", 76, 90, "bg-green-500", "Rhythmic, aerobic pace"),
    ZoneDefinition(4, "Threshold", 91, 105, "bg-yellow-500", "Sustainable hard effort"),
    ZoneDefinition(5, "VO2 Max", 106, 120, "bg-orange-500", "Very hard, short intervals"),
    ZoneDefinition(6, "Anaerobic", 121, 150, "bg-red-500", "Severe effort, very short"),
    ZoneDefinition(7, "Neuromuscular", 151, 1000, "bg-purple-500", "Maximal sprinting")
  ]

  /** Math.round(ftp * (percent / 100)). */
  function ZonePower(ftp: int, percent: int): (watts: int)
    ensures watts == (ftp * percent + 50) / 100
  {
    RoundOfQuotient(ftp * percent, 100);
    assert ftp as real * (percent as real / 100.0) == (ftp * percent) as real / 100 as real;
    HalveBoth(ftp * percent);
    Round(ftp as real * (percent as real / 100.0))
  }

  lemma HalveBoth(n: int)
    ensures (2 * n + 100) / (2 * 100) == (n + 50) / 100
  {
  }

  /** One row of calculateZones: the definition's fields with both bounds in watts. */
  function ToTrainingZone(ftp: int, z: ZoneDefinition): (t: TrainingZone)
    ensures t.id == z.id && t.name == z.name && t.color == z.color && t.description == z.description
    ensures t.minPercent == z.min && t.maxPercent == z.max
    ensures t.minPower == (ftp * z.min + 50) / 100 && t.maxPower == (ftp * z.max + 50) / 100
  {
    TrainingZone(z.id, z.name, z.min, z.max, ZonePower(ftp, z.min), ZonePower(ftp, z.max), z.color, z.description)
  }

  /** calculateZones: the table mapped in order, percentages turned into watts. */
  function CalculateZones(ftp: int): (zones: seq<TrainingZone>)
    ensures |zones| == 7
    ensures forall i :: 0 <= i < 7 ==>
      var d := ZonesDefinition[i];
      && zones[i].id == i + 1
      && zones[i].name == d.name && zones[i].color == d.color && zones[i].description == d.description
      && zones[i].minPercent == d.min && zones[i].maxPercent == d.max
      && zones[i].minPower == (ftp * d.min + 50) / 100
      && zones[i].maxPower == (ftp * d.max + 50) / 100
  {
    seq(|ZonesDefinition|, i requires 0 <= i < |ZonesDefinition| => ToTrainingZone(ftp, ZonesDefinition[i]))
  }

  lemma DivMono(a: int, b: int)
    requires a <= b
    ensures a / 100 <= b / 100
  {
  }

  lemma ScaledMono(ftp: int, p: int, q: int)
    requires ftp >= 0 && p <= q
    ensures (ftp * p + 50) / 100 <= (ftp * q + 50) / 100
  {
    assert ftp * p <= ftp * q by {
      assert ftp * q - ftp * p == ftp * (q - p);
    }
    DivMono(ftp * p + 50, ftp * q + 50);
  }

  /** For a non-negative FTP every zone's range is ordered, and the lower bounds do not
      decrease from one zone to the next. */
  lemma {:induction false} ZonesOrdered(ftp: int)
    requires ftp >= 0
    ensures var zones := CalculateZones(ftp);
            && (forall i :: 0 <= i < 7 ==> zones[i].minPower <= zones[i].maxPower)
            && (forall i, j :: 0 <= i <= j < 7 ==> zones[i].minPower <= zones[j].minPower)
  {
    var zones := CalculateZones(ftp);
    forall i | 0 <= i < 7
      ensures zones[i].minPower <= zones[i].maxPower
    {
      ZoneRangeOrdered(ftp, i);
    }
    forall i, j | 0 <= i <= j < 7
      ensures zones[i].minPower <= zones[j].minPower
    {
      ZoneStartsOrdered(ftp, i, j);
    }
  }

  lemma ZoneRangeOrdered(ftp: int, i: int)
    requires ftp >= 0 && 0 <= i < 7
    ensures CalculateZones(ftp)[i].minPower <= CalculateZones(ftp)[i].maxPower
  {
    ScaledMono(ftp, ZonesDefinition[i].min, ZonesDefinition[i].max);
  }

  lemma ZoneStartsOrdered(ftp: int, i: int, j: int)
    requires ftp >= 0 && 0 <= i <= j < 7
    ensures CalculateZones(ftp)[i].minPower <= CalculateZones(ftp)[j].minPower
  {
    ScaledMono(ftp, ZonesDefinition[i].min, ZonesDefinition[j].min);
  }

  /** An FTP of 0 puts every bound at 0 W. */
  lemma ZonesOfZeroFtp()
    ensures forall z :: z in CalculateZones(0) ==> z.minPower == 0 && z.maxPower == 0
  {
    var zones := CalculateZones(0);
    forall z | z in zones
      ensures z.minPower == 0 && z.maxPower == 0
    {
      var i :| 0 <= i < |zones| && zones[i] == z;
    }
  }

  /** Consecutive zones meet without a gap in whole percent: each zone starts one
      percent above the previous zone's end. */
  lemma ZonesContiguous()
    ensures forall i :: 0 <= i < 6 ==> ZonesDefinition[i].max + 1 == ZonesDefinition[i + 1].min
    ensures ZonesDefinition[0].min == 0
  {
  }
}
