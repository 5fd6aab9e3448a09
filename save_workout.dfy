/** The metric block of saveWorkout (src/app/actions/workout.ts): the duration, the
    average power, the FTP default, NP / IF / TSS / VI and the trapezoidal total work
    computed from the recorded data points before they are persisted. */
module SaveWorkout {
  import opened Common
  import opened WorkoutTypes
  import opened Metrics

  datatype WorkoutMetrics = WorkoutMetrics(
    duration: int,
    totalWork: int,
    averagePower: int,
    normalizedPower: int,
    intensityFactor: real,
    trainingStressScore: real,
    variabilityIndex: real)

  /** data.map(d => d.power). */
  function Powers(data: seq<WorkoutDataPoint>): (ps: seq<int>)
    ensures |ps| == |data|
    ensures forall i :: 0 <= i < |data| ==> ps[i] == data[i].power
  {
    seq(|data|, i requires 0 <= i < |data| => data[i].power)
  }

  /** user.ftp || 200: a missing or zero FTP falls back to 200 W. */
  function EffectiveFtp(userFtp: Option<int>): (ftp: int)
    ensures ftp != 0
    ensures userFtp.Some? && userFtp.value != 0 ==> ftp == userFtp.value
    ensures userFtp.None? || userFtp.value == 0 ==> ftp == 200
  {
    if userFtp.Some? && userFtp.value != 0 then userFtp.value else 200
  }

  /** Math.round(sum of powers / length). */
  function AveragePower(data: seq<WorkoutDataPoint>): (avg: int)
    requires |data| >= 1
    ensures (avg as real) - 0.5 <= Sum(Powers(data)) as real / |data| as real < (avg as real) + 0.5
  {
    Round(Sum(Powers(data)) as real / |data| as real)
  }

  /** The work of the segment between two consecutive points: mean power times seconds. */
  function SegmentWork(prev: WorkoutDataPoint, cur: WorkoutDataPoint): (w: real)
    ensures prev.power + cur.power >= 0 && prev.timestamp <= cur.timestamp ==> w >= 0.0
    ensures prev.power == cur.power ==> w == prev.power as real * ((cur.timestamp - prev.timestamp) as real / 1000.0)
  {
    ((cur.power + prev.power) as real / 2.0) * ((cur.timestamp - prev.timestamp) as real / 1000.0)
  }

  /** The trapezoid rule over the recorded series, segment by segment from the front. */
  function TotalWork(data: seq<WorkoutDataPoint>): (work: real)
    ensures |data| <= 1 ==> work == 0.0
    decreases |data|
  {
    if |data| <= 1 then 0.0
    else TotalWork(data[..|data| - 1]) + SegmentWork(data[|data| - 2], data[|data| - 1])
  }

  /** Constant power p sampled every 1000 ms over n points does p * (n - 1) joules. */
  lemma {:induction false} TotalWorkConstant(data: seq<WorkoutDataPoint>, p: int, t0: int)
    requires |data| >= 1
    requires forall i :: 0 <= i < |data| ==> data[i].power == p && data[i].timestamp == t0 + 1000 * i
    ensures TotalWork(data) == (p * (|data| - 1)) as real
    decreases |data|
  {
    if |data| > 1 {
      var n := |data|;
      TotalWorkConstant(data[..n - 1], p, t0);
      assert SegmentWork(data[n - 2], data[n - 1]) == p as real;
    }
  }

  /** With the timestamps non-decreasing and the powers non-negative the work is non-negative. */
  lemma {:induction false} TotalWorkNonNegative(data: seq<WorkoutDataPoint>)
    requires forall i :: 0 <= i < |data| ==> data[i].power >= 0
    requires forall i :: 0 < i < |data| ==> data[i - 1].timestamp <= data[i].timestamp
    ensures TotalWork(data) >= 0.0
    decreases |data|
  {
    if |data| > 1 {
      var n := |data|;
      TotalWorkNonNegative(data[..n - 1]);
      var a, b := data[n - 2], data[n - 1];
      MulMono(0.0, (b.power + a.power) as real / 2.0, (b.timestamp - a.timestamp) as real / 1000.0);
    }
  }

  /** The `for (let i = 1; i < data.length; i++)` accumulation of totalWork. */
  method AccumulateTotalWork(data: seq<WorkoutDataPoint>) returns (totalWork: real)
    ensures totalWork == TotalWork(data)
  {
    totalWork := 0.0;
    if |data| == 0 {
      return;
    }
    var i := 1;
    while i < |data|
      invariant 1 <= i <= |data|
      invariant totalWork == TotalWork(data[..i])
    {
      var dt := (data[i].timestamp - data[i - 1].timestamp) as real / 1000.0;
      var p := (data[i].power + data[i - 1].power) as real / 2.0;
      assert data[..i + 1][..i] == data[..i];
      totalWork := totalWork + p * dt;
      i := i + 1;
    }
    assert data[..i] == data;
  }

  /** The metric block of saveWorkout. The source divides by data.length, so the
      recorded series must not be empty. */
  method ComputeMetrics(startTime: int, endTime: int, data: seq<WorkoutDataPoint>,
                        userFtp: Option<int>, root4: real -> real) returns (m: WorkoutMetrics)
    requires |data| >= 1
    ensures m.duration == (endTime - startTime + 500) / 1000
    ensures m.averagePower == AveragePower(data)
    ensures m.normalizedPower == NormalizedPower(Powers(data), root4)
    ensures m.intensityFactor == IntensityFactor(m.normalizedPower, EffectiveFtp(userFtp))
    ensures m.trainingStressScore
         == TrainingStressScore(m.duration, m.normalizedPower, m.intensityFactor, EffectiveFtp(userFtp))
    ensures m.variabilityIndex == VariabilityIndex(m.normalizedPower, m.averagePower)
    ensures m.totalWork == Round(TotalWork(data))
  {
    var duration := DurationSeconds(startTime, endTime);
    var powerData := Powers(data);
    var avgPower := Round(Sum(powerData) as real / |powerData| as real);
    var np := CalculateNormalizedPower(powerData, root4);
    var ftp := EffectiveFtp(userFtp);
    var intensityFactor := IntensityFactor(np, ftp);
    var tss := TrainingStressScore(duration, np, intensityFactor, ftp);
    var vi := VariabilityIndex(np, avgPower);
    var totalWork := AccumulateTotalWork(data);
    m := WorkoutMetrics(duration, Round(totalWork), avgPower, np, intensityFactor, tss, vi);
  }
}
