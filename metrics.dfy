/** The training metrics of src/lib/workout/metrics.ts over exact reals.

    Math.pow(x, 0.25) is a library call: it is passed in as `root4`, and the lemmas
    about its result take any r with r >= 0 and r^4 equal to its argument, the one
    number a correct 4th root may return. toFixed followed by parseFloat is
    Common.RoundFixed. */
module Metrics {
  import opened Common

  /** Array.prototype.reduce((a, b) => a + b, 0), a left fold. */
  function Sum(s: seq<int>): (r: int)
    ensures (forall k :: 0 <= k < |s| ==> s[k] >= 0) ==> r >= 0
    decreases |s|
  {
    if s == [] then 0 else Sum(s[..|s| - 1]) + s[|s| - 1]
  }

  lemma {:induction false} SumAppend(a: seq<int>, b: seq<int>)
    ensures Sum(a + b) == Sum(a) + Sum(b)
    decreases |b|
  {
    if b == [] {
      assert a + b == a;
    } else {
      assert (a + b)[..|a + b| - 1] == a + b[..|b| - 1];
      SumAppend(a, b[..|b| - 1]);
    }
  }

  lemma {:induction false} SumConstant(s: seq<int>, c: int)
    requires forall i :: 0 <= i < |s| ==> s[i] == c
    ensures Sum(s) == c * |s|
    decreases |s|
  {
    if s != [] {
      SumConstant(s[..|s| - 1], c);
    }
  }

  /** Values within [lo, hi] sum to between n lo and n hi. */
  lemma {:induction false} SumBounds(s: seq<int>, lo: int, hi: int)
    requires forall i :: 0 <= i < |s| ==> lo <= s[i] <= hi
    ensures |s| * lo <= Sum(s) <= |s| * hi
    decreases |s|
  {
    if s != [] {
      var n := |s|;
      var init := s[..n - 1];
      assert forall i :: 0 <= i < |init| ==> init[i] == s[i];
      SumBounds(init, lo, hi);
      MulSucc(n, lo);
      MulSucc(n, hi);
    }
  }

  const Window := 30

  /** The mean of the 30 samples starting at i: chunk.reduce(+) / 30. */
  function WindowMean(data: seq<int>, i: nat): (m: real)
    requires i + Window <= |data|
    ensures (forall j :: i <= j < i + Window ==> data[j] >= 0) ==> m >= 0.0
  {
    Sum(data[i..i + Window]) as real / Window as real
  }

  /** The rollingAverages array: one mean per window start 0 .. len - 30. */
  function RollingAverages(data: seq<int>): (means: seq<real>)
    requires |data| >= Window
    ensures |means| == |data| - Window + 1
    ensures forall i :: 0 <= i < |means| ==> means[i] == WindowMean(data, i)
  {
    seq(|data| - Window + 1, i requires 0 <= i < |data| - Window + 1 => WindowMean(data, i))
  }

  function Pow4(x: real): real {
    x * x * x * x
  }

  /** What a correct Math.pow(x, 0.25) returns: the non-negative 4th root of x >= 0. */
  ghost predicate IsRoot4(root4: real -> real) {
    forall x: real :: x >= 0.0 ==> root4(x) >= 0.0 && Pow4(root4(x)) == x
  }

  /** rollingAverages.reduce((a, b) => a + Math.pow(b, 4), 0). */
  function SumPow4(xs: seq<real>): real
    decreases |xs|
  {
    if xs == [] then 0.0 else SumPow4(xs[..|xs| - 1]) + Pow4(xs[|xs| - 1])
  }

  function MeanPow4(xs: seq<real>): real
    requires |xs| > 0
  {
    SumPow4(xs) / |xs| as real
  }

  /** calculateNormalizedPower: 0 below 30 samples, else the rounded 4th root of the
      mean 4th power of the 30-sample rolling averages. */
  function NormalizedPower(data: seq<int>, root4: real -> real): (np: int)
    ensures |data| < Window ==> np == 0
  {
    if |data| < Window then 0 else Round(root4(MeanPow4(RollingAverages(data))))
  }

  /** The loop of calculateNormalizedPower, which pushes one window mean per start. */
  method CalculateNormalizedPower(data: seq<int>, root4: real -> real) returns (np: int)
    ensures |data| < Window ==> np == 0
    ensures |data| >= Window ==> np == Round(root4(MeanPow4(RollingAverages(data))))
  {
    if |data| < Window {
      return 0;
    }
    var rollingAverages: seq<real> := [];
    var i := 0;
    while i <= |data| - Window
      invariant 0 <= i <= |data| - Window + 1
      invariant rollingAverages == RollingAverages(data)[..i]
    {
      var chunk := data[i..i + Window];
      var avg := Sum(chunk) as real / Window as real;
      rollingAverages := rollingAverages + [avg];
      i := i + 1;
    }
    assert rollingAverages == RollingAverages(data);
    var sumPow4 := SumPow4(rollingAverages);
    var avgPow4 := sumPow4 / |rollingAverages| as real;
    np := Round(root4(avgPow4));
  }

  // ---------------------------------------------------------------------------
  // The 4th power on non-negative reals

  lemma Pow4Mono(a: real, b: real)
    requires 0.0 <= a <= b
    ensures 0.0 <= Pow4(a) <= Pow4(b)
  {
    MulMono(a, b, a);
    MulMono(a, b, b);
    assert a * a <= b * b;
    MulMono(a * a, b * b, a);
    MulMono(a, b, b * b);
    assert a * a * a <= b * b * b;
    MulMono(a * a * a, b * b * b, a);
    MulMono(a, b, b * b * b);
  }

  lemma Pow4StrictMono(a: real, b: real)
    requires 0.0 <= a < b
    ensures Pow4(a) < Pow4(b)
  {
    Pow4Mono(a, b);
    assert b * b > 0.0;
    MulStrictMono(a, b, b * b * b);
    MulMono(a * a * a, b * b * b, a);
    assert a * a * a <= b * b * b by {
      MulMono(a, b, a);
      MulMono(a, b, b);
      MulMono(a * a, b * b, a);
      MulMono(a, b, b * b);
    }
  }

  /** Two non-negative reals with the same 4th power are equal. */
  lemma Pow4Injective(a: real, b: real)
    requires a >= 0.0 && b >= 0.0 && Pow4(a) == Pow4(b)
    ensures a == b
  {
    if a < b {
      Pow4StrictMono(a, b);
    } else if b < a {
      Pow4StrictMono(b, a);
    }
  }

  lemma {:induction false} SumPow4Constant(xs: seq<real>, c: real)
    requires forall i :: 0 <= i < |xs| ==> xs[i] == c
    ensures SumPow4(xs) == (|xs| as real) * Pow4(c)
    decreases |xs|
  {
    if xs != [] {
      SumPow4Constant(xs[..|xs| - 1], c);
    }
  }

  /** The NP of a constant series of at least 30 samples at c >= 0 W is c. */
  lemma NormalizedPowerOfConstant(data: seq<int>, c: int, r: real)
    requires |data| >= Window && c >= 0
    requires forall i :: 0 <= i < |data| ==> data[i] == c
    requires r >= 0.0 && Pow4(r) == MeanPow4(RollingAverages(data))
    ensures Round(r) == c
  {
    var means := RollingAverages(data);
    ConstantMeans(data, c);
    MeanPow4Constant(means, c as real);
    Pow4Injective(r, c as real);
  }

  /** With a correct 4th root, calculateNormalizedPower of a constant series of at
      least 30 samples at c >= 0 W returns c. */
  lemma NormalizedPowerConstant(data: seq<int>, c: int, root4: real -> real)
    requires |data| >= Window && c >= 0
    requires forall i :: 0 <= i < |data| ==> data[i] == c
    requires IsRoot4(root4)
    ensures NormalizedPower(data, root4) == c
  {
    var m := MeanPow4(RollingAverages(data));
    ConstantMeans(data, c);
    MeanPow4Constant(RollingAverages(data), c as real);
    Pow4Mono(0.0, c as real);
    NormalizedPowerOfConstant(data, c, root4(m));
  }

  lemma ConstantMeans(data: seq<int>, c: int)
    requires |data| >= Window
    requires forall i :: 0 <= i < |data| ==> data[i] == c
    ensures forall i :: 0 <= i < |data| - Window + 1 ==> RollingAverages(data)[i] == c as real
  {
    forall i | 0 <= i < |data| - Window + 1
      ensures RollingAverages(data)[i] == c as real
    {
      SumConstant(data[i..i + Window], c);
    }
  }

  lemma MeanPow4Constant(xs: seq<real>, c: real)
    requires |xs| > 0
    requires forall i :: 0 <= i < |xs| ==> xs[i] == c
    ensures MeanPow4(xs) == Pow4(c)
  {
    SumPow4Constant(xs, c);
    var n := |xs| as real;
    assert (n * Pow4(c)) / n == Pow4(c);
  }

  // ---------------------------------------------------------------------------
  // 30 samples at 100 W followed by 30 at 300 W

  function Varied(): (data: seq<int>)
    ensures |data| == 2 * Window
  {
    seq(2 * Window, i requires 0 <= i < 2 * Window => if i < Window then 100 else 300)
  }

  function VariedWindowSumPow4(n: nat): int
    decreases n
  {
    if n == 0 then 0 else VariedWindowSumPow4(n - 1) + Pow4Int(3000 + 200 * (n - 1))
  }

  function Pow4Int(x: int): int {
    x * x * x * x
  }

  lemma VariedWindowSum(i: nat)
    requires i <= Window
    ensures Sum(Varied()[i..i + Window]) == 3000 + 200 * i
  {
    var d := Varied();
    assert d[i..i + Window] == d[i..Window] + d[Window..Window + i];
    SumAppend(d[i..Window], d[Window..Window + i]);
    SumConstant(d[i..Window], 100);
    SumConstant(d[Window..Window + i], 300);
  }

  lemma {:induction false} VariedSumPow4Prefix(k: nat)
    requires k <= Window + 1
    ensures SumPow4(RollingAverages(Varied())[..k]) == VariedWindowSumPow4(k) as real / 810000.0
    decreases k
  {
    var means := RollingAverages(Varied());
    if k > 0 {
      VariedSumPow4Prefix(k - 1);
      var xs := means[..k];
      assert xs[..k - 1] == means[..k - 1];
      VariedMean(k - 1);
      PrefixStep(xs, VariedWindowSumPow4(k - 1), 3000 + 200 * (k - 1));
    }
  }

  /** One step of the prefix sum: a last mean of n / 30 adds Pow4Int(n) / 810000. */
  lemma PrefixStep(xs: seq<real>, a: int, n: int)
    requires |xs| >= 1
    requires SumPow4(xs[..|xs| - 1]) == a as real / 810000.0
    requires xs[|xs| - 1] == n as real / 30.0
    ensures SumPow4(xs) == (a + Pow4Int(n)) as real / 810000.0
  {
    Pow4OfThirtieth(n);
    AddThousandths(a, Pow4Int(n));
  }

  lemma VariedMean(i: nat)
    requires i <= Window
    ensures RollingAverages(Varied())[i] == (3000 + 200 * i) as real / 30.0
  {
    VariedWindowSum(i);
  }

  lemma AddThousandths(a: int, b: int)
    ensures a as real / 810000.0 + b as real / 810000.0 == (a + b) as real / 810000.0
  {
  }

  lemma Pow4OfThirtieth(n: int)
    ensures Pow4(n as real / 30.0) == Pow4Int(n) as real / 810000.0
  {
  }

  lemma VariedWindowSumPow4Value()
    ensures VariedWindowSumPow4(31) == 62173798400000000
  {
    VariedWindowSumPow4At24();
  }

  lemma VariedWindowSumPow4At24()
    ensures VariedWindowSumPow4(24) == 26848326400000000
  {
    VariedWindowSumPow4At16();
  }

  lemma VariedWindowSumPow4At16()
    ensures VariedWindowSumPow4(16) == 8234099200000000
  {
    assert VariedWindowSumPow4(8) == 1637945600000000;
  }

  lemma VariedMeanPow4()
    ensures MeanPow4(RollingAverages(Varied())) == 62173798400000000.0 / 25110000.0
  {
    var means := RollingAverages(Varied());
    assert means[..Window + 1] == means;
    VariedSumPow4Prefix(Window + 1);
    VariedWindowSumPow4Value();
  }

  /** The 4th root of the varied series' mean 4th power rounds to 223 W. */
  lemma NormalizedPowerOfVaried(r: real)
    requires r >= 0.0 && Pow4(r) == MeanPow4(RollingAverages(Varied()))
    ensures Round(r) == 223
  {
    VariedMeanPow4();
    assert Pow4(222.5) == 2450868789.0625;
    assert Pow4(223.5) == 2495227280.0625;
    if r < 222.5 {
      Pow4Mono(r, 222.5);
    }
    if r >= 223.5 {
      Pow4Mono(223.5, r);
    }
  }

  /** With a correct 4th root, calculateNormalizedPower of the varied series is 223 W. */
  lemma NormalizedPowerVaried(root4: real -> real)
    requires IsRoot4(root4)
    ensures NormalizedPower(Varied(), root4) == 223
  {
    var m := MeanPow4(RollingAverages(Varied()));
    VariedMeanPow4();
    NormalizedPowerOfVaried(root4(m));
  }

  /** The varied series averages 200 W, so Math.round of its mean power is 200. */
  lemma VariedAverage()
    ensures Sum(Varied()) == 12000
    ensures Round(Sum(Varied()) as real / |Varied()| as real) == 200
  {
    var d := Varied();
    assert d == d[..Window] + d[Window..];
    SumAppend(d[..Window], d[Window..]);
    SumConstant(d[..Window], 100);
    SumConstant(d[Window..], 300);
    RoundOfInt(200);
    assert 12000 as real / 60 as real == 200 as real;
  }

  /** Its VI, NP over average power, exceeds 1. */
  lemma VariedVariabilityIndex(root4: real -> real)
    requires IsRoot4(root4)
    ensures VariabilityIndex(NormalizedPower(Varied(), root4), 200) > 1.0
  {
    NormalizedPowerVaried(root4);
  }

  // IF, TSS, VI

  /** calculateIntensityFactor: 0 for ftp 0, else np / ftp to two decimals. */
  function IntensityFactor(np: int, ftp: int): (f: real)
    ensures ftp == 0 ==> f == 0.0
    ensures ftp != 0 ==> f * 100.0 == RoundHalfAway((np as real / ftp as real) * 100.0) as real
    ensures ftp != 0 ==> -0.005 <= f - (np as real / ftp as real) <= 0.005
  {
    TwoDecimals();
    if ftp == 0 then 0.0 else RoundFixed(np as real / ftp as real, 2)
  }

  /** calculateTSS: 0 for ftp 0, else seconds * NP * IF / (ftp * 3600) * 100 to one decimal. */
  function TrainingStressScore(durationSeconds: int, np: int, ifFactor: real, ftp: int): (tss: real)
    ensures ftp == 0 ==> tss == 0.0
    ensures ftp != 0 ==>
      tss * 10.0 == RoundHalfAway(((durationSeconds * np) as real * ifFactor) / ((ftp * 3600) as real) * 100.0 * 10.0) as real
    ensures ftp != 0 ==>
      -0.05 <= tss - ((durationSeconds * np) as real * ifFactor) / ((ftp * 3600) as real) * 100.0 <= 0.05
  {
    OneDecimal();
    if ftp == 0 then 0.0
    else RoundFixed(((durationSeconds * np) as real * ifFactor) / ((ftp * 3600) as real) * 100.0, 1)
  }

  /** calculateVariabilityIndex: 0 for an average of 0, else np / avgPower to two decimals. */
  function VariabilityIndex(np: int, avgPower: int): (vi: real)
    ensures avgPower == 0 ==> vi == 0.0
    ensures avgPower != 0 ==> vi * 100.0 == RoundHalfAway((np as real / avgPower as real) * 100.0) as real
    ensures avgPower != 0 ==> -0.005 <= vi - (np as real / avgPower as real) <= 0.005
  {
    TwoDecimals();
    if avgPower == 0 then 0.0 else RoundFixed(np as real / avgPower as real, 2)
  }

  lemma TwoDecimals()
    ensures Scale(2) == 100.0
  {
    assert Pow10(2) == 10 * Pow10(1);
  }

  lemma OneDecimal()
    ensures Scale(1) == 10.0
  {
    assert Pow10(1) == 10 * Pow10(0);
  }

  /** A value already at k decimals is left as it is by toFixed(k) and parseFloat. */
  lemma RoundFixedExact(n: int, k: nat)
    ensures RoundFixed(n as real / Scale(k), k) == n as real / Scale(k)
  {
    ScaleBack(n as real, Scale(k));
    RoundFixedFixpoint(n as real / Scale(k), k, n);
  }

  lemma ScaleBack(a: real, p: real)
    requires p >= 1.0
    ensures (a / p) * p == a
  {
  }

  lemma RoundOfInt(n: int)
    ensures Round(n as real) == n
  {
  }

  lemma IntensityFactorExample()
    ensures IntensityFactor(200, 250) == 0.8
  {
    TwoDecimals();
    assert 200 as real / 250 as real == 80 as real / Scale(2);
    RoundFixedExact(80, 2);
  }

  /** One hour at FTP scores 100. */
  lemma TssOneHourAtFtp(x: int)
    requires x > 0
    ensures TrainingStressScore(3600, x, 1.0, x) == 100.0
  {
    OneDecimal();
    assert ((3600 * x) as real * 1.0) / ((x * 3600) as real) * 100.0 == 1000 as real / Scale(1);
    RoundFixedExact(1000, 1);
  }

  /** Half an hour at IF 0.8 with NP 200 and FTP 250 scores 32. */
  lemma TssHalfHourExample()
    ensures TrainingStressScore(1800, 200, 0.8, 250) == 32.0
  {
    OneDecimal();
    assert ((1800 * 200) as real * 0.8) / ((250 * 3600) as real) * 100.0 == 320 as real / Scale(1);
    RoundFixedExact(320, 1);
  }
}
