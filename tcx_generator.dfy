/** generateTCX (src/lib/workout/tcxGenerator.ts): a recorded series written out as a
    Training Center file, with its summary values and one Trackpoint block per point.

    Date.prototype.toISOString is the parameter isoTime (epoch milliseconds to text),
    and the clock read for an empty series is the parameter now. The text reproduces
    the template as written, including its `<Lap StartTime>` element, which is not
    well-formed XML; no generate-then-parse round trip is claimed. */
module TcxGenerator {
  import opened Common
  import opened Text
  import opened WorkoutTypes
  import Metrics

  /** The fixed text of the template: the parts of one Trackpoint block around its
      four values, and the parts of the document around its values. The functions
      take it as a value, so the properties below hold for any such text; Source is
      the text generateTCX writes. */
  datatype Markup = Markup(
    trackpointOpen: string,
    timeToHeartRate: string,
    heartRateToCadence: string,
    cadenceToWatts: string,
    trackpointClose: string,
    documentOpen: string,
    idOpen: string,
    idClose: string,
    notesOpen: string,
    notesClose: string,
    lapOpen: string,
    lapClose: string,
    totalOpen: string,
    totalClose: string,
    averageOpen: string,
    averageClose: string,
    maximumOpen: string,
    maximumClose: string,
    trackOpen: string,
    trackClose: string,
    documentClose: string,
    indent12: string,
    indent16: string)

  // Line breaks with the template's indentation, and the schema locations' prefixes.
  const Nl4 := "\n    "
  const Nl8 := "\n        "
  const Nl12 := "\n            "
  const Nl16 := "\n                "
  const Nl20 := "\n                    "
  const Nl24 := "\n                        "
  const Garmin := "http://www.garmin.com/xmlschemas/"
  const GarminXsd := "https://www8.garmin.com/xmlschemas/"

  /** The text generateTCX writes. */
  const Source := Markup(
    trackpointOpen := Nl12 + "<Trackpoint>" + Nl16 + "<Time>",
    timeToHeartRate := "</Time>" + Nl16 + "<HeartRateBpm>" + Nl20 + "<Value>",
    heartRateToCadence := "</Value>" + Nl16 + "</HeartRateBpm>" + Nl16 + "<Cadence>",
    cadenceToWatts := "</Cadence>" + Nl16 + "<Extensions>" + Nl20 + "<ns3:TPX>" + Nl24 + "<ns3:Watts>",
    trackpointClose := "</ns3:Watts>" + Nl24 + "<ns3:Speed>0</ns3:Speed>" + Nl20 + "</ns3:TPX>" + Nl16 + "</Extensions>" + Nl12 + "</Trackpoint>",
    documentOpen := "<?xml version=\"1.0\" encoding=\"UTF-8\"?>" + "\n<TrainingCenterDatabase"
      + " xmlns=\"" + Garmin + "TrainingCenterDatabase/v2\""
      + " xmlns:up2=\"" + Garmin + "UserProfile/v2\""
      + " xmlns:ns3=\"" + Garmin + "ActivityExtension/v2\""
      + " xmlns:xsi=\"" + "http://www.w3.org/2001/XMLSchema-instance\""
      + " xsi:schemaLocation=\"" + Garmin + "TrainingCenterDatabase/v2 " + GarminXsd + "TrainingCenterDatabasev2.xsd "
      + Garmin + "UserProfile/v2 " + GarminXsd + "UserProfileExtensionv2.xsd "
      + Garmin + "ActivityExtension/v2 " + GarminXsd + "ActivityExtensionv2.xsd\">"
      + Nl4 + "<Activities>" + Nl8 + "<Activity Sport=\"Biking\">" + Nl12,
    idOpen := "<Id>",
    idClose := "</Id>",
    notesOpen := "<Notes>",
    notesClose := "</Notes>",
    lapOpen := "<Lap StartTime>",
    lapClose := "</Lap>",
    totalOpen := "<TotalTimeSeconds>",
    totalClose := "</TotalTimeSeconds>",
    averageOpen := "<AverageHeartRateBpm>" + Nl20 + "<Value>",
    averageClose := "</Value>" + Nl16 + "</AverageHeartRateBpm>",
    maximumOpen := "<MaximumHeartRateBpm>" + Nl20 + "<Value>",
    maximumClose := "</Value>" + Nl16 + "</MaximumHeartRateBpm>",
    trackOpen := "<Track>" + Nl20,
    trackClose := Nl16 + "</Track>",
    documentClose := Nl8 + "</Activity>" + Nl4 + "</Activities>" + "\n</TrainingCenterDatabase>",
    indent12 := Nl12,
    indent16 := Nl16)

  /** t occurs in s at position i. */
  predicate OccursAt(s: string, t: string, i: int) {
    0 <= i <= |s| - |t| && s[i..i + |t|] == t
  }

  /** t occurs in s. */
  ghost predicate Contains(s: string, t: string) {
    exists i :: OccursAt(s, t, i)
  }

  /** The Id and Lap time: the first point's time, or the current time for no points. */
  function StartTime(data: seq<WorkoutDataPoint>, isoTime: int -> string, now: int): (st: string)
    ensures |data| > 0 ==> st == isoTime(data[0].timestamp)
    ensures |data| == 0 ==> st == isoTime(now)
  {
    if |data| > 0 then isoTime(data[0].timestamp) else isoTime(now)
  }

  /** data.map(p => p.heartRate), summed with the same reduce as Metrics.Sum. */
  function HeartRates(data: seq<WorkoutDataPoint>): (hs: seq<int>)
    ensures |hs| == |data|
    ensures forall i :: 0 <= i < |data| ==> hs[i] == data[i].heartRate
  {
    seq(|data|, i requires 0 <= i < |data| => data[i].heartRate)
  }

  /** Math.round(sum / (data.length || 1)). */
  function AverageHeartRate(data: seq<WorkoutDataPoint>): (avg: int)
    ensures |data| == 0 ==> avg == 0
    ensures |data| > 0 ==> avg == (2 * Metrics.Sum(HeartRates(data)) + |data|) / (2 * |data|)
  {
    var n := if |data| == 0 then 1 else |data|;
    var total := Metrics.Sum(HeartRates(data));
    RoundOfQuotient(total, n);
    Round(total as real / n as real)
  }

  /** Math.max(...heart rates, 0). */
  function MaxHeartRate(data: seq<WorkoutDataPoint>): (m: int)
    ensures m >= 0
    ensures forall i :: 0 <= i < |data| ==> data[i].heartRate <= m
    ensures m == 0 || exists i :: 0 <= i < |data| && data[i].heartRate == m
    decreases |data|
  {
    if data == [] then 0
    else
      var init := data[..|data| - 1];
      var m0 := MaxHeartRate(init);
      assert forall i :: 0 <= i < |init| ==> init[i] == data[i];
      if data[|data| - 1].heartRate > m0 then data[|data| - 1].heartRate else m0
  }

  /** One Trackpoint block, the four values in the template's places. */
  function TrackpointBlock(m: Markup, isoTime: int -> string, p: WorkoutDataPoint): (b: string)
    ensures |b| >= |m.trackpointOpen| + |m.trackpointClose|
    ensures b[..|m.trackpointOpen|] == m.trackpointOpen
    ensures b[|b| - |m.trackpointClose|..] == m.trackpointClose
  {
    m.trackpointOpen + (isoTime(p.timestamp) + (m.timeToHeartRate + (IntToString(p.heartRate) +
      (m.heartRateToCadence + (IntToString(p.cadence) + (m.cadenceToWatts + (IntToString(p.power) + m.trackpointClose)))))))
  }

  /** The strings of ps one after the other. */
  function Join(ps: seq<string>): string
    decreases |ps|
  {
    if ps == [] then "" else ps[0] + Join(ps[1..])
  }

  /** The block of each point, in the order of the points. */
  function BlockTexts(m: Markup, isoTime: int -> string, data: seq<WorkoutDataPoint>): (bs: seq<string>)
    ensures |bs| == |data|
    ensures forall k :: 0 <= k < |data| ==> bs[k] == TrackpointBlock(m, isoTime, data[k])
  {
    seq(|data|, k requires 0 <= k < |data| => TrackpointBlock(m, isoTime, data[k]))
  }

  /** The trackpoints text: the blocks of the points concatenated in order. */
  function Blocks(m: Markup, isoTime: int -> string, data: seq<WorkoutDataPoint>): string {
    Join(BlockTexts(m, isoTime, data))
  }

  /** An element's text: its opening markup, its value and its closing markup. */
  function Field(open: string, value: string, close: string): string {
    open + value + close
  }

  /** The whole file for the given name, series and trackpoints text. */
  function TcxText(m: Markup, workoutName: string, data: seq<WorkoutDataPoint>, isoTime: int -> string, now: int,
                   trackpoints: string): (doc: string)
    ensures |doc| >= |m.documentOpen| && doc[..|m.documentOpen|] == m.documentOpen
  {
    var st := StartTime(data, isoTime, now);
    m.documentOpen + (Field(m.idOpen, st, m.idClose)
    + (m.indent12 + (Field(m.notesOpen, workoutName, m.notesClose)
    + (m.indent12 + (Field(m.lapOpen, st, m.lapClose)
    + (m.indent16 + (Field(m.totalOpen, IntToString(|data|), m.totalClose)
    + (m.indent16 + (Field(m.averageOpen, IntToString(AverageHeartRate(data)), m.averageClose)
    + (m.indent16 + (Field(m.maximumOpen, IntToString(MaxHeartRate(data)), m.maximumClose)
    + (m.indent16 + (Field(m.trackOpen, trackpoints, m.trackClose) + m.documentClose)))))))))))))
  }

  /** generateTCX: the file for the source's markup. */
  method GenerateTcx(workoutName: string, data: seq<WorkoutDataPoint>, isoTime: int -> string, now: int)
    returns (xml: string)
    ensures xml == TcxText(Source, workoutName, data, isoTime, now, Blocks(Source, isoTime, data))
  {
    xml := RenderTcx(Source, workoutName, data, isoTime, now);
  }

  /** The body of generateTCX for a given markup: the summary values, then the forEach
      appending one block per point. */
  method RenderTcx(m: Markup, workoutName: string, data: seq<WorkoutDataPoint>, isoTime: int -> string, now: int)
    returns (xml: string)
    ensures xml == TcxText(m, workoutName, data, isoTime, now, Blocks(m, isoTime, data))
  {
    var trackpoints := "";
    for i := 0 to |data|
      invariant trackpoints == Blocks(m, isoTime, data[..i])
    {
      BlocksStep(m, isoTime, data, i);
      trackpoints := trackpoints + TrackpointBlock(m, isoTime, data[i]);
    }
    assert data[..|data|] == data;
    xml := TcxText(m, workoutName, data, isoTime, now, trackpoints);
  }

  // ---------------------------------------------------------------------------
  // Properties

  lemma {:induction false} JoinAppend(a: seq<string>, b: seq<string>)
    ensures Join(a + b) == Join(a) + Join(b)
    decreases |a|
  {
    if a == [] {
      assert a + b == b;
    } else {
      assert (a + b)[1..] == a[1..] + b;
      JoinAppend(a[1..], b);
    }
  }

  lemma JoinOne(x: string)
    ensures Join([x]) == x
  {
    assert [x][1..] == [];
  }

  lemma ContainsPrefix(g: string, y: string)
    ensures Contains(g + y, g)
  {
    assert OccursAt(g + y, g, 0) by {
      assert (g + y)[0..|g|] == g;
    }
  }

  lemma ContainsSuffix(x: string, y: string)
    ensures Contains(x + y, y)
  {
    assert OccursAt(x + y, y, |x|) by {
      assert (x + y)[|x|..|x| + |y|] == y;
    }
  }

  lemma ContainsTransitive(a: string, b: string, c: string)
    requires Contains(a, b) && Contains(b, c)
    ensures Contains(a, c)
  {
    var i :| OccursAt(a, b, i);
    var j :| OccursAt(b, c, j);
    assert OccursAt(a, c, i + j) by {
      forall k | 0 <= k < |c|
        ensures a[i + j + k] == c[k]
      {
        assert a[i..i + |b|][j + k] == a[i + j + k];
        assert b[j..j + |c|][k] == b[j + k];
      }
      assert a[i + j..i + j + |c|] == c;
    }
  }

  lemma BlocksStep(m: Markup, isoTime: int -> string, data: seq<WorkoutDataPoint>, i: nat)
    requires i < |data|
    ensures Blocks(m, isoTime, data[..i + 1]) == Blocks(m, isoTime, data[..i]) + TrackpointBlock(m, isoTime, data[i])
  {
    var bs, bs0 := BlockTexts(m, isoTime, data[..i + 1]), BlockTexts(m, isoTime, data[..i]);
    assert bs == bs0 + [TrackpointBlock(m, isoTime, data[i])];
    JoinAppend(bs0, [TrackpointBlock(m, isoTime, data[i])]);
    JoinOne(TrackpointBlock(m, isoTime, data[i]));
  }

  /** The Id and the Lap carry the start time, the Notes the name verbatim, TotalTimeSeconds the
      number of points (one per second at 1 Hz), the two heart-rate values their
      summaries and the Track the trackpoints text. */
  lemma DocumentFields(m: Markup, workoutName: string, data: seq<WorkoutDataPoint>, isoTime: int -> string, now: int,
                       trackpoints: string)
    ensures var doc := TcxText(m, workoutName, data, isoTime, now, trackpoints);
            var st := StartTime(data, isoTime, now);
            && Contains(doc, Field(m.idOpen, st, m.idClose))
            && Contains(doc, Field(m.notesOpen, workoutName, m.notesClose))
            && Contains(doc, Field(m.lapOpen, st, m.lapClose))
            && Contains(doc, Field(m.totalOpen, IntToString(|data|), m.totalClose))
            && Contains(doc, Field(m.averageOpen, IntToString(AverageHeartRate(data)), m.averageClose))
            && Contains(doc, Field(m.maximumOpen, IntToString(MaxHeartRate(data)), m.maximumClose))
            && Contains(doc, Field(m.trackOpen, trackpoints, m.trackClose))
  {
    var st := StartTime(data, isoTime, now);
    var id := Field(m.idOpen, st, m.idClose);
    var notes := Field(m.notesOpen, workoutName, m.notesClose);
    var lap := Field(m.lapOpen, st, m.lapClose);
    var total := Field(m.totalOpen, IntToString(|data|), m.totalClose);
    var avg := Field(m.averageOpen, IntToString(AverageHeartRate(data)), m.averageClose);
    var max := Field(m.maximumOpen, IntToString(MaxHeartRate(data)), m.maximumClose);
    var track := Field(m.trackOpen, trackpoints, m.trackClose);
    var s13 := m.documentClose;
    var s12 := track + s13;
    var s11 := m.indent16 + s12;
    var s10 := max + s11;
    var s9 := m.indent16 + s10;
    var s8 := avg + s9;
    var s7 := m.indent16 + s8;
    var s6 := total + s7;
    var s5 := m.indent16 + s6;
    var s4 := lap + s5;
    var s3 := m.indent12 + s4;
    var s2 := notes + s3;
    var s1 := m.indent12 + s2;
    var s0 := id + s1;
    var doc := m.documentOpen + s0;
    // Every suffix of the document occurs in it ...
    ContainsSuffix(m.documentOpen, s0);
    ContainsSuffix(id, s1);
    ContainsTransitive(doc, s0, s1);
    ContainsSuffix(m.indent12, s2);
    ContainsTransitive(doc, s1, s2);
    ContainsSuffix(notes, s3);
    ContainsTransitive(doc, s2, s3);
    ContainsSuffix(m.indent12, s4);
    ContainsTransitive(doc, s3, s4);
    ContainsSuffix(lap, s5);
    ContainsTransitive(doc, s4, s5);
    ContainsSuffix(m.indent16, s6);
    ContainsTransitive(doc, s5, s6);
    ContainsSuffix(total, s7);
    ContainsTransitive(doc, s6, s7);
    ContainsSuffix(m.indent16, s8);
    ContainsTransitive(doc, s7, s8);
    ContainsSuffix(avg, s9);
    ContainsTransitive(doc, s8, s9);
    ContainsSuffix(m.indent16, s10);
    ContainsTransitive(doc, s9, s10);
    ContainsSuffix(max, s11);
    ContainsTransitive(doc, s10, s11);
    ContainsSuffix(m.indent16, s12);
    ContainsTransitive(doc, s11, s12);
    // ... and so does each field, which opens its suffix.
    ContainsPrefix(id, s1);
    ContainsTransitive(doc, s0, id);
    ContainsPrefix(notes, s3);
    ContainsTransitive(doc, s2, notes);
    ContainsPrefix(lap, s5);
    ContainsTransitive(doc, s4, lap);
    ContainsPrefix(total, s7);
    ContainsTransitive(doc, s6, total);
    ContainsPrefix(avg, s9);
    ContainsTransitive(doc, s8, avg);
    ContainsPrefix(max, s11);
    ContainsTransitive(doc, s10, max);
    ContainsPrefix(track, s13);
    ContainsTransitive(doc, s12, track);
  }

  /** The blocks of two series back to back are the blocks of their concatenation. */
  lemma BlocksAppend(m: Markup, isoTime: int -> string, a: seq<WorkoutDataPoint>, b: seq<WorkoutDataPoint>)
    ensures Blocks(m, isoTime, a + b) == Blocks(m, isoTime, a) + Blocks(m, isoTime, b)
  {
    var ab, ba, bb := BlockTexts(m, isoTime, a + b), BlockTexts(m, isoTime, a), BlockTexts(m, isoTime, b);
    forall k | 0 <= k < |ab|
      ensures ab[k] == (ba + bb)[k]
    {
      if k < |a| {
        assert (a + b)[k] == a[k];
      } else {
        assert (a + b)[k] == b[k - |a|];
      }
    }
    assert ab == ba + bb;
    JoinAppend(ba, bb);
  }

  /** The heart rate, cadence and power written for a point can be read back. */
  predicate NoLessThan(s: string) {
    forall i :: 0 <= i < |s| ==> s[i] != '<'
  }

  lemma IntTextHasNoLessThan(n: int)
    ensures NoLessThan(IntToString(n))
  {
    if n < 0 {
      NatToStringShape(-n);
      var s := IntToString(n);
      assert forall i :: 1 <= i < |s| ==> s[i] == NatToString(-n)[i - 1];
    } else {
      NatToStringShape(n);
    }
  }

  lemma IntToStringSign(n: int)
    ensures IntToString(n)[0] == '-' <==> n < 0
  {
    if n >= 0 {
      NatToStringShape(n);
    }
  }

  lemma IntToStringInjective(a: int, b: int)
    requires IntToString(a) == IntToString(b)
    ensures a == b
  {
    IntToStringSign(a);
    IntToStringSign(b);
    if a < 0 {
      assert NatToString(-a) == IntToString(a)[1..];
      assert NatToString(-b) == IntToString(b)[1..];
      ParseNatToString(-a);
      ParseNatToString(-b);
    } else {
      ParseNatToString(a);
      ParseNatToString(b);
    }
  }

  lemma DropCommonPrefix(p: string, s: string, t: string)
    requires p + s == p + t
    ensures s == t
  {
    assert s == (p + s)[|p|..];
    assert t == (p + t)[|p|..];
  }

  /** In x + s, with no '<' in x and s opening with one, the first '<' is at |x|. */
  lemma FirstTagAt(x: string, s: string)
    requires NoLessThan(x) && |s| > 0 && s[0] == '<'
    ensures (x + s)[|x|] == '<'
    ensures forall k :: 0 <= k < |x| ==> (x + s)[k] != '<'
  {
  }

  /** A field without '<' ends where the next tag opens. */
  lemma SplitBeforeTag(x: string, s: string, y: string, t: string)
    requires NoLessThan(x) && NoLessThan(y)
    requires |s| > 0 && s[0] == '<' && |t| > 0 && t[0] == '<'
    requires x + s == y + t
    ensures x == y && s == t
  {
    FirstTagAt(x, s);
    FirstTagAt(y, t);
    assert |x| == |y|;
    assert x == (x + s)[..|x|] && y == (y + t)[..|y|];
    DropCommonPrefix(x, s, t);
  }

  /** Each fixed part after a value opens with a tag. */
  predicate TagAfterEachValue(m: Markup) {
    && |m.timeToHeartRate| > 0 && m.timeToHeartRate[0] == '<'
    && |m.heartRateToCadence| > 0 && m.heartRateToCadence[0] == '<'
    && |m.cadenceToWatts| > 0 && m.cadenceToWatts[0] == '<'
    && |m.trackpointClose| > 0 && m.trackpointClose[0] == '<'
  }

  lemma SourceTagAfterEachValue()
    ensures TagAfterEachValue(Source)
  {
  }

  /** Equal blocks come from points with the same time text, heart rate, cadence and
      power, for an isoTime whose output has no '<' (toISOString's never does) and a
      markup such as Source that opens a tag after each value. */
  lemma BlockDeterminesPoint(m: Markup, isoTime: int -> string, p: WorkoutDataPoint, q: WorkoutDataPoint)
    requires TagAfterEachValue(m)
    requires NoLessThan(isoTime(p.timestamp)) && NoLessThan(isoTime(q.timestamp))
    requires TrackpointBlock(m, isoTime, p) == TrackpointBlock(m, isoTime, q)
    ensures isoTime(p.timestamp) == isoTime(q.timestamp)
    ensures p.heartRate == q.heartRate && p.cadence == q.cadence && p.power == q.power
  {
    IntTextHasNoLessThan(p.heartRate);
    IntTextHasNoLessThan(q.heartRate);
    IntTextHasNoLessThan(p.cadence);
    IntTextHasNoLessThan(q.cadence);
    IntTextHasNoLessThan(p.power);
    IntTextHasNoLessThan(q.power);
    var tp, tq := isoTime(p.timestamp), isoTime(q.timestamp);
    var hp, hq := IntToString(p.heartRate), IntToString(q.heartRate);
    var cp, cq := IntToString(p.cadence), IntToString(q.cadence);
    var wp, wq := IntToString(p.power), IntToString(q.power);
    var r3p, r3q := m.cadenceToWatts + (wp + m.trackpointClose), m.cadenceToWatts + (wq + m.trackpointClose);
    var r2p, r2q := m.heartRateToCadence + (cp + r3p), m.heartRateToCadence + (cq + r3q);
    var r1p, r1q := m.timeToHeartRate + (hp + r2p), m.timeToHeartRate + (hq + r2q);
    DropCommonPrefix(m.trackpointOpen, tp + r1p, tq + r1q);
    SplitBeforeTag(tp, r1p, tq, r1q);
    DropCommonPrefix(m.timeToHeartRate, hp + r2p, hq + r2q);
    SplitBeforeTag(hp, r2p, hq, r2q);
    IntToStringInjective(p.heartRate, q.heartRate);
    DropCommonPrefix(m.heartRateToCadence, cp + r3p, cq + r3q);
    SplitBeforeTag(cp, r3p, cq, r3q);
    IntToStringInjective(p.cadence, q.cadence);
    DropCommonPrefix(m.cadenceToWatts, wp + m.trackpointClose, wq + m.trackpointClose);
    SplitBeforeTag(wp, m.trackpointClose, wq, m.trackpointClose);
    IntToStringInjective(p.power, q.power);
  }

  /** The average heart rate lies within the range of the heart rates. */
  lemma AverageHeartRateWithin(data: seq<WorkoutDataPoint>, lo: int, hi: int)
    requires |data| > 0
    requires forall i :: 0 <= i < |data| ==> lo <= data[i].heartRate <= hi
    ensures lo <= AverageHeartRate(data) <= hi
  {
    Metrics.SumBounds(HeartRates(data), lo, hi);
    QuotientBetween(Metrics.Sum(HeartRates(data)), |data|, lo, hi);
  }
}
