/** parseTCX (src/lib/workout/tcxParser.ts): a Garmin Training Center file's trackpoints
    turned into recorded data points, with the activity's name and time span.

    The XML document is abstracted to a record: the text of a <parsererror> element if
    there is one, whether a <TrainingCenterDatabase> element exists, the Notes and Id
    text of each <Activity>, and per <Trackpoint> what its child elements hold. Date
    parsing is abstracted into TimeText: a Time that is missing or empty, one that Date
    cannot parse (getTime() is NaN), or its epoch milliseconds. A numeric element's text
    is NumText: empty (or missing), or non-empty with the value parseInt reads from it,
    None standing for NaN. */
module TcxParser {
  import opened Common
  import opened WorkoutTypes

  datatype TimeText = NoTime | InvalidTime | At(ms: int)

  datatype NumText = Blank | Text(parsed: Option<int>)

  /** One <Trackpoint>. heartRateBpm is None when the HeartRateBpm element is missing
      or has empty text, and otherwise holds the text of its Value child. nsWatts is the
      Watts element in the ActivityExtension namespace, if any; plainWatts and
      prefixedWatts are the texts of the elements named Watts and ns3:Watts. */
  datatype Trackpoint = Trackpoint(
    time: TimeText,
    heartRateBpm: Option<NumText>,
    cadence: NumText,
    nsWatts: Option<NumText>,
    plainWatts: NumText,
    prefixedWatts: NumText)

  datatype Activity = Activity(notes: string, id: string)

  datatype TcxDocument = TcxDocument(
    parserError: Option<string>,
    hasTrainingCenterDatabase: bool,
    activities: seq<Activity>,
    trackpoints: seq<Trackpoint>)

  /** The success payload; startTime and endTime are epoch milliseconds. */
  datatype ParsedTcxWorkout = ParsedTcxWorkout(
    name: string,
    startTime: int,
    endTime: int,
    duration: int,
    dataPoints: seq<WorkoutDataPoint>)

  const XmlParsingError := "XML Parsing Error: "
  const MissingDatabase := "Invalid TCX: Missing TrainingCenterDatabase tag"
  const NoActivity := "Invalid TCX: No Activity element found"
  const NoTrackpoints := "Invalid TCX: No Trackpoints found"
  const NoValidPoints := "Invalid TCX: No valid data points extracted"

  /** parseInt(text || '0'): empty text reads as 0. */
  function ParseIntOrZero(t: NumText): (v: Option<int>)
    ensures t.Blank? ==> v == Some(0)
    ensures t.Text? ==> v == t.parsed
  {
    match t
    case Blank => Some(0)
    case Text(p) => p
  }

  /** isNaN(x) ? 0 : x. */
  function NanToZero(x: Option<int>): int {
    if x.Some? then x.value else 0
  }

  /** The heart rate text: the Value text when HeartRateBpm has text, else '0'. */
  function HeartRateText(tp: Trackpoint): (t: NumText)
    ensures tp.heartRateBpm.None? ==> ParseIntOrZero(t) == Some(0)
    ensures tp.heartRateBpm.Some? ==> t == tp.heartRateBpm.value
  {
    if tp.heartRateBpm.Some? then tp.heartRateBpm.value else Text(Some(0))
  }

  /** The namespaced Watts element if there is one, else w1 || w2 || '0'. */
  function WattsText(tp: Trackpoint): (t: NumText)
    ensures tp.nsWatts.Some? ==> t == tp.nsWatts.value
    ensures tp.nsWatts.None? && tp.plainWatts.Text? ==> t == tp.plainWatts
    ensures tp.nsWatts.None? && tp.plainWatts.Blank? ==> t == tp.prefixedWatts
    ensures tp.nsWatts.None? && tp.plainWatts.Blank? && tp.prefixedWatts.Blank? ==> ParseIntOrZero(t) == Some(0)
  {
    if tp.nsWatts.Some? then tp.nsWatts.value
    else if tp.plainWatts.Text? then tp.plainWatts
    else tp.prefixedWatts
  }

  /** The data point a trackpoint yields, or None when the loop `continue`s past it. */
  function ParsePoint(tp: Trackpoint): (p: Option<WorkoutDataPoint>)
    ensures p.Some? <==> tp.time.At?
    ensures p.Some? ==> p.value.timestamp == tp.time.ms
  {
    match tp.time
    case NoTime => None
    case InvalidTime => None
    case At(ms) =>
      Some(WorkoutDataPoint(ms, NanToZero(ParseIntOrZero(WattsText(tp))),
                            NanToZero(ParseIntOrZero(HeartRateText(tp))), NanToZero(ParseIntOrZero(tp.cadence))))
  }

  /** The data points the loop has pushed after visiting the given trackpoints. */
  function KeptPoints(tps: seq<Trackpoint>): (ps: seq<WorkoutDataPoint>)
    ensures |ps| <= |tps|
    decreases |tps|
  {
    if tps == [] then []
    else
      var before := KeptPoints(tps[..|tps| - 1]);
      var p := ParsePoint(tps[|tps| - 1]);
      if p.Some? then before + [p.value] else before
  }

  /** id.split('T')[0]: the text before the first 'T', or all of it. */
  function BeforeT(id: string): (r: string)
    ensures |r| <= |id| && r == id[..|r|]
    ensures forall i :: 0 <= i < |r| ==> r[i] != 'T'
    ensures |r| < |id| ==> id[|r|] == 'T'
    decreases |id|
  {
    if id == [] || id[0] == 'T' then [] else [id[0]] + BeforeT(id[1..])
  }

  /** notes || `Imported Workout ${id.split('T')[0]}`. */
  function WorkoutName(a: Activity): (name: string)
    ensures a.notes != "" ==> name == a.notes
    ensures a.notes == "" ==> name == "Imported Workout " + BeforeT(a.id)
  {
    if a.notes != "" then a.notes else "Imported Workout " + BeforeT(a.id)
  }

  /** parseTCX: the error results in the order the source tests them, else the kept
      points with the first one's time as start and the last one's as end. */
  function ParseTcxResult(doc: TcxDocument): (r: Result<ParsedTcxWorkout>)
    ensures doc.parserError.Some? ==> r == Err(XmlParsingError + doc.parserError.value)
    ensures doc.parserError.None? && |doc.activities| == 0 ==>
              r == Err(if doc.hasTrainingCenterDatabase then NoActivity else MissingDatabase)
    ensures doc.parserError.None? && |doc.activities| > 0 && |doc.trackpoints| == 0 ==> r == Err(NoTrackpoints)
    ensures (doc.parserError.None? && |doc.activities| > 0 && |doc.trackpoints| > 0
             && |KeptPoints(doc.trackpoints)| == 0) ==> r == Err(NoValidPoints)
    ensures r.Ok? <==> doc.parserError.None? && |doc.activities| > 0 && |KeptPoints(doc.trackpoints)| > 0
    ensures r.Ok? ==>
      var w := r.value;
      && 1 <= |w.dataPoints| <= |doc.trackpoints|
      && w.dataPoints == KeptPoints(doc.trackpoints)
      && w.name == WorkoutName(doc.activities[0])
      && w.startTime == w.dataPoints[0].timestamp
      && w.endTime == w.dataPoints[|w.dataPoints| - 1].timestamp
      && w.duration == (w.endTime - w.startTime + 500) / 1000
  {
    if doc.parserError.Some? then Err(XmlParsingError + doc.parserError.value)
    else if |doc.activities| == 0 then
      Err(if doc.hasTrainingCenterDatabase then NoActivity else MissingDatabase)
    else if |doc.trackpoints| == 0 then Err(NoTrackpoints)
    else
      var ps := KeptPoints(doc.trackpoints);
      if |ps| == 0 then Err(NoValidPoints)
      else
        var start, end := ps[0].timestamp, ps[|ps| - 1].timestamp;
        Ok(ParsedTcxWorkout(WorkoutName(doc.activities[0]), start, end, DurationSeconds(start, end), ps))
  }

  /** The `for (const tp of trackpoints)` loop with its two `continue`s, the
      firstTimestamp latch and the pushes into dataPoints. */
  method ParseTcx(doc: TcxDocument) returns (r: Result<ParsedTcxWorkout>)
    ensures r == ParseTcxResult(doc)
  {
    if doc.parserError.Some? {
      return Err(XmlParsingError + doc.parserError.value);
    }
    if |doc.activities| == 0 {
      if !doc.hasTrainingCenterDatabase {
        return Err(MissingDatabase);
      }
      return Err(NoActivity);
    }
    var activity := doc.activities[0];
    var name := WorkoutName(activity);
    var trackpoints := doc.trackpoints;
    if |trackpoints| == 0 {
      return Err(NoTrackpoints);
    }
    var dataPoints: seq<WorkoutDataPoint> := [];
    var firstTimestamp: Option<int> := None;
    for j := 0 to |trackpoints|
      invariant dataPoints == KeptPoints(trackpoints[..j])
      invariant firstTimestamp == if dataPoints == [] then None else Some(dataPoints[0].timestamp)
    {
      var tp := trackpoints[j];
      assert trackpoints[..j + 1][..j] == trackpoints[..j];
      if tp.time.NoTime? {
        continue;
      }
      if tp.time.InvalidTime? {
        continue;
      }
      var timestamp := tp.time.ms;
      if firstTimestamp.None? {
        firstTimestamp := Some(timestamp);
      }
      var heartRate := ParseIntOrZero(HeartRateText(tp));
      var cadence := ParseIntOrZero(tp.cadence);
      var watts := ParseIntOrZero(WattsText(tp));
      dataPoints := dataPoints + [WorkoutDataPoint(timestamp, NanToZero(watts), NanToZero(heartRate), NanToZero(cadence))];
    }
    assert trackpoints[..|trackpoints|] == trackpoints;
    if firstTimestamp.None? || |dataPoints| == 0 {
      return Err(NoValidPoints);
    }
    var lastTimestamp := dataPoints[|dataPoints| - 1].timestamp;
    var start := firstTimestamp.value;
    var duration := DurationSeconds(start, lastTimestamp);
    r := Ok(ParsedTcxWorkout(name, start, lastTimestamp, duration, dataPoints));
  }

  // ---------------------------------------------------------------------------
  // Properties of the trackpoint loop

  /** A trackpoint is kept exactly when its Time is present and parses. */
  predicate HasValidTime(tp: Trackpoint) {
    tp.time.At?
  }

  /** A kept point carries the parsed time, and each of watts, heart rate and cadence
      is the value parseInt reads, or 0 when the text is empty, missing or NaN. */
  lemma PointDefaults(tp: Trackpoint)
    ensures ParsePoint(tp).Some? <==> HasValidTime(tp)
    ensures HasValidTime(tp) ==>
      var p := ParsePoint(tp).value;
      && p.timestamp == tp.time.ms
      && (tp.cadence.Blank? || tp.cadence.parsed.None? ==> p.cadence == 0)
      && (tp.cadence.Text? && tp.cadence.parsed.Some? ==> p.cadence == tp.cadence.parsed.value)
      && (tp.heartRateBpm.None? ==> p.heartRate == 0)
      && (tp.heartRateBpm.Some? && tp.heartRateBpm.value.Text? && tp.heartRateBpm.value.parsed.Some? ==>
            p.heartRate == tp.heartRateBpm.value.parsed.value)
      && (tp.heartRateBpm.Some? && (tp.heartRateBpm.value.Blank? || tp.heartRateBpm.value.parsed.None?) ==>
            p.heartRate == 0)
      && (tp.nsWatts.Some? ==> p.power == NanToZero(ParseIntOrZero(tp.nsWatts.value)))
      && (tp.nsWatts.None? && tp.plainWatts.Text? ==> p.power == NanToZero(tp.plainWatts.parsed))
      && (tp.nsWatts.None? && tp.plainWatts.Blank? ==> p.power == NanToZero(ParseIntOrZero(tp.prefixedWatts)))
  {
  }

  /** The positions of the kept trackpoints, in increasing order. */
  function KeptIndices(tps: seq<Trackpoint>): (idx: seq<nat>)
    ensures |idx| == |KeptPoints(tps)|
    ensures forall k :: 0 <= k < |idx| ==> idx[k] < |tps| && HasValidTime(tps[idx[k]])
    ensures forall k, l :: 0 <= k < l < |idx| ==> idx[k] < idx[l]
    decreases |tps|
  {
    if tps == [] then []
    else
      var before := KeptIndices(tps[..|tps| - 1]);
      assert forall k :: 0 <= k < |before| ==> tps[..|tps| - 1][before[k]] == tps[before[k]];
      if HasValidTime(tps[|tps| - 1]) then before + [|tps| - 1] else before
  }

  /** Point k of the output is the point read from trackpoint KeptIndices(tps)[k]. */
  lemma {:induction false} KeptPointsFromIndices(tps: seq<Trackpoint>)
    ensures forall k :: 0 <= k < |KeptPoints(tps)| ==>
              KeptPoints(tps)[k] == ParsePoint(tps[KeptIndices(tps)[k]]).value
    decreases |tps|
  {
    if tps != [] {
      var init := tps[..|tps| - 1];
      KeptPointsFromIndices(init);
      var ps, idx := KeptPoints(tps), KeptIndices(tps);
      var ps0, idx0 := KeptPoints(init), KeptIndices(init);
      forall k | 0 <= k < |ps|
        ensures ps[k] == ParsePoint(tps[idx[k]]).value
      {
        if k < |ps0| {
          assert ps[k] == ps0[k] && idx[k] == idx0[k];
          assert ps0[k] == ParsePoint(init[idx0[k]]).value;
          assert init[idx0[k]] == tps[idx0[k]];
        } else {
          assert HasValidTime(tps[|tps| - 1]) && idx[k] == |tps| - 1;
        }
      }
    }
  }

  /** Every trackpoint with a valid time is among the kept positions. */
  lemma {:induction false} ValidTimesKept(tps: seq<Trackpoint>)
    ensures forall i :: 0 <= i < |tps| && HasValidTime(tps[i]) ==> i in KeptIndices(tps)
    decreases |tps|
  {
    if tps != [] {
      var n := |tps|;
      var init := tps[..n - 1];
      ValidTimesKept(init);
      var idx, idx0 := KeptIndices(tps), KeptIndices(init);
      forall i | 0 <= i < n && HasValidTime(tps[i])
        ensures i in idx
      {
        if i < n - 1 {
          assert init[i] == tps[i];
          var k :| 0 <= k < |idx0| && idx0[k] == i;
          assert idx[k] == i;
        } else {
          assert idx[|idx| - 1] == i;
        }
      }
    }
  }

  /** The output is the kept trackpoints in input order: point k comes from trackpoint
      KeptIndices(tps)[k], and every trackpoint with a valid time is among them. */
  lemma KeptInOrder(tps: seq<Trackpoint>)
    ensures var ps, idx := KeptPoints(tps), KeptIndices(tps);
            && (forall k :: 0 <= k < |ps| ==> ps[k] == ParsePoint(tps[idx[k]]).value)
            && (forall i :: 0 <= i < |tps| && HasValidTime(tps[i]) ==> i in idx)
  {
    KeptPointsFromIndices(tps);
    ValidTimesKept(tps);
  }

  lemma SomeValidTimeKept(tps: seq<Trackpoint>)
    ensures |KeptPoints(tps)| > 0 ==> exists i :: 0 <= i < |tps| && HasValidTime(tps[i])
  {
    if |KeptPoints(tps)| > 0 {
      var idx := KeptIndices(tps);
      assert HasValidTime(tps[idx[0]]);
    }
  }

  /** Every point kept has a valid time, so an input without one yields the
      "No valid data points" error. */
  lemma NoValidTimeFails(doc: TcxDocument)
    requires doc.parserError.None? && |doc.activities| > 0 && |doc.trackpoints| > 0
    requires forall i :: 0 <= i < |doc.trackpoints| ==> !HasValidTime(doc.trackpoints[i])
    ensures ParseTcxResult(doc) == Err(NoValidPoints)
  {
    SomeValidTimeKept(doc.trackpoints);
  }
}
