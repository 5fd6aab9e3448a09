# Smart-trainer workout app: a Dafny model of its core

This project models the core of a browser app for indoor cycling:
- a Bluetooth store that decodes heart-rate, cycling-power and FTMS indoor-bike-data notifications, drives a smart trainer through the FTMS Control Point, and can replace the trainer with a bounded random-walk simulator;
- a workout store that steps through a workout's intervals once per second and sends each interval's target power to the trainer;
- the training metrics: Normalized Power, Intensity Factor, Training Stress Score, Variability Index, and the metric block stored with a saved ride;
- the power-zone table and the power and heart-rate zone bars;
- the importers for Zwift workout files (ZWO) and Training Center files (TCX), and the TCX exporter;
- the three time formatters and the graph's interval offsets.

The modules follow the source files:

- Common (common.dfy): the JavaScript arithmetic used throughout: Math.round, Math.floor of a quotient, the `%` remainder, toFixed followed by parseFloat, clamping.
- Text (text.dfy): integer rendering as template literals do it, padStart, and a character search and a digit reader used to state round trips.
- BleCodec (ble_codec.dfy): the decoders and the two control-point commands of src/lib/bluetooth/BluetoothManager.ts.
- BleState, BleDevice (ble_device.dfy): the Bluetooth store: transitions on a value (BleState) and the store object whose methods perform them (BleDevice.DeviceStore).
- WorkoutTypes (workout_types.dfy): src/lib/workout/types.ts and the recorded data point.
- WorkoutTimeline, WorkoutStore (workout_timeline.dfy, workout_store.dfy): src/lib/workout/workoutStore.ts: transitions and whole-run lemmas (WorkoutTimeline), and the store object (WorkoutStore.Store).
- Metrics (metrics.dfy): src/lib/workout/metrics.ts.
- SaveWorkout (save_workout.dfy): the metric block of saveWorkout in src/app/actions/workout.ts.
- Zones, PowerZoneBar, HeartRateZoneBar (zones.dfy, power_zone_bar.dfy, heart_rate_zone_bar.dfy): src/lib/workout/zones.ts and the two zone bar components.
- ZwoParser, TcxParser, TcxGenerator (zwo_parser.dfy, tcx_parser.dfy, tcx_generator.dfy): the importers and the exporter in src/lib/workout/.
- Page, WorkoutGraph, WorkoutHistoryItem (page.dfy, workout_graph.dfy, workout_history_item.dfy): formatTime in src/app/page.tsx, and formatDuration and the bar offsets in the two components.

These parts of the model are written imperatively, because the source is:
- The two stores are classes whose methods overwrite their fields. Each method is proved to perform the matching transition function, and the invariants and run lemmas are stated about those functions.
- The loops of the source are methods with loop invariants, each proved to compute its specification function. They are:
  - the rolling averages of calculateNormalizedPower;
  - the totalWork loop of saveWorkout;
  - the child loop of parseZwo and its IntervalsT loop;
  - the trackpoint loop of parseTCX;
  - the trackpoint string of generateTCX;
  - the currentX accumulator of the graph.

Calls the model cannot see become parameters:
- Math.pow(x, 0.25) is passed in as `root4`. The lemmas about it take any non-negative r whose 4th power is the argument.
- Date.now() and `new Date()` are passed in as `now`, and toISOString as `isoTime`.
- The DOM of an XML file becomes a record of what the parsers query.
- A Bluetooth connection attempt becomes an outcome value.
- Each random-walk step becomes a delta from the range Math.random can produce.

Numbers are unbounded integers or exact reals. Where the source's arithmetic differs from Dafny's, the model writes it out:
- JavaScript's `%` keeps the sign of the dividend.
- Math.round rounds halves up.
- toFixed rounds the magnitude.
- int16 values wrap modulo 65536.

Behaviour a reader might expect of such an app but the source does not have; the model does not add it. The source:
- has no pending-start gate: ticking counts from the first tick after startWorkout;
- records no data points in tick;
- has no pending modification, applyModification or rejectModification;
- asks the coach only when an interval completes;
- computes no metrics in stopWorkout;
- writes only Request Control (0x00), never Start or Resume (0x07);
- decodes no control-point responses;
- keeps telemetry on disconnect, has a single connection slot, and keeps the control point on the simulating path;
- reads FTMS bit 0 as "speed present", although speed is present when the bit is clear;
- does not skip FTMS bits 4 and 5 before the power field;
- takes d + 1 ticks, not d, to leave an interval of d seconds (WorkoutTimeline.ToNextInterval), so a 30-second interval moves on at the 31st tick.

## Model

| member | source | states |
|---|---|---|
| Common.Round | src/lib/workout/metrics.ts:20 | Math.round: the nearest integer, halves up |
| Common.RoundOfQuotient | src/lib/bluetooth/BluetoothManager.ts:250-251 | Math.round(n / d) for integers is (2n + d) div 2d |
| Common.FloorQuotient | src/app/page.tsx:148 | Math.floor(a / d) for a positive divisor: d q <= a < d q + d |
| Common.JsRem | src/app/page.tsx:149 | `%` for a positive divisor: non-negative dividends as usual, negative ones keep their sign, always strictly inside (-b, b), and a - r is a multiple of b (which together pin r down for every sign of a) |
| Common.MultipleRem | src/app/page.tsx:149 | a multiple of b has remainder 0 |
| Common.RoundFixed | src/lib/workout/metrics.ts:29 | parseFloat(x.toFixed(k)) has k decimals: times 10^k it is the integer nearest to x * 10^k, halves away from zero; so it is within half a unit of the k-th decimal of x, and a non-negative x stays non-negative |
| Common.RoundHalfAway | src/lib/workout/metrics.ts:29 | the integer nearest to z, a half going up for z >= 0 and down for z < 0 |
| Common.RoundHalfAwayUnique | src/lib/workout/metrics.ts:29 | any integer in that band is the one RoundHalfAway returns |
| Common.RoundFixedUnique | src/lib/workout/metrics.ts:29 | any value with k decimals whose scaled integer is the nearest to x * 10^k is RoundFixed(x, k): the rounding is the nearest k-decimal value |
| Common.RoundFixedFixpoint | src/lib/workout/metrics.ts:29 | any x whose k-decimal scaling is an integer is a fixpoint of the rounding |
| Common.SignedRound | src/lib/workout/metrics.ts:29 | the rounding at a scale p >= 1: on the grid of multiples of 1/p, the nearest point with halves away from zero, within 0.5/p of x, sign kept |
| Common.SignedRoundUnique | src/lib/workout/metrics.ts:29 | the only point on that grid whose scaled integer is the nearest one is SignedRound's result |
| Common.Clamp | src/lib/bluetooth/BluetoothManager.ts:296-298 | Math.max(lo, Math.min(hi, x)) lies in [lo, hi], is x inside it and the nearer bound outside |
| Text.NatToString | src/lib/workout/tcxGenerator.ts:19-24 | the decimal text of a natural number is never empty |
| Text.NatToStringShape | src/lib/workout/tcxGenerator.ts:19-24 | the text is all digits, one digit exactly below 10, and without a leading zero |
| Text.ParseNatToString | src/lib/workout/tcxGenerator.ts:19-24 | reading the digits back gives the number |
| Text.IntToString | src/lib/workout/tcxGenerator.ts:19-24 | the text of an integer is never empty |
| Text.PadStart | src/app/page.tsx:150 | padStart reaches the width and never shortens the text |
| Text.PadStartShape | src/app/page.tsx:150 | the padded text ends with the original text and holds only the fill character before it |
| BleCodec.U8 | src/lib/bluetooth/BluetoothManager.ts:154 | getUint8(i) is defined exactly when i is inside the buffer and is then the byte at i |
| BleCodec.U16LE | src/lib/bluetooth/BluetoothManager.ts:152 | getUint16(i, true) is defined exactly when two bytes remain from i and is the low byte plus 256 times the high byte |
| BleCodec.ToSigned16 | src/lib/bluetooth/BluetoothManager.ts:178 | the two's-complement reading of a 16-bit value lies in [-32768, 32767] and agrees with it modulo 65536 |
| BleCodec.I16LE | src/lib/bluetooth/BluetoothManager.ts:178 | getInt16(i, true) is defined exactly when two bytes remain and is the signed reading of the little-endian pair |
| BleCodec.DecodeHeartRate | src/lib/bluetooth/BluetoothManager.ts:145-157 | the heart-rate listener as a decoder returning an Option, with no length precondition: a value needs at least two bytes and fits in 16 bits, and a buffer too short for its reads gives None, so no heartRate is set |
| BleCodec.HeartRateFormat | src/lib/bluetooth/BluetoothManager.ts:146-157 | flag bit 0 clear gives byte 1, set gives byte 1 + 256 * byte 2; a value is set exactly when the buffer holds the flags and that value |
| BleCodec.DecodeCyclingPower | src/lib/bluetooth/BluetoothManager.ts:173-179 | the cycling-power listener as a decoder returning an Option, with no length precondition: a power exactly for buffers of at least 4 bytes, always in the int16 range; a shorter buffer gives None, so no power is set |
| BleCodec.CyclingPowerDecode | src/lib/bluetooth/BluetoothManager.ts:174-179 | power is set exactly when the buffer has 4 bytes, and is the int16 at bytes 2-3 whatever the flags say |
| BleCodec.CyclingPowerNegativeFive | src/lib/bluetooth/BluetoothManager.ts:178 | the bytes 00 00 FB FF decode to -5 W |
| BleCodec.CyclingPowerOffsets | src/lib/bluetooth/BluetoothManager.ts:181-205 | the optional-field walk ends at 4 + b0 + 2 b2 + 6 b4 + 4 b5, between 4 and 17 |
| BleCodec.CyclingPowerFieldsEnd | src/lib/bluetooth/BluetoothManager.ts:181-205 | the offset after the optional cycling-power fields lies between 4 and 17, and is 4 when none of bits 0, 2, 4 and 5 is set |
| BleCodec.CadenceRpmIsHalfRoundedUp | src/lib/bluetooth/BluetoothManager.ts:250-251 | Math.round(raw * 0.5) is (raw + 1) div 2 |
| BleCodec.CadenceRpm | src/lib/bluetooth/BluetoothManager.ts:250-251 | Math.round(raw * 0.5) is the rpm whose double is raw or raw + 1 |
| BleCodec.CadenceOffset | src/lib/bluetooth/BluetoothManager.ts:236-246 | the cadence offset is 2, 4 or 6, and is 2 exactly when neither speed bit (0, 1) is set |
| BleCodec.PowerOffset | src/lib/bluetooth/BluetoothManager.ts:236-258 | the power offset is even, from 0 to 4 bytes past the cadence offset, and at least 2 past it when the cadence field (bit 2) is present |
| BleCodec.DecodeIndoorBikeData | src/lib/bluetooth/BluetoothManager.ts:233-271 | the indoor-bike listener as a decoder of the two set() calls, each an Option, with no length precondition: a buffer too short for the flags sets nothing, and a cadence set before a failing power read stays; a power is always in the int16 range |
| BleCodec.IndoorBikeCadence | src/lib/bluetooth/BluetoothManager.ts:235-253 | cadence is read at 2 + 2 b0 + 2 b1, untouched when bit 2 is clear, and is the rounded half of the uint16 there when it is set |
| BleCodec.IndoorBikePower | src/lib/bluetooth/BluetoothManager.ts:255-265 | power is read at 2 + 2 (b0 + b1 + b2 + b3), untouched when bit 6 is clear, and is the int16 there when it is set (bits 4 and 5 are not skipped) |
| BleCodec.IndoorBikeShort | src/lib/bluetooth/BluetoothManager.ts:234-235 | a buffer too short for the flags sets nothing |
| BleCodec.RequestControlCommand | src/lib/bluetooth/BluetoothManager.ts:220-222 | Request Control is the single byte 0x00 |
| BleCodec.SetTargetPowerCommand | src/lib/bluetooth/BluetoothManager.ts:123-126 | Set Target Power is three bytes starting with 0x05 |
| BleCodec.SetTargetPowerRoundTrip | src/lib/bluetooth/BluetoothManager.ts:123-126 | bytes 1-2 read back as int16 give the watts modulo 65536, and exactly the watts within the int16 range |
| BleState.SimStep | src/lib/bluetooth/BluetoothManager.ts:291-298 | a simulation step lands inside power [50,400], heart rate [60,190], cadence [40,120]; a move that stays inside is taken as it is, and from inside the bounds no value moves further than its delta range |
| BleState.SimRun | src/lib/bluetooth/BluetoothManager.ts:285-300 | from the seed (150, 120, 80) any sequence of steps stays inside the bounds |
| BleState.Connect | src/lib/bluetooth/BluetoothManager.ts:49-77 | simulating: connected as "Simulated Bike" with the walk restarted from its seed; no device or a failure: nothing changes; a reached server: connected under the device name or "Unknown Device", with no write and the control point as it was. The FTMS setup that connect then awaits (line 82) is the separate step BleState.AcquireControl |
| BleState.Disconnect | src/lib/bluetooth/BluetoothManager.ts:93-103 | clears the connection and name, drops the control point only on the real-device path, stops the walk only when simulating, and keeps telemetry and writes |
| BleState.ToggleSimulation | src/lib/bluetooth/BluetoothManager.ts:105-107 | flips isSimulating and nothing else |
| BleState.ToggleSimulationTwice | src/lib/bluetooth/BluetoothManager.ts:105-107 | toggling twice is the identity |
| BleState.SetTargetPower | src/lib/bluetooth/BluetoothManager.ts:109-133 | simulating or without a control point nothing is written; otherwise exactly one Set Target Power command for the watts is appended |
| BleState.AcquireControl | src/lib/bluetooth/BluetoothManager.ts:219-225 | Request Control is written first, and the control point is stored only when that write succeeded |
| BleState.SimulationTick | src/lib/bluetooth/BluetoothManager.ts:289-300 | a tick publishes the stepped power, heart rate and cadence, which stay inside the bounds |
| BleState.OnHeartRateMeasurement | src/lib/bluetooth/BluetoothManager.ts:145-158 | a notification sets heartRate to the decoded value when there is one and changes nothing else |
| BleState.OnCyclingPowerMeasurement | src/lib/bluetooth/BluetoothManager.ts:173-206 | a notification sets power to the decoded value when there is one and changes nothing else |
| BleState.OnIndoorBikeData | src/lib/bluetooth/BluetoothManager.ts:233-271 | a notification sets cadence and power to the decoded fields that are present and changes nothing else |
| BleState.InitialValid | src/lib/bluetooth/BluetoothManager.ts:39-47 | the initial store satisfies the invariant: walk in bounds, no writes, no control point |
| BleState.SetTargetPowerPreservesValid | src/lib/bluetooth/BluetoothManager.ts:109-133 | every Set Target Power write still comes after a Request Control write |
| BleState.AcquireControlPreservesValid | src/lib/bluetooth/BluetoothManager.ts:219-225 | a stored control point always has a Request Control write before it |
| BleState.OtherTransitionsPreserveValid | src/lib/bluetooth/BluetoothManager.ts:49-107 | connect, disconnect, toggleSimulation, the simulation tick and the three notification handlers keep the invariant |
| BleDevice.DeviceStore.constructor | src/lib/bluetooth/BluetoothManager.ts:39-47 | the store starts disconnected, not simulating, with no telemetry and no control point |
| BleDevice.DeviceStore.Connect | src/lib/bluetooth/BluetoothManager.ts:49-77 | the fields after connect are BleState.Connect of the fields before, and the invariant holds |
| BleDevice.DeviceStore.StartSimulation | src/lib/bluetooth/BluetoothManager.ts:282-289 | the walk is (re)started from the seed, nothing else changes |
| BleDevice.DeviceStore.SimulationTick | src/lib/bluetooth/BluetoothManager.ts:289-301 | the fields after a tick are BleState.SimulationTick of the fields before |
| BleDevice.DeviceStore.Disconnect | src/lib/bluetooth/BluetoothManager.ts:93-103 | the fields after disconnect are BleState.Disconnect of the fields before |
| BleDevice.DeviceStore.ToggleSimulation | src/lib/bluetooth/BluetoothManager.ts:105-107 | the fields after toggleSimulation are BleState.ToggleSimulation of the fields before |
| BleDevice.DeviceStore.SetTargetPower | src/lib/bluetooth/BluetoothManager.ts:109-133 | the fields and write log after setTargetPower are BleState.SetTargetPower of those before |
| BleDevice.DeviceStore.AcquireControl | src/lib/bluetooth/BluetoothManager.ts:219-225 | the fields and write log after the control request are BleState.AcquireControl of those before |
| BleDevice.DeviceStore.OnHeartRateMeasurement | src/lib/bluetooth/BluetoothManager.ts:145-158 | the handler updates the fields as BleState.OnHeartRateMeasurement says |
| BleDevice.DeviceStore.OnCyclingPowerMeasurement | src/lib/bluetooth/BluetoothManager.ts:173-206 | the handler updates the fields as BleState.OnCyclingPowerMeasurement says |
| BleDevice.DeviceStore.OnIndoorBikeData | src/lib/bluetooth/BluetoothManager.ts:233-271 | the handler updates the fields as BleState.OnIndoorBikeData says |
| WorkoutTimeline.Start | src/lib/workout/workoutStore.ts:31-47 | startWorkout makes the store active and unpaused on the workout, zeroes the index and both timers, clears the feedback, and sends the first interval's target exactly when there is one |
| WorkoutTimeline.Pause | src/lib/workout/workoutStore.ts:49 | pauseWorkout sets isPaused and changes nothing else |
| WorkoutTimeline.Resume | src/lib/workout/workoutStore.ts:51 | resumeWorkout clears isPaused and changes nothing else |
| WorkoutTimeline.Stop | src/lib/workout/workoutStore.ts:53-64 | stopWorkout makes the store idle with no workout and zeroed index and timers, keeps the last feedback, and sends the 100 W fallback |
| WorkoutTimeline.Tick | src/lib/workout/workoutStore.ts:66-129 | tick does nothing unless running; past the last interval it stops; inside an interval both timers advance; at an interval's end it moves to the next interval (one more second, interval timer reset, its target sent) or stops after the last |
| WorkoutTimeline.Skip | src/lib/workout/workoutStore.ts:131-147 | skipInterval does nothing without a workout, moves to the next interval and sends its target without advancing elapsedTime and leaves every other field as it was, or stops after the last interval |
| WorkoutTimeline.InitialValid | src/lib/workout/workoutStore.ts:22-29 | the initial store satisfies the invariant: active exactly with a workout, idle counters zero, a valid index and interval timer |
| WorkoutTimeline.TransitionsPreserveValid | src/lib/workout/workoutStore.ts:49-147 | pause, resume, tick and skip keep the invariant (start and stop establish it outright) |
| WorkoutTimeline.TickNAdd | src/lib/workout/workoutStore.ts:66-129 | a + b ticks are a ticks followed by b ticks |
| WorkoutTimeline.IdleStaysIdle | src/lib/workout/workoutStore.ts:69 | when not running, any number of ticks changes nothing |
| WorkoutTimeline.TicksOfIsSum | src/lib/workout/workoutStore.ts:79-128 | with non-negative durations the run takes the sum of the durations plus one tick per interval |
| WorkoutTimeline.WithinInterval | src/lib/workout/workoutStore.ts:122-127 | ticks inside an interval only advance both timers by one each |
| WorkoutTimeline.ToNextInterval | src/lib/workout/workoutStore.ts:79-117 | an interval of duration d followed by another is left after d + 1 ticks, at the start of the next with its target sent |
| WorkoutTimeline.ThroughLastInterval | src/lib/workout/workoutStore.ts:118-121 | the last interval ends in the stopped store one tick after its final second |
| WorkoutTimeline.RunFrom | src/lib/workout/workoutStore.ts:66-129 | from the start of any interval, the remaining ticks reach the last second of the workout and then the stopped store |
| WorkoutTimeline.Schedule | src/lib/workout/workoutStore.ts:31-129 | a started workout with intervals stays active for exactly as many ticks as its intervals take, counting every second, then stops having sent every interval's target in order and then the fallback |
| WorkoutTimeline.StartRunEnd | src/lib/workout/workoutStore.ts:31-129 | the last second of a started workout is on its last interval with the elapsed time equal to the run's length less one and every target sent |
| WorkoutTimeline.ActiveBeforeEnd | src/lib/workout/workoutStore.ts:66-129 | the store is still active at every tick before the run's end |
| WorkoutTimeline.EmptyWorkoutStopsAtOnce | src/lib/workout/workoutStore.ts:43-46 | a workout without intervals sends nothing at start and stops on the first tick |
| WorkoutStore.Store.constructor | src/lib/workout/workoutStore.ts:22-29 | the store starts idle with no workout, zero counters and no feedback |
| WorkoutStore.Store.StartWorkout | src/lib/workout/workoutStore.ts:31-47 | the fields after startWorkout are WorkoutTimeline.Start of those before |
| WorkoutStore.Store.PauseWorkout | src/lib/workout/workoutStore.ts:49 | the fields after pauseWorkout are WorkoutTimeline.Pause of those before |
| WorkoutStore.Store.ResumeWorkout | src/lib/workout/workoutStore.ts:51 | the fields after resumeWorkout are WorkoutTimeline.Resume of those before |
| WorkoutStore.Store.StopWorkout | src/lib/workout/workoutStore.ts:53-64 | the fields after stopWorkout are WorkoutTimeline.Stop of those before |
| WorkoutStore.Store.Tick | src/lib/workout/workoutStore.ts:66-129 | the fields after tick are WorkoutTimeline.Tick of those before |
| WorkoutStore.Store.SkipInterval | src/lib/workout/workoutStore.ts:131-147 | the fields after skipInterval are WorkoutTimeline.Skip of those before |
| WorkoutStore.Store.SetTargetPower | src/lib/workout/workoutStore.ts:45 | a call on the Bluetooth store appends the watts to the command log and changes nothing else |
| Metrics.SumAppend | src/lib/workout/metrics.ts:14 | the sum of two series joined is the sum of their sums |
| Metrics.SumBounds | src/lib/workout/metrics.ts:14 | values within [lo, hi] sum to between n lo and n hi |
| Metrics.SumConstant | src/lib/workout/metrics.ts:14 | a constant series of length n sums to n times the constant |
| Metrics.Sum | src/lib/workout/metrics.ts:14 | the reduce of non-negative samples is non-negative |
| Metrics.WindowMean | src/lib/workout/metrics.ts:13-14 | the mean of a window of non-negative samples is non-negative |
| Metrics.RollingAverages | src/lib/workout/metrics.ts:11-16 | one mean per full 30-sample window, in order: entry i is the mean of samples i to i + 29 |
| Metrics.NormalizedPower | src/lib/workout/metrics.ts:9 | fewer than 30 samples give 0 |
| Metrics.CalculateNormalizedPower | src/lib/workout/metrics.ts:8-21 | the loop returns 0 below 30 samples and otherwise Math.round of the 4th root of the mean 4th power of the rolling averages |
| Metrics.Pow4Mono | src/lib/workout/metrics.ts:18 | x^4 is monotone on non-negative reals |
| Metrics.Pow4StrictMono | src/lib/workout/metrics.ts:18 | x^4 is strictly monotone on non-negative reals |
| Metrics.Pow4Injective | src/lib/workout/metrics.ts:18-20 | a non-negative 4th root is unique, so Math.pow(x, 0.25) has one correct answer |
| Metrics.SumPow4Constant | src/lib/workout/metrics.ts:18 | the 4th powers of a constant series sum to its length times the constant's 4th power |
| Metrics.ConstantMeans | src/lib/workout/metrics.ts:11-16 | every rolling average of a constant series is that constant |
| Metrics.MeanPow4Constant | src/lib/workout/metrics.ts:18-19 | the mean 4th power of a constant series is the constant's 4th power |
| Metrics.NormalizedPowerOfConstant | src/lib/workout/metrics.ts:8-21 | a steady ride at c W (30 samples or more) has NP c, for any non-negative 4th root of the mean |
| Metrics.NormalizedPowerConstant | src/lib/workout/metrics.ts:8-21 | with any correct 4th root, calculateNormalizedPower of a steady ride at c W (30 samples or more) returns c |
| Metrics.VariedWindowSum | src/lib/workout/metrics.ts:13-14 | for 30 samples at 100 W then 30 at 300 W, window i sums to 3000 + 200 i |
| Metrics.VariedMean | src/lib/workout/metrics.ts:14 | window i of that series averages (3000 + 200 i) / 30 |
| Metrics.VariedSumPow4Prefix | src/lib/workout/metrics.ts:18 | the first k 4th powers of its rolling averages sum to the closed integer sum over 810000 |
| Metrics.VariedMeanPow4 | src/lib/workout/metrics.ts:18-19 | its mean 4th power is 62173798400000000 / 25110000 |
| Metrics.NormalizedPowerOfVaried | src/lib/workout/metrics.ts:8-21 | any non-negative 4th root of its mean 4th power rounds to 223 |
| Metrics.NormalizedPowerVaried | src/lib/workout/metrics.ts:8-21 | with any correct 4th root, calculateNormalizedPower of 30 samples at 100 W then 30 at 300 W returns 223 |
| Metrics.VariedAverage | src/app/actions/workout.ts:34 | that series sums to 12000 and Math.round of its mean power is 200 |
| Metrics.VariedVariabilityIndex | src/lib/workout/metrics.ts:45-48 | with that NP and its 200 W average, the variability index exceeds 1 |
| Metrics.IntensityFactor | src/lib/workout/metrics.ts:27-30 | 0 for an FTP of 0, otherwise np / ftp at two decimals: 100 times it is the integer nearest to 100 np / ftp, halves away from zero, so it is within half a hundredth of np / ftp |
| Metrics.TrainingStressScore | src/lib/workout/metrics.ts:36-39 | 0 for an FTP of 0, otherwise seconds * NP * IF / (FTP * 3600) * 100 at one decimal: 10 times it is the nearest integer to 10 times that value, so it is within half a tenth of it |
| Metrics.VariabilityIndex | src/lib/workout/metrics.ts:45-48 | 0 for an average of 0, otherwise np / avgPower at two decimals: 100 times it is the nearest integer to 100 np / avgPower, so it is within half a hundredth of it |
| Metrics.TwoDecimals | src/lib/workout/metrics.ts:29 | toFixed(2) rounds at scale 100 |
| Metrics.OneDecimal | src/lib/workout/metrics.ts:38 | toFixed(1) rounds at scale 10 |
| Metrics.RoundFixedExact | src/lib/workout/metrics.ts:29 | a value already at k decimals passes through toFixed(k) and parseFloat unchanged |
| Metrics.RoundOfInt | src/lib/workout/metrics.ts:20 | Math.round leaves an integer as it is |
| Metrics.IntensityFactorExample | src/lib/workout/metrics.ts:27-30 | NP 200 at FTP 250 gives IF 0.8 |
| Metrics.TssOneHourAtFtp | src/lib/workout/metrics.ts:36-39 | an hour at FTP with IF 1 scores exactly 100 |
| Metrics.TssHalfHourExample | src/lib/workout/metrics.ts:36-39 | half an hour at NP 200, IF 0.8, FTP 250 scores 32 |
| SaveWorkout.Powers | src/app/actions/workout.ts:33 | the power series has one entry per point, the point's power |
| SaveWorkout.EffectiveFtp | src/app/actions/workout.ts:36 | the user's FTP when set and non-zero, otherwise 200, so never 0 |
| SaveWorkout.AveragePower | src/app/actions/workout.ts:34 | the mean power rounded to the nearest integer, halves up |
| SaveWorkout.TotalWork | src/app/actions/workout.ts:41-47 | no work for fewer than two points |
| SaveWorkout.TotalWorkConstant | src/app/actions/workout.ts:41-47 | constant power p sampled every second over n points gives p (n - 1) joules |
| SaveWorkout.TotalWorkNonNegative | src/app/actions/workout.ts:41-47 | non-negative powers at non-decreasing timestamps give non-negative work |
| SaveWorkout.AccumulateTotalWork | src/app/actions/workout.ts:41-47 | the loop computes the trapezoidal sum TotalWork of the points |
| SaveWorkout.SegmentWork | src/app/actions/workout.ts:44-46 | one segment's work is non-negative for a non-negative power sum at non-decreasing timestamps, and is power times seconds when both powers are equal |
| SaveWorkout.ComputeMetrics | src/app/actions/workout.ts:30-56 | duration is the rounded whole seconds between the times, and the stored block is the average power, NP, IF and TSS at the effective FTP, VI and the rounded total work |
| WorkoutTypes.DurationSeconds | src/app/actions/workout.ts:30 | Math.round((end - start) / 1000) is (end - start + 500) div 1000 |
| WorkoutTypes.SumDurationsAppend | src/lib/workout/types.ts:16-17 | the durations of two interval lists joined add up |
| WorkoutTypes.SumDurationsNonNegative | src/lib/workout/types.ts:16-17 | non-negative durations have a non-negative sum |
| WorkoutTypes.TargetsAt | src/lib/workout/types.ts:6 | entry i of the target list is interval i's target power |
| Zones.ZonePower | src/lib/workout/zones.ts:28-29 | Math.round(ftp * (percent / 100)) is (ftp * percent + 50) div 100 |
| Zones.ToTrainingZone | src/lib/workout/zones.ts:23-32 | one zone keeps the definition's id, name, colour, description and percentages, and rounds both percentages of the FTP to watts as (ftp * percent + 50) div 100 |
| Zones.CalculateZones | src/lib/workout/zones.ts:22-33 | seven zones in table order, each carrying its row's id, name, percentages, colour and description, with both watt bounds the rounded percentage of FTP |
| Zones.ZonesOrdered | src/lib/workout/zones.ts:12-33 | for a non-negative FTP each zone's lower bound is at most its upper bound and lower bounds never decrease along the table |
| Zones.ZonesOfZeroFtp | src/lib/workout/zones.ts:28-29 | an FTP of 0 gives 0 W for every bound |
| Zones.ZonesContiguous | src/lib/workout/zones.ts:12-20 | the table starts at 0 % and each zone starts one percent above the previous one's end |
| PowerZoneBar.SafeFtp | src/components/PowerZoneBar.tsx:11 | a positive FTP is used as it is, anything else is replaced by 200 W |
| PowerZoneBar.PowerPercentage | src/components/PowerZoneBar.tsx:12 | the percentage of FTP is clamped to [0, 150] |
| PowerZoneBar.PowerZone | src/components/PowerZoneBar.tsx:19-43 | the zone is one of 1 to 6 |
| PowerZoneBar.ZoneOfPercentage | src/components/PowerZoneBar.tsx:19-43 | the zone is 1 to 6, is 1 exactly below 55 %, and otherwise the percentage is at least its own threshold and below the next one |
| PowerZoneBar.VisualPercentage | src/components/PowerZoneBar.tsx:44-46 | the bar width is the percentage scaled by 100 / 150, within [0, 100] |
| PowerZoneBar.PercentageAtLeast | src/components/PowerZoneBar.tsx:12 | for a non-negative power the percentage reaches t exactly when 100 * power >= t * safeFtp |
| PowerZoneBar.PowerZoneAgrees | src/components/PowerZoneBar.tsx:11-43 | the if/else chain picks the zone that counting thresholds 55, 75, 90, 105, 120 reached by 100 * power against t * safeFtp picks |
| PowerZoneBar.PercentageMono | src/components/PowerZoneBar.tsx:12 | more power never lowers the percentage |
| PowerZoneBar.PowerZoneMonotone | src/components/PowerZoneBar.tsx:11-43 | more power never lowers the zone |
| PowerZoneBar.ZoneRanges | src/components/PowerZoneBar.tsx:19-43 | a percentage's zone is the one whose range [threshold, next threshold) holds it |
| HeartRateZoneBar.HeartRatePercentage | src/components/HeartRateZoneBar.tsx:10-11 | no number (NaN) exactly for 0 / 0, otherwise a percentage in [0, 100]; a zero maximum gives 100 for a positive and 0 for a negative heart rate |
| HeartRateZoneBar.ZoneOfPercentage | src/components/HeartRateZoneBar.tsx:17-37 | the zone is one of 1 to 5, and NaN falls through to 5 |
| HeartRateZoneBar.HeartRateZone | src/components/HeartRateZoneBar.tsx:10-37 | the zone is one of 1 to 5 |
| HeartRateZoneBar.PercentageAtLeast | src/components/HeartRateZoneBar.tsx:11 | for a positive maximum and non-negative heart rate the percentage reaches t exactly when 100 * hr >= t * maxHr |
| HeartRateZoneBar.HeartRateZoneAgrees | src/components/HeartRateZoneBar.tsx:10-37 | the chain picks the zone that counting thresholds 60, 70, 80, 90 reached by 100 * hr against t * maxHr picks |
| HeartRateZoneBar.HeartRateZoneMonotone | src/components/HeartRateZoneBar.tsx:10-37 | for a fixed non-negative maximum a higher heart rate never lowers the zone |
| ZwoParser.IntervalId | src/lib/workout/zwoParser.ts:28 | every id is "interval-" followed by the counter |
| ZwoParser.IntervalIdInjective | src/lib/workout/zwoParser.ts:28 | different counters give different ids |
| ZwoParser.Watts | src/lib/workout/zwoParser.ts:30 | Math.round(fraction * ftp) is within half a watt of the exact product |
| ZwoParser.SingleInterval | src/lib/workout/zwoParser.ts:20-43 | a single-interval element keeps its Duration (0 when absent) |
| ZwoParser.RepeatInterval | src/lib/workout/zwoParser.ts:51-67 | an even position of an IntervalsT expansion lasts OnDuration, an odd one OffDuration |
| ZwoParser.RepeatPairs | src/lib/workout/zwoParser.ts:51-67 | k repetitions give 2k intervals, position m being the on or off half of repetition m div 2 |
| ZwoParser.RepeatStep | src/lib/workout/zwoParser.ts:51-67 | one more repetition appends its on interval and then its off interval |
| ZwoParser.RepeatHalves | src/lib/workout/zwoParser.ts:53-67 | repetition i of an IntervalsT element gives, numbered n and n + 1, an active interval of OnDuration seconds within half a watt of OnPower times FTP labelled "Interval i+1/Repeat (On)", then a recovery interval of OffDuration seconds at OffPower labelled "(Off)"; this is the contract of OnInterval and OffInterval |
| ZwoParser.ParseZwoResult | src/lib/workout/zwoParser.ts:3-93 | no workout_file gives "Invalid ZWO file", no workout node gives "No workout data found", the parse succeeds exactly when both are present, its intervals are the workout node's elements mapped one by one, and its totalDuration is the sum of their durations |
| ZwoParser.ParseZwo | src/lib/workout/zwoParser.ts:3-93 | the forEach with its counter returns exactly ParseZwoResult |
| ZwoParser.VisitNode | src/lib/workout/zwoParser.ts:19-84 | one child appends the intervals that element yields, numbered from the current count, and the count follows the list |
| ZwoParser.MapElements | src/lib/workout/zwoParser.ts:19-84 | the forEach over the children yields as many intervals as the elements contribute: one per single element, 2 * Repeat per IntervalsT, none for other tags |
| ZwoParser.PushRepeats | src/lib/workout/zwoParser.ts:51-68 | the inner for loop appends the on/off pairs of all repetitions in order |
| ZwoParser.IntervalsTExpansion | src/lib/workout/zwoParser.ts:44-68 | IntervalsT yields 2 * Repeat intervals (none for a Repeat of 0 or less), alternating active at OnDuration / OnPower and recovery at OffDuration / OffPower |
| ZwoParser.SingleElement | src/lib/workout/zwoParser.ts:20-43 | Warmup, Cooldown, SteadyState and Ramp each yield one interval of their Duration and type; SteadyState targets Power, the others the mean of PowerLow and PowerHigh |
| ZwoParser.ElementIntervals | src/lib/workout/zwoParser.ts:20-83 | the intervals one child element pushes, numbered interval-start, interval-(start + 1), … in order |
| ZwoParser.ElementIds | src/lib/workout/zwoParser.ts:28 | an element's intervals are numbered consecutively from the current count |
| ZwoParser.ConsecutiveIds | src/lib/workout/zwoParser.ts:17-84 | the whole list is numbered interval-0, interval-1, … without gaps |
| ZwoParser.RepeatPairsDuration | src/lib/workout/zwoParser.ts:51-67 | k repetitions last k * (OnDuration + OffDuration) |
| ZwoParser.ElementDurationSum | src/lib/workout/zwoParser.ts:19-84 | the intervals of one element last that element's duration |
| ZwoParser.TotalDurationByElements | src/lib/workout/zwoParser.ts:91 | the total is the sum over the elements of their durations |
| ZwoParser.UnknownTagSkipped | src/lib/workout/zwoParser.ts:69-83 | an element with any other tag name adds nothing |
| TcxParser.ParseIntOrZero | src/lib/workout/tcxParser.ts:65-67 | an empty text is read as "0"; any other text gives parseInt's result, no number for NaN |
| TcxParser.HeartRateText | src/lib/workout/tcxParser.ts:64 | the text parsed for the heart rate is the HeartRateBpm Value text when HeartRateBpm has text, and otherwise reads as 0 |
| TcxParser.WattsText | src/lib/workout/tcxParser.ts:71-83 | the power text is the namespaced Watts element's when there is one, otherwise the plain Watts text when non-empty, otherwise the ns3:Watts text, and reading 0 when both are empty |
| TcxParser.KeptPoints | src/lib/workout/tcxParser.ts:53-91 | at most one data point per trackpoint |
| TcxParser.BeforeT | src/lib/workout/tcxParser.ts:43 | id.split('T')[0] is the longest prefix of the id without a 'T', followed by a 'T' when it is shorter than the id |
| TcxParser.WorkoutName | src/lib/workout/tcxParser.ts:41-43 | the Notes text when non-empty, otherwise "Imported Workout " and the Id up to its first 'T' |
| TcxParser.ParseTcxResult | src/lib/workout/tcxParser.ts:15-110 | a parser error, a missing database, no Activity, no Trackpoint and no valid point each give their message; success exactly when there is an activity and a valid point, with the kept points in order, the first activity's name, start and end at the first and last kept timestamps and the duration in rounded whole seconds |
| TcxParser.ParseTcx | src/lib/workout/tcxParser.ts:15-110 | the trackpoint loop with its two `continue`s and the firstTimestamp latch returns exactly ParseTcxResult |
| TcxParser.ParsePoint | src/lib/workout/tcxParser.ts:53-90 | a trackpoint yields a point exactly when its Time parses, and the point's timestamp is that time |
| TcxParser.PointDefaults | src/lib/workout/tcxParser.ts:54-90 | a trackpoint yields a point exactly when its Time is present and valid; missing or unparsable heart rate and cadence become 0, and power comes from the namespaced Watts, else the plain Watts text, else the ns3:Watts text |
| TcxParser.KeptIndices | src/lib/workout/tcxParser.ts:53-91 | the trackpoints kept are at strictly increasing positions, each with a valid time |
| TcxParser.KeptInOrder | src/lib/workout/tcxParser.ts:53-91 | kept point k is the point read from the k-th kept trackpoint, and every trackpoint with a valid time is kept |
| TcxParser.KeptPointsFromIndices | src/lib/workout/tcxParser.ts:53-91 | point k of the output is the point read from the trackpoint at the k-th kept position |
| TcxParser.ValidTimesKept | src/lib/workout/tcxParser.ts:53-91 | every trackpoint with a valid time is among the kept positions |
| TcxParser.SomeValidTimeKept | src/lib/workout/tcxParser.ts:53-62 | a kept point comes from some trackpoint with a valid time |
| TcxParser.NoValidTimeFails | src/lib/workout/tcxParser.ts:93-95 | trackpoints none of which has a valid time give "No valid data points extracted" |
| TcxGenerator.StartTime | src/lib/workout/tcxGenerator.ts:5 | the first point's time in ISO form, or the current time for no points |
| TcxGenerator.AverageHeartRate | src/lib/workout/tcxGenerator.ts:9 | 0 for no points, otherwise the mean heart rate rounded half up |
| TcxGenerator.MaxHeartRate | src/lib/workout/tcxGenerator.ts:10 | at least 0 and every heart rate, and either 0 or one of the heart rates |
| TcxGenerator.TrackpointBlock | src/lib/workout/tcxGenerator.ts:14-28 | one point's block opens with the Trackpoint start tag and ends with its end tag |
| TcxGenerator.TcxText | src/lib/workout/tcxGenerator.ts:31-50 | the returned file starts with the XML declaration and the TrainingCenterDatabase, Activities and Activity start tags |
| TcxGenerator.BlockTexts | src/lib/workout/tcxGenerator.ts:13-29 | one Trackpoint block per point, in the points' order |
| TcxGenerator.GenerateTcx | src/lib/workout/tcxGenerator.ts:4-51 | the file is the template around the start time, the name, the point count, the average and maximum heart rate and the joined trackpoint blocks |
| TcxGenerator.RenderTcx | src/lib/workout/tcxGenerator.ts:12-50 | the forEach appends exactly the blocks of the points in order, for any markup |
| TcxGenerator.JoinAppend | src/lib/workout/tcxGenerator.ts:13-29 | joining two lists of blocks is joining each and concatenating |
| TcxGenerator.BlocksStep | src/lib/workout/tcxGenerator.ts:15 | one more point appends its block to the trackpoints text |
| TcxGenerator.BlocksAppend | src/lib/workout/tcxGenerator.ts:13-29 | the blocks of two series joined are the blocks of each, concatenated |
| TcxGenerator.DocumentFields | src/lib/workout/tcxGenerator.ts:31-50 | the file contains the Id and the Lap with the start time, the Notes with the name, TotalTimeSeconds with the point count, both heart-rate values and the Track with the trackpoints |
| TcxGenerator.IntTextHasNoLessThan | src/lib/workout/tcxGenerator.ts:19-24 | a rendered integer holds no '<' |
| TcxGenerator.IntToStringInjective | src/lib/workout/tcxGenerator.ts:19-24 | different integers render differently |
| TcxGenerator.SplitBeforeTag | src/lib/workout/tcxGenerator.ts:15-28 | a value without '<' followed by markup starting with '<' splits in one way only |
| TcxGenerator.SourceTagAfterEachValue | src/lib/workout/tcxGenerator.ts:15-28 | in the template each value is followed by markup that starts with '<' |
| TcxGenerator.BlockDeterminesPoint | src/lib/workout/tcxGenerator.ts:15-28 | when the time texts hold no '<', equal blocks have equal time texts, heart rates, cadences and powers |
| TcxGenerator.HeartRates | src/lib/workout/tcxGenerator.ts:9 | data.map of the heart rates, element by element |
| Common.QuotientBetween | src/lib/workout/tcxGenerator.ts:9 | Math.round(s / n) of a sum of n values in [lo, hi] stays in [lo, hi] |
| TcxGenerator.AverageHeartRateWithin | src/lib/workout/tcxGenerator.ts:9 | heart rates within [lo, hi] average, rounded, within [lo, hi] |
| Page.FormatTime | src/app/page.tsx:147-151 | formatTime with Math.floor minutes and the signed `%` remainder padded to two places; always at least three characters (shape and read-back below) |
| Page.FormatTimeShape | src/app/page.tsx:147-151 | for a non-negative input the text is the minutes in digits without a leading zero, a colon, and exactly two digits for a value below 60 |
| Page.FormatTimeReadBack | src/app/page.tsx:147-151 | for a non-negative input, 60 times the minutes before the colon plus the two digits after it is the input |
| Page.FormatTimeInjective | src/app/page.tsx:147-151 | different non-negative inputs give different texts |
| Page.FormatTimeUnderMinute | src/app/page.tsx:148-150 | under a minute the text starts with "0:" |
| Page.FormatTimeOfNegative | src/app/page.tsx:148-150 | -5 s is shown as "-1:-5" (floor for the minutes, a signed remainder) |
| Page.PadTwoDigits | src/app/page.tsx:150 | padStart(2, '0') of a number below 60 is two digits with that value |
| WorkoutGraph.FormatDuration | src/components/WorkoutGraph.tsx:48-54 | the label always ends in 'm' or 's' |
| WorkoutGraph.FormatDurationReadBack | src/components/WorkoutGraph.tsx:48-54 | reading "{m}m {s}s", "{m}m" or "{s}s" back gives the non-negative duration |
| WorkoutGraph.FormatDurationInjective | src/components/WorkoutGraph.tsx:48-54 | different non-negative durations get different labels |
| WorkoutGraph.FormatDurationForms | src/components/WorkoutGraph.tsx:51-53 | a label ends in 'm' exactly for a whole number of minutes of at least one; under a minute it is the seconds and "s", including "0s" |
| WorkoutGraph.StartOffsets | src/components/WorkoutGraph.tsx:77-97 | one offset per interval |
| WorkoutGraph.IntervalOffsets | src/components/WorkoutGraph.tsx:77-97 | the render loop places bar k at the sum of the durations before it, and currentX ends at the sum of all |
| WorkoutGraph.OffsetsStep | src/components/WorkoutGraph.tsx:92 | one more interval adds one offset, and the sum grows by its duration |
| WorkoutGraph.OffsetsAdjacent | src/components/WorkoutGraph.tsx:77-97 | the first bar starts at 0 and each next bar where the previous one ends |
| WorkoutGraph.BarsWithinTotal | src/components/WorkoutGraph.tsx:24-33 | for a workout whose total is the sum of its non-negative durations, every bar lies within [0, totalDuration] and the bars never go back |
| WorkoutHistoryItem.FormatDuration | src/components/WorkoutHistoryItem.tsx:25-29 | the label always ends in 'm' |
| WorkoutHistoryItem.HoursAndMinutes | src/components/WorkoutHistoryItem.tsx:26-27 | for a non-negative duration the hours are s div 3600, the minutes lie in [0, 59], and together they are the whole minutes of s |
| WorkoutHistoryItem.FormatDurationReadBack | src/components/WorkoutHistoryItem.tsx:25-29 | the label reads back as the duration's whole minutes: the leftover seconds, under 60, are dropped |
| WorkoutHistoryItem.FormatDurationHasHours | src/components/WorkoutHistoryItem.tsx:28 | the label has the "{h}h {m}m" form exactly from one hour up |
| WorkoutHistoryItem.SameMinuteSameLabel | src/components/WorkoutHistoryItem.tsx:25-29 | durations in the same minute get the same label |

## Left out

- Web Bluetooth transport: requestDevice, the GATT connection, service and characteristic lookups, startNotifications, the event listeners and the gattserverdisconnected hook are foreign asynchronous I/O. Notifications enter the model as the bytes handed to the handlers, and a connection attempt as an outcome value.
- Control-point writes: a writeValue promise resolving or rejecting is an input (AcquireControl's writeSucceeded). The bytes written are kept as a log in the device state rather than sent.
- Timers: setInterval, clearInterval and the 1-second scheduler that calls tick are not modelled. Each simulator step and each Running tick is one call.
- Randomness: Math.random in the simulator is replaced by a step delta from the range Math.floor(Math.random() * k) - j can produce.
- The coach request inside tick: the /api/coach fetch, the speech output and the asynchronous write of lastCoachFeedback are network and audio. The model keeps only the tick's own state changes.
- Floating point: numbers are exact reals, and time and power are integers. The model makes no claim about IEEE rounding, about the binary form toFixed rounds, or about NaN arising from non-numeric ZWO attributes.
- The 4th root is the parameter root4. The Normalized Power lemmas hold for any non-negative root whose 4th power is the mean.
- XML and dates: DOMParser, querySelector and getElementsByTagNameNS are not modelled. Each parser reads a record of what its queries return. Date parsing is an optional epoch value, and toISOString is the parameter isoTime.
- parseInt and parseFloat: these become an optional number read from the element text. A text they cannot read is None, standing for NaN.
- TcxParser: the catch block that turns a thrown error into "Exception: …" is not modelled, because the decoded record cannot throw.
- TcxGenerator: no generate-then-parse round trip is stated, because, read from the source text, there is none to state. The exported document writes `<Lap StartTime>` as an attribute with no value (src/lib/workout/tcxGenerator.ts:37), so it is not well-formed XML. An XML parser then yields a `parsererror` element, and parseTCX returns "XML Parsing Error: …" for every exported file (src/lib/workout/tcxParser.ts:20-23). The XML parser itself is not part of this model.
- Math.max(...values): the engine's limit on the number of spread arguments is not modelled.
- SaveWorkout.ComputeMetrics, SaveWorkout.AveragePower: both require at least one data point. With none, the source divides by zero and stores NaN for the average power.
- Persistence and authentication: the session check, the database writes of saveWorkout, and getWorkouts are not modelled.
- The user store, the coach and music services, the voice hooks and the remaining layout components are outside the core.
- batteryLevel: left out, because the source declares it (src/lib/bluetooth/BluetoothManager.ts:21) and initialises it to null (line 42) but never sets it.
- Device store handles: deviceName is kept as an optional string. The control-point characteristic is reduced to the boolean hasControlPoint, and the other characteristic handles are not kept, so no browser objects are modelled.
- WorkoutGraph: xScale, yScale, the colours, hslToHex and the SVG output are drawing only. The model stops at the unscaled bar offsets and the labels.
- WorkoutGraph.FormatDurationReadBack: the read-back is stated for non-negative durations only. For negative inputs the label keeps JavaScript's signs, and FormatDuration's own ensures still covers its shape.
- WorkoutHistoryItem.FormatDurationReadBack: likewise stated for non-negative durations only.
- Page.FormatTimeReadBack and Page.FormatTimeShape: likewise stated for non-negative inputs only. FormatTimeOfNegative gives one negative case exactly.
