/** The Bluetooth store of src/lib/bluetooth/BluetoothManager.ts: the connection record,
    the last telemetry values, simulation mode with its random-walk generator, and the
    writes made to the trainer's FTMS Control Point.

    The transitions are pure functions on DeviceState; class DeviceStore holds the same
    fields and each of its methods is proved to perform the corresponding transition.
    The GATT transport (device chooser, service discovery, notification subscription)
    is not modelled: its outcomes arrive as parameters (ConnectOutcome, the success of
    the Request Control write) and notifications as byte sequences handed to the
    decoders. The ghost `writes` field logs every byte sequence written to the control
    point, in order. */
module BleState {
  import opened Common
  import opened BleCodec

  /** The closure state (power, hr, cadence) of the simulation generator. */
  datatype SimValues = SimValues(power: int, heartRate: int, cadence: int)

  const SimSeed := SimValues(150, 120, 80)

  predicate InSimBounds(v: SimValues) {
    && 50 <= v.power <= 400
    && 60 <= v.heartRate <= 190
    && 40 <= v.cadence <= 120
  }

  /** One draw of the generator's random steps: Math.floor(Math.random() * 10) - 5,
      Math.floor(Math.random() * 4) - 2 and Math.floor(Math.random() * 6) - 3. */
  datatype SimDeltas = SimDeltas(power: int, heartRate: int, cadence: int)

  predicate ValidDeltas(d: SimDeltas) {
    && -5 <= d.power <= 4
    && -2 <= d.heartRate <= 1
    && -3 <= d.cadence <= 2
  }

  /** One generator step: add the random steps, then clamp each value to its range. */
  function SimStep(v: SimValues, d: SimDeltas): (r: SimValues)
    ensures InSimBounds(r)
    ensures 50 <= v.power + d.power <= 400 ==> r.power == v.power + d.power
    ensures 60 <= v.heartRate + d.heartRate <= 190 ==> r.heartRate == v.heartRate + d.heartRate
    ensures 40 <= v.cadence + d.cadence <= 120 ==> r.cadence == v.cadence + d.cadence
    ensures InSimBounds(v) && ValidDeltas(d) ==>
      && -5 <= r.power - v.power <= 4
      && -2 <= r.heartRate - v.heartRate <= 1
      && -3 <= r.cadence - v.cadence <= 2
  {
    SimValues(Clamp(v.power + d.power, 50, 400),
              Clamp(v.heartRate + d.heartRate, 60, 190),
              Clamp(v.cadence + d.cadence, 40, 120))
  }

  /** The generator's values after a run of steps from the seed. */
  function SimRun(deltas: seq<SimDeltas>): (v: SimValues)
    ensures InSimBounds(v)
  {
    if deltas == [] then SimSeed else SimStep(SimRun(deltas[..|deltas| - 1]), deltas[|deltas| - 1])
  }

  /** How the (not modelled) transport part of `connect` ended when not simulating. */
  datatype ConnectOutcome =
    | NoDevice                          // requestDevice gave nothing
    | ConnectFailed                     // requestDevice or the GATT connect threw
    | Connected(name: Option<string>)   // the GATT server was reached; device.name

  datatype DeviceState = DeviceState(
    isConnected: bool,
    deviceName: Option<string>,
    heartRate: Option<int>,
    power: Option<int>,
    cadence: Option<int>,
    isSimulating: bool,
    hasControlPoint: bool,     // controlPoint !== null
    simRunning: bool,          // a simulation interval timer is scheduled
    sim: SimValues,
    writes: seq<seq<Byte>>)    // every control-point write, in order

  const Initial := DeviceState(false, None, None, None, None, false, false, false, SimSeed, [])

  predicate IsSetTargetPower(w: seq<Byte>) {
    |w| == 3 && w[0] == SetTargetPowerOpCode
  }

  /** The control-point writes are Request Control and Set Target Power commands, and
      each Set Target Power write comes after some Request Control write. */
  predicate WritesWellFormed(writes: seq<seq<Byte>>) {
    && (forall i :: 0 <= i < |writes| ==> writes[i] == RequestControlCommand() || IsSetTargetPower(writes[i]))
    && (forall i :: 0 <= i < |writes| && IsSetTargetPower(writes[i]) ==>
          exists j :: 0 <= j < i && writes[j] == RequestControlCommand())
  }

  predicate Valid(st: DeviceState) {
    && InSimBounds(st.sim)
    && (st.hasControlPoint ==> RequestControlCommand() in st.writes)
    && WritesWellFormed(st.writes)
  }

  /** `connect`: in simulation mode it marks the bike connected under the name
      "Simulated Bike" and (re)starts the generator from the seed; otherwise a reached
      GATT server marks it connected under device.name || 'Unknown Device'. The FTMS
      setup connect then awaits (BluetoothManager.ts:82), which writes Request Control
      and stores the control point, is the separate step AcquireControl. */
  function Connect(st: DeviceState, outcome: ConnectOutcome): (r: DeviceState)
    ensures st.isSimulating ==>
      r == st.(isConnected := true, deviceName := Some("Simulated Bike"), simRunning := true, sim := SimSeed)
    ensures !st.isSimulating && !outcome.Connected? ==> r == st
    ensures !st.isSimulating && outcome.Connected? ==>
      && r.isConnected
      && r.deviceName.Some? && r.deviceName.value != ""
      && (outcome.name.Some? && outcome.name.value != "" ==> r.deviceName == outcome.name)
      && r.writes == st.writes && r.hasControlPoint == st.hasControlPoint
  {
    if st.isSimulating then
      st.(isConnected := true, deviceName := Some("Simulated Bike"), simRunning := true, sim := SimSeed)
    else
      match outcome
      case Connected(name) =>
        var shown := if name.Some? && name.value != "" then name.value else "Unknown Device";
        st.(isConnected := true, deviceName := Some(shown))
      case _ => st
  }

  /** `disconnect`: only the non-simulating path drops the control point; the simulating
      path stops the generator instead. Telemetry values are left as they were. */
  function Disconnect(st: DeviceState): (r: DeviceState)
    ensures !r.isConnected && r.deviceName.None?
    ensures r.hasControlPoint == (st.hasControlPoint && st.isSimulating)
    ensures r.simRunning == (st.simRunning && !st.isSimulating)
    ensures r.writes == st.writes && r.isSimulating == st.isSimulating
    ensures r.power == st.power && r.heartRate == st.heartRate && r.cadence == st.cadence
  {
    if st.isSimulating then st.(simRunning := false, isConnected := false, deviceName := None)
    else st.(isConnected := false, deviceName := None, hasControlPoint := false)
  }

  function ToggleSimulation(st: DeviceState): (r: DeviceState)
    ensures r.isSimulating == !st.isSimulating
    ensures r.(isSimulating := st.isSimulating) == st
  {
    st.(isSimulating := !st.isSimulating)
  }

  lemma ToggleSimulationTwice(st: DeviceState)
    ensures ToggleSimulation(ToggleSimulation(st)) == st
  {
  }

  /** `setTargetPower`: writes 0x05 + sint16 LE watts only when not simulating and a
      control point is held. A failing write is caught; the state is the same either way. */
  function SetTargetPower(st: DeviceState, watts: int): (r: DeviceState)
    ensures st.isSimulating || !st.hasControlPoint ==> r == st
    ensures !st.isSimulating && st.hasControlPoint ==>
      r == st.(writes := st.writes + [SetTargetPowerCommand(watts)])
  {
    if st.isSimulating then st
    else if st.hasControlPoint then st.(writes := st.writes + [SetTargetPowerCommand(watts)])
    else st
  }

  /** The control step of setupFTMS: write Request Control (0x00) to the control point,
      and only once that write has succeeded store the control point. */
  function AcquireControl(st: DeviceState, writeSucceeded: bool): (r: DeviceState)
    ensures r.writes == st.writes + [RequestControlCommand()]
    ensures r.hasControlPoint == (st.hasControlPoint || writeSucceeded)
    ensures r.(writes := st.writes, hasControlPoint := st.hasControlPoint) == st
  {
    var logged := st.(writes := st.writes + [RequestControlCommand()]);
    if writeSucceeded then logged.(hasControlPoint := true) else logged
  }

  /** One tick of the generator timer: step the walk and publish all three values. */
  function SimulationTick(st: DeviceState, d: SimDeltas): (r: DeviceState)
    requires st.simRunning
    ensures r.sim == SimStep(st.sim, d)
    ensures r.power == Some(r.sim.power) && r.heartRate == Some(r.sim.heartRate) && r.cadence == Some(r.sim.cadence)
    ensures InSimBounds(r.sim)
  {
    var v := SimStep(st.sim, d);
    st.(sim := v, power := Some(v.power), heartRate := Some(v.heartRate), cadence := Some(v.cadence))
  }

  function OnHeartRateMeasurement(st: DeviceState, value: seq<Byte>): (r: DeviceState)
    ensures r.heartRate == (if DecodeHeartRate(value).Some? then DecodeHeartRate(value) else st.heartRate)
    ensures r.(heartRate := st.heartRate) == st
  {
    match DecodeHeartRate(value)
    case Some(hr) => st.(heartRate := Some(hr))
    case None => st
  }

  function OnCyclingPowerMeasurement(st: DeviceState, value: seq<Byte>): (r: DeviceState)
    ensures r.power == (if DecodeCyclingPower(value).Some? then DecodeCyclingPower(value) else st.power)
    ensures r.(power := st.power) == st
  {
    match DecodeCyclingPower(value)
    case Some(p) => st.(power := Some(p))
    case None => st
  }

  function OnIndoorBikeData(st: DeviceState, value: seq<Byte>): (r: DeviceState)
    ensures var u := DecodeIndoorBikeData(value);
            && r.cadence == (if u.cadence.Some? then u.cadence else st.cadence)
            && r.power == (if u.power.Some? then u.power else st.power)
            && r.(cadence := st.cadence, power := st.power) == st
  {
    var u := DecodeIndoorBikeData(value);
    var st1 := if u.cadence.Some? then st.(cadence := u.cadence) else st;
    if u.power.Some? then st1.(power := u.power) else st1
  }

  lemma InitialValid()
    ensures Valid(Initial)
  {
  }

  /** A Set Target Power write is only ever made while a control point is held, and the
      control point is only stored after a Request Control write, so every transition
      keeps the write log well formed. */
  lemma {:induction false} SetTargetPowerPreservesValid(st: DeviceState, watts: int)
    requires Valid(st)
    ensures Valid(SetTargetPower(st, watts))
  {
    var r := SetTargetPower(st, watts);
    if !st.isSimulating && st.hasControlPoint {
      var n := |st.writes|;
      var j :| 0 <= j < n && st.writes[j] == RequestControlCommand();
      assert r.writes[j] == RequestControlCommand();
      forall i | 0 <= i < |r.writes| && IsSetTargetPower(r.writes[i])
        ensures exists k :: 0 <= k < i && r.writes[k] == RequestControlCommand()
      {
        if i < n {
          assert r.writes[i] == st.writes[i];
          var k :| 0 <= k < i && st.writes[k] == RequestControlCommand();
          assert r.writes[k] == RequestControlCommand();
        } else {
          assert r.writes[j] == RequestControlCommand();
        }
      }
      assert RequestControlCommand() in r.writes by {
        assert r.writes[j] == RequestControlCommand();
      }
    }
  }

  lemma {:induction false} AcquireControlPreservesValid(st: DeviceState, writeSucceeded: bool)
    requires Valid(st)
    ensures Valid(AcquireControl(st, writeSucceeded))
  {
    var r := AcquireControl(st, writeSucceeded);
    var n := |st.writes|;
    assert r.writes[n] == RequestControlCommand();
    forall i | 0 <= i < |r.writes| && IsSetTargetPower(r.writes[i])
      ensures exists k :: 0 <= k < i && r.writes[k] == RequestControlCommand()
    {
      assert i != n by {
        assert !IsSetTargetPower(r.writes[n]);
      }
      assert r.writes[i] == st.writes[i];
      var k :| 0 <= k < i && st.writes[k] == RequestControlCommand();
      assert r.writes[k] == RequestControlCommand();
    }
  }

  lemma OtherTransitionsPreserveValid(st: DeviceState, outcome: ConnectOutcome, d: SimDeltas, value: seq<Byte>)
    requires Valid(st)
    ensures Valid(Connect(st, outcome))
    ensures Valid(Disconnect(st))
    ensures Valid(ToggleSimulation(st))
    ensures st.simRunning ==> Valid(SimulationTick(st, d))
    ensures Valid(OnHeartRateMeasurement(st, value))
    ensures Valid(OnCyclingPowerMeasurement(st, value))
    ensures Valid(OnIndoorBikeData(st, value))
  {
  }
}

/** The store object of src/lib/bluetooth/BluetoothManager.ts. Each method performs the
    BleState transition of the same name. */
module BleDevice {
  import opened Common
  import opened BleCodec
  import opened BleState

  /** Its fields are those of the zustand store; `writes` is the ghost log of
      control-point writes. */
  class DeviceStore {
    var isConnected: bool
    var deviceName: Option<string>
    var heartRate: Option<int>
    var power: Option<int>
    var cadence: Option<int>
    var isSimulating: bool
    var hasControlPoint: bool
    var simRunning: bool
    var sim: SimValues
    ghost var writes: seq<seq<Byte>>

    ghost function State(): DeviceState
      reads this
    {
      DeviceState(isConnected, deviceName, heartRate, power, cadence, isSimulating,
                  hasControlPoint, simRunning, sim, writes)
    }

    ghost predicate Valid()
      reads this
    {
      BleState.Valid(State())
    }

    constructor ()
      ensures State() == Initial && Valid()
    {
      isConnected, deviceName, heartRate, power, cadence := false, None, None, None, None;
      isSimulating, hasControlPoint, simRunning, sim := false, false, false, SimSeed;
      writes := [];
    }

    method Connect(outcome: ConnectOutcome)
      requires Valid()
      modifies this
      ensures State() == BleState.Connect(old(State()), outcome) && Valid()
    {
      if isSimulating {
        isConnected, deviceName := true, Some("Simulated Bike");
        StartSimulation();
        return;
      }
      match outcome {
        case Connected(name) =>
          isConnected := true;
          deviceName := Some(if name.Some? && name.value != "" then name.value else "Unknown Device");
        case _ =>
      }
    }

    /** startSimulation: clears any previous timer and restarts the walk from the seed. */
    method StartSimulation()
      modifies this
      ensures State() == old(State()).(simRunning := true, sim := SimSeed)
    {
      simRunning := true;
      sim := SimSeed;
    }

    method SimulationTick(d: SimDeltas)
      requires Valid() && simRunning
      modifies this
      ensures State() == BleState.SimulationTick(old(State()), d) && Valid()
    {
      var v := SimStep(sim, d);
      sim := v;
      power, heartRate, cadence := Some(v.power), Some(v.heartRate), Some(v.cadence);
    }

    method Disconnect()
      requires Valid()
      modifies this
      ensures State() == BleState.Disconnect(old(State())) && Valid()
    {
      if isSimulating {
        simRunning := false;
        isConnected, deviceName := false, None;
        return;
      }
      isConnected, deviceName, hasControlPoint := false, None, false;
    }

    method ToggleSimulation()
      requires Valid()
      modifies this
      ensures State() == BleState.ToggleSimulation(old(State())) && Valid()
    {
      isSimulating := !isSimulating;
    }

    method SetTargetPower(watts: int)
      requires Valid()
      modifies this
      ensures State() == BleState.SetTargetPower(old(State()), watts) && Valid()
    {
      SetTargetPowerPreservesValid(State(), watts);
      if isSimulating {
        return;
      }
      if hasControlPoint {
        writes := writes + [SetTargetPowerCommand(watts)];
      }
    }

    method AcquireControl(writeSucceeded: bool)
      requires Valid()
      modifies this
      ensures State() == BleState.AcquireControl(old(State()), writeSucceeded) && Valid()
    {
      AcquireControlPreservesValid(State(), writeSucceeded);
      writes := writes + [RequestControlCommand()];
      if writeSucceeded {
        hasControlPoint := true;
      }
    }

    method OnHeartRateMeasurement(value: seq<Byte>)
      requires Valid()
      modifies this
      ensures State() == BleState.OnHeartRateMeasurement(old(State()), value) && Valid()
    {
      var hr := DecodeHeartRate(value);
      if hr.Some? {
        heartRate := hr;
      }
    }

    method OnCyclingPowerMeasurement(value: seq<Byte>)
      requires Valid()
      modifies this
      ensures State() == BleState.OnCyclingPowerMeasurement(old(State()), value) && Valid()
    {
      var p := DecodeCyclingPower(value);
      if p.Some? {
        power := p;
      }
    }

    method OnIndoorBikeData(value: seq<Byte>)
      requires Valid()
      modifies this
      ensures State() == BleState.OnIndoorBikeData(old(State()), value) && Valid()
    {
      var u := DecodeIndoorBikeData(value);
      if u.cadence.Some? {
        cadence := u.cadence;
      }
      if u.power.Some? {
        power := u.power;
      }
    }
  }
}
