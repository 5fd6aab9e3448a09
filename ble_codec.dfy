/** The byte-level codec of the Bluetooth manager (src/lib/bluetooth/BluetoothManager.ts):
    the three notification decoders (Heart Rate Measurement, Cycling Power Measurement,
    FTMS Indoor Bike Data) and the two Fitness Machine Control Point commands it writes.

    The source reads with DataView, which throws a RangeError when a read runs past the
    end of the buffer; it checks no lengths itself. Every decoder here is total and
    returns exactly the telemetry updates (`set({...})` calls) that run before such a
    throw: a read that would run off the end yields no value, and nothing after it runs. */
module BleCodec {
  import opened Common

  type Byte = x: int | 0 <= x < 256

  /** DataView.getUint8(i). */
  function U8(s: seq<Byte>, i: nat): (r: Option<nat>)
    ensures r.Some? <==> i < |s|
    ensures r.Some? ==> r.value == s[i] && r.value < 256
  {
    if i < |s| then Some(s[i]) else None
  }

  /** DataView.getUint16(i, true): little-endian. */
  function U16LE(s: seq<Byte>, i: nat): (r: Option<nat>)
    ensures r.Some? <==> i + 1 < |s|
    ensures r.Some? ==> r.value == s[i] as int + 256 * (s[i + 1] as int) && r.value < 65536
  {
    if i + 1 < |s| then Some(s[i] as int + 256 * (s[i + 1] as int)) else None
  }

  /** The two's-complement reading of a 16-bit unsigned value. */
  function ToSigned16(u: nat): (v: int)
    requires u < 65536
    ensures -32768 <= v <= 32767
    ensures (v - u) % 65536 == 0
  {
    if u < 32768 then u else u - 65536
  }

  /** DataView.getInt16(i, true). */
  function I16LE(s: seq<Byte>, i: nat): (r: Option<int>)
    ensures r.Some? <==> i + 1 < |s|
    ensures r.Some? ==> -32768 <= r.value <= 32767
    ensures r.Some? ==> (r.value - (s[i] as int + 256 * (s[i + 1] as int))) % 65536 == 0
  {
    match U16LE(s, i)
    case Some(u) => Some(ToSigned16(u))
    case None => None
  }

  /** 2^k, the value of `1 << k` for the bit positions the decoders test. */
  function Pow2(k: nat): (r: nat)
    ensures r >= 1
  {
    if k == 0 then 1 else 2 * Pow2(k - 1)
  }

  /** The masks 1 << 0 .. 1 << 6 tested by the three listeners. */
  lemma ShiftMasks()
    ensures Pow2(0) == 0x01 && Pow2(1) == 0x02 && Pow2(2) == 0x04 && Pow2(3) == 0x08
    ensures Pow2(4) == 0x10 && Pow2(5) == 0x20 && Pow2(6) == 0x40
  {
  }

  /** `flags & (1 << k)` is non-zero. */
  predicate Bit(flags: nat, k: nat) {
    (flags / Pow2(k)) % 2 == 1
  }

  function B(b: bool): nat {
    if b then 1 else 0
  }

  // ---------------------------------------------------------------------------
  // Heart Rate Measurement (0x2A37)

  /** Flag bit 0 chooses an 8-bit value at byte 1 or a 16-bit little-endian value at bytes 1-2. */
  function DecodeHeartRate(s: seq<Byte>): (hr: Option<nat>)
    ensures hr.Some? ==> |s| >= 2 && hr.value < 65536
  {
    match U8(s, 0)
    case None => None
    case Some(flags) =>
      if Bit(flags, 0) then U16LE(s, 1) else U8(s, 1)
  }

  lemma HeartRateFormat(s: seq<Byte>)
    ensures |s| >= 1 && s[0] % 2 == 0 && |s| >= 2 ==> DecodeHeartRate(s) == Some(s[1])
    ensures |s| >= 1 && s[0] % 2 == 1 && |s| >= 3 ==> DecodeHeartRate(s) == Some(s[1] + 256 * (s[2] as int))
    ensures DecodeHeartRate(s).Some? <==> |s| >= 1 && |s| >= (if s[0] % 2 == 1 then 3 else 2)
  {
  }

  // ---------------------------------------------------------------------------
  // Cycling Power Measurement (0x2A63)

  /** The instantaneous power, a signed 16-bit value at bytes 2-3, whatever the flags say.
      The flags (bytes 0-1) are read first, so a buffer of fewer than two bytes yields nothing. */
  function DecodeCyclingPower(s: seq<Byte>): (power: Option<int>)
    ensures power.Some? <==> |s| >= 4
    ensures power.Some? ==> -32768 <= power.value <= 32767
  {
    match U16LE(s, 0)
    case None => None
    case Some(_) => I16LE(s, 2)
  }

  /** The offset walk that follows the power read: pedal power balance (bit 0, 1 byte),
      accumulated torque (bit 2, 2 bytes), wheel revolution data (bit 4, 6 bytes) and
      crank revolution data (bit 5, 4 bytes) are stepped over in that order. The walk reads
      nothing, so it can never throw. */
  function CyclingPowerFieldsEnd(flags: nat): (offset: nat)
    ensures 4 <= offset <= 17
    ensures !Bit(flags, 0) && !Bit(flags, 2) && !Bit(flags, 4) && !Bit(flags, 5) ==> offset == 4
  {
    var offset := 4;
    var offset := if Bit(flags, 0) then offset + 1 else offset;
    var offset := if Bit(flags, 2) then offset + 2 else offset;
    var offset := if Bit(flags, 4) then offset + 6 else offset;
    var offset := if Bit(flags, 5) then offset + 4 else offset;
    offset
  }

  lemma CyclingPowerDecode(s: seq<Byte>)
    ensures DecodeCyclingPower(s).Some? <==> |s| >= 4
    ensures |s| >= 4 ==> DecodeCyclingPower(s) == Some(ToSigned16(s[2] + 256 * (s[3] as int)))
  {
  }

  lemma CyclingPowerNegativeFive()
    ensures DecodeCyclingPower([0x00, 0x00, 0xFB, 0xFF]) == Some(-5)
  {
    assert U16LE([0x00, 0x00, 0xFB, 0xFF], 2) == Some(65531);
  }

  lemma CyclingPowerOffsets(flags: nat)
    ensures CyclingPowerFieldsEnd(flags)
         == 4 + B(Bit(flags, 0)) + 2 * B(Bit(flags, 2)) + 6 * B(Bit(flags, 4)) + 4 * B(Bit(flags, 5))
    ensures 4 <= CyclingPowerFieldsEnd(flags) <= 17
  {
  }

  // ---------------------------------------------------------------------------
  // FTMS Indoor Bike Data (0x2AD2)

  /** The telemetry updates an Indoor Bike Data notification performs. */
  datatype BikeDataUpdate = BikeDataUpdate(cadence: Option<int>, power: Option<int>)

  /** The offset of the instantaneous cadence: bit 0 (treated by the source as
      "instantaneous speed present") and bit 1 (average speed) each add 2 bytes. */
  function CadenceOffset(flags: nat): (offset: nat)
    ensures 2 <= offset <= 6 && offset % 2 == 0
    ensures offset == 2 <==> !Bit(flags, 0) && !Bit(flags, 1)
  {
    var offset := 2;
    var offset := if Bit(flags, 0) then offset + 2 else offset;
    var offset := if Bit(flags, 1) then offset + 2 else offset;
    offset
  }

  /** The offset of the instantaneous power: bits 2 (cadence) and 3 (average cadence)
      add 2 bytes each after CadenceOffset; bits 4 and 5 are not stepped over. */
  function PowerOffset(flags: nat): (offset: nat)
    ensures CadenceOffset(flags) <= offset <= CadenceOffset(flags) + 4 && offset % 2 == 0
    ensures Bit(flags, 2) ==> offset >= CadenceOffset(flags) + 2
  {
    var offset := CadenceOffset(flags);
    var offset := if Bit(flags, 2) then offset + 2 else offset;
    var offset := if Bit(flags, 3) then offset + 2 else offset;
    offset
  }

  /** Math.round(raw * 0.5): the cadence field has a resolution of 0.5 rpm. */
  function CadenceRpm(raw: nat): (rpm: int)
    ensures 2 * rpm - 1 <= raw <= 2 * rpm
  {
    assert (raw as real) * 0.5 == raw as real / 2 as real;
    RoundOfQuotient(raw, 2);
    Round((raw as real) * 0.5)
  }

  lemma CadenceRpmIsHalfRoundedUp(raw: nat)
    ensures CadenceRpm(raw) == (raw + 1) / 2
  {
    assert (raw as real) * 0.5 == raw as real / 2 as real;
    RoundOfQuotient(raw, 2);
  }

  /** The Indoor Bike Data listener: flags at bytes 0-1, the cadence set when bit 2 is
      on, then the power set when bit 6 is on. A read that runs off the end ends the
      listener; the cadence update made before a failing power read stays. */
  function DecodeIndoorBikeData(s: seq<Byte>): (u: BikeDataUpdate)
    ensures |s| < 2 ==> u.cadence.None? && u.power.None?
    ensures u.power.Some? ==> -32768 <= u.power.value <= 32767
  {
    match U16LE(s, 0)
    case None => BikeDataUpdate(None, None)
    case Some(flags) =>
      var cadenceRead := if Bit(flags, 2) then U16LE(s, CadenceOffset(flags)) else None;
      if Bit(flags, 2) && cadenceRead.None? then BikeDataUpdate(None, None)
      else
        var cadence := if cadenceRead.Some? then Some(CadenceRpm(cadenceRead.value)) else None;
        var power := if Bit(flags, 6) then I16LE(s, PowerOffset(flags)) else None;
        BikeDataUpdate(cadence, power)
  }

  lemma IndoorBikeCadence(s: seq<Byte>)
    requires |s| >= 2
    ensures var flags := s[0] + 256 * (s[1] as int);
            var off := CadenceOffset(flags);
            && off == 2 + 2 * B(Bit(flags, 0)) + 2 * B(Bit(flags, 1))
            && (!Bit(flags, 2) ==> DecodeIndoorBikeData(s).cadence.None?)
            && (Bit(flags, 2) && off + 1 < |s| ==>
                  DecodeIndoorBikeData(s).cadence == Some((s[off] + 256 * (s[off + 1] as int) + 1) / 2))
  {
    var flags := s[0] + 256 * (s[1] as int);
    var off := CadenceOffset(flags);
    if Bit(flags, 2) && off + 1 < |s| {
      CadenceRpmIsHalfRoundedUp(s[off] + 256 * (s[off + 1] as int));
    }
  }

  lemma IndoorBikePower(s: seq<Byte>)
    requires |s| >= 2
    ensures var flags := s[0] + 256 * (s[1] as int);
            var off := PowerOffset(flags);
            && off == 2 + 2 * (B(Bit(flags, 0)) + B(Bit(flags, 1)) + B(Bit(flags, 2)) + B(Bit(flags, 3)))
            && (!Bit(flags, 6) ==> DecodeIndoorBikeData(s).power.None?)
            && (Bit(flags, 6) && off + 1 < |s| ==>
                  DecodeIndoorBikeData(s).power == Some(ToSigned16(s[off] + 256 * (s[off + 1] as int))))
  {
  }

  /** A buffer too short for the flags performs no update at all. */
  lemma IndoorBikeShort(s: seq<Byte>)
    requires |s| < 2
    ensures DecodeIndoorBikeData(s) == BikeDataUpdate(None, None)
  {
  }

  // ---------------------------------------------------------------------------
  // FTMS Control Point (0x2AD9) commands

  const RequestControlOpCode: Byte := 0x00
  const SetTargetPowerOpCode: Byte := 0x05

  /** Request Control: the single op-code byte. */
  function RequestControlCommand(): (bytes: seq<Byte>)
    ensures |bytes| == 1 && bytes[0] == RequestControlOpCode
  {
    [RequestControlOpCode]
  }

  /** Set Target Power: the op code, then DataView.setInt16(1, watts, true), which stores
      watts modulo 2^16 in little-endian order. */
  function SetTargetPowerCommand(watts: int): (bytes: seq<Byte>)
    ensures |bytes| == 3 && bytes[0] == SetTargetPowerOpCode
  {
    [SetTargetPowerOpCode, watts % 256, (watts / 256) % 256]
  }

  /** The bytes are watts & 0xFF and (watts >> 8) & 0xFF, and reading bytes 1-2 back as
      a signed 16-bit value gives watts exactly when it fits in 16 bits; otherwise it
      gives watts wrapped into [-32768, 32767]. */
  lemma {:induction false} SetTargetPowerRoundTrip(watts: int)
    ensures var bytes := SetTargetPowerCommand(watts);
            && I16LE(bytes, 1).Some?
            && (I16LE(bytes, 1).value - watts) % 65536 == 0
            && (-32768 <= watts <= 32767 ==> I16LE(bytes, 1) == Some(watts))
  {
    var bytes := SetTargetPowerCommand(watts);
    var lo, hi := watts % 256, (watts / 256) % 256;
    var q := watts / 256;
    assert watts == 256 * q + lo;
    assert q == 256 * (q / 256) + hi;
    assert watts == 65536 * (q / 256) + (lo + 256 * hi);
    var u := lo + 256 * hi;
    assert U16LE(bytes, 1) == Some(u);
    if -32768 <= watts <= 32767 {
      if watts >= 0 {
        assert q / 256 == 0;
      } else {
        assert q / 256 == -1;
      }
    }
  }
}
