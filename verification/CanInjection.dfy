/** The frame encoders of the CAN injector and the loaded DBC: encoding, then decoding, with the error bound. */
module CanInjection {
  import opened Arithmetic
  import opened BitFields
  import opened SignalDecoding
  import opened FieldPacking

  const PARK := 0
  const DRIVE := 3
  const PARK_S := 3.0
  const ACCEL_S := 5.0
  const CRUISE_S := 5.0
  const DECEL_S := 5.0
  const CRUISE_KMH := 60.0
  const IDLE_RPM := 800.0
  const CRUISE_RPM := 2000.0
  const CYCLE_S := PARK_S + ACCEL_S + CRUISE_S + DECEL_S

  const ENGINE_ID := 0x0B4
  const COOLANT_ID := 0x1C4
  const BATTERY_ID := 0x3B3

  const GEAR := SignalDef(ENGINE_ID, 0, 8, true, false, 1.0, 0.0, "")
  const RPM := SignalDef(ENGINE_ID, 24, 16, true, false, 0.25, 0.0, "rpm")
  const SPEED := SignalDef(ENGINE_ID, 40, 16, true, false, 0.01, 0.0, "km/h")
  const COOLANT := SignalDef(COOLANT_ID, 0, 8, true, false, 1.0, -40.0, "degC")
  const BATTERY := SignalDef(BATTERY_ID, 0, 8, true, false, 0.1, 0.0, "V")

  /** The lines of the shipped DBC, and the configured signals. */
  const TOYOTA_DBC: seq<Line> := [
    Other, Other, Other, Other, Other, Other, Other, Other,
    Message(180),
    Signal("VEHICLE_SPEED", 40, 16, true, false, 0.01, 0.0, "km/h"),
    Signal("ENGINE_RPM", 24, 16, true, false, 0.25, 0.0, "rpm"),
    Signal("GEAR_SHIFT", 0, 8, true, false, 1.0, 0.0, ""),
    Other,
    Message(452),
    Signal("ENGINE_COOLANT_TEMP", 0, 8, true, false, 1.0, -40.0, "degC"),
    Other,
    Message(947),
    Signal("BATTERY_VOLTAGE", 0, 8, true, false, 0.1, 0.0, "V"),
    Other
  ]

  const CONFIG_SIGNALS: seq<string> :=
    ["VEHICLE_SPEED", "ENGINE_RPM", "ENGINE_COOLANT_TEMP", "BATTERY_VOLTAGE", "GEAR_SHIFT"]

  const GATEWAY_SIGNALS: map<string, SignalDef> :=
    map["VEHICLE_SPEED" := SPEED]["ENGINE_RPM" := RPM]["GEAR_SHIFT" := GEAR]
       ["ENGINE_COOLANT_TEMP" := COOLANT]["BATTERY_VOLTAGE" := BATTERY]

  lemma LoadOneMore(before: seq<Line>, line: Line, wanted: seq<string>)
    ensures CurrentId(before + [line]) == if line.Message? then line.id % 0x1_0000_0000 else CurrentId(before)
    ensures var loaded := Loaded(map[], before, wanted);
            Loaded(map[], before + [line], wanted)
            == if line.Signal? && line.name in wanted then loaded[line.name := DefOf(line, CurrentId(before))]
               else loaded
  {
    assert (before + [line])[..|before|] == before;
  }

  lemma LoadedStep(i: nat)
    requires i < |TOYOTA_DBC|
    ensures var line := TOYOTA_DBC[i];
            var before := TOYOTA_DBC[..i];
            var loaded := Loaded(map[], before, CONFIG_SIGNALS);
            && CurrentId(TOYOTA_DBC[..i + 1]) == (if line.Message? then line.id else CurrentId(before))
            && Loaded(map[], TOYOTA_DBC[..i + 1], CONFIG_SIGNALS)
               == (if line.Signal? then loaded[line.name := DefOf(line, CurrentId(before))] else loaded)
  {
    hide Loaded, CurrentId;
    var line := TOYOTA_DBC[i];
    LoadOneMore(TOYOTA_DBC[..i], line, CONFIG_SIGNALS);
    assert TOYOTA_DBC[..i + 1] == TOYOTA_DBC[..i] + [line];
    assert line.Message? ==> line.id < 1000;
    assert line.Signal? ==> line.name in CONFIG_SIGNALS by {
      assert CONFIG_SIGNALS[0] == "VEHICLE_SPEED" && CONFIG_SIGNALS[1] == "ENGINE_RPM";
      assert CONFIG_SIGNALS[2] == "ENGINE_COOLANT_TEMP" && CONFIG_SIGNALS[3] == "BATTERY_VOLTAGE";
      assert CONFIG_SIGNALS[4] == "GEAR_SHIFT";
    }
  }

  lemma NothingLoaded()
    ensures CurrentId([]) == 0 && Loaded(map[], [], CONFIG_SIGNALS) == map[]
  {
  }

  lemma {:induction false} HeaderLoadsNothing(n: nat)
    requires n <= 8
    ensures CurrentId(TOYOTA_DBC[..n]) == 0 && Loaded(map[], TOYOTA_DBC[..n], CONFIG_SIGNALS) == map[]
  {
    hide Loaded, CurrentId;
    if n == 0 {
      NothingLoaded();
    } else {
      HeaderLoadsNothing(n - 1);
      LoadedStep(n - 1);
    }
  }

  lemma EngineBlock()
    ensures CurrentId(TOYOTA_DBC[..13]) == ENGINE_ID
    ensures Loaded(map[], TOYOTA_DBC[..13], CONFIG_SIGNALS)
            == map["VEHICLE_SPEED" := SPEED]["ENGINE_RPM" := RPM]["GEAR_SHIFT" := GEAR]
  {
    hide Loaded, CurrentId;
    HeaderLoadsNothing(8);
    LoadedStep(8);
    LoadedStep(9);
    LoadedStep(10);
    LoadedStep(11);
    LoadedStep(12);
  }

  lemma NoLineThrows(i: nat)
    ensures i < |TOYOTA_DBC| ==> !Throws(TOYOTA_DBC[i], CONFIG_SIGNALS)
  {
    if i < |TOYOTA_DBC| && TOYOTA_DBC[i].Signal? {
      assert TOYOTA_DBC[i].start < 64 && TOYOTA_DBC[i].len < 64;
    }
  }

  lemma CoolantBlock()
    ensures CurrentId(TOYOTA_DBC[..16]) == COOLANT_ID
    ensures Loaded(map[], TOYOTA_DBC[..16], CONFIG_SIGNALS)
            == map["VEHICLE_SPEED" := SPEED]["ENGINE_RPM" := RPM]["GEAR_SHIFT" := GEAR]
                  ["ENGINE_COOLANT_TEMP" := COOLANT]
  {
    hide Loaded, CurrentId;
    EngineBlock();
    LoadedStep(13);
    LoadedStep(14);
    LoadedStep(15);
  }

  lemma BatteryBlock()
    ensures Loaded(map[], TOYOTA_DBC[..19], CONFIG_SIGNALS) == GATEWAY_SIGNALS
  {
    hide Loaded, CurrentId;
    CoolantBlock();
    LoadedStep(16);
    LoadedStep(17);
    LoadedStep(18);
  }

  /** Loading the shipped DBC with the shipped configuration throws nothing and gives the layout the encoders
      assume. */
  lemma ToyotaDbcLayout()
    ensures Survived(TOYOTA_DBC, CONFIG_SIGNALS) == |TOYOTA_DBC|
    ensures Loaded(map[], TOYOTA_DBC, CONFIG_SIGNALS) == GATEWAY_SIGNALS
  {
    hide Loaded, CurrentId, Throws;
    BatteryBlock();
    assert TOYOTA_DBC[..19] == TOYOTA_DBC;
    NoLineThrows(Survived(TOYOTA_DBC, CONFIG_SIGNALS));
  }

  // ------------------------------------------------------------------ the drive cycle

  lemma RealFraction(e: real, m: real)
    requires 0.0 <= e < 1.0 && m > 0.0
    ensures 0.0 <= e * m < m
  {
    var c := 1.0 - e;
    assert c > 0.0;
    assert c * m > 0.0;
  }

  lemma RealDivMul(t: real, m: real)
    requires m != 0.0
    ensures t / m * m == t
  {
  }

  lemma FloorBounds(t: real, m: real, d: real, q: real)
    requires m > 0.0 && t == d * m && q <= d < q + 1.0
    ensures 0.0 <= t - q * m < m
  {
    var e := d - q;
    RealFraction(e, m);
    var f := e * m;
    assert f < m;
    assert f == d * m - q * m;
    assert f == t - q * m;
  }

  /** Python's % on real numbers: the result has the sign of the divisor. */
  function PyMod(t: real, m: real): (r: real)
    requires m > 0.0
    ensures 0.0 <= r < m
  {
    var d := t / m;
    var q := d.Floor as real;
    RealDivMul(t, m);
    FloorBounds(t, m, d, q);
    t - q * m
  }

  function DriveCycle(t: real): (r: (real, real, int))
    ensures 0.0 <= r.0 <= CRUISE_KMH && IDLE_RPM <= r.1 <= CRUISE_RPM && r.2 in {PARK, DRIVE}
    ensures r.2 == PARK ==> r.0 == 0.0 && r.1 == IDLE_RPM
  {
    var phase := PyMod(t, CYCLE_S);
    if phase < PARK_S then (0.0, IDLE_RPM, PARK)
    else
      var phase := phase - PARK_S;
      if phase < ACCEL_S then
        var frac := phase / ACCEL_S;
        (CRUISE_KMH * frac, IDLE_RPM + (CRUISE_RPM - IDLE_RPM) * frac, DRIVE)
      else
        var phase := phase - ACCEL_S;
        if phase < CRUISE_S then (CRUISE_KMH, CRUISE_RPM, DRIVE)
        else
          var phase := phase - CRUISE_S;
          var frac := phase / DECEL_S;
          (CRUISE_KMH * (1.0 - frac), CRUISE_RPM - (CRUISE_RPM - IDLE_RPM) * frac, DRIVE)
  }

  /** Speed and gear are meant never to disagree. They do at one instant of each cycle, the one at which the
      car pulls away: the gear is already DRIVE and the speed still 0. */
  lemma DriveAtStandstillIff(t: real)
    ensures DriveCycle(t).2 == DRIVE && DriveCycle(t).0 == 0.0 <==> PyMod(t, CYCLE_S) == PARK_S
  {
    hide PyMod;
  }

  /** The speed p seconds into a cycle of 18: standing for 3, up by 12 km/h a second to 60, and down as fast. */
  function Trapezoid(p: real): real {
    var rise := if p <= 8.0 then 12.0 * (p - 3.0) else 60.0;
    var fall := if p >= 13.0 then 12.0 * (18.0 - p) else 60.0;
    if p <= 3.0 then 0.0 else if rise <= fall then rise else fall
  }

  lemma PhaseOfCycle(t: real, k: int, p: real)
    requires t == 18.0 * k as real + p && 0.0 <= p < 18.0
    ensures PyMod(t, 18.0) == p
  {
    assert t / 18.0 == k as real + p / 18.0;
    assert (t / 18.0).Floor == k;
  }

  /** The drive cycle in any cycle k, past or future: the speed is the trapezoid, the engine turns 20 rpm faster
      for each km/h, and the gear is park for three seconds, then drive. */
  lemma DriveCycleIs(t: real, k: int, p: real)
    requires t == 18.0 * k as real + p && 0.0 <= p < 18.0
    ensures DriveCycle(t) == (Trapezoid(p), 800.0 + 20.0 * Trapezoid(p), if p < 3.0 then 0 else 3)
  {
    PhaseOfCycle(t, k, p);
    assert CYCLE_S == 18.0;
    hide PyMod;
    if p < 3.0 {
      assert DriveCycle(t) == (0.0, 800.0, 0);
    } else if p < 8.0 {
      assert (p - 3.0) / 5.0 == 0.2 * (p - 3.0);
    } else if p < 13.0 {
      assert DriveCycle(t) == (60.0, 2000.0, 3);
    } else {
      assert (p - 13.0) / 5.0 == 0.2 * (p - 13.0);
    }
  }

  // --------------------------------------------------------------------- the encoders

  const ENGINE_LAYOUT: seq<SignalDef> := [SPEED, RPM, GEAR]

  function EngineValues(speed: real, rpm: real, gear: int): seq<int> {
    [Trunc(speed / 0.01) % 65536, Trunc(rpm / 0.25) % 65536, gear % 256]
  }

  lemma SmallPowers()
    ensures Pow2(0) == 1 && Pow2(7) == 128 && Pow2(8) == 256
  {
  }

  lemma Powers()
    ensures Pow2(0) == 1 && Pow2(8) == 256 && Pow2(16) == 65536 && Pow2(24) == 16777216
    ensures Pow2(40) == 1099511627776 && Pow2(56) == 72057594037927936
    ensures Pow2(63) == 9223372036854775808 && Pow2(64) == 18446744073709551616
  {
    SmallPowers();
    hide Pow2;
    Pow2Add(8, 8);
    Pow2Add(16, 8);
    Pow2Add(24, 16);
    Pow2Add(40, 16);
    Pow2Add(56, 7);
    Pow2Add(56, 8);
  }

  lemma EngineIsPackable(speed: real, rpm: real, gear: int)
    ensures Packable(ENGINE_LAYOUT, EngineValues(speed, rpm, gear))
  {
    hide Trunc;
    ThreeArePackable(Trunc(speed / 0.01) % 65536, Trunc(rpm / 0.25) % 65536, gear % 256);
  }

  lemma ThreeArePackable(s: int, r: int, g: int)
    requires 0 <= s < 65536 && 0 <= r < 65536 && 0 <= g < 256
    ensures Packable(ENGINE_LAYOUT, [s, r, g])
  {
    Powers();
    hide Pow2;
  }

  /** Inserting where the low bits are zero is adding. */
  lemma InsertIntoZeros(v: nat, start: nat, length: nat, x: nat)
    requires v % Pow2(start + length) == 0
    ensures Insert(v, start, length, x) == v + x * Pow2(start)
  {
    Pow2Add(start, length);
    AddAboveZeros(v, Pow2(start), Pow2(length), x);
  }

  lemma AddAboveZeros(v: nat, s: nat, l: nat, x: nat)
    requires s > 0 && l > 0 && s * l > 0 && v % (s * l) == 0
    ensures (v / (s * l) * l + x) * s + v % s == v + x * s
  {
    var q := v / (s * l);
    assert v == q * l * s;
    DivModUnique(v, s, q * l, 0);
    assert (q * l + x) * s == q * l * s + x * s;
  }

  lemma SpeedField(s: nat)
    ensures Insert(0, 40, 16, s) == s * 1099511627776
  {
    Powers();
    InsertIntoZeros(0, 40, 16, s);
  }

  lemma RpmField(v: nat, r: nat)
    requires v % 1099511627776 == 0
    ensures Insert(v, 24, 16, r) == v + r * 16777216
  {
    Powers();
    InsertIntoZeros(v, 24, 16, r);
  }

  lemma GearField(v: nat, g: nat)
    requires v % 256 == 0
    ensures Insert(v, 0, 8, g) == v + g
  {
    Powers();
    InsertIntoZeros(v, 0, 8, g);
  }

  lemma ThreeFieldNumber(s: nat, r: nat, g: nat)
    ensures Insert(Insert(Insert(0, 40, 16, s), 24, 16, r), 0, 8, g) == g + r * 16777216 + s * 1099511627776
  {
    hide Insert;
    SpeedField(s);
    RpmField(s * 1099511627776, r);
    GearField(s * 1099511627776 + r * 16777216, g);
  }

  /** The engine frame: its three values packed into an empty frame. */
  function EngineFrame(speed: real, rpm: real, gear: int): CanFrame {
    EngineIsPackable(speed, rpm, gear);
    FrameOf(ENGINE_ID, Pack(0, ENGINE_LAYOUT, EngineValues(speed, rpm, gear)))
  }

  /** The frame number of the engine frame. */
  lemma EnginePacked(speed: real, rpm: real, gear: int)
    requires Packable(ENGINE_LAYOUT, EngineValues(speed, rpm, gear))
    ensures var xs := EngineValues(speed, rpm, gear);
            Pack(0, ENGINE_LAYOUT, xs) == xs[2] + xs[1] * 16777216 + xs[0] * 1099511627776
  {
    var xs := EngineValues(speed, rpm, gear);
    PackThree(ENGINE_LAYOUT, xs);
    ThreeFieldNumber(xs[0], xs[1], xs[2]);
  }

  lemma PackThree(defs: seq<SignalDef>, xs: seq<int>)
    requires Packable(defs, xs) && |defs| == 3
    ensures Pack(0, defs, xs)
            == var a := Insert(0, defs[0].startBit, defs[0].length, FieldBits(defs[0], xs[0]));
               var b := Insert(a, defs[1].startBit, defs[1].length, FieldBits(defs[1], xs[1]));
               Insert(b, defs[2].startBit, defs[2].length, FieldBits(defs[2], xs[2]))
  {
    assert defs[..2][..1] == defs[..1] && xs[..2][..1] == xs[..1];
    assert defs[..1][..0] == [] && xs[..1][..0] == [];
    assert Pack(0, defs[..1][..0], xs[..1][..0]) == 0;
    assert Pack(0, defs[..1], xs[..1]) == Insert(0, defs[0].startBit, defs[0].length, FieldBits(defs[0], xs[0]));
  }

  lemma {:induction false} ToBytesUnique(data: seq<byte>)
    ensures ToBytes(LittleEndian(data), |data|) == data
  {
    if data != [] {
      ToBytesUnique(data[1..]);
      DivModUnique(LittleEndian(data), 256, LittleEndian(data[1..]), data[0]);
    }
  }

  function At(d: seq<byte>, i: nat): int
    requires i < |d|
  {
    d[i]
  }

  lemma LittleEndian8(d: seq<byte>)
    requires |d| == 8
    ensures LittleEndian(d)
            == At(d, 0) + 256 * At(d, 1) + 65536 * At(d, 2) + 16777216 * At(d, 3) + 4294967296 * At(d, 4)
               + 1099511627776 * At(d, 5) + 281474976710656 * At(d, 6) + 72057594037927936 * At(d, 7)
  {
    LittleEndianStep(d, 0);
    LittleEndianStep(d, 1);
    LittleEndianStep(d, 2);
    LittleEndianStep(d, 3);
    LittleEndianStep(d, 4);
    LittleEndianStep(d, 5);
    LittleEndianStep(d, 6);
    LittleEndianStep(d, 7);
    assert d[0..] == d;
  }

  lemma LittleEndianStep(d: seq<byte>, i: nat)
    requires i < |d|
    ensures LittleEndian(d[i..]) == d[i] + 256 * LittleEndian(d[i + 1..])
  {
    assert d[i..][1..] == d[i + 1..];
  }

  method BuildEngineDataFrame(speed: real, rpm: real, gear: int) returns (payload: seq<byte>)
    ensures payload == EngineFrame(speed, rpm, gear).data
  {
    var speedRaw := Trunc(speed / 0.01);
    var rpmRaw := Trunc(rpm / 0.25);
    var data := new byte[8](_ => 0);
    data[0] := gear % 256;
    data[5] := speedRaw % 256;
    data[6] := speedRaw / 256 % 256;
    data[3] := rpmRaw % 256;
    data[4] := rpmRaw / 256 % 256;
    payload := data[..];
    EngineIsPackable(speed, rpm, gear);
    EngineBytes(speed, rpm, gear, payload);
  }

  lemma TwoBytes(x: int)
    ensures x % 65536 == x % 256 + 256 * (x / 256 % 256)
  {
  }

  lemma EngineBytes(speed: real, rpm: real, gear: int, d: seq<byte>)
    requires Packable(ENGINE_LAYOUT, EngineValues(speed, rpm, gear))
    requires |d| == 8 && d[0] == gear % 256 && d[1] == d[2] == d[7] == 0
    requires var r := Trunc(rpm / 0.25); d[3] == r % 256 && d[4] == r / 256 % 256
    requires var s := Trunc(speed / 0.01); d[5] == s % 256 && d[6] == s / 256 % 256
    ensures d == ToBytes(Pack(0, ENGINE_LAYOUT, EngineValues(speed, rpm, gear)), 8)
  {
    hide Pack, ToBytes, Packable;
    EnginePacked(speed, rpm, gear);
    TwoBytes(Trunc(rpm / 0.25));
    TwoBytes(Trunc(speed / 0.01));
    LittleEndian8(d);
    ToBytesUnique(d);
  }

  /** A field of one unsigned byte at the start of the frame. */
  predicate OneByteField(def: SignalDef) {
    def.startBit == 0 && def.length == 8 && !def.isSigned
  }

  lemma OneByteIsPackable(def: SignalDef, x: byte)
    requires OneByteField(def)
    ensures Packable([def], [x as int])
  {
    Powers();
  }

  /** A frame that holds only this byte. */
  function OneByteFrame(def: SignalDef, x: byte): CanFrame
    requires OneByteField(def)
  {
    OneByteIsPackable(def, x);
    FrameOf(def.canId, Pack(0, [def], [x as int]))
  }

  function CoolantFrame(temp: real): CanFrame {
    OneByteFrame(COOLANT, Trunc(temp + 40.0) % 256)
  }

  function BatteryFrame(voltage: real): CanFrame {
    OneByteFrame(BATTERY, Trunc(voltage / 0.1) % 256)
  }

  method BuildCoolantFrame(temp: real) returns (payload: seq<byte>)
    ensures payload == CoolantFrame(temp).data
  {
    var data := new byte[8](_ => 0);
    data[0] := Trunc(temp + 40.0) % 256;
    payload := data[..];
    OneByteBytes(COOLANT, payload);
  }

  method BuildBatteryFrame(voltage: real) returns (payload: seq<byte>)
    ensures payload == BatteryFrame(voltage).data
  {
    var data := new byte[8](_ => 0);
    data[0] := Trunc(voltage / 0.1) % 256;
    payload := data[..];
    OneByteBytes(BATTERY, payload);
  }

  lemma OneByteBytes(def: SignalDef, d: seq<byte>)
    requires OneByteField(def)
    requires |d| == 8 && forall i :: 1 <= i < 8 ==> d[i] == 0
    ensures d == OneByteFrame(def, d[0]).data
  {
    OneByteIsPackable(def, d[0]);
    OneBytePacked(def, d[0]);
    OneByteNumber(d);
    ToBytesUnique(d);
  }

  lemma OneBytePacked(def: SignalDef, x: byte)
    requires OneByteField(def) && Packable([def], [x as int])
    ensures Pack(0, [def], [x as int]) == x
  {
    GearField(0, x);
    assert Pack(0, [def][..0], [x as int][..0]) == 0;
  }

  lemma OneByteNumber(d: seq<byte>)
    requires |d| == 8 && forall i :: 1 <= i < 8 ==> d[i] == 0
    ensures LittleEndian(d) == d[0]
  {
    LittleEndian8(d);
  }

  // ----------------------------------------------------- encode, decode, error bound

  /** What the decoder reports for a signal of a frame. */
  function ReadBack(def: SignalDef, frame: CanFrame): real
    requires def.HasSignBit()
  {
    Physical(def, RawValue(def, frame))
  }

  lemma EngineReadBack(speed: real, rpm: real, gear: int)
    ensures var xs := EngineValues(speed, rpm, gear);
            var frame := EngineFrame(speed, rpm, gear);
            RawValue(SPEED, frame) == xs[0] && RawValue(RPM, frame) == xs[1] && RawValue(GEAR, frame) == xs[2]
  {
    hide Pack, Packable, RawValue, FrameOf;
    EngineIsPackable(speed, rpm, gear);
    var xs := EngineValues(speed, rpm, gear);
    Powers();
    MultiFieldRoundTrip(ENGINE_ID, 0, ENGINE_LAYOUT, xs, 0);
    MultiFieldRoundTrip(ENGINE_ID, 0, ENGINE_LAYOUT, xs, 1);
    MultiFieldRoundTrip(ENGINE_ID, 0, ENGINE_LAYOUT, xs, 2);
  }

  lemma OneByteReadBack(def: SignalDef, x: byte)
    requires OneByteField(def)
    ensures RawValue(def, OneByteFrame(def, x)) == x
  {
    hide Pack, Packable, RawValue, FrameOf;
    OneByteIsPackable(def, x);
    Powers();
    MultiFieldRoundTrip(def.canId, 0, [def], [x as int], 0);
  }

  lemma SpeedError(speed: real)
    requires 0.0 <= speed <= 60.0
    ensures var n := Trunc(speed / 0.01);
            0 <= n < 65536 && speed - 0.01 <= Physical(SPEED, n) <= speed
  {
  }

  lemma RpmError(rpm: real)
    requires 0.0 <= rpm <= 2000.0
    ensures var n := Trunc(rpm / 0.25);
            0 <= n < 65536 && rpm - 0.25 <= Physical(RPM, n) <= rpm
  {
  }

  lemma TemperatureError(temp: real)
    ensures var n := Trunc(temp + 40.0) % 256;
            -40.0 <= temp < 216.0 <==> temp - 1.0 < Physical(COOLANT, n) <= temp
  {
    var n := Trunc(temp + 40.0);
    assert -40.0 <= temp < 216.0 ==> 0 <= n < 256;
  }

  lemma VoltageError(voltage: real)
    ensures var n := Trunc(voltage / 0.1) % 256;
            0.0 <= voltage < 25.6 <==> voltage - 0.1 < Physical(BATTERY, n) <= voltage
  {
    var n := Trunc(voltage / 0.1);
    assert 0.0 <= voltage < 25.6 ==> 0 <= n < 256;
  }

  /** At every instant of the drive cycle the decoder gives back the exact gear, and speed and rpm from below
      within one quantum. */
  lemma DriveCycleRoundTrip(t: real)
    ensures var (speed, rpm, gear) := DriveCycle(t);
            var frame := EngineFrame(speed, rpm, gear);
            && ReadBack(GEAR, frame) == gear as real
            && speed - 0.01 <= ReadBack(SPEED, frame) <= speed
            && rpm - 0.25 <= ReadBack(RPM, frame) <= rpm
  {
    hide DriveCycle, EngineFrame, RawValue, Trunc;
    var (speed, rpm, gear) := DriveCycle(t);
    EngineReadBack(speed, rpm, gear);
    SpeedError(speed);
    RpmError(rpm);
  }

  /** A coolant temperature the byte can hold comes back from below within one degree, and only such a one. */
  lemma CoolantRoundTrip(temp: real)
    ensures -40.0 <= temp < 216.0 <==> temp - 1.0 < ReadBack(COOLANT, CoolantFrame(temp)) <= temp
  {
    hide Trunc, OneByteFrame, RawValue;
    OneByteReadBack(COOLANT, Trunc(temp + 40.0) % 256);
    TemperatureError(temp);
  }

  lemma BatteryRoundTrip(voltage: real)
    ensures 0.0 <= voltage < 25.6 <==> voltage - 0.1 < ReadBack(BATTERY, BatteryFrame(voltage)) <= voltage
  {
    hide Trunc, OneByteFrame, RawValue;
    OneByteReadBack(BATTERY, Trunc(voltage / 0.1) % 256);
    VoltageError(voltage);
  }

  lemma SpeedErrorIff(speed: real)
    ensures var n := Trunc(speed / 0.01) % 65536;
            0.0 <= speed < 655.36 <==> speed - 0.01 < Physical(SPEED, n) <= speed
  {
    var n := Trunc(speed / 0.01);
    assert 0.0 <= speed < 655.36 ==> 0 <= n < 65536;
  }

  lemma RpmErrorIff(rpm: real)
    ensures var n := Trunc(rpm / 0.25) % 65536;
            0.0 <= rpm < 16384.0 <==> rpm - 0.25 < Physical(RPM, n) <= rpm
  {
    var n := Trunc(rpm / 0.25);
    assert 0.0 <= rpm < 16384.0 ==> 0 <= n < 65536;
  }

  /** The engine frame, for any values: speed, rpm and gear come back, the first two from below within one quantum,
      if and only if their fields can hold them. */
  lemma EngineRoundTripIff(speed: real, rpm: real, gear: int)
    ensures var frame := EngineFrame(speed, rpm, gear);
            && (0.0 <= speed < 655.36 <==> speed - 0.01 < ReadBack(SPEED, frame) <= speed)
            && (0.0 <= rpm < 16384.0 <==> rpm - 0.25 < ReadBack(RPM, frame) <= rpm)
            && (0 <= gear < 256 <==> ReadBack(GEAR, frame) == gear as real)
  {
    hide EngineFrame, RawValue, Trunc;
    EngineReadBack(speed, rpm, gear);
    SpeedErrorIff(speed);
    RpmErrorIff(rpm);
  }

  /** x is the number n on w bits: the one in [0, w) that differs from it by a multiple of w. */
  ghost predicate WrapsTo(n: int, x: int, w: int) {
    0 <= x < w && exists k :: x == n + k * w
  }

  lemma ModWraps(n: int, w: int)
    requires w > 0
    ensures WrapsTo(n, n % w, w)
  {
    assert n % w == n + (-(n / w)) * w;
  }

  /** What a field cannot hold wraps around: every raw value is the quantised one modulo the size of its field. */
  lemma EncodersWrap(speed: real, rpm: real, gear: int, temp: real, voltage: real)
    ensures var frame := EngineFrame(speed, rpm, gear);
            && WrapsTo(Trunc(speed / 0.01), RawValue(SPEED, frame), 65536)
            && WrapsTo(Trunc(rpm / 0.25), RawValue(RPM, frame), 65536)
            && WrapsTo(gear, RawValue(GEAR, frame), 256)
    ensures WrapsTo(Trunc(temp + 40.0), RawValue(COOLANT, CoolantFrame(temp)), 256)
    ensures WrapsTo(Trunc(voltage / 0.1), RawValue(BATTERY, BatteryFrame(voltage)), 256)
  {
    hide EngineFrame, OneByteFrame, RawValue, Trunc, WrapsTo;
    EngineReadBack(speed, rpm, gear);
    OneByteReadBack(COOLANT, Trunc(temp + 40.0) % 256);
    OneByteReadBack(BATTERY, Trunc(voltage / 0.1) % 256);
    ModWraps(Trunc(speed / 0.01), 65536);
    ModWraps(Trunc(rpm / 0.25), 65536);
    ModWraps(gear, 256);
    ModWraps(Trunc(temp + 40.0), 256);
    ModWraps(Trunc(voltage / 0.1), 256);
  }
}
