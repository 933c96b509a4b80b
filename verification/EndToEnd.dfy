/** From the injector's frames to the published telemetry message: encoders, DBC, decoder and publisher together. */
module EndToEnd {
  import opened Wrappers
  import opened SignalDecoding
  import opened CanInjection
  import opened TelemetryPublishing
  import opened TelemetryBatching
  import opened FanOut

  ghost predicate DistinctNames(signals: seq<DecodedSignal>) {
    forall i, j :: 0 <= i < j < |signals| ==> signals[i].name != signals[j].name
  }

  /** Every sample of the clock lies less than the publish interval after the start. */
  ghost predicate WithinInterval(start: int, inputs: seq<Input>) {
    forall i :: 0 <= i < |inputs| ==> inputs[i].now - start < 5_000_000_000
  }

  ghost predicate StampedBy(b: Batch, inputs: seq<Input>) {
    exists i :: 0 <= i < |inputs| && b.wall == inputs[i].wall
  }

  lemma StampStays(b: Batch, inputs: seq<Input>, input: Input)
    requires StampedBy(b, inputs)
    ensures StampedBy(b, inputs + [input])
  {
    var i :| 0 <= i < |inputs| && b.wall == inputs[i].wall;
    assert (inputs + [input])[i] == inputs[i];
  }

  /** Within the interval only completeness closes a batch. */
  lemma {:induction false} TimerDoesNotFire(uin: string, start: int, inputs: seq<Input>)
    requires Monotone(start, inputs) && WithinInterval(start, inputs)
    ensures var log := RunFrom(uin, Start(start), inputs);
            && start <= log.st.lastPublish
            && forall b :: b in log.batches ==> b.complete && StampedBy(b, inputs)
  {
    if inputs != [] {
      var n := |inputs| - 1;
      TimerDoesNotFire(uin, start, inputs[..n]);
      var before := RunFrom(uin, Start(start), inputs[..n]);
      var log := RunFrom(uin, Start(start), inputs);
      assert inputs == inputs[..n] + [inputs[n]];
      forall b | b in log.batches
        ensures b.complete && StampedBy(b, inputs)
      {
        if b in before.batches {
          StampStays(b, inputs[..n], inputs[n]);
        }
      }
    }
  }

  lemma {:induction false} JoinedFirst(batches: seq<Batch>)
    requires batches != [] && forall i :: 0 <= i < |batches| ==> batches[i].signals != []
    ensures batches[0].signals <= Joined(batches)
    ensures |Joined(batches)| >= |batches[0].signals| + |batches| - 1
  {
    var n := |batches| - 1;
    assert batches == batches[..n] + [batches[n]];
    JoinedSnoc(batches[..n], batches[n]);
    if n > 0 {
      JoinedFirst(batches[..n]);
    }
  }

  lemma {:induction false} LastValueOfDistinct(signals: seq<DecodedSignal>, i: nat)
    requires DistinctNames(signals) && i < |signals|
    ensures LastValue(signals, signals[i].name) == Some(signals[i].value)
  {
    var n := |signals| - 1;
    if i < n {
      LastValueOfDistinct(signals[..n], i);
    }
  }

  /** A prefix that already holds all five names is the whole. */
  lemma PrefixWithAllFive(prefix: seq<DecodedSignal>, signals: seq<DecodedSignal>)
    requires prefix <= signals && HasAllFive(prefix) && DistinctNames(signals) && Configured(signals)
    ensures prefix == signals
  {
    if |prefix| < |signals| {
      var name := signals[|prefix|].name;
      LastValueNames(prefix, name);
    }
  }

  /** Five different signals that arrive within the interval, in any order and with any timeouts in between,
      make exactly one publish. */
  lemma FiveSignalsMakeOneBatch(uin: string, start: int, inputs: seq<Input>)
    requires Monotone(start, inputs) && WithinInterval(start, inputs)
    requires var signals := AllConsumed(inputs);
             DistinctNames(signals) && Configured(signals) && HasAllFive(signals)
    ensures var batches := RunFrom(uin, Start(start), inputs).batches;
            && |batches| == 1 && batches[0].complete && batches[0].signals == AllConsumed(inputs)
            && batches[0].msg == BatchMessage(uin, AllConsumed(inputs), batches[0].wall)
            && StampedBy(batches[0], inputs)
  {
    hide RunFrom, HasAllFive, BatchMessage, Monotone, WithinInterval, Joined, StampedBy;
    var signals := AllConsumed(inputs);
    var log := RunFrom(uin, Start(start), inputs);
    TelemetryIsBatched(uin, start, inputs);
    TimerDoesNotFire(uin, start, inputs);
    NothingJoined();
    assert log.batches == [] ==> Joined(log.batches) + log.current == log.current;
    if log.batches != [] {
      JoinedFirst(log.batches);
      var b := log.batches[0];
      assert GoodBatch(uin, b) && b in log.batches;
      assert b.signals <= signals by {
        assert signals == Joined(log.batches) + log.current;
      }
      PrefixWithAllFive(b.signals, signals);
    }
  }

  lemma NothingJoined()
    ensures Joined([]) == []
  {
  }

  // ------------------------------------------------------------- what the frames decode to

  /** The results of one frame of each kind, each in any order. */
  ghost predicate AreDecodes(
    signals: map<string, SignalDef>, engine: CanFrame, coolant: CanFrame, battery: CanFrame,
    e: seq<DecodedSignal>, c: seq<DecodedSignal>, b: seq<DecodedSignal>)
  {
    && IsDecodeOf(signals, signals.Keys, engine, e)
    && IsDecodeOf(signals, signals.Keys, coolant, c)
    && IsDecodeOf(signals, signals.Keys, battery, b)
  }

  lemma FromItsFrame(frame: CanFrame, results: seq<DecodedSignal>, i: nat)
    requires IsDecodeOf(GATEWAY_SIGNALS, GATEWAY_SIGNALS.Keys, frame, results) && i < |results|
    ensures results[i].name in GATEWAY_SIGNALS && GATEWAY_SIGNALS[results[i].name].canId == frame.canId
  {
    assert results[i] in results;
    assert IsResult(GATEWAY_SIGNALS, GATEWAY_SIGNALS.Keys, frame, results[i]);
  }

  lemma DecodesAreDistinct(f: CanFrame, g: CanFrame, r: seq<DecodedSignal>, s: seq<DecodedSignal>)
    requires IsDecodeOf(GATEWAY_SIGNALS, GATEWAY_SIGNALS.Keys, f, r)
    requires IsDecodeOf(GATEWAY_SIGNALS, GATEWAY_SIGNALS.Keys, g, s)
    requires f.canId != g.canId
    ensures forall i, j :: 0 <= i < |r| && 0 <= j < |s| ==> r[i].name != s[j].name
  {
    hide IsDecodeOf;
    forall i, j | 0 <= i < |r| && 0 <= j < |s|
      ensures r[i].name != s[j].name
    {
      FromItsFrame(f, r, i);
      FromItsFrame(g, s, j);
    }
  }

  lemma AreConfigured(frame: CanFrame, results: seq<DecodedSignal>)
    requires IsDecodeOf(GATEWAY_SIGNALS, GATEWAY_SIGNALS.Keys, frame, results)
    ensures Configured(results)
  {
    hide IsDecodeOf;
    forall i | 0 <= i < |results|
      ensures results[i].name in FOUR || results[i].name == GEAR_NAME
    {
      FromItsFrame(frame, results, i);
    }
  }

  /** The value a signal of the frame is published with. */
  lemma DecodedValue(frame: CanFrame, results: seq<DecodedSignal>, all: seq<DecodedSignal>, name: string)
    requires IsDecodeOf(GATEWAY_SIGNALS, GATEWAY_SIGNALS.Keys, frame, results)
    requires name in GATEWAY_SIGNALS && GATEWAY_SIGNALS[name].canId == frame.canId
    requires DistinctNames(all) && forall r :: r in results ==> r in all
    ensures LastValue(all, name) == Some(ReadBack(GATEWAY_SIGNALS[name], frame))
  {
    hide Physical, RawValue;
    var r := Decoded(name, GATEWAY_SIGNALS[name], frame);
    assert IsResult(GATEWAY_SIGNALS, GATEWAY_SIGNALS.Keys, frame, r);
    assert r in results;
    var i :| 0 <= i < |all| && all[i] == r;
    LastValueOfDistinct(all, i);
  }

  lemma ThreeFrames(e: seq<DecodedSignal>, c: seq<DecodedSignal>, b: seq<DecodedSignal>,
                    engine: CanFrame, coolant: CanFrame, battery: CanFrame)
    requires AreDecodes(GATEWAY_SIGNALS, engine, coolant, battery, e, c, b)
    requires engine.canId == ENGINE_ID && coolant.canId == COOLANT_ID && battery.canId == BATTERY_ID
    ensures DistinctNames(e + c + b) && Configured(e + c + b)
  {
    DecodesAreDistinct(engine, coolant, e, c);
    DecodesAreDistinct(engine, battery, e, b);
    DecodesAreDistinct(coolant, battery, c, b);
    AreConfigured(engine, e);
    AreConfigured(coolant, c);
    AreConfigured(battery, b);
  }

  lemma GatewayNames()
    ensures GATEWAY_SIGNALS[SPEED_NAME] == SPEED && GATEWAY_SIGNALS[RPM_NAME] == RPM
    ensures GATEWAY_SIGNALS[GEAR_NAME] == GEAR
    ensures GATEWAY_SIGNALS[COOLANT_NAME] == COOLANT && GATEWAY_SIGNALS[BATTERY_NAME] == BATTERY
  {
  }

  lemma ReadBackOfThree(e: seq<DecodedSignal>, c: seq<DecodedSignal>, b: seq<DecodedSignal>,
                        engine: CanFrame, coolant: CanFrame, battery: CanFrame)
    requires AreDecodes(GATEWAY_SIGNALS, engine, coolant, battery, e, c, b)
    requires engine.canId == ENGINE_ID && coolant.canId == COOLANT_ID && battery.canId == BATTERY_ID
    ensures var all := e + c + b;
            && LastValue(all, SPEED_NAME) == Some(ReadBack(SPEED, engine))
            && LastValue(all, RPM_NAME) == Some(ReadBack(RPM, engine))
            && LastValue(all, GEAR_NAME) == Some(ReadBack(GEAR, engine))
            && LastValue(all, COOLANT_NAME) == Some(ReadBack(COOLANT, coolant))
            && LastValue(all, BATTERY_NAME) == Some(ReadBack(BATTERY, battery))
            && HasAllFive(all)
  {
    hide IsDecodeOf, ReadBack, LastValue, DistinctNames;
    ThreeFrames(e, c, b, engine, coolant, battery);
    GatewayNames();
    var all := e + c + b;
    DecodedValue(engine, e, all, SPEED_NAME);
    DecodedValue(engine, e, all, RPM_NAME);
    DecodedValue(engine, e, all, GEAR_NAME);
    DecodedValue(coolant, c, all, COOLANT_NAME);
    DecodedValue(battery, b, all, BATTERY_NAME);
  }

  lemma LabelOfGear(gear: int)
    requires gear in {PARK, DRIVE}
    ensures GearLabel(gear as real) == if gear == PARK then "P" else "D"
  {
  }

  /** The injector's three frames of any instant, decoded in any order with the shipped DBC and consumed by an
      idle publisher, with any timeouts in between, within five seconds: one complete message, with the gear of
      the drive cycle and every number from below within one quantum of what was injected. */
  lemma InjectedFramesArePublished(
    uin: string, t: real, temp: real, voltage: real, start: int, inputs: seq<Input>,
    e: seq<DecodedSignal>, c: seq<DecodedSignal>, b: seq<DecodedSignal>)
    requires -40.0 <= temp < 216.0 && 0.0 <= voltage < 25.6
    requires Monotone(start, inputs) && WithinInterval(start, inputs) && AllConsumed(inputs) == e + c + b
    ensures var (speed, rpm, gear) := DriveCycle(t);
            var loaded := Loaded(map[], TOYOTA_DBC, CONFIG_SIGNALS);
            AreDecodes(loaded, EngineFrame(speed, rpm, gear), CoolantFrame(temp), BatteryFrame(voltage), e, c, b) ==>
              var batches := RunFrom(uin, Start(start), inputs).batches;
              && |batches| == 1 && batches[0].complete && StampedBy(batches[0], inputs)
              && var msg := batches[0].msg;
                 && msg.uin == uin && msg.timestamp == batches[0].wall && !msg.fromBuffer
                 && msg.gear == (if gear == PARK then "P" else "D")
                 && msg.speed.Finite? && speed - 0.01 <= msg.speed.r <= speed
                 && msg.rpm.Finite? && rpm - 0.25 <= msg.rpm.r <= rpm
                 && msg.coolant.Finite? && temp - 1.0 < msg.coolant.r <= temp
                 && msg.battery.Finite? && voltage - 0.1 < msg.battery.r <= voltage
  {
    hide AreDecodes, ReadBack, LastValue, HasAllFive, RunFrom, DriveCycle, GearLabel,
         Monotone, WithinInterval, StampedBy, AllConsumed, Loaded;
    ToyotaDbcLayout();
    var (speed, rpm, gear) := DriveCycle(t);
    var loaded := Loaded(map[], TOYOTA_DBC, CONFIG_SIGNALS);
    if AreDecodes(loaded, EngineFrame(speed, rpm, gear), CoolantFrame(temp), BatteryFrame(voltage), e, c, b) {
      ReadBackOfThree(e, c, b, EngineFrame(speed, rpm, gear), CoolantFrame(temp), BatteryFrame(voltage));
      ThreeFrames(e, c, b, EngineFrame(speed, rpm, gear), CoolantFrame(temp), BatteryFrame(voltage));
      FiveSignalsMakeOneBatch(uin, start, inputs);
      DriveCycleRoundTrip(t);
      CoolantRoundTrip(temp);
      BatteryRoundTrip(voltage);
      LabelOfGear(gear);
    }
  }

  // ---------------------------------------------------- any frames, in any interleaving

  /** The signals of the frames the decoder has finished, and of the one it is at. */
  ghost predicate DecodedSoFar(p: Pipeline, signals: seq<DecodedSignal>) {
    && SignalsOf(p.completed) <= signals
    && signals <= SignalsOf(p.completed) + if p.pc.Pushing? then p.pc.decoded else []
  }

  /** In every interleaving of reader, decoder and consumers, and for any clock: if the publisher's inputs are what
      left the telemetry queue, then what it has published, what it holds and what is queued for it are, in this
      order and with nothing lost or repeated, the decodes of the completed frames and a prefix of the current
      one; and each message is the last-value-wins fold of its part. */
  lemma {:induction false} EveryDecodedSignalIsBatched(
    signals: map<string, SignalDef>, steps: seq<PipelineStep>, uin: string, start: int, inputs: seq<Input>)
    requires IsRun(signals, EMPTY, steps) && AllConsumed(inputs) == After(signals, EMPTY, steps).telemetryOut
    ensures var p := After(signals, EMPTY, steps);
            var log := RunFrom(uin, Start(start), inputs);
            && (forall c :: c in p.completed ==> IsDecodeOf(signals, signals.Keys, c.0, c.1))
            && p.arrived == FramesOf(p.completed) + Current(p.pc) + p.frames
            && DecodedSoFar(p, Joined(log.batches) + log.current + p.telemetry)
            && forall i :: 0 <= i < |log.batches| ==>
                 log.batches[i].signals != []
                 && log.batches[i].msg == BatchMessage(uin, log.batches[i].signals, log.batches[i].wall)
  {
    hide IsDecodeOf, RunFrom, BatchMessage, AllConsumed, SignalsOf, Joined;
    PipelineConservation(signals, steps);
    TelemetryIsCut(uin, start, inputs);
    var log := RunFrom(uin, Start(start), inputs);
    assert forall i :: 0 <= i < |log.batches| ==> FairBatch(uin, log.batches[i]);
  }
}
