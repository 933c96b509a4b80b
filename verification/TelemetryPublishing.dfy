/** TelemetryPublisher: accumulate decoded signals and publish on completeness or on a timer. */
module TelemetryPublishing {
  import opened Wrappers
  import opened Arithmetic
  import opened SignalDecoding
  import opened TelemetryTypes

  const PUBLISH_INTERVAL_S := 5
  const NS := 1_000_000_000

  const SPEED_NAME := "VEHICLE_SPEED"
  const RPM_NAME := "ENGINE_RPM"
  const COOLANT_NAME := "ENGINE_COOLANT_TEMP"
  const BATTERY_NAME := "BATTERY_VOLTAGE"
  const GEAR_NAME := "GEAR_SHIFT"

  function GearCodeToString(raw: real): string {
    var code := Trunc(raw);
    if code == 0 then "P"
    else if code == 1 then "R"
    else if code == 2 then "N"
    else if code == 3 then "D"
    else "unknown"
  }

  /** The accumulators and the timer. */
  datatype State = State(numeric: map<string, real>, gear: string, gearReceived: bool, lastPublish: int) {
    predicate Empty() {
      numeric == map[] && !gearReceived
    }

    predicate AllSignals() {
      |numeric| == 4 && gearReceived
    }

    function Number(name: string): Number {
      Finite(if name in numeric then numeric[name] else 0.0)
    }
  }

  /** One iteration as its environment sees it: what pop_for returned, the steady clock at the decision and
      after the publish, and the wall clock of the message. */
  datatype Input = Input(popped: Option<DecodedSignal>, now: int, after: int, wall: int)

  // ------------------------------------------------------------------- specification

  function Accumulate(st: State, popped: Option<DecodedSignal>): State {
    match popped
    case None => st
    case Some(s) =>
      if s.name == GEAR_NAME then st.(gear := GearCodeToString(s.value), gearReceived := true)
      else st.(numeric := st.numeric[s.name := s.value])
  }

  function Elapsed(st: State, now: int): int {
    TruncDiv(now - st.lastPublish, NS)
  }

  predicate Publishes(st: State, now: int) {
    st.AllSignals() || (Elapsed(st, now) >= PUBLISH_INTERVAL_S && !st.Empty())
  }

  function Snapshot(uin: string, st: State, wall: int): TelemetryMsg {
    TelemetryMsg(uin, st.Number(SPEED_NAME), st.Number(RPM_NAME), st.Number(COOLANT_NAME), st.Number(BATTERY_NAME),
                 if st.gearReceived then st.gear else "unknown", wall, false)
  }

  /** One publish: the signals consumed since the one before, whether all signals were in, and the message. */
  datatype Batch = Batch(signals: seq<DecodedSignal>, complete: bool, wall: int, msg: TelemetryMsg)

  /** A run so far: the state, the publishes attempted, and the signals consumed since the last one. */
  datatype Log = Log(st: State, batches: seq<Batch>, current: seq<DecodedSignal>)

  function Consumed(popped: Option<DecodedSignal>): seq<DecodedSignal> {
    if popped.None? then [] else [popped.value]
  }

  function Iterate(uin: string, log: Log, input: Input): Log {
    var st := Accumulate(log.st, input.popped);
    var current := log.current + Consumed(input.popped);
    if Publishes(st, input.now) then
      Log(State(map[], "", false, input.after),
          log.batches + [Batch(current, st.AllSignals(), input.wall, Snapshot(uin, st, input.wall))], [])
    else Log(st, log.batches, current)
  }

  function RunFrom(uin: string, log: Log, inputs: seq<Input>): Log {
    if inputs == [] then log else Iterate(uin, RunFrom(uin, log, inputs[..|inputs| - 1]), inputs[|inputs| - 1])
  }

  function Messages(batches: seq<Batch>): seq<TelemetryMsg> {
    seq(|batches|, i requires 0 <= i < |batches| => batches[i].msg)
  }

  // ----------------------------------------------------------------------- the class

  class TelemetryPublisher {
    const uin: string
    var numeric: map<string, real>
    var gear: string
    var gearReceived: bool
    var lastPublish: int
    /** Every message whose publication was attempted, whether or not MQTT took it. */
    var attempts: seq<TelemetryMsg>
    ghost var log: Log

    ghost predicate Valid()
      reads this
    {
      log.st == State(numeric, gear, gearReceived, lastPublish) && attempts == Messages(log.batches)
    }

    constructor (uin: string, now: int)
      ensures Valid() && this.uin == uin && log == Log(State(map[], "", false, now), [], [])
    {
      this.uin := uin;
      numeric, gear, gearReceived, lastPublish := map[], "", false, now;
      attempts := [];
      log := Log(State(map[], "", false, now), [], []);
    }

    method PublishNow(wall: int, after: int)
      modifies this`numeric, this`gear, this`gearReceived, this`lastPublish, this`attempts
      ensures var st := State(old(numeric), old(gear), old(gearReceived), old(lastPublish));
              attempts == old(attempts) + [Snapshot(uin, st, wall)]
      ensures numeric == map[] && gear == "" && !gearReceived && lastPublish == after
    {
      var speed := if SPEED_NAME in numeric then numeric[SPEED_NAME] else 0.0;
      var rpm := if RPM_NAME in numeric then numeric[RPM_NAME] else 0.0;
      var coolant := if COOLANT_NAME in numeric then numeric[COOLANT_NAME] else 0.0;
      var battery := if BATTERY_NAME in numeric then numeric[BATTERY_NAME] else 0.0;
      var gearText := if gearReceived then gear else "unknown";
      attempts := attempts
        + [TelemetryMsg(uin, Finite(speed), Finite(rpm), Finite(coolant), Finite(battery), gearText, wall, false)];
      numeric := map[];
      gear := "";
      gearReceived := false;
      lastPublish := after;
    }

    /** The body of the loop. */
    method Iteration(input: Input)
      requires Valid()
      modifies this
      ensures Valid() && log == Iterate(uin, old(log), input)
    {
      hide Snapshot;
      if input.popped.Some? {
        var s := input.popped.value;
        if s.name == GEAR_NAME {
          gear := GearCodeToString(s.value);
          gearReceived := true;
        } else {
          numeric := numeric[s.name := s.value];
        }
      }
      var allSignals := |numeric| == 4 && gearReceived;
      var timerFired := TruncDiv(input.now - lastPublish, NS) >= PUBLISH_INTERVAL_S;
      if allSignals || (timerFired && (numeric != map[] || gearReceived)) {
        PublishNow(input.wall, input.after);
      }
      log := Iterate(uin, log, input);
    }

    /** The loop over the iterations that run before the thread is stopped. */
    method Run(inputs: seq<Input>)
      requires Valid()
      modifies this
      ensures Valid() && log == RunFrom(uin, old(log), inputs)
    {
      for i := 0 to |inputs|
        invariant Valid() && log == RunFrom(uin, old(log), inputs[..i])
      {
        hide Iterate;
        assert inputs[..i + 1][..i] == inputs[..i];
        Iteration(inputs[i]);
      }
      assert inputs[..|inputs|] == inputs;
    }
  }
}
