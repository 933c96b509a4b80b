/** When the publisher publishes, and what each message says, over whole runs and in the terms of its inputs. */
module TelemetryTiming {
  import opened Wrappers
  import opened Arithmetic
  import opened SignalDecoding
  import opened TelemetryTypes
  import opened TelemetryPublishing
  import opened TelemetryBatching

  // -------------------------------------------------------------------------- when

  /** The run over the first n inputs. */
  function LogAt(uin: string, start: int, inputs: seq<Input>, n: nat): Log
    requires n <= |inputs|
  {
    RunFrom(uin, Start(start), inputs[..n])
  }

  /** The clock after the last publish among the first n iterations, or at the start. */
  function LastPublishTime(uin: string, start: int, inputs: seq<Input>, n: nat): int
    requires n <= |inputs|
  {
    if n == 0 then start
    else if |LogAt(uin, start, inputs, n).batches| > |LogAt(uin, start, inputs, n - 1).batches|
    then inputs[n - 1].after
    else LastPublishTime(uin, start, inputs, n - 1)
  }

  lemma OneMoreInput(uin: string, start: int, inputs: seq<Input>, n: nat)
    requires n < |inputs|
    ensures LogAt(uin, start, inputs, n + 1) == Iterate(uin, LogAt(uin, start, inputs, n), inputs[n])
  {
    assert inputs[..n + 1][..n] == inputs[..n];
  }

  lemma {:induction false} TimerStartsThere(uin: string, start: int, inputs: seq<Input>, n: nat)
    requires n <= |inputs|
    ensures LogAt(uin, start, inputs, n).st.lastPublish == LastPublishTime(uin, start, inputs, n)
  {
    if n > 0 {
      hide LogAt, Snapshot, Publishes;
      TimerStartsThere(uin, start, inputs, n - 1);
      OneMoreInput(uin, start, inputs, n - 1);
    } else {
      assert inputs[..0] == [];
    }
  }

  lemma TimerFires(st: State, now: int)
    ensures Elapsed(st, now) >= PUBLISH_INTERVAL_S <==> now - st.lastPublish >= 5_000_000_000
  {
  }

  lemma EmptyIff(st: State, signals: seq<DecodedSignal>)
    requires Folds(st, signals)
    ensures st.Empty() <==> signals == []
  {
    if signals != [] {
      NamesHaveValues(signals, |signals| - 1);
      assert LastValue(signals, signals[|signals| - 1].name).Some?;
    }
  }

  /** What every iteration does, for any names and any clock: with the signals waiting since the last publish, it
      publishes exactly when they hold a gear and four numeric names, or there are some and five seconds have
      passed since the clock was last set; the batch is what was waiting, stamped with this iteration's wall
      clock, and nothing waits afterwards. */
  lemma PublishesExactly(uin: string, start: int, inputs: seq<Input>, n: nat)
    requires n < |inputs|
    ensures var before, after := LogAt(uin, start, inputs, n), LogAt(uin, start, inputs, n + 1);
            var waiting := before.current + Consumed(inputs[n].popped);
            var full := LastValue(waiting, GEAR_NAME).Some? && |Names(waiting)| == 4;
            var late := waiting != []
                        && inputs[n].now - LastPublishTime(uin, start, inputs, n) >= 5_000_000_000;
            if full || late then
              && after.batches
                 == before.batches
                    + [Batch(waiting, full, inputs[n].wall, BatchMessage(uin, waiting, inputs[n].wall))]
              && after.current == []
            else after.batches == before.batches && after.current == waiting
  {
    hide LogAt, Folds, Snapshot, BatchMessage, LastValue, Names, Accumulate, Elapsed, LastPublishTime;
    var before := LogAt(uin, start, inputs, n);
    var waiting := before.current + Consumed(inputs[n].popped);
    OneMoreInput(uin, start, inputs, n);
    TimerStartsThere(uin, start, inputs, n);
    LogFolds(uin, start, inputs, n);
    AccumulateFolds(before.st, before.current, inputs[n].popped);
    var st := Accumulate(before.st, inputs[n].popped);
    SizeTestIsExactIff(st, waiting);
    EmptyIff(st, waiting);
    TimerFires(st, inputs[n].now);
    AccumulateGrows(before.st, inputs[n].popped);
    FoldedSnapshot(uin, st, waiting, inputs[n].wall);
  }

  lemma LogFolds(uin: string, start: int, inputs: seq<Input>, n: nat)
    requires n <= |inputs|
    ensures var log := LogAt(uin, start, inputs, n); Folds(log.st, log.current)
  {
    hide Folds;
    TelemetryIsCut(uin, start, inputs[..n]);
  }

  // -------------------------------------------------------------------------- what

  /** The last signal of this name is the i-th. */
  ghost predicate LastIs(signals: seq<DecodedSignal>, name: string, i: int) {
    && 0 <= i < |signals| && signals[i].name == name
    && forall j :: i < j < |signals| ==> signals[j].name != name
  }

  ghost predicate Absent(signals: seq<DecodedSignal>, name: string) {
    forall i :: 0 <= i < |signals| ==> signals[i].name != name
  }

  lemma {:induction false} LastValueIs(signals: seq<DecodedSignal>, name: string)
    ensures forall i :: LastIs(signals, name, i) ==> LastValue(signals, name) == Some(signals[i].value)
    ensures Absent(signals, name) ==> LastValue(signals, name) == None
  {
    if signals != [] {
      var n := |signals| - 1;
      LastValueIs(signals[..n], name);
      forall i | LastIs(signals, name, i)
        ensures LastValue(signals, name) == Some(signals[i].value)
      {
        if i < n {
          assert LastIs(signals[..n], name, i) && signals[n].name != name;
        }
      }
    }
  }

  /** Field by field: the value of the last signal with its name, or 0.0. */
  ghost predicate Shows(field: Number, signals: seq<DecodedSignal>, name: string) {
    && (forall i :: LastIs(signals, name, i) ==> field == Finite(signals[i].value))
    && (Absent(signals, name) ==> field == Finite(0.0))
  }

  /** Every message of a run, read off the signals of its batch. */
  lemma MessagesSay(uin: string, start: int, inputs: seq<Input>, k: nat)
    requires k < |RunFrom(uin, Start(start), inputs).batches|
    ensures var b := RunFrom(uin, Start(start), inputs).batches[k];
            && b.msg.uin == uin && b.msg.timestamp == b.wall && !b.msg.fromBuffer
            && Shows(b.msg.speed, b.signals, "VEHICLE_SPEED") && Shows(b.msg.rpm, b.signals, "ENGINE_RPM")
            && Shows(b.msg.coolant, b.signals, "ENGINE_COOLANT_TEMP")
            && Shows(b.msg.battery, b.signals, "BATTERY_VOLTAGE")
            && (Absent(b.signals, "GEAR_SHIFT") ==> b.msg.gear == "unknown")
            && forall i :: LastIs(b.signals, "GEAR_SHIFT", i) ==>
                 var v := b.signals[i].value;
                 && (-1.0 < v < 1.0 ==> b.msg.gear == "P")
                 && (1.0 <= v < 2.0 ==> b.msg.gear == "R")
                 && (2.0 <= v < 3.0 ==> b.msg.gear == "N")
                 && (3.0 <= v < 4.0 ==> b.msg.gear == "D")
                 && (v <= -1.0 || v >= 4.0 ==> b.msg.gear == "unknown")
  {
    hide RunFrom, Cut, LastValue;
    CutBatch(uin, start, inputs, k);
    var b := RunFrom(uin, Start(start), inputs).batches[k];
    LastValueIs(b.signals, "VEHICLE_SPEED");
    LastValueIs(b.signals, "ENGINE_RPM");
    LastValueIs(b.signals, "ENGINE_COOLANT_TEMP");
    LastValueIs(b.signals, "BATTERY_VOLTAGE");
    LastValueIs(b.signals, "GEAR_SHIFT");
  }

  lemma CutBatch(uin: string, start: int, inputs: seq<Input>, k: nat)
    requires k < |RunFrom(uin, Start(start), inputs).batches|
    ensures var b := RunFrom(uin, Start(start), inputs).batches[k]; b.msg == BatchMessage(uin, b.signals, b.wall)
  {
    TelemetryIsCut(uin, start, inputs);
    var log := RunFrom(uin, Start(start), inputs);
    assert FairBatch(uin, log.batches[k]);
  }
}
