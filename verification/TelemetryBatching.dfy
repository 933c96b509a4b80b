/** Whole runs of the telemetry publisher: batching, rate and latency. */
module TelemetryBatching {
  import opened Wrappers
  import opened Sequences
  import opened SignalDecoding
  import opened TelemetryTypes
  import opened TelemetryPublishing

  function Start(now: int): Log {
    Log(State(map[], "", false, now), [], [])
  }

  function AllConsumed(inputs: seq<Input>): seq<DecodedSignal> {
    if inputs == [] then [] else AllConsumed(inputs[..|inputs| - 1]) + Consumed(inputs[|inputs| - 1].popped)
  }

  function SignalLists(batches: seq<Batch>): seq<seq<DecodedSignal>> {
    seq(|batches|, i requires 0 <= i < |batches| => batches[i].signals)
  }

  function Joined(batches: seq<Batch>): seq<DecodedSignal> {
    Flatten(SignalLists(batches))
  }

  // --------------------------------------------------- reference: what a batch means

  /** The last value a batch holds for a name. */
  function LastValue(signals: seq<DecodedSignal>, name: string): Option<real> {
    if signals == [] then None
    else
      var last := signals[|signals| - 1];
      if last.name == name then Some(last.value) else LastValue(signals[..|signals| - 1], name)
  }

  function OrZero(v: Option<real>): Number {
    Finite(if v.Some? then v.value else 0.0)
  }

  /** Last value wins; a missing signal is 0.0, a missing gear "unknown". */
  function BatchMessage(uin: string, signals: seq<DecodedSignal>, wall: int): TelemetryMsg {
    var gear := LastValue(signals, GEAR_NAME);
    TelemetryMsg(uin, OrZero(LastValue(signals, SPEED_NAME)), OrZero(LastValue(signals, RPM_NAME)),
                 OrZero(LastValue(signals, COOLANT_NAME)), OrZero(LastValue(signals, BATTERY_NAME)),
                 if gear.Some? then GearLabel(gear.value) else "unknown", wall, false)
  }

  /** The label of a gear code: the code is the value without its fraction, so values just below zero, too, mean
      park. */
  function GearLabel(v: real): string {
    if -1.0 < v < 1.0 then "P"
    else if 1.0 <= v < 2.0 then "R"
    else if 2.0 <= v < 3.0 then "N"
    else if 3.0 <= v < 4.0 then "D"
    else "unknown"
  }

  lemma GearCodeIsLabel(v: real)
    ensures GearCodeToString(v) == GearLabel(v)
  {
  }

  const FOUR: set<string> := {SPEED_NAME, RPM_NAME, COOLANT_NAME, BATTERY_NAME}

  ghost predicate HasAllFive(signals: seq<DecodedSignal>) {
    LastValue(signals, GEAR_NAME).Some? && forall n :: n in FOUR ==> LastValue(signals, n).Some?
  }

  predicate Configured(signals: seq<DecodedSignal>) {
    forall i :: 0 <= i < |signals| ==> signals[i].name in FOUR || signals[i].name == GEAR_NAME
  }

  // ------------------------------------------------- accumulators against the reference

  /** The accumulators are the last-value-wins fold of the current batch. */
  ghost predicate Folds(st: State, signals: seq<DecodedSignal>) {
    && (forall n :: n in st.numeric <==> n != GEAR_NAME && LastValue(signals, n).Some?)
    && (forall n :: n in st.numeric ==> LastValue(signals, n) == Some(st.numeric[n]))
    && (st.gearReceived <==> LastValue(signals, GEAR_NAME).Some?)
    && (st.gearReceived ==> st.gear == GearLabel(LastValue(signals, GEAR_NAME).value))
  }

  lemma LastValueSnoc(signals: seq<DecodedSignal>, s: DecodedSignal)
    ensures forall n :: LastValue(signals + [s], n) == if s.name == n then Some(s.value) else LastValue(signals, n)
  {
    assert (signals + [s])[..|signals|] == signals;
  }

  lemma AccumulateFolds(st: State, signals: seq<DecodedSignal>, popped: Option<DecodedSignal>)
    requires Folds(st, signals)
    ensures Folds(Accumulate(st, popped), signals + Consumed(popped))
  {
    if popped.Some? {
      GearCodeIsLabel(popped.value.value);
      hide GearCodeToString, GearLabel;
      LastValueSnoc(signals, popped.value);
    } else {
      assert signals + [] == signals;
    }
  }

  lemma FoldedSnapshot(uin: string, st: State, signals: seq<DecodedSignal>, wall: int)
    requires Folds(st, signals)
    ensures Snapshot(uin, st, wall) == BatchMessage(uin, signals, wall)
  {
  }

  lemma {:induction false} LastValueNames(signals: seq<DecodedSignal>, name: string)
    requires LastValue(signals, name).Some?
    ensures exists i :: 0 <= i < |signals| && signals[i].name == name
  {
    var n := |signals| - 1;
    if signals[n].name != name {
      LastValueNames(signals[..n], name);
    }
  }

  lemma {:induction false} NamesHaveValues(signals: seq<DecodedSignal>, i: nat)
    requires i < |signals|
    ensures LastValue(signals, signals[i].name).Some?
  {
    var n := |signals| - 1;
    if i < n {
      NamesHaveValues(signals[..n], i);
    }
  }

  /** The numeric names of a batch, which the publisher counts without looking at them. */
  function Names(signals: seq<DecodedSignal>): set<string> {
    set i | 0 <= i < |signals| && signals[i].name != GEAR_NAME :: signals[i].name
  }

  lemma NamesAreKeys(st: State, signals: seq<DecodedSignal>)
    requires Folds(st, signals)
    ensures st.numeric.Keys == Names(signals) && |st.numeric| == |Names(signals)|
  {
    forall n | n in st.numeric
      ensures n in Names(signals)
    {
      LastValueNames(signals, n);
    }
    forall n | n in Names(signals)
      ensures n in st.numeric
    {
      var i :| 0 <= i < |signals| && signals[i].name == n;
      NamesHaveValues(signals, i);
    }
    assert |st.numeric| == |st.numeric.Keys|;
  }

  lemma ConfiguredIff(signals: seq<DecodedSignal>)
    ensures Configured(signals) <==> Names(signals) <= FOUR
  {
    assert GEAR_NAME !in FOUR;
    forall i | 0 <= i < |signals| && signals[i].name != GEAR_NAME
      ensures signals[i].name in Names(signals)
    {
    }
  }

  lemma HasAllFiveIff(signals: seq<DecodedSignal>)
    ensures HasAllFive(signals) <==> LastValue(signals, GEAR_NAME).Some? && FOUR <= Names(signals)
  {
    forall n | n in FOUR
      ensures LastValue(signals, n).Some? <==> n in Names(signals)
    {
      if LastValue(signals, n).Some? {
        LastValueNames(signals, n);
      } else if i :| 0 <= i < |signals| && signals[i].name == n {
        NamesHaveValues(signals, i);
      }
    }
  }

  /** Four names are the expected four if they are among them, and cannot be if another one is in their place. */
  lemma FourNames(names: set<string>)
    ensures names <= FOUR ==> (|names| == 4 <==> FOUR <= names)
    ensures !(names <= FOUR) && FOUR <= names ==> |names| > 4
  {
    assert |FOUR| == 4;
    if names <= FOUR {
      assert |FOUR - names| == 4 - |names|;
      assert |names| == 4 ==> FOUR - names == {};
    } else if FOUR <= names {
      assert |names - FOUR| == |names| - 4;
      assert names - FOUR != {};
    }
  }

  /** What makes the size test wrong: the gear is in, a name is present that is not expected, and either it
      makes up the number or nothing is missing. */
  ghost predicate Misleading(signals: seq<DecodedSignal>) {
    && LastValue(signals, GEAR_NAME).Some?
    && !Configured(signals)
    && (|Names(signals)| == 4 || FOUR <= Names(signals))
  }

  /** The size test of the source says whether all five signals are in, exactly when the batch does not mislead
      it. */
  lemma SizeTestIsExactIff(st: State, signals: seq<DecodedSignal>)
    requires Folds(st, signals)
    ensures st.AllSignals() <==> LastValue(signals, GEAR_NAME).Some? && |Names(signals)| == 4
    ensures (st.AllSignals() <==> HasAllFive(signals)) <==> !Misleading(signals)
    ensures st.AllSignals() ==> (HasAllFive(signals) <==> Configured(signals))
  {
    NamesAreKeys(st, signals);
    HasAllFiveIff(signals);
    ConfiguredIff(signals);
    FourNames(Names(signals));
  }

  /** With only configured names the size test of the source is completeness. */
  lemma AllSignalsMeansAllFive(st: State, signals: seq<DecodedSignal>)
    requires Folds(st, signals) && Configured(signals)
    ensures st.AllSignals() <==> HasAllFive(signals)
  {
    SizeTestIsExactIff(st, signals);
  }

  // -------------------------------------------------------------------------- batching

  /** One batch of a run: not empty, published as its last-value-wins message, closed at the first signal that
      completes all five or, by the timer, before that. */
  ghost predicate GoodBatch(uin: string, b: Batch) {
    && b.signals != []
    && b.msg == BatchMessage(uin, b.signals, b.wall)
    && (b.complete <==> HasAllFive(b.signals))
    && !HasAllFive(b.signals[..|b.signals| - 1])
  }

  ghost predicate Batched(uin: string, log: Log, consumed: seq<DecodedSignal>) {
    && Joined(log.batches) + log.current == consumed
    && (forall i :: 0 <= i < |log.batches| ==> GoodBatch(uin, log.batches[i]))
    && Folds(log.st, log.current)
    && !HasAllFive(log.current)
  }

  lemma NothingYet(st: State)
    requires st.Empty()
    ensures Folds(st, []) && !HasAllFive([])
  {
  }

  lemma JoinedSnoc(batches: seq<Batch>, b: Batch)
    ensures Joined(batches + [b]) == Joined(batches) + b.signals
  {
    assert SignalLists(batches + [b]) == SignalLists(batches) + [b.signals];
    FlattenSnoc(SignalLists(batches), b.signals);
  }

  lemma {:induction false} TelemetryIsBatched(uin: string, now: int, inputs: seq<Input>)
    requires Configured(AllConsumed(inputs))
    ensures Batched(uin, RunFrom(uin, Start(now), inputs), AllConsumed(inputs))
  {
    if inputs == [] {
      NothingYet(Start(now).st);
    } else {
      var n := |inputs| - 1;
      var before := AllConsumed(inputs[..n]);
      assert forall i :: 0 <= i < |before| ==> before[i] == AllConsumed(inputs)[i];
      TelemetryIsBatched(uin, now, inputs[..n]);
      IterateKeepsBatches(uin, RunFrom(uin, Start(now), inputs[..n]), before, inputs[n]);
    }
  }

  lemma IterateKeepsBatches(uin: string, log: Log, consumed: seq<DecodedSignal>, input: Input)
    requires Batched(uin, log, consumed) && Configured(consumed + Consumed(input.popped))
    ensures Batched(uin, Iterate(uin, log, input), consumed + Consumed(input.popped))
  {
    hide HasAllFive, Folds, Snapshot, BatchMessage, Publishes, Accumulate, Joined;
    var st := Accumulate(log.st, input.popped);
    var current := log.current + Consumed(input.popped);
    var all := consumed + Consumed(input.popped);
    assert all == Joined(log.batches) + current;
    assert Configured(current) by {
      assert forall i :: 0 <= i < |current| ==> current[i] == all[|Joined(log.batches)| + i];
    }
    AccumulateFolds(log.st, log.current, input.popped);
    AllSignalsMeansAllFive(st, current);
    if Publishes(st, input.now) {
      PublishesSomething(st, current, input.now);
      FoldedSnapshot(uin, st, current, input.wall);
      NothingYet(State(map[], "", false, input.after));
      var b := Batch(current, st.AllSignals(), input.wall, Snapshot(uin, st, input.wall));
      JoinedSnoc(log.batches, b);
      BatchIsGood(uin, b, log.current);
    } else {
      NoPublishMeansIncomplete(st, input.now);
    }
  }

  lemma PublishesSomething(st: State, signals: seq<DecodedSignal>, now: int)
    requires Publishes(st, now) && Folds(st, signals)
    ensures signals != []
  {
  }

  lemma NoPublishMeansIncomplete(st: State, now: int)
    requires !Publishes(st, now)
    ensures !st.AllSignals()
  {
  }

  lemma BatchIsGood(uin: string, b: Batch, before: seq<DecodedSignal>)
    requires b.signals != [] && b.msg == BatchMessage(uin, b.signals, b.wall)
    requires b.complete <==> HasAllFive(b.signals)
    requires !HasAllFive(before) && before <= b.signals && |b.signals| <= |before| + 1
    ensures GoodBatch(uin, b)
  {
    var n := |b.signals| - 1;
    assert b.signals == b.signals[..n] + [b.signals[n]];
    AllFiveStays(b.signals[..n], b.signals[n]);
    assert before == if |before| == n then b.signals[..n] else b.signals;
  }

  lemma AllFiveStays(signals: seq<DecodedSignal>, s: DecodedSignal)
    ensures HasAllFive(signals) ==> HasAllFive(signals + [s])
  {
    LastValueSnoc(signals, s);
  }

  // --------------------------------------------------------- batching with any names

  /** One batch of a run with arbitrary names. */
  ghost predicate FairBatch(uin: string, b: Batch) {
    && b.signals != []
    && b.msg == BatchMessage(uin, b.signals, b.wall)
    && (b.complete <==> LastValue(b.signals, GEAR_NAME).Some? && |Names(b.signals)| == 4)
    && (b.complete ==> (HasAllFive(b.signals) <==> Configured(b.signals)))
    && ((b.complete <==> HasAllFive(b.signals)) <==> !Misleading(b.signals))
  }

  ghost predicate Cut(uin: string, log: Log, consumed: seq<DecodedSignal>) {
    && Joined(log.batches) + log.current == consumed
    && (forall i :: 0 <= i < |log.batches| ==> FairBatch(uin, log.batches[i]))
    && Folds(log.st, log.current)
    && (HasAllFive(log.current) <==> Misleading(log.current))
  }

  /** Whatever the names: consecutive non-empty batches with their last-value-wins messages; a batch counts as
      complete when it holds four numeric names and a gear, and then it holds all five signals exactly when its
      names are configured; all five are held back exactly when they mislead the test. */
  lemma {:induction false} TelemetryIsCut(uin: string, now: int, inputs: seq<Input>)
    ensures Cut(uin, RunFrom(uin, Start(now), inputs), AllConsumed(inputs))
  {
    if inputs == [] {
      NothingYet(Start(now).st);
      assert !Misleading([]);
    } else {
      var n := |inputs| - 1;
      TelemetryIsCut(uin, now, inputs[..n]);
      IterateKeepsCut(uin, RunFrom(uin, Start(now), inputs[..n]), AllConsumed(inputs[..n]), inputs[n]);
    }
  }

  lemma IterateKeepsCut(uin: string, log: Log, consumed: seq<DecodedSignal>, input: Input)
    requires Cut(uin, log, consumed)
    ensures Cut(uin, Iterate(uin, log, input), consumed + Consumed(input.popped))
  {
    hide HasAllFive, Folds, Snapshot, BatchMessage, Publishes, Accumulate, Joined, Misleading;
    hide Configured, LastValue, Names;
    var st := Accumulate(log.st, input.popped);
    var current := log.current + Consumed(input.popped);
    assert consumed + Consumed(input.popped) == Joined(log.batches) + current;
    AccumulateFolds(log.st, log.current, input.popped);
    SizeTestIsExactIff(st, current);
    if Publishes(st, input.now) {
      PublishesSomething(st, current, input.now);
      FoldedSnapshot(uin, st, current, input.wall);
      NothingYet(State(map[], "", false, input.after));
      NothingMisleads();
      JoinedSnoc(log.batches, Batch(current, st.AllSignals(), input.wall, Snapshot(uin, st, input.wall)));
    } else {
      NoPublishMeansIncomplete(st, input.now);
    }
  }

  lemma NothingMisleads()
    ensures !Misleading([])
  {
  }

  /** A run tells completeness truly: each batch's flag says whether it holds all five signals, and all five are
      never held back. */
  ghost predicate TellsCompleteness(log: Log) {
    && (forall i :: 0 <= i < |log.batches| ==>
          (log.batches[i].complete <==> HasAllFive(log.batches[i].signals)))
    && !HasAllFive(log.current)
  }

  /** A run tells completeness truly if and only if none of its batches, nor what it holds back, misleads. */
  lemma CompletenessIsToldIff(uin: string, now: int, inputs: seq<Input>)
    ensures var log := RunFrom(uin, Start(now), inputs);
            TellsCompleteness(log)
            <==> !Misleading(log.current)
                 && forall i :: 0 <= i < |log.batches| ==> !Misleading(log.batches[i].signals)
  {
    hide HasAllFive, Misleading;
    TelemetryIsCut(uin, now, inputs);
    var log := RunFrom(uin, Start(now), inputs);
    assert forall i :: 0 <= i < |log.batches| ==> FairBatch(uin, log.batches[i]);
  }

  // ---------------------------------------------------------------- unexpected names

  /** Signals of these names arriving one after the other within one instant. */
  function Named(names: seq<string>): seq<DecodedSignal> {
    seq(|names|, i requires 0 <= i < |names| => DecodedSignal(names[i], 1.0, ""))
  }

  function Arrivals(names: seq<string>, now: int): seq<Input> {
    seq(|names|, i requires 0 <= i < |names| => Input(Some(Named(names)[i]), now, now, now))
  }

  lemma RunSnoc(uin: string, log: Log, inputs: seq<Input>, input: Input)
    ensures RunFrom(uin, log, inputs + [input]) == Iterate(uin, RunFrom(uin, log, inputs), input)
    ensures AllConsumed(inputs + [input]) == AllConsumed(inputs) + Consumed(input.popped)
  {
    assert (inputs + [input])[..|inputs|] == inputs;
  }

  lemma ArrivalsSnoc(names: seq<string>, name: string, now: int)
    ensures Named(names + [name]) == Named(names) + [DecodedSignal(name, 1.0, "")]
    ensures Arrivals(names + [name], now)
            == Arrivals(names, now) + [Input(Some(DecodedSignal(name, 1.0, "")), now, now, now)]
  {
  }

  /** Without a gear, and while no time passes, the run only accumulates. */
  lemma {:induction false} WaitsForGear(uin: string, now: int, names: seq<string>)
    requires GEAR_NAME !in names
    ensures var log := RunFrom(uin, Start(now), Arrivals(names, now));
            log.batches == [] && log.current == Named(names) && !log.st.gearReceived && log.st.lastPublish == now
    ensures AllConsumed(Arrivals(names, now)) == Named(names)
  {
    if names != [] {
      var n := |names| - 1;
      WaitsForGear(uin, now, names[..n]);
      assert names == names[..n] + [names[n]];
      ArrivalsSnoc(names[..n], names[n], now);
      RunSnoc(uin, Start(now), Arrivals(names[..n], now), Input(Some(DecodedSignal(names[n], 1.0, "")), now, now, now));
    }
  }

  /** Then the gear arrives: four numeric names, whichever they are, are published as complete, and any other
      number of them is held back. */
  lemma GearArrives(uin: string, now: int, names: seq<string>)
    requires GEAR_NAME !in names
    ensures var log := RunFrom(uin, Start(now), Arrivals(names + [GEAR_NAME], now));
            var signals := Named(names + [GEAR_NAME]);
            && AllConsumed(Arrivals(names + [GEAR_NAME], now)) == signals
            && Names(signals) == (set n | n in names)
            && if |Names(signals)| == 4
               then log.batches == [Batch(signals, true, now, BatchMessage(uin, signals, now))] && log.current == []
               else log.batches == [] && log.current == signals
  {
    WaitsForGear(uin, now, names);
    ArrivalsSnoc(names, GEAR_NAME, now);
    var before := RunFrom(uin, Start(now), Arrivals(names, now));
    var input := Input(Some(DecodedSignal(GEAR_NAME, 1.0, "")), now, now, now);
    RunSnoc(uin, Start(now), Arrivals(names, now), input);
    TelemetryIsCut(uin, now, Arrivals(names, now));
    var st, signals := Accumulate(before.st, input.popped), Named(names + [GEAR_NAME]);
    AccumulateFolds(before.st, before.current, input.popped);
    SizeTestIsExactIff(st, signals);
    FoldedSnapshot(uin, st, signals, now);
    NamesOfNamed(names);
  }

  lemma NamesOfNamed(names: seq<string>)
    requires GEAR_NAME !in names
    ensures Names(Named(names + [GEAR_NAME])) == set n | n in names
    ensures LastValue(Named(names + [GEAR_NAME]), GEAR_NAME).Some?
  {
    var all := names + [GEAR_NAME];
    var signals := Named(all);
    NamesHaveValues(signals, |names|);
    forall n | n in names
      ensures n in Names(signals)
    {
      var i :| 0 <= i < |names| && names[i] == n;
      assert signals[i].name == n;
    }
  }

  /** A name that is not expected takes a slot: the batch closes as complete without a battery voltage, and the
      message reports it as 0.0. */
  lemma UnexpectedNameClosesEarly(uin: string, now: int, name: string)
    requires name !in FOUR && name != GEAR_NAME
    ensures var log := RunFrom(uin, Start(now),
                               Arrivals([name, SPEED_NAME, RPM_NAME, COOLANT_NAME, GEAR_NAME], now));
            && |log.batches| == 1 && log.batches[0].complete && !HasAllFive(log.batches[0].signals)
            && log.batches[0].msg.battery == Finite(0.0)
  {
    hide RunFrom, HasAllFive, LastValue, Names, Named;
    var names := [name, SPEED_NAME, RPM_NAME, COOLANT_NAME];
    OneAndThree(name);
    assert names + [GEAR_NAME] == [name, SPEED_NAME, RPM_NAME, COOLANT_NAME, GEAR_NAME];
    GearArrives(uin, now, names);
    var signals := Named(names + [GEAR_NAME]);
    HasAllFiveIff(signals);
    assert BATTERY_NAME in FOUR;
    Missing(signals, BATTERY_NAME);
  }

  lemma OneAndThree(name: string)
    requires name !in FOUR && name != GEAR_NAME
    ensures var names := [name, SPEED_NAME, RPM_NAME, COOLANT_NAME];
            && |set n | n in names| == 4 && BATTERY_NAME !in (set n | n in names)
            && GEAR_NAME !in names
  {
    var names := [name, SPEED_NAME, RPM_NAME, COOLANT_NAME];
    assert (set n | n in names) == {name, SPEED_NAME, RPM_NAME, COOLANT_NAME};
  }

  lemma Missing(signals: seq<DecodedSignal>, name: string)
    requires name !in Names(signals) && name != GEAR_NAME
    ensures LastValue(signals, name).None?
  {
    if LastValue(signals, name).Some? {
      LastValueNames(signals, name);
    }
  }

  /** It also keeps a batch open: with all five signals and one more name in, nothing is published. */
  lemma UnexpectedNameHoldsBack(uin: string, now: int, name: string)
    requires name !in FOUR && name != GEAR_NAME
    ensures var log := RunFrom(uin, Start(now),
                               Arrivals([SPEED_NAME, RPM_NAME, COOLANT_NAME, BATTERY_NAME, name, GEAR_NAME], now));
            log.batches == [] && HasAllFive(log.current)
  {
    hide RunFrom, HasAllFive, LastValue, Names, Named;
    var names := [SPEED_NAME, RPM_NAME, COOLANT_NAME, BATTERY_NAME, name];
    FourAndOne(name);
    assert names + [GEAR_NAME] == [SPEED_NAME, RPM_NAME, COOLANT_NAME, BATTERY_NAME, name, GEAR_NAME];
    GearArrives(uin, now, names);
    NamesOfNamed(names);
    HasAllFiveIff(Named(names + [GEAR_NAME]));
  }

  lemma FourAndOne(name: string)
    requires name !in FOUR && name != GEAR_NAME
    ensures var names := [SPEED_NAME, RPM_NAME, COOLANT_NAME, BATTERY_NAME, name];
            && (set n | n in names) == FOUR + {name} && |FOUR + {name}| == 5
            && GEAR_NAME !in names
  {
  }

  ghost predicate NamedWithin(signals: seq<DecodedSignal>, names: set<string>) {
    forall i :: 0 <= i < |signals| ==> signals[i].name in names
  }

  /** Whether a configuration cannot mislead: it has only expected names, or no gear, or too few names. */
  predicate Safe(names: set<string>) {
    names <= FOUR + {GEAR_NAME} || GEAR_NAME !in names || |names| <= 4
  }

  lemma SafeNamesDoNotMislead(signals: seq<DecodedSignal>, names: set<string>)
    requires NamedWithin(signals, names) && Safe(names)
    ensures !Misleading(signals)
  {
    if Misleading(signals) {
      LastValueNames(signals, GEAR_NAME);
      ConfiguredIff(signals);
      assert Names(signals) <= names - {GEAR_NAME};
      Subset(Names(signals), names - {GEAR_NAME});
      if FOUR <= Names(signals) {
        Subset(FOUR, Names(signals));
      }
    }
  }

  lemma Subset(a: set<string>, b: set<string>)
    requires a <= b
    ensures |a| <= |b|
  {
    assert b == a + (b - a);
  }

  lemma {:induction false} BatchesAreNamed(batches: seq<Batch>, names: set<string>)
    requires NamedWithin(Joined(batches), names)
    ensures forall i :: 0 <= i < |batches| ==> NamedWithin(batches[i].signals, names)
  {
    if batches != [] {
      var n := |batches| - 1;
      assert batches == batches[..n] + [batches[n]];
      JoinedSnoc(batches[..n], batches[n]);
      PartsAreNamed(Joined(batches[..n]), batches[n].signals, names);
      BatchesAreNamed(batches[..n], names);
    }
  }

  lemma PartsAreNamed(a: seq<DecodedSignal>, b: seq<DecodedSignal>, names: set<string>)
    requires NamedWithin(a + b, names)
    ensures NamedWithin(a, names) && NamedWithin(b, names)
  {
    forall i | 0 <= i < |a|
      ensures a[i].name in names
    {
      assert (a + b)[i] == a[i];
    }
    forall i | 0 <= i < |b|
      ensures b[i].name in names
    {
      assert (a + b)[|a| + i] == b[i];
    }
  }

  lemma SafeRun(uin: string, now: int, inputs: seq<Input>, names: set<string>)
    requires NamedWithin(AllConsumed(inputs), names) && Safe(names)
    ensures TellsCompleteness(RunFrom(uin, Start(now), inputs))
  {
    hide RunFrom, HasAllFive, Misleading, NamedWithin, TellsCompleteness;
    var log := RunFrom(uin, Start(now), inputs);
    TelemetryIsCut(uin, now, inputs);
    PartsAreNamed(Joined(log.batches), log.current, names);
    BatchesAreNamed(log.batches, names);
    SafeNamesDoNotMislead(log.current, names);
    forall i | 0 <= i < |log.batches|
      ensures !Misleading(log.batches[i].signals)
    {
      SafeNamesDoNotMislead(log.batches[i].signals, names);
    }
    CompletenessIsToldIff(uin, now, inputs);
  }

  /** Any four numeric names that are not the expected four close a batch as complete. */
  lemma UnexpectedFour(uin: string, now: int, arriving: seq<string>)
    requires GEAR_NAME !in arriving && |set n | n in arriving| == 4
    requires exists n :: n in arriving && n !in FOUR
    ensures !TellsCompleteness(RunFrom(uin, Start(now), Arrivals(arriving + [GEAR_NAME], now)))
  {
    hide RunFrom;
    GearArrives(uin, now, arriving);
    var signals := Named(arriving + [GEAR_NAME]);
    var log := RunFrom(uin, Start(now), Arrivals(arriving + [GEAR_NAME], now));
    HasAllFiveIff(signals);
    FourNames(Names(signals));
    assert log.batches[0].complete && !HasAllFive(log.batches[0].signals);
  }

  lemma PickThree(names: set<string>) returns (a: string, b: string, c: string)
    requires |names| >= 3
    ensures {a, b, c} <= names && a != b && b != c && a != c
  {
    a :| a in names;
    assert |names - {a}| >= 2;
    b :| b in names - {a};
    assert |names - {a} - {b}| >= 1;
    c :| c in names - {a} - {b};
  }

  /** Which configurations are safe: every run over these names tells completeness truly if and only if there are
      only expected names, or no gear among them, or at most four in all. */
  lemma ConfigurationIsSafeIff(uin: string, now: int, names: set<string>)
    ensures (forall inputs :: NamedWithin(AllConsumed(inputs), names)
               ==> TellsCompleteness(RunFrom(uin, Start(now), inputs)))
            <==> names <= FOUR + {GEAR_NAME} || GEAR_NAME !in names || |names| <= 4
  {
    hide RunFrom, TellsCompleteness;
    if Safe(names) {
      forall inputs | NamedWithin(AllConsumed(inputs), names)
        ensures TellsCompleteness(RunFrom(uin, Start(now), inputs))
      {
        SafeRun(uin, now, inputs, names);
      }
    } else {
      var name :| name in names && name !in FOUR + {GEAR_NAME};
      assert |names - {GEAR_NAME}| == |names| - 1 && |names - {GEAR_NAME} - {name}| == |names| - 2;
      var a, b, c := PickThree(names - {GEAR_NAME} - {name});
      UnsafeConfiguration(uin, now, names, [name, a, b, c]);
    }
  }

  lemma UnsafeConfiguration(uin: string, now: int, names: set<string>, arriving: seq<string>)
    requires |arriving| == 4 && GEAR_NAME in names && GEAR_NAME !in arriving && arriving[0] !in FOUR
    requires forall n :: n in arriving ==> n in names
    requires forall i, j :: 0 <= i < j < 4 ==> arriving[i] != arriving[j]
    ensures exists inputs :: NamedWithin(AllConsumed(inputs), names)
                             && !TellsCompleteness(RunFrom(uin, Start(now), inputs))
  {
    hide RunFrom, TellsCompleteness;
    assert (set n | n in arriving) == {arriving[0], arriving[1], arriving[2], arriving[3]};
    UnexpectedFour(uin, now, arriving);
    GearArrives(uin, now, arriving);
    assert NamedWithin(AllConsumed(Arrivals(arriving + [GEAR_NAME], now)), names);
  }

  // ------------------------------------------------------------------- rate and latency

  function CountBatches(batches: seq<Batch>, complete: bool): nat {
    if batches == [] then 0
    else CountBatches(batches[..|batches| - 1], complete) + if batches[|batches| - 1].complete == complete then 1 else 0
  }

  lemma CountSnoc(batches: seq<Batch>, b: Batch, complete: bool)
    ensures CountBatches(batches + [b], complete)
            == CountBatches(batches, complete) + if b.complete == complete then 1 else 0
  {
    assert (batches + [b])[..|batches|] == batches;
  }

  /** The steady clock never goes back. */
  ghost predicate Monotone(start: int, inputs: seq<Input>) {
    && (forall i :: 0 <= i < |inputs| ==> start <= inputs[i].now <= inputs[i].after)
    && (forall i, j :: 0 <= i < j < |inputs| ==> inputs[i].after <= inputs[j].now)
  }

  ghost predicate RateBounds(start: int, log: Log, consumed: nat) {
    && |log.st.numeric| + (if log.st.gearReceived then 1 else 0) <= |log.current|
    && 5 * CountBatches(log.batches, true) + CountBatches(log.batches, false) + |log.current| <= consumed
    && PUBLISH_INTERVAL_S * NS * CountBatches(log.batches, false) <= log.st.lastPublish - start
  }

  lemma IterateKeepsRate(uin: string, start: int, log: Log, consumed: nat, input: Input)
    requires RateBounds(start, log, consumed) && log.st.lastPublish <= input.now <= input.after
    ensures RateBounds(start, Iterate(uin, log, input), consumed + |Consumed(input.popped)|)
    ensures Iterate(uin, log, input).st.lastPublish <= input.after
  {
    var st := Accumulate(log.st, input.popped);
    AccumulateGrows(log.st, input.popped);
    if Publishes(st, input.now) {
      var b := Batch(log.current + Consumed(input.popped), st.AllSignals(), input.wall, Snapshot(uin, st, input.wall));
      CountSnoc(log.batches, b, true);
      CountSnoc(log.batches, b, false);
    }
  }

  lemma AccumulateGrows(st: State, popped: Option<DecodedSignal>)
    ensures var st' := Accumulate(st, popped);
            && st'.lastPublish == st.lastPublish
            && |st'.numeric| + (if st'.gearReceived then 1 else 0)
               <= |st.numeric| + (if st.gearReceived then 1 else 0) + |Consumed(popped)|
  {
    if popped.Some? && popped.value.name != GEAR_NAME {
      var m := st.numeric[popped.value.name := popped.value.value];
      assert m.Keys == st.numeric.Keys + {popped.value.name};
      assert |m| == |m.Keys| && |st.numeric| == |st.numeric.Keys|;
    }
  }

  lemma {:induction false} RateIsBounded(uin: string, start: int, inputs: seq<Input>)
    requires Monotone(start, inputs)
    ensures RateBounds(start, RunFrom(uin, Start(start), inputs), |AllConsumed(inputs)|)
    ensures var log := RunFrom(uin, Start(start), inputs);
            log.st.lastPublish <= if inputs == [] then start else inputs[|inputs| - 1].after
  {
    if inputs != [] {
      hide RateBounds;
      var n := |inputs| - 1;
      RateIsBounded(uin, start, inputs[..n]);
      IterateKeepsRate(uin, start, RunFrom(uin, Start(start), inputs[..n]), |AllConsumed(inputs[..n])|, inputs[n]);
    } else {
      assert RateBounds(start, Start(start), 0);
    }
  }

  /** Rate: five signals per complete publish and one per other, and five seconds per other publish. Latency:
      after every iteration nothing is held back, or the sampled age of the timer is under five seconds. */
  lemma RateAndLatency(uin: string, start: int, inputs: seq<Input>)
    requires Monotone(start, inputs) && inputs != []
    ensures var log := RunFrom(uin, Start(start), inputs);
            var last := inputs[|inputs| - 1];
            && 5 * CountBatches(log.batches, true) + CountBatches(log.batches, false) <= |AllConsumed(inputs)|
            && 5_000_000_000 * CountBatches(log.batches, false) <= last.after - start
            && (log.st.Empty() || last.now - log.st.lastPublish < 5_000_000_000)
  {
    RateIsBounded(uin, start, inputs);
  }
}
