/** The decode loop of main and the pipeline around it: CAN reader, decoder, two consumers. */
module FanOut {
  import opened Sequences
  import opened SafeQueueing
  import opened SignalDecoding

  // --------------------------------------------------------- the loop, run by itself

  /** The body of the loop for one frame: every signal goes to both queues. */
  method PushToBoth(
    decoded: seq<DecodedSignal>, telemetryQ: SafeQueue<DecodedSignal>, anomalyQ: SafeQueue<DecodedSignal>)
    requires telemetryQ != anomalyQ
    modifies telemetryQ, anomalyQ
    ensures telemetryQ.queue == old(telemetryQ.queue) + decoded && telemetryQ.closed == old(telemetryQ.closed)
    ensures anomalyQ.queue == old(anomalyQ.queue) + decoded && anomalyQ.closed == old(anomalyQ.closed)
  {
    for i := 0 to |decoded|
      invariant telemetryQ.queue == old(telemetryQ.queue) + decoded[..i] && telemetryQ.closed == old(telemetryQ.closed)
      invariant anomalyQ.queue == old(anomalyQ.queue) + decoded[..i] && anomalyQ.closed == old(anomalyQ.closed)
    {
      telemetryQ.Push(decoded[i]);
      anomalyQ.Push(decoded[i]);
      assert decoded[..i + 1] == decoded[..i] + [decoded[i]];
    }
    assert decoded[..|decoded|] == decoded;
  }

  /** The i-th list of results is what the decoder says about the i-th frame. */
  ghost predicate AreDecodes(signals: map<string, SignalDef>, frames: seq<CanFrame>, decodes: seq<seq<DecodedSignal>>)
  {
    |decodes| <= |frames| && forall i :: 0 <= i < |decodes| ==> IsDecodeOf(signals, signals.Keys, frames[i], decodes[i])
  }

  lemma OneMoreDecode(
    signals: map<string, SignalDef>, frames: seq<CanFrame>, decodes: seq<seq<DecodedSignal>>,
    decoded: seq<DecodedSignal>)
    requires AreDecodes(signals, frames, decodes) && |decodes| < |frames|
    requires IsDecodeOf(signals, signals.Keys, frames[|decodes|], decoded)
    ensures AreDecodes(signals, frames, decodes + [decoded])
  {
    hide IsDecodeOf, Decodable;
  }

  lemma NothingDecoded(signals: map<string, SignalDef>, frames: seq<CanFrame>)
    ensures AreDecodes(signals, frames, []) && Flatten<DecodedSignal>([]) == []
  {
  }

  /** `rounds` iterations of the loop before the flag is cleared; a round that finds no frame is a timeout. */
  method DecodeLoop(
      decoder: SignalDecoder, frameQ: SafeQueue<CanFrame>,
      telemetryQ: SafeQueue<DecodedSignal>, anomalyQ: SafeQueue<DecodedSignal>, rounds: nat)
    returns (ghost decodes: seq<seq<DecodedSignal>>, done: nat)
    requires telemetryQ != anomalyQ
    requires forall f :: f in frameQ.queue ==> Decodable(decoder.signals, f.canId)
    modifies frameQ, telemetryQ, anomalyQ
    ensures done == |decodes| == if rounds <= |old(frameQ.queue)| then rounds else |old(frameQ.queue)|
    ensures frameQ.queue == old(frameQ.queue)[done..]
    ensures AreDecodes(decoder.signals, old(frameQ.queue), decodes)
    ensures telemetryQ.queue == old(telemetryQ.queue) + Flatten(decodes)
    ensures anomalyQ.queue == old(anomalyQ.queue) + Flatten(decodes)
  {
    NothingDecoded(decoder.signals, frameQ.queue);
    hide IsDecodeOf, Decodable, Flatten, AreDecodes;
    decodes, done := [], 0;
    ghost var arrived := frameQ.queue;
    for i := 0 to rounds
      invariant done == |decodes| == if i <= |arrived| then i else |arrived|
      invariant frameQ.queue == arrived[done..]
      invariant AreDecodes(decoder.signals, arrived, decodes)
      invariant telemetryQ.queue == old(telemetryQ.queue) + Flatten(decodes)
      invariant anomalyQ.queue == old(anomalyQ.queue) + Flatten(decodes)
    {
      var frame := frameQ.PopFor();
      if frame.None? {
        continue;
      }
      assert frame.value == arrived[done] && frameQ.queue == arrived[done + 1..];
      var decoded := decoder.Decode(frame.value);
      PushToBoth(decoded, telemetryQ, anomalyQ);
      FlattenSnoc(decodes, decoded);
      OneMoreDecode(decoder.signals, arrived, decodes, decoded);
      decodes, done := decodes + [decoded], done + 1;
    }
  }

  // ------------------------------------------------------ the pipeline, interleaved

  /** Where the decode thread is: at the loop head, or having pushed `next` signals of a frame to both queues
      and, when `half`, one more to the telemetry queue only. */
  datatype DecodePc =
    | AtHead
    | Pushing(frame: CanFrame, decoded: seq<DecodedSignal>, next: nat, half: bool)
    | Stopped

  datatype Pipeline = Pipeline(
    frames: seq<CanFrame>,
    telemetry: seq<DecodedSignal>,
    anomaly: seq<DecodedSignal>,
    pc: DecodePc,
    arrived: seq<CanFrame>,
    completed: seq<(CanFrame, seq<DecodedSignal>)>,
    telemetryOut: seq<DecodedSignal>,
    anomalyOut: seq<DecodedSignal>
  ) {
    /** Everything ever pushed to each consumer queue. */
    function TelemetryLog(): seq<DecodedSignal> { telemetryOut + telemetry }
    function AnomalyLog(): seq<DecodedSignal> { anomalyOut + anomaly }
  }

  /** Each step is one lock section of one thread. */
  datatype PipelineStep =
    | ReaderPush(frame: CanFrame)
    | DecodePop(decoded: seq<DecodedSignal>)
    | PushTelemetry
    | PushAnomaly
    | FrameDone
    | TelemetryPop
    | AnomalyPop
    | Stop

  const EMPTY := Pipeline([], [], [], AtHead, [], [], [], [])

  ghost predicate CanStep(signals: map<string, SignalDef>, p: Pipeline, s: PipelineStep)
  {
    match s
    case ReaderPush(_) => true
    case DecodePop(decoded) => p.pc.AtHead? && p.frames != [] && IsDecodeOf(signals, signals.Keys, p.frames[0], decoded)
    case PushTelemetry => p.pc.Pushing? && p.pc.next < |p.pc.decoded| && !p.pc.half
    case PushAnomaly => p.pc.Pushing? && p.pc.next < |p.pc.decoded| && p.pc.half
    case FrameDone => p.pc.Pushing? && p.pc.next == |p.pc.decoded|
    case TelemetryPop => p.telemetry != []
    case AnomalyPop => p.anomaly != []
    case Stop => p.pc.AtHead?
  }

  function Step(signals: map<string, SignalDef>, p: Pipeline, s: PipelineStep): Pipeline
    requires CanStep(signals, p, s)
  {
    match s
    case ReaderPush(f) => p.(frames := p.frames + [f], arrived := p.arrived + [f])
    case DecodePop(decoded) => p.(frames := Rest(p.frames), pc := Pushing(p.frames[0], decoded, 0, false))
    case PushTelemetry => p.(telemetry := p.telemetry + [p.pc.decoded[p.pc.next]], pc := p.pc.(half := true))
    case PushAnomaly =>
      p.(anomaly := p.anomaly + [p.pc.decoded[p.pc.next]], pc := p.pc.(next := p.pc.next + 1, half := false))
    case FrameDone => p.(completed := p.completed + [(p.pc.frame, p.pc.decoded)], pc := AtHead)
    case TelemetryPop => p.(telemetry := Rest(p.telemetry), telemetryOut := p.telemetryOut + [p.telemetry[0]])
    case AnomalyPop => p.(anomaly := Rest(p.anomaly), anomalyOut := p.anomalyOut + [p.anomaly[0]])
    case Stop => p.(pc := Stopped)
  }

  ghost predicate IsRun(signals: map<string, SignalDef>, p: Pipeline, steps: seq<PipelineStep>)
    decreases steps
  {
    steps == [] || (CanStep(signals, p, steps[0]) && IsRun(signals, Step(signals, p, steps[0]), steps[1..]))
  }

  ghost function After(signals: map<string, SignalDef>, p: Pipeline, steps: seq<PipelineStep>): Pipeline
    requires IsRun(signals, p, steps)
    decreases steps
  {
    if steps == [] then p else After(signals, Step(signals, p, steps[0]), steps[1..])
  }

  // -------------------------------------------------------------------- conservation

  function FramesOf(done: seq<(CanFrame, seq<DecodedSignal>)>): seq<CanFrame> {
    seq(|done|, i requires 0 <= i < |done| => done[i].0)
  }

  function DecodesOf(done: seq<(CanFrame, seq<DecodedSignal>)>): seq<seq<DecodedSignal>> {
    seq(|done|, i requires 0 <= i < |done| => done[i].1)
  }

  function SignalsOf(done: seq<(CanFrame, seq<DecodedSignal>)>): seq<DecodedSignal> {
    Flatten(DecodesOf(done))
  }

  function Current(pc: DecodePc): seq<CanFrame> {
    if pc.Pushing? then [pc.frame] else []
  }

  /** The part of the current frame's signals that has reached a queue. */
  function Prefix(pc: DecodePc, extra: nat): seq<DecodedSignal>
    requires pc.Pushing? ==> pc.next + extra <= |pc.decoded|
  {
    if pc.Pushing? then pc.decoded[..pc.next + extra] else []
  }

  ghost predicate Conserved(signals: map<string, SignalDef>, p: Pipeline)
  {
    var ahead := if p.pc.Pushing? && p.pc.half then 1 else 0;
    && (p.pc.Pushing? ==> p.pc.next + ahead <= |p.pc.decoded|)
    && (p.pc.Pushing? ==> IsDecodeOf(signals, signals.Keys, p.pc.frame, p.pc.decoded))
    && (forall c :: c in p.completed ==> IsDecodeOf(signals, signals.Keys, c.0, c.1))
    && p.arrived == FramesOf(p.completed) + Current(p.pc) + p.frames
    && p.TelemetryLog() == SignalsOf(p.completed) + Prefix(p.pc, ahead)
    && p.AnomalyLog() == SignalsOf(p.completed) + Prefix(p.pc, 0)
  }

  lemma PopKeepsLog<T>(out: seq<T>, q: seq<T>)
    requires q != []
    ensures out + [q[0]] + Rest(q) == out + q
  {
  }

  lemma OneMoreSignal(
    done: seq<DecodedSignal>, decoded: seq<DecodedSignal>, n: nat, out: seq<DecodedSignal>, q: seq<DecodedSignal>)
    requires n < |decoded| && out + q == done + decoded[..n]
    ensures out + (q + [decoded[n]]) == done + decoded[..n + 1]
  {
    assert decoded[..n + 1] == decoded[..n] + [decoded[n]];
    assert out + (q + [decoded[n]]) == (out + q) + [decoded[n]];
  }

  lemma CompleteOne(done: seq<(CanFrame, seq<DecodedSignal>)>, frame: CanFrame, decoded: seq<DecodedSignal>)
    ensures FramesOf(done + [(frame, decoded)]) == FramesOf(done) + [frame]
    ensures SignalsOf(done + [(frame, decoded)]) == SignalsOf(done) + decoded[..|decoded|]
  {
    assert DecodesOf(done + [(frame, decoded)]) == DecodesOf(done) + [decoded];
    FlattenSnoc(DecodesOf(done), decoded);
    assert decoded[..|decoded|] == decoded;
  }

  lemma StepConserves(signals: map<string, SignalDef>, p: Pipeline, s: PipelineStep)
    requires CanStep(signals, p, s) && Conserved(signals, p)
    ensures Conserved(signals, Step(signals, p, s))
  {
    hide IsDecodeOf, FramesOf, SignalsOf;
    match s
    case ReaderPush(f) =>
      assert FramesOf(p.completed) + Current(p.pc) + p.frames + [f]
          == FramesOf(p.completed) + Current(p.pc) + (p.frames + [f]);
    case DecodePop(decoded) =>
      assert p.frames == [p.frames[0]] + Rest(p.frames);
    case PushTelemetry =>
      OneMoreSignal(SignalsOf(p.completed), p.pc.decoded, p.pc.next, p.telemetryOut, p.telemetry);
    case PushAnomaly =>
      OneMoreSignal(SignalsOf(p.completed), p.pc.decoded, p.pc.next, p.anomalyOut, p.anomaly);
    case FrameDone =>
      CompleteOne(p.completed, p.pc.frame, p.pc.decoded);
    case TelemetryPop =>
      PopKeepsLog(p.telemetryOut, p.telemetry);
    case AnomalyPop =>
      PopKeepsLog(p.anomalyOut, p.anomaly);
    case Stop =>
  }

  lemma {:induction false} RunConserves(signals: map<string, SignalDef>, p: Pipeline, steps: seq<PipelineStep>)
    requires IsRun(signals, p, steps) && Conserved(signals, p)
    ensures Conserved(signals, After(signals, p, steps))
    decreases steps
  {
    if steps != [] {
      StepConserves(signals, p, steps[0]);
      RunConserves(signals, Step(signals, p, steps[0]), steps[1..]);
    }
  }

  /** In every reachable interleaving no frame and no signal is lost, duplicated or reordered: frames taken by
      the decoder plus frames queued are the frames that arrived; what telemetry consumed plus what is queued
      for it is the decodes of completed frames plus a prefix of the current one; and the anomaly log is that
      log, short of at most its last signal. */
  lemma {:induction false} PipelineConservation(signals: map<string, SignalDef>, steps: seq<PipelineStep>)
    requires IsRun(signals, EMPTY, steps)
    ensures var p := After(signals, EMPTY, steps);
            && p.arrived == FramesOf(p.completed) + Current(p.pc) + p.frames
            && (forall c :: c in p.completed ==> IsDecodeOf(signals, signals.Keys, c.0, c.1))
            && SignalsOf(p.completed) <= p.telemetryOut + p.telemetry
            && (p.pc.Pushing? ==> p.telemetryOut + p.telemetry <= SignalsOf(p.completed) + p.pc.decoded)
            && (!p.pc.Pushing? ==> p.telemetryOut + p.telemetry == SignalsOf(p.completed))
            && p.anomalyOut + p.anomaly <= p.telemetryOut + p.telemetry
            && |p.telemetryOut + p.telemetry| <= |p.anomalyOut + p.anomaly| + 1
            && (!p.pc.Pushing? ==> p.anomalyOut + p.anomaly == p.telemetryOut + p.telemetry)
  {
    hide IsDecodeOf;
    assert Conserved(signals, EMPTY);
    RunConserves(signals, EMPTY, steps);
    var p := After(signals, EMPTY, steps);
    assert p.TelemetryLog() == p.telemetryOut + p.telemetry && p.AnomalyLog() == p.anomalyOut + p.anomaly;
    if p.pc.Pushing? {
      PrefixLogs(SignalsOf(p.completed), p.pc.decoded, p.pc.next, if p.pc.half then 1 else 0);
    }
  }

  lemma PrefixLogs<T>(done: seq<T>, current: seq<T>, n: nat, ahead: nat)
    requires n + ahead <= |current|
    ensures done <= done + current[..n] <= done + current[..n + ahead] <= done + current
  {
  }

  // ----------------------------------------------------------------------- completion

  lemma {:induction false} DecodeExists(signals: map<string, SignalDef>, names: set<string>, frame: CanFrame)
    returns (results: seq<DecodedSignal>)
    requires Decodable(signals, frame.canId) && names <= signals.Keys
    ensures IsDecodeOf(signals, names, frame, results)
  {
    if names == {} {
      results := [];
    } else {
      var name :| name in names;
      results := DecodeExists(signals, names - {name}, frame);
      DecodeOneMore(signals, names - {name}, frame, results, name);
      assert names - {name} + {name} == names;
      if signals[name].canId == frame.canId {
        results := results + [Decoded(name, signals[name], frame)];
      }
    }
  }

  lemma {:induction false} RunAppend(
    signals: map<string, SignalDef>, p: Pipeline, a: seq<PipelineStep>, b: seq<PipelineStep>)
    requires IsRun(signals, p, a) && IsRun(signals, After(signals, p, a), b)
    ensures IsRun(signals, p, a + b) && After(signals, p, a + b) == After(signals, After(signals, p, a), b)
    decreases a
  {
    if a == [] {
      assert a + b == b;
    } else {
      assert (a + b)[0] == a[0] && (a + b)[1..] == a[1..] + b;
      RunAppend(signals, Step(signals, p, a[0]), a[1..], b);
    }
  }

  lemma RunOne(signals: map<string, SignalDef>, p: Pipeline, s: PipelineStep)
    requires CanStep(signals, p, s)
    ensures IsRun(signals, p, [s]) && After(signals, p, [s]) == Step(signals, p, s)
  {
    assert [s][1..] == [];
  }

  /** Steps of the decoder that take it from where it is in a frame to the end of that frame. */
  lemma {:induction false} FinishFrame(signals: map<string, SignalDef>, p: Pipeline) returns (more: seq<PipelineStep>)
    requires p.pc.Pushing? && p.pc.next + (if p.pc.half then 1 else 0) <= |p.pc.decoded|
    ensures IsRun(signals, p, more)
    ensures var after := After(signals, p, more);
            && after.pc == AtHead && after.completed == p.completed + [(p.pc.frame, p.pc.decoded)]
            && after.frames == p.frames && after.arrived == p.arrived && after.telemetryOut == p.telemetryOut
    decreases |p.pc.decoded| - p.pc.next, if p.pc.half then 0 else 1
  {
    hide IsRun, After;
    var s := if p.pc.next == |p.pc.decoded| then FrameDone else if p.pc.half then PushAnomaly else PushTelemetry;
    RunOne(signals, p, s);
    more := [s];
    if s != FrameDone {
      var rest := FinishFrame(signals, Step(signals, p, s));
      RunAppend(signals, p, [s], rest);
      more := [s] + rest;
    }
  }

  /** Steps of the decoder that take it through all queued frames. */
  lemma {:induction false} FinishQueue(signals: map<string, SignalDef>, p: Pipeline) returns (more: seq<PipelineStep>)
    requires p.pc == AtHead && forall f :: f in p.frames ==> Decodable(signals, f.canId)
    ensures IsRun(signals, p, more)
    ensures var after := After(signals, p, more);
            && after.pc == AtHead && after.frames == [] && after.arrived == p.arrived
            && after.telemetryOut == p.telemetryOut && p.completed <= after.completed
    decreases |p.frames|
  {
    hide IsRun, After, IsDecodeOf, Decodable;
    if p.frames == [] {
      more := [];
      NoSteps(signals, p);
    } else {
      var decoded := DecodeExists(signals, signals.Keys, p.frames[0]);
      RunOne(signals, p, DecodePop(decoded));
      var p1 := Step(signals, p, DecodePop(decoded));
      var frame := FinishFrame(signals, p1);
      var p2 := After(signals, p1, frame);
      var rest := FinishQueue(signals, p2);
      RunAppend(signals, p1, frame, rest);
      RunAppend(signals, p, [DecodePop(decoded)], frame + rest);
      more := [DecodePop(decoded)] + (frame + rest);
    }
  }

  lemma NoSteps(signals: map<string, SignalDef>, p: Pipeline)
    ensures IsRun(signals, p, []) && After(signals, p, []) == p
  {
  }

  /** From every reachable state in which the decode loop has not stopped, it can decode every frame that arrived:
      a run of its own steps ends with nothing queued, both consumers having been sent all signals of all frames. */
  lemma {:induction false} EveryFrameCanBeDecoded(signals: map<string, SignalDef>, steps: seq<PipelineStep>)
    returns (more: seq<PipelineStep>)
    requires IsRun(signals, EMPTY, steps)
    requires var p := After(signals, EMPTY, steps);
             !p.pc.Stopped? && forall f :: f in p.frames ==> Decodable(signals, f.canId)
    ensures IsRun(signals, After(signals, EMPTY, steps), more)
    ensures var p := After(signals, EMPTY, steps);
            var after := After(signals, p, more);
            && FramesOf(after.completed) == p.arrived && p.completed <= after.completed
            && (forall c :: c in after.completed ==> IsDecodeOf(signals, signals.Keys, c.0, c.1))
            && after.telemetryOut + after.telemetry == SignalsOf(after.completed)
            && after.anomalyOut + after.anomaly == SignalsOf(after.completed)
            && after.telemetryOut == p.telemetryOut && after.arrived == p.arrived
  {
    hide IsRun, After, IsDecodeOf, Decodable, SignalsOf, FramesOf;
    assert Conserved(signals, EMPTY) by {
      NothingYet(signals);
    }
    RunConserves(signals, EMPTY, steps);
    var p := After(signals, EMPTY, steps);
    more := [];
    NoSteps(signals, p);
    if p.pc.Pushing? {
      more := FinishFrame(signals, p);
    }
    var p1 := After(signals, p, more);
    var rest := FinishQueue(signals, p1);
    RunAppend(signals, p, more, rest);
    RunConserves(signals, p, more + rest);
    more := more + rest;
    var after := After(signals, p, more);
    assert FramesOf(after.completed) + [] + [] == FramesOf(after.completed);
    assert after.TelemetryLog() == after.telemetryOut + after.telemetry;
    assert after.AnomalyLog() == after.anomalyOut + after.anomaly;
    assert SignalsOf(after.completed) + [] == SignalsOf(after.completed);
  }

  lemma NothingYet(signals: map<string, SignalDef>)
    ensures Conserved(signals, EMPTY)
  {
  }

  lemma {:induction false} Deliver(signals: map<string, SignalDef>, p: Pipeline) returns (more: seq<PipelineStep>)
    ensures IsRun(signals, p, more)
    ensures After(signals, p, more)
            == p.(telemetry := [], anomaly := [], telemetryOut := p.TelemetryLog(), anomalyOut := p.AnomalyLog())
    decreases |p.telemetry| + |p.anomaly|
  {
    hide IsRun, After;
    if p.telemetry == [] && p.anomaly == [] {
      more := [];
      NoSteps(signals, p);
    } else {
      var s := if p.telemetry != [] then TelemetryPop else AnomalyPop;
      RunOne(signals, p, s);
      var p' := Step(signals, p, s);
      if s.TelemetryPop? {
        PopKeepsLog(p.telemetryOut, p.telemetry);
      } else {
        PopKeepsLog(p.anomalyOut, p.anomaly);
      }
      assert p'.TelemetryLog() == p.TelemetryLog() && p'.AnomalyLog() == p.AnomalyLog();
      var rest := Deliver(signals, p');
      RunAppend(signals, p, [s], rest);
      more := [s] + rest;
    }
  }

  lemma {:induction false} Arrive(signals: map<string, SignalDef>, frames: seq<CanFrame>)
    returns (steps: seq<PipelineStep>)
    ensures IsRun(signals, EMPTY, steps)
    ensures After(signals, EMPTY, steps) == EMPTY.(frames := frames, arrived := frames)
  {
    hide IsRun, After;
    if frames == [] {
      steps := [];
      NoSteps(signals, EMPTY);
    } else {
      var n := |frames| - 1;
      var before := Arrive(signals, frames[..n]);
      RunOne(signals, After(signals, EMPTY, before), ReaderPush(frames[n]));
      RunAppend(signals, EMPTY, before, [ReaderPush(frames[n])]);
      steps := before + [ReaderPush(frames[n])];
      assert frames[..n] + [frames[n]] == frames;
    }
  }

  /** Whatever frames arrive, the pipeline can bring them through: there is a run in which they arrive and both
      consumers receive exactly their decodes, frame by frame in the order of arrival. */
  lemma {:induction false} AnyFramesCanBeDelivered(signals: map<string, SignalDef>, frames: seq<CanFrame>)
    returns (steps: seq<PipelineStep>)
    requires forall f :: f in frames ==> Decodable(signals, f.canId)
    ensures IsRun(signals, EMPTY, steps)
    ensures var after := After(signals, EMPTY, steps);
            && after.arrived == frames && FramesOf(after.completed) == frames
            && (forall c :: c in after.completed ==> IsDecodeOf(signals, signals.Keys, c.0, c.1))
            && after.telemetryOut == SignalsOf(after.completed) && after.telemetry == []
            && after.anomalyOut == SignalsOf(after.completed) && after.anomaly == []
  {
    hide IsRun, After, IsDecodeOf, Decodable, SignalsOf, FramesOf;
    var a := Arrive(signals, frames);
    var b := EveryFrameCanBeDecoded(signals, a);
    RunAppend(signals, EMPTY, a, b);
    var c := Deliver(signals, After(signals, EMPTY, a + b));
    RunAppend(signals, EMPTY, a + b, c);
    steps := a + b + c;
  }
}
