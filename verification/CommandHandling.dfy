/** CommandHandler: parsing, the redelivery guard and routing. */
module CommandHandling {
  import opened Wrappers
  import opened Json
  import opened Commands
  import opened SafeQueueing

  const MAX_SEEN_IDS := 200

  /** An incoming MQTT message. */
  datatype Message = Message(topic: string, payload: Json)

  const TYPE_MAP: map<string, CommandType> :=
    map["DOOR_LOCK" := DOOR_LOCK, "DOOR_UNLOCK" := DOOR_UNLOCK, "ENGINE_START" := ENGINE_START,
        "HORN_LIGHT" := HORN_LIGHT, "OTA_TRIGGER" := OTA_TRIGGER]

  /** None for JSON that does not parse, has no string "type", or has a "correlation_id" that is no string. */
  function ParseCommand(payload: Json): Option<Command> {
    var kind := AtString(payload, "type");
    var id := ValueString(payload, "correlation_id", "");
    if kind.None? || id.None? then None
    else
      Some(Command(if kind.value in TYPE_MAP then TYPE_MAP[kind.value] else UNKNOWN, id.value,
                   ValueJson(payload, "payload")))
  }

  /** What routing a command attempts. */
  datatype Effect = CanWrite(canId: nat) | OtaPush(cmd: Command)

  function CanId(kind: CommandType): Option<nat> {
    match kind
    case DOOR_LOCK => Some(0x300)
    case DOOR_UNLOCK => Some(0x301)
    case ENGINE_START => Some(0x302)
    case HORN_LIGHT => Some(0x303)
    case _ => None
  }

  function EffectOf(cmd: Command): seq<Effect> {
    if cmd.kind == OTA_TRIGGER then [OtaPush(cmd)]
    else if cmd.kind == UNKNOWN then []
    else [CanWrite(CanId(cmd.kind).value)]
  }

  function EffectsOf(cmds: seq<Command>): seq<Effect> {
    if cmds == [] then [] else EffectsOf(cmds[..|cmds| - 1]) + EffectOf(cmds[|cmds| - 1])
  }

  function OtaPushes(effects: seq<Effect>): seq<Command> {
    if effects == [] then []
    else
      var last := effects[|effects| - 1];
      OtaPushes(effects[..|effects| - 1]) + if last.OtaPush? then [last.cmd] else []
  }

  /** The well-formed commands among the messages; diagnoses and malformed messages are passed over. */
  function CommandsIn(msgs: seq<Message>, diagnosisTopic: string): seq<Command> {
    if msgs == [] then []
    else
      var last := msgs[|msgs| - 1];
      var cmd := ParseCommand(last.payload);
      CommandsIn(msgs[..|msgs| - 1], diagnosisTopic)
      + if last.topic == diagnosisTopic || cmd.None? then [] else [cmd.value]
  }

  // ---------------------------------------------------------------------- the guard

  /** The bounded set, after an id was looked up in it. */
  function Remember(seen: set<string>, id: string): set<string> {
    if id in seen then seen
    else (if |seen| >= MAX_SEEN_IDS then {} else seen) + {id}
  }

  datatype Guarded = Guarded(seen: set<string>, accepted: seq<Command>)

  /** The guard run over a stream of commands, from an empty set. */
  function Guard(cmds: seq<Command>): Guarded {
    if cmds == [] then Guarded({}, [])
    else
      var g := Guard(cmds[..|cmds| - 1]);
      var cmd := cmds[|cmds| - 1];
      Guarded(Remember(g.seen, cmd.correlationId),
              if cmd.correlationId in g.seen then g.accepted else g.accepted + [cmd])
  }

  // ------------------------------------------------------------------------ the class

  class CanWriter {
    /** Every write that was attempted, whether it succeeded or not. */
    var attempts: seq<nat>

    constructor ()
      ensures attempts == []
    {
      attempts := [];
    }

    method Write(kind: CommandType, succeeds: bool) returns (ok: bool)
      requires CanId(kind).Some?
      modifies this
      ensures attempts == old(attempts) + [CanId(kind).value] && ok == succeeds
    {
      attempts := attempts + [CanId(kind).value];
      return succeeds;
    }
  }

  function CanWrites(effects: seq<Effect>): seq<nat> {
    if effects == [] then []
    else
      var last := effects[|effects| - 1];
      CanWrites(effects[..|effects| - 1]) + if last.CanWrite? then [last.canId] else []
  }

  /** The effects after `e0` are what was added to the OTA queue and to the attempted writes. */
  ghost predicate Sent(e0: seq<Effect>, q0: seq<Command>, a0: seq<nat>, e: seq<Effect>, q: seq<Command>, a: seq<nat>) {
    && e0 <= e
    && q == q0 + OtaPushes(e[|e0|..])
    && a == a0 + CanWrites(e[|e0|..])
  }

  class CommandHandler {
    const otaQueue: SafeQueue<Command>
    const canWriter: CanWriter
    const diagnosisTopic: string
    var seenIds: set<string>
    /** The well-formed commands received so far, and the effects attempted for them, in order. */
    ghost var received: seq<Command>
    ghost var effects: seq<Effect>

    ghost predicate Valid()
      reads this
    {
      seenIds == Guard(received).seen && effects == EffectsOf(Guard(received).accepted)
    }

    constructor (otaQueue: SafeQueue<Command>, canWriter: CanWriter, uin: string)
      ensures Valid() && received == [] && this.otaQueue == otaQueue && this.canWriter == canWriter
      ensures diagnosisTopic == "sdv/Analytics/to/uin/" + uin + "/diagnosis"
    {
      this.otaQueue, this.canWriter := otaQueue, canWriter;
      diagnosisTopic := "sdv/Analytics/to/uin/" + uin + "/diagnosis";
      seenIds, received, effects := {}, [], [];
    }

    method AlreadySeen(id: string) returns (seen: bool)
      modifies this`seenIds
      ensures seen == (id in old(seenIds)) && seenIds == Remember(old(seenIds), id)
    {
      if id in seenIds {
        return true;
      }
      if |seenIds| >= MAX_SEEN_IDS {
        seenIds := {};
      }
      seenIds := seenIds + {id};
      return false;
    }

    method Route(cmd: Command, writeSucceeds: bool)
      modifies this`effects, otaQueue, canWriter
      ensures effects == old(effects) + EffectOf(cmd)
      ensures otaQueue.queue == old(otaQueue.queue) + OtaPushes(EffectOf(cmd))
      ensures canWriter.attempts == old(canWriter.attempts) + CanWrites(EffectOf(cmd))
      ensures cmd.kind == DOOR_LOCK ==> canWriter.attempts == old(canWriter.attempts) + [0x300]
      ensures cmd.kind == DOOR_UNLOCK ==> canWriter.attempts == old(canWriter.attempts) + [0x301]
      ensures cmd.kind == ENGINE_START ==> canWriter.attempts == old(canWriter.attempts) + [0x302]
      ensures cmd.kind == HORN_LIGHT ==> canWriter.attempts == old(canWriter.attempts) + [0x303]
      ensures cmd.kind == OTA_TRIGGER ==> otaQueue.queue == old(otaQueue.queue) + [cmd]
    {
      match cmd.kind
      case OTA_TRIGGER =>
        otaQueue.Push(cmd);
        effects := effects + [OtaPush(cmd)];
      case UNKNOWN =>
      case _ =>
        var _ := canWriter.Write(cmd.kind, writeSucceeds);
        effects := effects + [CanWrite(CanId(cmd.kind).value)];
    }

    /** One iteration of the consumer loop, for a message that arrived. */
    method Handle(msg: Message, writeSucceeds: bool)
      requires Valid()
      modifies this, otaQueue, canWriter
      ensures Valid() && received == old(received) + CommandsIn([msg], diagnosisTopic)
      ensures Sent(old(effects), old(otaQueue.queue), old(canWriter.attempts),
                   effects, otaQueue.queue, canWriter.attempts)
    {
      assert CommandsIn([msg][..0], diagnosisTopic) == [];
      if msg.topic == diagnosisTopic {
        return;
      }
      var cmd := ParseCommand(msg.payload);
      if cmd.None? {
        return;
      }
      received := received + [cmd.value];
      assert received[..|received| - 1] == old(received);
      var seen := AlreadySeen(cmd.value.correlationId);
      if seen {
        return;
      }
      Route(cmd.value, writeSucceeds);
      ghost var accepted := Guard(received).accepted;
      assert accepted[..|accepted| - 1] == Guard(old(received)).accepted;
      assert effects[|old(effects)|..] == EffectOf(cmd.value);
    }

    /** The consumer loop over the messages that arrive before it is stopped. */
    method Run(msgs: seq<Message>, writesSucceed: seq<bool>)
      requires Valid() && |writesSucceed| == |msgs|
      modifies this, otaQueue, canWriter
      ensures Valid() && received == old(received) + CommandsIn(msgs, diagnosisTopic)
      ensures Sent(old(effects), old(otaQueue.queue), old(canWriter.attempts),
                   effects, otaQueue.queue, canWriter.attempts)
    {
      NothingSent(effects, otaQueue.queue, canWriter.attempts, diagnosisTopic);
      hide CommandsIn, Guard, EffectsOf, Sent;
      for i := 0 to |msgs|
        invariant Valid() && received == old(received) + CommandsIn(msgs[..i], diagnosisTopic)
        invariant Sent(old(effects), old(otaQueue.queue), old(canWriter.attempts),
                       effects, otaQueue.queue, canWriter.attempts)
      {
        ghost var e, q, a := effects, otaQueue.queue, canWriter.attempts;
        Handle(msgs[i], writesSucceed[i]);
        SentTransitive(old(effects), old(otaQueue.queue), old(canWriter.attempts), e, q, a,
                       effects, otaQueue.queue, canWriter.attempts);
        OneMoreMessage(msgs, i, diagnosisTopic);
      }
      assert msgs[..|msgs|] == msgs;
    }
  }

  lemma {:induction false} PushesAppend(a: seq<Effect>, b: seq<Effect>)
    ensures OtaPushes(a + b) == OtaPushes(a) + OtaPushes(b)
  {
    if b == [] {
      assert a + b == a;
    } else {
      var n := |b| - 1;
      assert (a + b)[..|a| + n] == a + b[..n] && (a + b)[|a| + n] == b[n];
      PushesAppend(a, b[..n]);
    }
  }

  lemma {:induction false} WritesAppend(a: seq<Effect>, b: seq<Effect>)
    ensures CanWrites(a + b) == CanWrites(a) + CanWrites(b)
  {
    if b == [] {
      assert a + b == a;
    } else {
      var n := |b| - 1;
      assert (a + b)[..|a| + n] == a + b[..n] && (a + b)[|a| + n] == b[n];
      WritesAppend(a, b[..n]);
    }
  }

  lemma NothingSent(e: seq<Effect>, q: seq<Command>, a: seq<nat>, diagnosisTopic: string)
    ensures Sent(e, q, a, e, q, a) && CommandsIn([], diagnosisTopic) == []
  {
  }

  lemma SentTransitive(
    e0: seq<Effect>, q0: seq<Command>, a0: seq<nat>,
    e1: seq<Effect>, q1: seq<Command>, a1: seq<nat>,
    e2: seq<Effect>, q2: seq<Command>, a2: seq<nat>)
    requires Sent(e0, q0, a0, e1, q1, a1) && Sent(e1, q1, a1, e2, q2, a2)
    ensures Sent(e0, q0, a0, e2, q2, a2)
  {
    hide OtaPushes, CanWrites;
    PushesAppend(e1[|e0|..], e2[|e1|..]);
    WritesAppend(e1[|e0|..], e2[|e1|..]);
    assert e2[|e0|..] == e1[|e0|..] + e2[|e1|..];
  }

  lemma OneMoreMessage(msgs: seq<Message>, i: nat, diagnosisTopic: string)
    requires i < |msgs|
    ensures CommandsIn(msgs[..i + 1], diagnosisTopic)
            == CommandsIn(msgs[..i], diagnosisTopic) + CommandsIn([msgs[i]], diagnosisTopic)
  {
    assert msgs[..i + 1][..i] == msgs[..i];
    assert CommandsIn([msgs[i]][..0], diagnosisTopic) == [];
  }
}
