/** From the JSON of a command to the CAN bus and the OTA queue, in the terms of the wire alone. */
module CommandWire {
  import opened Wrappers
  import opened Json
  import opened Commands
  import opened CommandHandling
  import opened RedeliveryGuard

  // ------------------------------------------------------------------------ the wire

  /** JSON that is a command: an object with a string "type" and, if there is one, a string "correlation_id". */
  predicate IsCommand(j: Json) {
    && j.Object?
    && "type" in j.fields && j.fields["type"].String?
    && ("correlation_id" in j.fields ==> j.fields["correlation_id"].String?)
  }

  function IdOf(j: Json): string
    requires IsCommand(j)
  {
    if "correlation_id" in j.fields then j.fields["correlation_id"].s else ""
  }

  function PayloadOf(j: Json): Json
    requires IsCommand(j)
  {
    if "payload" in j.fields then j.fields["payload"] else Object(map[])
  }

  /** What a command does: the CAN frame it attempts to send, or the update it hands over. */
  function Meaning(j: Json): seq<Effect>
    requires IsCommand(j)
  {
    var kind := j.fields["type"].s;
    if kind == "DOOR_LOCK" then [CanWrite(0x300)]
    else if kind == "DOOR_UNLOCK" then [CanWrite(0x301)]
    else if kind == "ENGINE_START" then [CanWrite(0x302)]
    else if kind == "HORN_LIGHT" then [CanWrite(0x303)]
    else if kind == "OTA_TRIGGER" then [OtaPush(Command(OTA_TRIGGER, IdOf(j), PayloadOf(j)))]
    else []
  }

  /** The message counts as a command: it is one, and did not come on the diagnosis topic. */
  predicate Obeyed(msg: Message, diagnosisTopic: string) {
    msg.topic != diagnosisTopic && IsCommand(msg.payload)
  }

  /** What a stream of messages does if every command in it is obeyed. */
  function Meanings(msgs: seq<Message>, diagnosisTopic: string): seq<Effect> {
    if msgs == [] then []
    else
      var last := msgs[|msgs| - 1];
      Meanings(msgs[..|msgs| - 1], diagnosisTopic)
      + if Obeyed(last, diagnosisTopic) then Meaning(last.payload) else []
  }

  /** No two commands of the stream carry the same id. */
  ghost predicate IdsDiffer(msgs: seq<Message>, diagnosisTopic: string) {
    forall i, j :: 0 <= i < j < |msgs| && Obeyed(msgs[i], diagnosisTopic) && Obeyed(msgs[j], diagnosisTopic)
      ==> IdOf(msgs[i].payload) != IdOf(msgs[j].payload)
  }

  // ------------------------------------------------------------------- single messages

  /** Parsing keeps exactly the commands, with their ids and payloads, and their effect is their meaning. */
  lemma ParsingMeans(j: Json)
    ensures ParseCommand(j).Some? <==> IsCommand(j)
    ensures IsCommand(j) ==>
              var cmd := ParseCommand(j).value;
              cmd.correlationId == IdOf(j) && cmd.payload == PayloadOf(j) && EffectOf(cmd) == Meaning(j)
  {
    if IsCommand(j) {
      KnownTypes(j.fields["type"].s);
    }
  }

  lemma KnownTypes(kind: string)
    ensures kind in TYPE_MAP
            <==> kind in {"DOOR_LOCK", "DOOR_UNLOCK", "ENGINE_START", "HORN_LIGHT", "OTA_TRIGGER"}
  {
  }

  // ------------------------------------------------------------------------- streams

  lemma {:induction false} CommandOrigin(msgs: seq<Message>, diagnosisTopic: string, k: nat) returns (i: nat)
    requires k < |CommandsIn(msgs, diagnosisTopic)|
    ensures i < |msgs| && Obeyed(msgs[i], diagnosisTopic)
    ensures CommandsIn(msgs, diagnosisTopic)[k].correlationId == IdOf(msgs[i].payload)
  {
    hide ParseCommand;
    var n := |msgs| - 1;
    ParsingMeans(msgs[n].payload);
    if k < |CommandsIn(msgs[..n], diagnosisTopic)| {
      i := CommandOrigin(msgs[..n], diagnosisTopic, k);
    } else {
      i := n;
    }
  }

  lemma {:induction false} DifferentIdsAreDistinct(msgs: seq<Message>, diagnosisTopic: string)
    requires IdsDiffer(msgs, diagnosisTopic)
    ensures Distinct(CommandsIn(msgs, diagnosisTopic))
  {
    if msgs != [] {
      hide ParseCommand;
      var n := |msgs| - 1;
      var before := CommandsIn(msgs[..n], diagnosisTopic);
      ParsingMeans(msgs[n].payload);
      DifferentIdsAreDistinct(msgs[..n], diagnosisTopic);
      if Obeyed(msgs[n], diagnosisTopic) {
        forall k | 0 <= k < |before|
          ensures before[k].correlationId != IdOf(msgs[n].payload)
        {
          var i := CommandOrigin(msgs[..n], diagnosisTopic, k);
        }
      }
    }
  }

  lemma {:induction false} EffectsAreMeanings(msgs: seq<Message>, diagnosisTopic: string)
    ensures EffectsOf(CommandsIn(msgs, diagnosisTopic)) == Meanings(msgs, diagnosisTopic)
  {
    if msgs != [] {
      hide ParseCommand, EffectOf, Meaning;
      var n := |msgs| - 1;
      var before := CommandsIn(msgs[..n], diagnosisTopic);
      ParsingMeans(msgs[n].payload);
      EffectsAreMeanings(msgs[..n], diagnosisTopic);
      var cmd := ParseCommand(msgs[n].payload);
      if Obeyed(msgs[n], diagnosisTopic) {
        assert CommandsIn(msgs, diagnosisTopic) == before + [cmd.value];
        assert (before + [cmd.value])[..|before|] == before;
      } else {
        assert CommandsIn(msgs, diagnosisTopic) == before;
      }
    }
  }

  /** The ids of the CAN frames among some effects, and the commands handed over. */
  function Frames(effects: seq<Effect>): seq<nat> {
    if effects == [] then []
    else if effects[0].CanWrite? then [effects[0].canId] + Frames(effects[1..])
    else Frames(effects[1..])
  }

  function Updates(effects: seq<Effect>): seq<Command> {
    if effects == [] then []
    else if effects[0].OtaPush? then [effects[0].cmd] + Updates(effects[1..])
    else Updates(effects[1..])
  }

  lemma {:induction false} FramesAreWrites(effects: seq<Effect>)
    ensures Frames(effects) == CanWrites(effects) && Updates(effects) == OtaPushes(effects)
  {
    if effects != [] {
      FramesAreWrites(effects[1..]);
      assert effects == [effects[0]] + effects[1..];
      WritesAppend([effects[0]], effects[1..]);
      PushesAppend([effects[0]], effects[1..]);
      assert [effects[0]][..0] == [];
    }
  }

  /** A handler that has received nothing yet, after a run over any messages whose commands carry different ids:
      the CAN writes it attempted and the updates it handed over are those the messages mean, in their order. `e`,
      `q` and `a` are its effects, its OTA queue and its attempted writes after the run. */
  lemma RunObeysTheWire(
    msgs: seq<Message>, diagnosisTopic: string,
    q0: seq<Command>, a0: seq<nat>, e: seq<Effect>, q: seq<Command>, a: seq<nat>)
    requires IdsDiffer(msgs, diagnosisTopic)
    requires e == EffectsOf(Guard(CommandsIn(msgs, diagnosisTopic)).accepted) && Sent([], q0, a0, e, q, a)
    ensures q == q0 + Updates(Meanings(msgs, diagnosisTopic))
    ensures a == a0 + Frames(Meanings(msgs, diagnosisTopic))
  {
    hide Guard, CommandsIn, EffectsOf, Meanings;
    DifferentIdsAreDistinct(msgs, diagnosisTopic);
    DistinctIdsAreAccepted(CommandsIn(msgs, diagnosisTopic));
    EffectsAreMeanings(msgs, diagnosisTopic);
    FramesAreWrites(e);
    assert e[0..] == e;
  }
}
