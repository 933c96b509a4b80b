/** What the bounded redelivery guard guarantees over a whole stream of commands. */
module RedeliveryGuard {
  import opened Wrappers
  import opened Commands
  import opened Json
  import opened CommandHandling

  function IdsOf(cmds: seq<Command>): set<string> {
    set i | 0 <= i < |cmds| :: cmds[i].correlationId
  }

  /** How many of k accepted ids the guard still knows, and where they begin. */
  function Remembered(k: nat): nat {
    if k == 0 then 0 else (k - 1) % MAX_SEEN_IDS + 1
  }

  function EpochStart(k: nat): nat {
    k - Remembered(k)
  }

  /** Two acceptances of one id lie in different blocks of MAX_SEEN_IDS. */
  ghost predicate OncePerBlock(accepted: seq<Command>) {
    forall i, j :: 0 <= i < j < |accepted| && i / MAX_SEEN_IDS == j / MAX_SEEN_IDS
      ==> accepted[i].correlationId != accepted[j].correlationId
  }

  lemma IdsOfSnoc(cmds: seq<Command>, cmd: Command)
    ensures IdsOf(cmds + [cmd]) == IdsOf(cmds) + {cmd.correlationId}
  {
    assert (cmds + [cmd])[|cmds|] == cmd;
    assert forall i :: 0 <= i < |cmds| ==> (cmds + [cmd])[i] == cmds[i];
  }

  /** The set holds exactly the ids accepted since the last multiple of MAX_SEEN_IDS acceptances. */
  ghost predicate EpochInvariant(g: Guarded) {
    var k := |g.accepted|;
    && g.seen == IdsOf(g.accepted[EpochStart(k)..])
    && |g.seen| == Remembered(k)
    && OncePerBlock(g.accepted)
  }

  lemma {:induction false} DedupEpochs(cmds: seq<Command>)
    ensures EpochInvariant(Guard(cmds))
  {
    if cmds != [] {
      var n := |cmds| - 1;
      DedupEpochs(cmds[..n]);
      if cmds[n].correlationId !in Guard(cmds[..n]).seen {
        AcceptOne(Guard(cmds[..n]), cmds[n]);
      } else {
        assert Guard(cmds).accepted == Guard(cmds[..n]).accepted;
      }
    }
  }

  lemma EpochArithmetic(k: nat)
    ensures EpochStart(k) == if k == 0 then 0 else MAX_SEEN_IDS * ((k - 1) / MAX_SEEN_IDS)
    ensures if Remembered(k) >= MAX_SEEN_IDS then Remembered(k + 1) == 1 && EpochStart(k + 1) == k
            else Remembered(k + 1) == Remembered(k) + 1 && EpochStart(k + 1) == EpochStart(k)
    ensures EpochStart(k + 1) == MAX_SEEN_IDS * (k / MAX_SEEN_IDS)
  {
  }

  lemma AcceptOne(g: Guarded, cmd: Command)
    requires EpochInvariant(g) && cmd.correlationId !in g.seen
    ensures EpochInvariant(Guarded(Remember(g.seen, cmd.correlationId), g.accepted + [cmd]))
  {
    hide EpochStart, Remembered, IdsOf, OncePerBlock;
    var k := |g.accepted|;
    var accepted := g.accepted + [cmd];
    EpochArithmetic(k);
    var recent := if |g.seen| >= MAX_SEEN_IDS then [] else g.accepted[EpochStart(k)..];
    assert accepted[EpochStart(k + 1)..] == recent + [cmd];
    IdsOfSnoc(recent, cmd);
    NoIds();
    NoClashInBlock(g, cmd);
  }

  lemma NoIds()
    ensures IdsOf([]) == {}
  {
  }

  lemma NoClashInBlock(g: Guarded, cmd: Command)
    requires EpochInvariant(g) && cmd.correlationId !in g.seen
    ensures OncePerBlock(g.accepted + [cmd])
  {
    var k := |g.accepted|;
    var accepted := g.accepted + [cmd];
    EpochArithmetic(k);
    forall i | 0 <= i < k && i / MAX_SEEN_IDS == k / MAX_SEEN_IDS
      ensures accepted[i].correlationId != cmd.correlationId
    {
      assert i >= EpochStart(k);
      assert g.accepted[EpochStart(k)..][i - EpochStart(k)] == g.accepted[i];
    }
  }

  // ---------------------------------------------------------------- execution counts

  function Count(cmds: seq<Command>, id: string): nat {
    if cmds == [] then 0
    else Count(cmds[..|cmds| - 1], id) + if cmds[|cmds| - 1].correlationId == id then 1 else 0
  }

  /** No id occurs more often than there are blocks, the last of which may be incomplete. */
  lemma {:induction false} CountPerBlock(accepted: seq<Command>, id: string, n: nat)
    requires OncePerBlock(accepted) && n <= |accepted|
    ensures var start := MAX_SEEN_IDS * (n / MAX_SEEN_IDS);
            Count(accepted[..n], id)
            <= n / MAX_SEEN_IDS + if exists i :: start <= i < n && accepted[i].correlationId == id then 1 else 0
  {
    if n > 0 {
      CountPerBlock(accepted, id, n - 1);
      assert accepted[..n][..n - 1] == accepted[..n - 1];
    }
  }

  /** After k accepted commands no id was executed more than ceil(k / 200) times. */
  lemma ExecutionBound(cmds: seq<Command>, id: string)
    ensures var accepted := Guard(cmds).accepted;
            Count(accepted, id) <= (|accepted| + 199) / 200
  {
    DedupEpochs(cmds);
    var accepted := Guard(cmds).accepted;
    CountPerBlock(accepted, id, |accepted|);
    assert accepted[..|accepted|] == accepted;
  }

  /** A redelivered command is suppressed exactly while its id's last acceptance lies in the same block as the
      latest acceptance: the id at the end of a block is forgotten one command later. */
  lemma RedeliveryIsSuppressedIff(cmds: seq<Command>, id: string, p: nat)
    requires LastAt(Guard(cmds).accepted, id, p)
    ensures id in Guard(cmds).seen <==> p / 200 == (|Guard(cmds).accepted| - 1) / 200
  {
    hide Guard, EpochStart, Remembered, IdsOf;
    var accepted := Guard(cmds).accepted;
    DedupEpochs(cmds);
    EpochArithmetic(|accepted|);
    EpochStartBound(|accepted|);
    InTail(accepted, id, p, EpochStart(|accepted|));
  }

  ghost predicate LastAt(cmds: seq<Command>, id: string, p: nat) {
    && p < |cmds| && cmds[p].correlationId == id
    && forall i :: p < i < |cmds| ==> cmds[i].correlationId != id
  }

  lemma EpochStartBound(k: nat)
    ensures 0 <= EpochStart(k) <= k
  {
  }

  lemma InTail(cmds: seq<Command>, id: string, p: nat, s: nat)
    requires LastAt(cmds, id, p) && s <= |cmds|
    ensures id in IdsOf(cmds[s..]) <==> p >= s
  {
    assert forall i :: 0 <= i < |cmds| - s ==> cmds[s..][i] == cmds[s + i];
    if p >= s {
      assert cmds[s..][p - s] == cmds[p];
    }
  }

  // --------------------------------------------------------- exactly-once refinement

  /** The stream with every command but the first of each id dropped. */
  function KeepFirst(cmds: seq<Command>): seq<Command> {
    if cmds == [] then []
    else
      var n := |cmds| - 1;
      var kept := KeepFirst(cmds[..n]);
      if cmds[n].correlationId in IdsOf(cmds[..n]) then kept else kept + [cmds[n]]
  }

  /** While at most 200 distinct ids have appeared, the guard is the unbounded deduplication. */
  lemma {:induction false} ExactlyOnce(cmds: seq<Command>)
    requires |IdsOf(cmds)| <= 200
    ensures Guard(cmds) == Guarded(IdsOf(cmds), KeepFirst(cmds))
    ensures EffectsOf(Guard(cmds).accepted) == EffectsOf(KeepFirst(cmds))
  {
    if cmds != [] {
      var n := |cmds| - 1;
      var id := cmds[n].correlationId;
      assert cmds == cmds[..n] + [cmds[n]];
      IdsOfSnoc(cmds[..n], cmds[n]);
      if id !in IdsOf(cmds[..n]) {
        assert |IdsOf(cmds)| == |IdsOf(cmds[..n])| + 1;
      }
      ExactlyOnce(cmds[..n]);
    }
  }

  /** The condition, on the stream alone, under which the guard loses nothing: each redelivery comes before the
      block of 200 distinct ids in which its id first appeared has been left behind. */
  ghost predicate RedeliveriesAreTimely(cmds: seq<Command>) {
    forall j :: 0 <= j < |cmds| ==> Timely(cmds, j)
  }

  ghost predicate Timely(cmds: seq<Command>, j: nat)
    requires j < |cmds|
  {
    forall p :: 0 <= p < |KeepFirst(cmds[..j])| && KeepFirst(cmds[..j])[p].correlationId == cmds[j].correlationId
      ==> p / 200 == (|KeepFirst(cmds[..j])| - 1) / 200
  }

  ghost predicate Distinct(cmds: seq<Command>) {
    forall i, j :: 0 <= i < j < |cmds| ==> cmds[i].correlationId != cmds[j].correlationId
  }

  lemma {:induction false} KeepFirstFacts(cmds: seq<Command>)
    ensures Distinct(KeepFirst(cmds)) && IdsOf(KeepFirst(cmds)) == IdsOf(cmds)
  {
    if cmds != [] {
      var n := |cmds| - 1;
      var kept := KeepFirst(cmds[..n]);
      KeepFirstFacts(cmds[..n]);
      assert cmds == cmds[..n] + [cmds[n]];
      IdsOfSnoc(cmds[..n], cmds[n]);
      IdsOfSnoc(kept, cmds[n]);
      assert forall i :: 0 <= i < |kept| ==> kept[i].correlationId in IdsOf(kept);
    }
  }

  lemma {:induction false} AcceptedGrows(cmds: seq<Command>, j: nat)
    requires j <= |cmds|
    ensures Guard(cmds[..j]).accepted <= Guard(cmds).accepted
  {
    hide Remember;
    if j < |cmds| {
      var n := |cmds| - 1;
      AcceptedGrows(cmds[..n], j);
      assert cmds[..n][..j] == cmds[..j];
      assert Guard(cmds[..n]).accepted <= Guard(cmds).accepted;
    } else {
      assert cmds[..j] == cmds;
    }
  }

  /** While the guard has agreed with KeepFirst, it treats the next command alike iff that one is timely. */
  lemma NextIsTimelyIff(before: seq<Command>, id: string)
    requires Guard(before).accepted == KeepFirst(before)
    ensures (id in Guard(before).seen <==> id in IdsOf(before))
            <==> forall p :: 0 <= p < |KeepFirst(before)| && KeepFirst(before)[p].correlationId == id
                   ==> p / 200 == (|KeepFirst(before)| - 1) / 200
  {
    hide Guard, KeepFirst;
    var kept := KeepFirst(before);
    KeepFirstFacts(before);
    if p :| 0 <= p < |kept| && kept[p].correlationId == id {
      DistinctLast(kept, id, p);
      RedeliveryIsSuppressedIff(before, id, p);
    } else if id in Guard(before).seen {
      SeenWasAccepted(before, id);
    }
  }

  lemma DistinctLast(cmds: seq<Command>, id: string, p: nat)
    requires Distinct(cmds) && p < |cmds| && cmds[p].correlationId == id
    ensures LastAt(cmds, id, p)
    ensures forall q :: 0 <= q < |cmds| && cmds[q].correlationId == id ==> q == p
  {
  }

  /** An accepted list without repetition is the keep-first list, so once the two differ they stay different. */
  lemma {:induction false} DistinctMeansKeepFirst(cmds: seq<Command>)
    requires Distinct(Guard(cmds).accepted)
    ensures Guard(cmds).accepted == KeepFirst(cmds)
  {
    if cmds != [] {
      var n := |cmds| - 1;
      var before := cmds[..n];
      var id := cmds[n].correlationId;
      AcceptedGrows(cmds, n);
      DistinctMeansKeepFirst(before);
      KeepFirstFacts(before);
      var accepted := Guard(before).accepted;
      if id in Guard(before).seen {
        SeenWasAccepted(before, id);
      } else {
        NotAmong(accepted, cmds[n]);
      }
    }
  }

  lemma NotAmong(cmds: seq<Command>, cmd: Command)
    requires Distinct(cmds + [cmd])
    ensures cmd.correlationId !in IdsOf(cmds)
  {
    var all := cmds + [cmd];
    assert forall i :: 0 <= i < |cmds| ==> cmds[i].correlationId == all[i].correlationId != all[|cmds|].correlationId;
  }

  lemma SeenWasAccepted(cmds: seq<Command>, id: string)
    requires id in Guard(cmds).seen
    ensures id in IdsOf(Guard(cmds).accepted)
  {
    DedupEpochs(cmds);
    var accepted := Guard(cmds).accepted;
    var s := EpochStart(|accepted|);
    var i :| 0 <= i < |accepted| - s && accepted[s..][i].correlationId == id;
    assert accepted[s + i].correlationId == id;
  }

  lemma AgreementContinuesIff(cmds: seq<Command>)
    requires cmds != []
    requires var before := cmds[..|cmds| - 1]; Guard(before).accepted == KeepFirst(before)
    ensures var before, id := cmds[..|cmds| - 1], cmds[|cmds| - 1].correlationId;
            Guard(cmds).accepted == KeepFirst(cmds) <==> (id in Guard(before).seen <==> id in IdsOf(before))
  {
    var before := cmds[..|cmds| - 1];
    assert |KeepFirst(before) + [cmds[|cmds| - 1]]| == |KeepFirst(before)| + 1;
  }

  lemma NeverRecovers(cmds: seq<Command>)
    requires cmds != [] && Guard(cmds).accepted == KeepFirst(cmds)
    ensures var before := cmds[..|cmds| - 1]; Guard(before).accepted == KeepFirst(before)
  {
    AcceptedGrows(cmds, |cmds| - 1);
    KeepFirstFacts(cmds);
    DistinctMeansKeepFirst(cmds[..|cmds| - 1]);
  }

  /** The guard executes each id exactly once, in order of first arrival, if and only if every redelivery is
      timely. */
  lemma {:induction false} ExactlyOnceIff(cmds: seq<Command>)
    ensures Guard(cmds).accepted == KeepFirst(cmds) <==> RedeliveriesAreTimely(cmds)
  {
    if cmds != [] {
      var n := |cmds| - 1;
      var before := cmds[..n];
      ExactlyOnceIff(before);
      assert forall j :: 0 <= j < n ==> before[..j] == cmds[..j];
      assert RedeliveriesAreTimely(cmds) <==> RedeliveriesAreTimely(before) && Timely(cmds, n) by {
        assert forall j :: 0 <= j < n ==> (Timely(cmds, j) <==> Timely(before, j));
      }
      if Guard(before).accepted == KeepFirst(before) {
        NextIsTimelyIff(before, cmds[n].correlationId);
        AgreementContinuesIff(cmds);
      } else if Guard(cmds).accepted == KeepFirst(cmds) {
        NeverRecovers(cmds);
      }
    }
  }

  // ------------------------------------------------------------- nothing suppressed

  /** No id recurs among the commands of its block of 200, nor in the first one after it. */
  ghost predicate NoIdRecurs(cmds: seq<Command>) {
    forall i, j :: 0 <= i < j < |cmds| && i / 200 == (j - 1) / 200
      ==> cmds[i].correlationId != cmds[j].correlationId
  }

  lemma {:induction false} LastOccurrence(cmds: seq<Command>, id: string, i: nat) returns (p: nat)
    requires i < |cmds| && cmds[i].correlationId == id
    ensures i <= p && LastAt(cmds, id, p)
  {
    p := |cmds| - 1;
    if cmds[p].correlationId != id {
      p := LastOccurrence(cmds[..p], id, i);
    }
  }

  /** With everything accepted so far, the next command is suppressed iff its id recurs. */
  lemma NextRecursIff(before: seq<Command>, cmd: Command)
    requires Guard(before).accepted == before
    ensures cmd.correlationId in Guard(before).seen
            <==> exists i :: 0 <= i < |before| && i / 200 == (|before| - 1) / 200
                             && before[i].correlationId == cmd.correlationId
  {
    hide Guard;
    var id := cmd.correlationId;
    if i :| 0 <= i < |before| && before[i].correlationId == id {
      var p := LastOccurrence(before, id, i);
      RedeliveryIsSuppressedIff(before, id, p);
      assert forall q :: 0 <= q < |before| && before[q].correlationId == id ==> q <= p;
    } else if id in Guard(before).seen {
      SeenWasAccepted(before, id);
    }
  }

  lemma {:induction false} AcceptsAtMostAll(cmds: seq<Command>)
    ensures |Guard(cmds).accepted| <= |cmds|
  {
    if cmds != [] {
      AcceptsAtMostAll(cmds[..|cmds| - 1]);
    }
  }

  /** The guard compares ids and not commands, and a command without an id has the id "". It suppresses nothing,
      different commands with one id included, if and only if no id recurs before its block has been left
      behind. */
  lemma {:induction false} NothingIsSuppressedIff(cmds: seq<Command>)
    ensures Guard(cmds).accepted == cmds <==> NoIdRecurs(cmds)
  {
    if cmds != [] {
      hide Remember;
      var n := |cmds| - 1;
      var before := cmds[..n];
      assert cmds == before + [cmds[n]];
      NothingIsSuppressedIff(before);
      AcceptsAtMostAll(before);
      if Guard(before).accepted == before {
        NextRecursIff(before, cmds[n]);
        NoIdRecursSnoc(before, cmds[n]);
      } else {
        assert |Guard(cmds).accepted| == |cmds| ==> Guard(cmds).accepted[..n] == Guard(before).accepted;
        assert NoIdRecurs(cmds) ==> NoIdRecurs(before);
      }
    }
  }

  lemma NoIdRecursSnoc(before: seq<Command>, cmd: Command)
    requires NoIdRecurs(before)
    ensures NoIdRecurs(before + [cmd])
            <==> forall i :: 0 <= i < |before| && i / 200 == (|before| - 1) / 200
                   ==> before[i].correlationId != cmd.correlationId
  {
    var all := before + [cmd];
    assert forall i :: 0 <= i < |before| ==> all[i] == before[i];
    if NoIdRecurs(all) {
      forall i | 0 <= i < |before| && i / 200 == (|before| - 1) / 200
        ensures before[i].correlationId != cmd.correlationId
      {
        assert all[i].correlationId != all[|before|].correlationId;
      }
    }
  }

  /** A command on the wire that has a type and no correlation id. */
  function Anonymous(kind: string): Json {
    Object(map["type" := String(kind)])
  }

  lemma FirstIsSeen(cmd: Command)
    ensures cmd.correlationId in Guard([cmd]).seen
  {
    assert [cmd][..0] == [];
  }

  /** Of two commands without an id, of whatever types, only the first is executed. */
  lemma SecondAnonymousIsDropped(kind: string, kind': string)
    ensures ParseCommand(Anonymous(kind)).Some? && ParseCommand(Anonymous(kind')).Some?
    ensures var first, second := ParseCommand(Anonymous(kind)).value, ParseCommand(Anonymous(kind')).value;
            Guard([first, second]).accepted == [first]
            && EffectsOf(Guard([first, second]).accepted) == EffectOf(first)
  {
    var first, second := ParseCommand(Anonymous(kind)).value, ParseCommand(Anonymous(kind')).value;
    assert first.correlationId == second.correlationId == "";
    assert [] + [first] == [first] && [first] + [second] == [first, second];
    assert [first][..0] == [] && EffectsOf([]) == [];
    OneMoreCommand([], first);
    OneMoreCommand([first], second);
    FirstIsSeen(first);
  }

  // ------------------------------------------------------------------------- messages

  lemma {:induction false} CommandsInAppend(a: seq<Message>, b: seq<Message>, diagnosisTopic: string)
    ensures CommandsIn(a + b, diagnosisTopic) == CommandsIn(a, diagnosisTopic) + CommandsIn(b, diagnosisTopic)
  {
    hide ParseCommand;
    if b == [] {
      assert a + b == a;
    } else {
      var n := |b| - 1;
      assert (a + b)[..|a| + n] == a + b[..n];
      CommandsInAppend(a, b[..n], diagnosisTopic);
    }
  }

  /** Over a stream of messages: diagnoses and malformed messages, wherever they are interleaved, change neither
      what is executed nor what is remembered, and within the capacity each command is executed once. */
  lemma MessageStreamExactlyOnce(a: seq<Message>, noise: seq<Message>, b: seq<Message>, diagnosisTopic: string)
    requires forall m :: m in noise ==> m.topic == diagnosisTopic || ParseCommand(m.payload).None?
    requires |IdsOf(CommandsIn(a + b, diagnosisTopic))| <= 200
    ensures var g := Guard(CommandsIn(a + noise + b, diagnosisTopic));
            && g == Guard(CommandsIn(a + b, diagnosisTopic))
            && EffectsOf(g.accepted) == EffectsOf(KeepFirst(CommandsIn(a + b, diagnosisTopic)))
  {
    CommandsInAppend(a, b, diagnosisTopic);
    CommandsInAppend(a + noise, b, diagnosisTopic);
    CommandsInAppend(a, noise, diagnosisTopic);
    NoCommandsIn(noise, diagnosisTopic);
    assert CommandsIn(a, diagnosisTopic) + [] == CommandsIn(a, diagnosisTopic);
    ExactlyOnce(CommandsIn(a + b, diagnosisTopic));
  }

  lemma {:induction false} NoCommandsIn(noise: seq<Message>, diagnosisTopic: string)
    requires forall m :: m in noise ==> m.topic == diagnosisTopic || ParseCommand(m.payload).None?
    ensures CommandsIn(noise, diagnosisTopic) == []
  {
    if noise != [] {
      NoCommandsIn(noise[..|noise| - 1], diagnosisTopic);
      assert noise[|noise| - 1] in noise;
    }
  }

  /** A well-formed command of a type that is not known takes a slot of the guard and has no effect. */
  lemma UnknownTypesUseASlot(cmds: seq<Command>, payload: Json, kind: string)
    requires AtString(payload, "type") == Some(kind) && kind !in TYPE_MAP
    requires ParseCommand(payload).Some? && ParseCommand(payload).value.correlationId !in Guard(cmds).seen
    ensures var cmd := ParseCommand(payload).value;
            && cmd.correlationId in Guard(cmds + [cmd]).seen
            && |Guard(cmds + [cmd]).accepted| == |Guard(cmds).accepted| + 1
            && EffectsOf(Guard(cmds + [cmd]).accepted) == EffectsOf(Guard(cmds).accepted)
  {
    var cmd := ParseCommand(payload).value;
    OneMoreCommand(cmds, cmd);
    assert (cmds + [cmd])[..|cmds|] == cmds;
    var accepted := Guard(cmds).accepted;
    assert (accepted + [cmd])[..|accepted|] == accepted;
  }

  /** Commands of different known types never have the same effect. */
  lemma DifferentTypesDiffer(p: Json, q: Json)
    requires ParseCommand(p).Some? && ParseCommand(q).Some?
    requires p.fields["type"] != q.fields["type"]
    requires p.fields["type"].s in TYPE_MAP && q.fields["type"].s in TYPE_MAP
    ensures EffectOf(ParseCommand(p).value) != EffectOf(ParseCommand(q).value)
  {
  }

  // -------------------------------------------------------------------- a counterexample

  lemma {:induction false} DistinctIdsAreAccepted(cmds: seq<Command>)
    requires Distinct(cmds)
    ensures Guard(cmds).accepted == cmds
  {
    if cmds != [] {
      var n := |cmds| - 1;
      DistinctIdsAreAccepted(cmds[..n]);
      assert cmds == cmds[..n] + [cmds[n]];
      NotAmong(cmds[..n], cmds[n]);
      if cmds[n].correlationId in Guard(cmds[..n]).seen {
        SeenWasAccepted(cmds[..n], cmds[n].correlationId);
      }
    }
  }

  /** After one command more than the guard can hold, all different, redelivering any but the last executes it
      a second time. */
  lemma ForgottenByTheNext(cmds: seq<Command>, p: nat)
    requires Distinct(cmds) && |cmds| == 201 && p < 200
    ensures Guard(cmds + [cmds[p]]).accepted == cmds + [cmds[p]]
    ensures KeepFirst(cmds + [cmds[p]]) == KeepFirst(cmds)
  {
    hide Guard, KeepFirst;
    DistinctIdsAreAccepted(cmds);
    DistinctLast(cmds, cmds[p].correlationId, p);
    RedeliveryIsSuppressedIff(cmds, cmds[p].correlationId, p);
    OneMoreCommand(cmds, cmds[p]);
    assert cmds[p].correlationId in IdsOf(cmds);
  }

  lemma OneMoreCommand(cmds: seq<Command>, cmd: Command)
    ensures Guard(cmds + [cmd]).accepted
            == if cmd.correlationId in Guard(cmds).seen then Guard(cmds).accepted else Guard(cmds).accepted + [cmd]
    ensures KeepFirst(cmds + [cmd])
            == if cmd.correlationId in IdsOf(cmds) then KeepFirst(cmds) else KeepFirst(cmds) + [cmd]
  {
    assert (cmds + [cmd])[..|cmds|] == cmds;
  }

  /** Engine starts with the ids "", "a", "aa" and so on. */
  function EngineStarts(n: nat): seq<Command> {
    seq(n, i requires 0 <= i < n => Command(ENGINE_START, Letters(i), Object(map[])))
  }

  function Letters(n: nat): (s: string)
    ensures |s| == n
  {
    seq(n, _ => 'a')
  }

  /** The 200th of 201 engine starts, redelivered, is executed twice. */
  lemma TwoHundredthIsForgotten()
    ensures var cmds := EngineStarts(201); Guard(cmds + [cmds[199]]).accepted == cmds + [cmds[199]]
  {
    var cmds := EngineStarts(201);
    assert forall i :: 0 <= i < |cmds| ==> |cmds[i].correlationId| == i;
    ForgottenByTheNext(cmds, 199);
  }
}
