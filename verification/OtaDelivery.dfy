/** From the command topic to the published statuses: the redelivery guard, the OTA queue and the worker together. */
module OtaDelivery {
  import opened Commands
  import opened CommandHandling
  import opened RedeliveryGuard
  import opened Sha256Check
  import opened OtaAgency
  import opened OtaSafety

  function CommandsOf(jobs: seq<Job>): seq<Command> {
    seq(|jobs|, i requires 0 <= i < |jobs| => jobs[i].cmd)
  }

  /** How many terminal statuses carry this id. */
  function TerminalsOf(statuses: seq<Status>, id: string): nat {
    if statuses == [] then 0
    else
      var last := statuses[|statuses| - 1];
      TerminalsOf(statuses[..|statuses| - 1], id) + if last.correlationId == id && Terminal(last.state) then 1 else 0
  }

  // ------------------------------------------------------------------ the worker's side

  lemma {:induction false} TerminalsOfAppend(a: seq<Status>, b: seq<Status>, id: string)
    ensures TerminalsOf(a + b, id) == TerminalsOf(a, id) + TerminalsOf(b, id)
  {
    if b == [] {
      assert a + b == a;
    } else {
      var n := |b| - 1;
      assert (a + b)[..|a| + n] == a + b[..n];
      TerminalsOfAppend(a, b[..n], id);
    }
  }

  lemma {:induction false} NoneTerminal(word: seq<Status>, id: string)
    requires forall i :: 0 <= i < |word| ==> word[i].correlationId != id || !Terminal(word[i].state)
    ensures TerminalsOf(word, id) == 0
  {
    if word != [] {
      NoneTerminal(word[..|word| - 1], id);
    }
  }

  lemma TerminalsOfWord(cmd: Command, v: Verdict, id: string)
    ensures TerminalsOf(Word(cmd, v), id) == if cmd.correlationId == id then 1 else 0
  {
    hide Word, Terminal;
    WordIsWellFormed(cmd, v);
    var word := Word(cmd, v);
    NoneTerminal(word[..|word| - 1], id);
  }

  /** A run reports one terminal status for each command it executed. */
  lemma {:induction false} TerminalsOfRun(hash: Hash, files: Files, jobs: seq<Job>, k: nat, id: string)
    requires k <= |jobs|
    ensures TerminalsOf(StatusLog(hash, files, jobs, k), id) == Count(CommandsOf(jobs)[..k], id)
  {
    hide VerdictOf, Word, DiskBefore;
    if k > 0 {
      var cmd, v := jobs[k - 1].cmd, VerdictOf(hash, files, jobs, k - 1);
      TerminalsOfRun(hash, files, jobs, k - 1, id);
      TerminalsOfAppend(StatusLog(hash, files, jobs, k - 1), Word(cmd, v), id);
      TerminalsOfWord(cmd, v, id);
      assert CommandsOf(jobs)[..k][..k - 1] == CommandsOf(jobs)[..k - 1];
    }
  }

  // ----------------------------------------------------------------- the handler's side

  /** The OTA commands the handler pushes for what the guard accepts. */
  function Queued(cmds: seq<Command>): seq<Command> {
    OtaPushes(EffectsOf(Guard(cmds).accepted))
  }

  /** Some command with this id is an OTA trigger. */
  ghost predicate Triggers(cmds: seq<Command>, id: string) {
    exists c :: c in cmds && c.kind == OTA_TRIGGER && c.correlationId == id
  }

  lemma TriggersSnoc(cmds: seq<Command>, cmd: Command, id: string)
    ensures Triggers(cmds + [cmd], id) <==> Triggers(cmds, id) || (cmd.kind == OTA_TRIGGER && cmd.correlationId == id)
  {
    assert forall c :: c in cmds + [cmd] <==> c in cmds || c == cmd;
  }

  lemma PushesSnoc(cmds: seq<Command>, cmd: Command)
    ensures OtaPushes(EffectsOf(cmds + [cmd]))
            == OtaPushes(EffectsOf(cmds)) + if cmd.kind == OTA_TRIGGER then [cmd] else []
  {
    hide EffectOf;
    assert (cmds + [cmd])[..|cmds|] == cmds;
    PushesAppend(EffectsOf(cmds), EffectOf(cmd));
    PushesOfOne(cmd);
  }

  lemma PushesOfOne(cmd: Command)
    ensures OtaPushes(EffectOf(cmd)) == if cmd.kind == OTA_TRIGGER then [cmd] else []
  {
    var effects := EffectOf(cmd);
    if effects != [] {
      assert effects[..0] == [];
    }
  }

  /** How often an id is pushed: no more often than it was accepted, and not at all without an OTA trigger. */
  lemma {:induction false} PushesOf(accepted: seq<Command>, id: string)
    ensures Count(OtaPushes(EffectsOf(accepted)), id) <= Count(accepted, id)
    ensures Count(OtaPushes(EffectsOf(accepted)), id) > 0 <==> Triggers(accepted, id)
  {
    if accepted != [] {
      hide EffectsOf, OtaPushes, Triggers;
      var before, cmd := accepted[..|accepted| - 1], accepted[|accepted| - 1];
      assert accepted == before + [cmd];
      PushesOf(before, id);
      PushesSnoc(before, cmd);
      TriggersSnoc(before, cmd, id);
      CountSnoc(OtaPushes(EffectsOf(before)), if cmd.kind == OTA_TRIGGER then [cmd] else [], id);
    }
  }

  lemma CountSnoc(cmds: seq<Command>, more: seq<Command>, id: string)
    requires |more| <= 1
    ensures Count(cmds + more, id)
            == Count(cmds, id) + if more != [] && more[0].correlationId == id then 1 else 0
  {
    if more == [] {
      assert cmds + more == cmds;
    } else {
      assert (cmds + more)[..|cmds|] == cmds;
    }
  }

  lemma {:induction false} CountOfDistinct(cmds: seq<Command>, id: string)
    requires Distinct(cmds)
    ensures Count(cmds, id) <= if id in IdsOf(cmds) then 1 else 0
  {
    if cmds != [] {
      var before, cmd := cmds[..|cmds| - 1], cmds[|cmds| - 1];
      assert cmds == before + [cmd];
      IdsOfSnoc(before, cmd);
      NotAmong(before, cmd);
      CountOfDistinct(before, id);
    }
  }

  lemma {:induction false} CountOfPrefix(cmds: seq<Command>, k: nat, id: string)
    requires k <= |cmds|
    ensures Count(cmds[..k], id) <= Count(cmds, id)
  {
    if k < |cmds| {
      assert cmds[..|cmds| - 1][..k] == cmds[..k];
      CountOfPrefix(cmds[..|cmds| - 1], k, id);
    } else {
      assert cmds[..k] == cmds;
    }
  }

  // ------------------------------------------------------------------------- both together

  /** Whatever is received, a worker that takes its commands from the OTA queue reports, at any time, at most
      ceil(k / 200) terminal statuses for one id after k accepted commands. */
  lemma StatusesAreBounded(
    cmds: seq<Command>, hash: Hash, files: Files, jobs: seq<Job>, id: string)
    requires CommandsOf(jobs) <= Queued(cmds)
    ensures TerminalsOf(StatusLog(hash, files, jobs, |jobs|), id)
            <= (|Guard(cmds).accepted| + 199) / 200
  {
    hide Guard, EffectsOf, OtaPushes, StatusLog, TerminalsOf;
    TerminalsOfRun(hash, files, jobs, |jobs|, id);
    assert CommandsOf(jobs)[..|jobs|] == CommandsOf(jobs);
    assert Queued(cmds)[..|jobs|] == CommandsOf(jobs);
    CountOfPrefix(Queued(cmds), |jobs|, id);
    PushesOf(Guard(cmds).accepted, id);
    ExecutionBound(cmds, id);
  }

  /** Each id is settled once: if the redeliveries are timely, the worker never reports a second terminal status
      for an id, and when it has emptied the queue it has reported one for exactly the ids whose first command
      was an OTA trigger. */
  lemma EachUpdateIsSettledOnce(
    cmds: seq<Command>, hash: Hash, files: Files, jobs: seq<Job>, id: string)
    requires CommandsOf(jobs) <= Queued(cmds)
    ensures RedeliveriesAreTimely(cmds) ==>
              var settled := TerminalsOf(StatusLog(hash, files, jobs, |jobs|), id);
              && settled <= 1
              && (CommandsOf(jobs) == Queued(cmds) ==>
                    (settled == 1 <==> Triggers(KeepFirst(cmds), id)))
  {
    hide Guard, EffectsOf, OtaPushes, StatusLog, TerminalsOf, RedeliveriesAreTimely, KeepFirst;
    if RedeliveriesAreTimely(cmds) {
      ExactlyOnceIff(cmds);
      KeepFirstFacts(cmds);
      TerminalsOfRun(hash, files, jobs, |jobs|, id);
      assert CommandsOf(jobs)[..|jobs|] == CommandsOf(jobs);
      assert Queued(cmds)[..|jobs|] == CommandsOf(jobs);
      CountOfPrefix(Queued(cmds), |jobs|, id);
      PushesOf(KeepFirst(cmds), id);
      CountOfDistinct(KeepFirst(cmds), id);
    }
  }

  /** With at most 200 distinct ids every redelivery is timely. */
  lemma FewIdsAreTimely(cmds: seq<Command>)
    requires |IdsOf(cmds)| <= 200
    ensures RedeliveriesAreTimely(cmds)
  {
    ExactlyOnce(cmds);
    ExactlyOnceIff(cmds);
  }
}
