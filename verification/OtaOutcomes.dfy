/** What one OTA command reports and leaves on the disk, condition by condition, and when updates get installed. */
module OtaOutcomes {
  import opened Wrappers
  import opened Sequences
  import opened Json
  import opened Commands
  import opened Sha256Check
  import opened OtaAgency
  import opened OtaSafety

  // ------------------------------------------------------------- conditions, by themselves

  predicate HasManifest(p: Json) {
    && p.Object?
    && "url" in p.fields && p.fields["url"].String?
    && "sha256" in p.fields && p.fields["sha256"].String?
    && ("version" in p.fields ==> p.fields["version"].String?)
  }

  function StatedVersion(p: Json): string
    requires HasManifest(p)
  {
    if "version" in p.fields then p.fields["version"].s else "unknown"
  }

  predicate Completes(plan: CopyPlan) {
    plan.Writes? && plan.completes
  }

  predicate Arrives(d: Download) {
    d.Received? && d.ok
  }

  /** What was received, in the order in which it came. */
  function ReceivedImage(d: Download): Image {
    if d.Received? then Flatten(d.chunks) else []
  }

  ghost predicate HasDigest(hash: Hash, image: Image, p: Json)
    requires HasManifest(p)
  {
    p.fields["sha256"].s == Hex(hash(image))
  }

  // --------------------------------------------------------------------- single stages

  lemma ManifestIsParsed(p: Json)
    ensures ParseManifest(p).Some? <==> HasManifest(p)
    ensures HasManifest(p) ==>
              ParseManifest(p) == Some(Manifest(p.fields["url"].s, p.fields["sha256"].s, StatedVersion(p)))
  {
  }

  lemma {:induction false} AppendsEnd(sofar: Image, chunks: seq<Image>)
    ensures var r := Appends(sofar, chunks); r[|r| - 1] == sofar + Flatten(chunks)
    decreases |chunks|
  {
    if chunks == [] {
      assert Flatten(chunks) == [];
    } else {
      AppendsEnd(sofar + chunks[0], chunks[1..]);
      FlattenCons(chunks);
      assert sofar + chunks[0] + Flatten(chunks[1..]) == sofar + (chunks[0] + Flatten(chunks[1..]));
    }
  }

  lemma DownloadLeaves(files: Files, d: Download)
    ensures Last(files, DownloadTrace(files, d))
            == if d.NotStarted? then files else files[Firmware := ReceivedImage(d)]
  {
    hide Appends, Flatten;
    if d.Received? {
      AppendsEnd([], d.chunks);
      assert [] + Flatten(d.chunks) == Flatten(d.chunks);
    }
  }

  /** A copy that opened its target leaves a prefix of the source there, whatever its writes, and a torn one can
      leave any prefix. */
  lemma {:induction false} GrowthIsPrefixes(source: Image, at: nat, pieces: seq<nat>, completes: bool)
    requires at <= |source|
    ensures forall image :: image in Growth(source, at, pieces, completes) ==> image <= source
    decreases |pieces|
  {
    if pieces != [] {
      GrowthIsPrefixes(source, AtMost(at + pieces[0], |source|), pieces[1..], completes);
    }
  }

  lemma TornCopyLeaves(files: Files, src: Path, dst: Path, plan: CopyPlan, n: nat)
    requires src in files && src != dst && plan.Writes? && n <= |files[src]|
    ensures var after := Last(files, CopyTrace(files, src, dst, plan)); dst in after && after[dst] <= files[src]
    ensures Last(files, CopyTrace(files, src, dst, Writes([n], false))) == files[dst := files[src][..n]]
  {
    hide Growth;
    GrowthIsPrefixes(files[src], 0, plan.pieces, plan.completes);
    var own := Growth(files[src], 0, plan.pieces, plan.completes);
    assert own[|own| - 1] in own;
    GrowthTail(files[src], 0, [n], false);
    GrowthEnd(files[src], n, false);
    assert [n][1..] == [];
    var all := Growth(files[src], 0, [n], false);
    assert all[|all| - 1] == all[1..][|all| - 2] == files[src][..n];
  }

  lemma CopyLeaves(files: Files, src: Path, dst: Path, plan: CopyPlan)
    requires src != dst
    ensures CopyOk(files, src, plan) <==> src in files && Completes(plan)
    ensures src in files && Completes(plan) ==>
              Last(files, CopyTrace(files, src, dst, plan)) == files[dst := files[src]]
    ensures Last(files, CopyTrace(files, src, dst, plan)) - {dst} == files - {dst}
    ensures dst in files ==> dst in Last(files, CopyTrace(files, src, dst, plan))
  {
    hide Growth;
    CopyTraceParts(files, src, dst, plan);
  }

  // ------------------------------------------------------------------- the decision table

  /** The statuses up to the one at this progress. */
  function Reported(id: string, version: string, progress: nat): seq<Status> {
    [Status(id, MANIFEST_RECEIVED, version, "", 0)]
    + (if progress >= 10 then [Status(id, DOWNLOADING, version, "", 10)] else [])
    + (if progress >= 50 then [Status(id, VERIFYING, version, "", 50)] else [])
    + (if progress >= 75 then [Status(id, INSTALLING, version, "", 75)] else [])
  }

  /** The word of a verdict, in full. */
  lemma WordsInFull(cmd: Command, v: Verdict)
    ensures var id, version := cmd.correlationId, Version(cmd);
            Word(cmd, v)
            == match v
               case BadManifest => [Status(id, FAILED, "", "Invalid manifest JSON", 0)]
               case NotReady => Reported(id, version, 0) + [Status(id, FAILED, version, "Preconditions not met", 0)]
               case NotDownloaded => Reported(id, version, 10) + [Status(id, FAILED, version, "Download failed", 0)]
               case Rejected =>
                 Reported(id, version, 50) + [Status(id, FAILED, version, "SHA256 mismatch — firmware rejected", 0)]
               case NotBackedUp =>
                 Reported(id, version, 50) + [Status(id, FAILED, version, "Backup failed — OTA aborted", 0)]
               case FlashDone => Reported(id, version, 75) + [Status(id, COMPLETE, version, "", 100)]
               case _ =>
                 Reported(id, version, 75)
                 + [Status(id, ROLLED_BACK, version, "Flash failed — rolled back to previous firmware", 0)]
  {
    hide Version;
    PrefixInFull(cmd.correlationId, Version(cmd), Steps(v));
  }

  lemma PrefixInFull(id: string, version: string, n: nat)
    requires n <= 4
    ensures Progress(id, version)[..n]
            == if n == 0 then [] else Reported(id, version, if n == 1 then 0 else if n == 2 then 10
                                                            else if n == 3 then 50 else 75)
  {
  }

  /** Nothing is wrong up to and including the digest. */
  ghost predicate Verifies(hash: Hash, job: Job) {
    && HasManifest(job.cmd.payload)
    && job.env.preconditionsMet
    && Arrives(job.env.download)
    && job.env.readable && HasDigest(hash, ReceivedImage(job.env.download), job.cmd.payload)
  }

  /** The disk with the new firmware in place of the download, and with the old image backed up as well. */
  function WithFirmware(files: Files, job: Job): Files {
    files[Firmware := ReceivedImage(job.env.download)]
  }

  function WithBackup(files: Files, job: Job): Files
    requires Installed in files
  {
    WithFirmware(files, job)[Backup := files[Installed]]
  }

  lemma SameElsewhere(a: Files, b: Files, p: Path, q: Path)
    requires a - {p} == b - {p} && q != p
    ensures (q in a <==> q in b) && (q in a ==> a[q] == b[q])
  {
    var rest := a - {p};
    assert q in a <==> q in rest;
    assert q in a ==> rest[q] == a[q];
  }

  lemma SameFiles(a: Files, b: Files)
    requires SameAt(a, b, Firmware) && SameAt(a, b, Backup) && SameAt(a, b, Installed)
    ensures a == b
  {
    forall p | p in a
      ensures p in b && a[p] == b[p]
    {
      assert p == Firmware || p == Backup || p == Installed;
    }
    forall p | p in b
      ensures p in a
    {
      assert p == Firmware || p == Backup || p == Installed;
    }
  }

  /** The stages from the backup on, for a disk d that holds the new firmware. */
  lemma InstallStages(d: Files, env: Env)
    requires Firmware in d && Installed in d && Completes(env.backup)
    ensures BackedUp(d, env) == d[Backup := d[Installed]]
    ensures JudgeBackedUp(BackedUp(d, env), env)
            == if Completes(env.flash) then FlashDone
               else if Completes(env.rollback) then RolledBack else RollbackFailed
    ensures var b := d[Backup := d[Installed]];
            var v := JudgeBackedUp(b, env);
            var after := Last(b, InstallTrace(b, env, v));
            match v
            case FlashDone => after == b[Installed := d[Firmware]]
            case RolledBack => after == b
            case _ => Installed in after && after - {Installed} == b - {Installed}
  {
    hide CopyTrace, CopyOk, Last;
    CopyLeaves(d, Installed, Backup, env.backup);
    var b := BackedUp(d, env);
    assert b[Firmware] == d[Firmware] && b[Installed] == d[Installed];
    CopyLeaves(b, Firmware, Installed, env.flash);
    var f := Flashed(b, env);
    assert f - {Installed} == b - {Installed};
    SameElsewhere(f, b, Installed, Backup);
    CopyLeaves(f, Backup, Installed, env.rollback);
    var v := JudgeBackedUp(b, env);
    if v == FlashDone {
      assert InstallTrace(b, env, v) == FlashTrace(b, env);
    } else {
      LastAppend(b, FlashTrace(b, env), RollbackTrace(f, env));
    }
    if v == RolledBack {
      SameElsewhere(f, b, Installed, Firmware);
      SameFiles(f[Installed := b[Installed]], b);
    }
  }

  /** How far a command gets, by its conditions alone. */
  lemma VerdictIs(hash: Hash, files: Files, job: Job)
    ensures var p, env := job.cmd.payload, job.env;
            Judge(hash, files, job)
            == if !HasManifest(p) then BadManifest
               else if !env.preconditionsMet then NotReady
               else if !Arrives(env.download) then NotDownloaded
               else if !Verifies(hash, job) then Rejected
               else if Installed !in files || !Completes(env.backup) then NotBackedUp
               else if Completes(env.flash) then FlashDone
               else if Completes(env.rollback) then RolledBack else RollbackFailed
  {
    hide CopyTrace, CopyOk, Last, ReceivedImage, DownloadTrace, ParseManifest, JudgeBackedUp, StatedVersion;
    ManifestIsParsed(job.cmd.payload);
    DownloadLeaves(files, job.env.download);
    if Arrives(job.env.download) {
      var d := Downloaded(files, job.env);
      CopyLeaves(d, Installed, Backup, job.env.backup);
      if Installed in d && Completes(job.env.backup) {
        InstallStages(d, job.env);
      }
    }
  }

  /** What a command leaves on the disk. */
  lemma DiskIs(hash: Hash, files: Files, job: Job)
    ensures var after := Last(files, JobTrace(hash, files, job));
            match Judge(hash, files, job)
            case BadManifest => after == files
            case NotReady => after == files
            case NotDownloaded =>
              after == if job.env.download.NotStarted? then files else WithFirmware(files, job)
            case Rejected => after == files - {Firmware}
            case NotBackedUp => after - {Backup} == WithFirmware(files, job) - {Backup}
            case FlashDone =>
              && Installed in files
              && after == WithBackup(files, job)[Installed := ReceivedImage(job.env.download)]
            case RolledBack => Installed in files && after == WithBackup(files, job)
            case RollbackFailed =>
              && Installed in files && Installed in after
              && after - {Installed} == WithBackup(files, job) - {Installed}
  {
    hide CopyTrace, CopyOk, Last, ReceivedImage, DownloadTrace, ParseManifest, JudgeBackedUp, InstallTrace;
    hide HasDigest, HasManifest, DownloadedTrace, Judge;
    VerdictIs(hash, files, job);
    var v, env := Judge(hash, files, job), job.env;
    DownloadLeaves(files, env.download);
    LastOfNothing(files);
    var d := Downloaded(files, env);
    if v == NotDownloaded {
      assert DownloadTrace(files, env.download) + [] == DownloadTrace(files, env.download);
    } else if v !in {BadManifest, NotReady} {
      LastAppend(files, DownloadTrace(files, env.download), DownloadedTrace(d, env, v));
      InstalledDiskIs(d, env, v, files, job);
    }
  }

  lemma InstalledDiskIs(d: Files, env: Env, v: Verdict, files: Files, job: Job)
    requires v in {Rejected, NotBackedUp, FlashDone, RolledBack, RollbackFailed}
    requires env == job.env && d == WithFirmware(files, job)
    requires v in {FlashDone, RolledBack, RollbackFailed} ==>
               && Installed in files && Completes(env.backup)
               && v == if Completes(env.flash) then FlashDone
                       else if Completes(env.rollback) then RolledBack else RollbackFailed
    ensures var after := Last(d, DownloadedTrace(d, env, v));
            match v
            case Rejected => after == files - {Firmware}
            case NotBackedUp => after - {Backup} == d - {Backup}
            case FlashDone => after == WithBackup(files, job)[Installed := ReceivedImage(env.download)]
            case RolledBack => after == WithBackup(files, job)
            case _ => Installed in after && after - {Installed} == WithBackup(files, job) - {Installed}
  {
    hide CopyTrace, CopyOk, Last, ReceivedImage, JudgeBackedUp, InstallTrace;
    if v == Rejected {
      LastOfOne(d, d - {Firmware});
    } else if v == NotBackedUp {
      CopyLeaves(d, Installed, Backup, env.backup);
    } else {
      InstallStages(d, env);
      LastAppend(d, BackupTrace(d, env), InstallTrace(BackedUp(d, env), env, v));
    }
  }

  /** A command, condition by condition: every status it reports and what it leaves on the disk. */
  lemma OutcomeIs(hash: Hash, files: Files, job: Job)
    ensures var p, env, id := job.cmd.payload, job.env, job.cmd.correlationId;
            var word := Word(job.cmd, Judge(hash, files, job));
            var after := Last(files, JobTrace(hash, files, job));
            if !HasManifest(p) then
              word == [Status(id, FAILED, "", "Invalid manifest JSON", 0)] && after == files
            else
              var version := StatedVersion(p);
              if !env.preconditionsMet then
                && word == Reported(id, version, 0) + [Status(id, FAILED, version, "Preconditions not met", 0)]
                && after == files
              else if !Arrives(env.download) then
                && word == Reported(id, version, 10) + [Status(id, FAILED, version, "Download failed", 0)]
                && after == if env.download.NotStarted? then files else WithFirmware(files, job)
              else if !Verifies(hash, job) then
                && word == Reported(id, version, 50)
                           + [Status(id, FAILED, version, "SHA256 mismatch — firmware rejected", 0)]
                && after == files - {Firmware}
              else if Installed !in files || !Completes(env.backup) then
                && word == Reported(id, version, 50)
                           + [Status(id, FAILED, version, "Backup failed — OTA aborted", 0)]
                && after - {Backup} == WithFirmware(files, job) - {Backup}
              else if Completes(env.flash) then
                && word == Reported(id, version, 75) + [Status(id, COMPLETE, version, "", 100)]
                && after == WithBackup(files, job)[Installed := ReceivedImage(env.download)]
              else
                && word == Reported(id, version, 75)
                           + [Status(id, ROLLED_BACK, version, "Flash failed — rolled back to previous firmware", 0)]
                && (Completes(env.rollback) ==> after == WithBackup(files, job))
                && after - {Installed} == WithBackup(files, job) - {Installed}
  {
    hide Judge, JobTrace, Last, Word, Reported, Verifies, WithFirmware, WithBackup;
    ManifestIsParsed(job.cmd.payload);
    VerdictIs(hash, files, job);
    DiskIs(hash, files, job);
    WordsInFull(job.cmd, Judge(hash, files, job));
  }

  // ------------------------------------------------------------------------ in any run

  /** Everything about the command itself goes well. */
  ghost predicate Succeeds(hash: Hash, job: Job) {
    Verifies(hash, job) && Completes(job.env.backup) && Completes(job.env.flash)
  }

  lemma {:induction false} InstalledStays(hash: Hash, files: Files, jobs: seq<Job>, k: nat)
    requires k <= |jobs| && Installed in files
    ensures Installed in DiskBefore(hash, files, jobs, k)
  {
    hide Judge, JobTrace, Last;
    if k > 0 {
      InstalledStays(hash, files, jobs, k - 1);
      StillInstalled(hash, DiskBefore(hash, files, jobs, k - 1), jobs[k - 1]);
    }
  }

  lemma StillInstalled(hash: Hash, files: Files, job: Job)
    requires Installed in files
    ensures Installed in Last(files, JobTrace(hash, files, job))
  {
    hide JobTrace, Last, Judge;
    DiskIs(hash, files, job);
    if Judge(hash, files, job) == NotBackedUp {
      SameElsewhere(Last(files, JobTrace(hash, files, job)), WithFirmware(files, job), Backup, Installed);
    }
  }

  /** Whatever happened before: a command ends with COMPLETE if and only if everything about it goes well, and
      then the new image is installed and the one it replaced is the backup; it ends with ROLLED_BACK if and only
      if only its flash does not complete, and with FAILED in all other cases. */
  lemma UpdateInstallsIff(hash: Hash, files: Files, jobs: seq<Job>, k: nat)
    requires k < |jobs| && Installed in files
    ensures StatusLog(hash, files, jobs, k + 1) != []
    ensures var log := StatusLog(hash, files, jobs, k + 1);
            var last := log[|log| - 1];
            var before, after := DiskBefore(hash, files, jobs, k), DiskBefore(hash, files, jobs, k + 1);
            && last.correlationId == jobs[k].cmd.correlationId
            && (last.state == COMPLETE <==> Succeeds(hash, jobs[k]))
            && (last.state == ROLLED_BACK
                <==> Verifies(hash, jobs[k]) && Completes(jobs[k].env.backup) && !Completes(jobs[k].env.flash))
            && last.state in {COMPLETE, ROLLED_BACK, FAILED}
            && (Succeeds(hash, jobs[k]) ==>
                  && Installed in before && Installed in after && Backup in after
                  && after[Installed] == ReceivedImage(jobs[k].env.download)
                  && after[Backup] == before[Installed])
  {
    hide Judge, JobTrace, Last, Word, Reported, HasManifest, Arrives, HasDigest, Completes;
    var before := DiskBefore(hash, files, jobs, k);
    InstalledStays(hash, files, jobs, k);
    OutcomeIs(hash, before, jobs[k]);
  }
}
