/** What the OTA worker guarantees over whole runs: a good image survives, and the status stream is regular. */
module OtaSafety {
  import opened Wrappers
  import opened Json
  import opened Commands
  import opened Sha256Check
  import opened OtaAgency

  ghost predicate IsGood(files: Files, p: Path, good: set<Image>) {
    p in files && files[p] in good
  }

  ghost predicate SomeGood(files: Files, good: set<Image>) {
    IsGood(files, Installed, good) || IsGood(files, Backup, good)
  }

  predicate SameAt(a: Files, b: Files, p: Path) {
    (p in a <==> p in b) && (p in a ==> a[p] == b[p])
  }

  predicate ReachesBackup(v: Verdict) {
    v in {NotBackedUp, RolledBack, RollbackFailed, FlashDone}
  }

  /** The image a job's verification accepted. */
  ghost function AcceptedBy(hash: Hash, files: Files, job: Job): set<Image> {
    var d := Downloaded(files, job.env);
    if ReachesBackup(Judge(hash, files, job)) && Firmware in d then {d[Firmware]} else {}
  }

  /** The initial firmware and every image that passed verification in the first k jobs. */
  ghost function GoodImages(hash: Hash, files: Files, jobs: seq<Job>, k: nat): set<Image>
    requires k <= |jobs| && Installed in files
  {
    if k == 0 then {files[Installed]}
    else GoodImages(hash, files, jobs, k - 1) + AcceptedBy(hash, DiskBefore(hash, files, jobs, k - 1), jobs[k - 1])
  }

  // ------------------------------------------------------------------ single stages

  lemma CopyKeepsOthers(files: Files, src: Path, dst: Path, plan: CopyPlan, p: Path)
    requires p != dst
    ensures forall s :: s in CopyTrace(files, src, dst, plan) ==> SameAt(files, s, p)
    ensures SameAt(files, Last(files, CopyTrace(files, src, dst, plan)), p)
  {
  }

  lemma CopyDelivers(files: Files, src: Path, dst: Path, plan: CopyPlan)
    requires CopyOk(files, src, plan)
    ensures var last := Last(files, CopyTrace(files, src, dst, plan)); dst in last && last[dst] == files[src]
  {
  }

  lemma DownloadKeepsOthers(files: Files, d: Download, p: Path)
    requires p != Firmware
    ensures forall s :: s in DownloadTrace(files, d) ==> SameAt(files, s, p)
    ensures SameAt(files, Last(files, DownloadTrace(files, d)), p)
  {
  }

  lemma LastIsIn(files: Files, trace: seq<Files>)
    ensures Last(files, trace) == files || Last(files, trace) in trace
  {
  }

  /** A job that stops before the backup touches neither the installed image nor the backup. */
  lemma QuietJob(hash: Hash, files: Files, job: Job, p: Path)
    requires !ReachesBackup(Judge(hash, files, job)) && p != Firmware
    ensures var t := Trace(files, job.env, Judge(hash, files, job));
            (forall s :: s in t ==> SameAt(files, s, p)) && SameAt(files, Last(files, t), p)
  {
    hide DownloadTrace, CopyTrace, Judge;
    DownloadKeepsOthers(files, job.env.download, p);
    var v := Judge(hash, files, job);
    LastIsIn(files, Trace(files, job.env, v));
    if v == Rejected {
      assert SameAt(files, Downloaded(files, job.env) - {Firmware}, p);
    }
  }

  /** From a good backup on: b is the disk after the backup. */
  lemma FlashStage(b: Files, env: Env, good: set<Image>)
    requires IsGood(b, Backup, good)
    ensures var v := JudgeBackedUp(b, env);
            var t := InstallTrace(b, env, v);
            var image := if Firmware in b then {b[Firmware]} else {};
            && (forall s :: s in t ==> IsGood(s, Backup, good))
            && IsGood(Last(b, t), Backup, good)
            && (v == FlashDone ==> IsGood(Last(b, t), Installed, image))
            && (v == RolledBack ==> IsGood(Last(b, t), Installed, {b[Backup]}))
  {
    hide CopyTrace, CopyOk, Last;
    var f := Flashed(b, env);
    var v := JudgeBackedUp(b, env);
    CopyKeepsOthers(b, Firmware, Installed, env.flash, Backup);
    FlashDoneHasFirmware(b, env);
    if v == FlashDone {
      CopyDelivers(b, Firmware, Installed, env.flash);
      assert InstallTrace(b, env, v) == FlashTrace(b, env);
    } else {
      CopyKeepsOthers(f, Backup, Installed, env.rollback, Backup);
      LastAppend(b, FlashTrace(b, env), RollbackTrace(f, env));
      if v == RolledBack {
        CopyDelivers(f, Backup, Installed, env.rollback);
      }
    }
  }

  /** From a verified download on: d is the disk then. */
  lemma BackupStage(hash: Hash, d: Files, manifest: Manifest, env: Env, good: set<Image>)
    requires IsGood(d, Installed, good)
    requires var v := JudgeDownloaded(hash, d, manifest, env); v != Rejected
    ensures var v := JudgeDownloaded(hash, d, manifest, env);
            var t := DownloadedTrace(d, env, v);
            var good' := good + if Firmware in d then {d[Firmware]} else {};
            && (forall s :: s in t ==> SomeGood(s, good'))
            && IsGood(Last(d, t), if v == RollbackFailed then Backup else Installed, good')
            && (v == NotBackedUp ==> SameAt(d, Last(d, t), Installed))
            && (v == RolledBack ==> SameAt(d, Last(d, t), Installed))
            && (v == RollbackFailed ==> Backup in Last(d, t) && Last(d, t)[Backup] == d[Installed])
            && (v == FlashDone ==> Firmware in d && Installed in Last(d, t) && Last(d, t)[Installed] == d[Firmware])
  {
    hide CopyTrace, CopyOk, Last, InstallTrace, JudgeBackedUp;
    var v := JudgeDownloaded(hash, d, manifest, env);
    var b := BackedUp(d, env);
    CopyKeepsOthers(d, Installed, Backup, env.backup, Installed);
    CopyKeepsOthers(d, Installed, Backup, env.backup, Firmware);
    if v == NotBackedUp {
      JudgeNotBackedUp(d, env);
    } else {
      CopyDelivers(d, Installed, Backup, env.backup);
      FlashStage(b, env, {d[Installed]});
      LastAppend(d, BackupTrace(d, env), InstallTrace(b, env, v));
      FlashDoneHasFirmware(b, env);
    }
  }

  lemma FlashDoneHasFirmware(b: Files, env: Env)
    ensures JudgeBackedUp(b, env) == FlashDone ==> Firmware in b
    ensures JudgeBackedUp(b, env) in {FlashDone, RolledBack, RollbackFailed}
  {
  }

  lemma JudgeNotBackedUp(d: Files, env: Env)
    ensures JudgeBackedUp(BackedUp(d, env), env) != NotBackedUp
  {
  }

  /** A job that reaches the backup while the installed image is good. */
  lemma InstallingJob(hash: Hash, files: Files, job: Job, good: set<Image>)
    requires ReachesBackup(Judge(hash, files, job)) && IsGood(files, Installed, good)
    ensures var v := Judge(hash, files, job);
            var t := JobTrace(hash, files, job);
            var good' := good + AcceptedBy(hash, files, job);
            && (forall s :: s in t ==> SomeGood(s, good'))
            && IsGood(Last(files, t), if v == RollbackFailed then Backup else Installed, good')
  {
    hide DownloadTrace, DownloadedTrace, JudgeDownloaded, Last;
    var env := job.env;
    var d := Downloaded(files, env);
    var v := Judge(hash, files, job);
    DownloadKeepsOthers(files, env.download, Installed);
    BackupStage(hash, d, ParseManifest(job.cmd.payload).value, env, good);
    LastAppend(files, DownloadTrace(files, env.download), DownloadedTrace(d, env, v));
  }

  // ------------------------------------------------------------- image preservation

  ghost predicate RollbackHasFailed(hash: Hash, files: Files, jobs: seq<Job>, k: nat)
    requires k <= |jobs|
  {
    k > 0 && (RollbackHasFailed(hash, files, jobs, k - 1) || VerdictOf(hash, files, jobs, k - 1) == RollbackFailed)
  }

  /** None of the first k jobs reaches its backup after an earlier one failed to roll back. */
  ghost predicate NoBackupAfterFailedRollback(hash: Hash, files: Files, jobs: seq<Job>, k: nat)
    requires k <= |jobs|
  {
    k == 0
    || (&& NoBackupAfterFailedRollback(hash, files, jobs, k - 1)
        && (RollbackHasFailed(hash, files, jobs, k - 1) ==> !ReachesBackup(VerdictOf(hash, files, jobs, k - 1))))
  }

  /** Between jobs: the installed image is good, or a rollback has failed and one of the two still is. */
  ghost predicate StillHasImage(failed: bool, disk: Files, good: set<Image>) {
    if failed then SomeGood(disk, good) else IsGood(disk, Installed, good)
  }

  lemma {:induction false} BetweenJobs(hash: Hash, files: Files, jobs: seq<Job>, k: nat)
    requires k <= |jobs| && Installed in files
    ensures NoBackupAfterFailedRollback(hash, files, jobs, k) ==>
              StillHasImage(RollbackHasFailed(hash, files, jobs, k), DiskBefore(hash, files, jobs, k),
                            GoodImages(hash, files, jobs, k))
  {
    hide *;
    if k == 0 {
      AtTheStart(hash, files, jobs);
    } else if NoBackupAfterFailedRollback(hash, files, jobs, k) {
      OneStepBack(hash, files, jobs, k);
      BetweenJobs(hash, files, jobs, k - 1);
      OneMoreJob(hash, DiskBefore(hash, files, jobs, k - 1), jobs[k - 1], GoodImages(hash, files, jobs, k - 1),
                 RollbackHasFailed(hash, files, jobs, k - 1));
    }
  }

  lemma AtTheStart(hash: Hash, files: Files, jobs: seq<Job>)
    requires Installed in files
    ensures StillHasImage(RollbackHasFailed(hash, files, jobs, 0), DiskBefore(hash, files, jobs, 0),
                          GoodImages(hash, files, jobs, 0))
  {
    hide Judge, JobTrace, Last, AcceptedBy, ReachesBackup;
  }

  lemma OneStepBack(hash: Hash, files: Files, jobs: seq<Job>, k: nat)
    requires 0 < k <= |jobs| && Installed in files
    ensures var before, job := DiskBefore(hash, files, jobs, k - 1), jobs[k - 1];
            var failed := RollbackHasFailed(hash, files, jobs, k - 1);
            && DiskBefore(hash, files, jobs, k) == Last(before, JobTrace(hash, before, job))
            && GoodImages(hash, files, jobs, k) == GoodImages(hash, files, jobs, k - 1) + AcceptedBy(hash, before, job)
            && RollbackHasFailed(hash, files, jobs, k) == (failed || Judge(hash, before, job) == RollbackFailed)
            && (NoBackupAfterFailedRollback(hash, files, jobs, k)
                <==> NoBackupAfterFailedRollback(hash, files, jobs, k - 1)
                     && (failed ==> !ReachesBackup(Judge(hash, before, job))))
  {
    hide Judge, JobTrace, Last, AcceptedBy, ReachesBackup;
  }

  /** One job, from a good state, that does not reach its backup once a rollback has failed. */
  lemma OneMoreJob(hash: Hash, before: Files, job: Job, good: set<Image>, failed: bool)
    requires StillHasImage(failed, before, good)
    requires failed ==> !ReachesBackup(Judge(hash, before, job))
    ensures var good' := good + AcceptedBy(hash, before, job);
            var after := Last(before, JobTrace(hash, before, job));
            && (forall s :: s in JobTrace(hash, before, job) ==> SomeGood(s, good'))
            && StillHasImage(failed || Judge(hash, before, job) == RollbackFailed, after, good')
  {
    hide Judge, Trace, Last, AcceptedBy;
    if ReachesBackup(Judge(hash, before, job)) {
      InstallingJob(hash, before, job, good);
    } else {
      QuietJob(hash, before, job, Installed);
      QuietJob(hash, before, job, Backup);
    }
  }

  lemma DownloadComesFirst(hash: Hash, files: Files, job: Job)
    requires Judge(hash, files, job) !in {BadManifest, NotReady}
    ensures DownloadTrace(files, job.env.download) <= JobTrace(hash, files, job)
  {
    hide DownloadTrace, DownloadedTrace, Judge;
  }

  /** A backup made while some image is good keeps one good at every write if and only if the installed image
      is good, or the copy touches nothing. (An empty file is no image.) */
  lemma BackupIsSafeIff(files: Files, plan: CopyPlan, good: set<Image>)
    requires SomeGood(files, good) && [] !in good
    ensures (forall s :: s in CopyTrace(files, Installed, Backup, plan) ==> SomeGood(s, good))
            <==> SafeToBackUp(files, plan, good)
  {
    CopyKeepsOthers(files, Installed, Backup, plan, Installed);
    if !SafeToBackUp(files, plan, good) {
      var s := UnsafeBackup(files, plan, good);
    }
  }

  /** What can be known before a backup starts: the installed image is good, or the copy will touch nothing. */
  ghost predicate SafeToBackUp(files: Files, plan: CopyPlan, good: set<Image>) {
    IsGood(files, Installed, good) || Installed !in files || plan.CannotOpen?
  }

  /** The write that truncates the backup while the installed image is not good. */
  lemma UnsafeBackup(files: Files, plan: CopyPlan, good: set<Image>) returns (s: Files)
    requires !SafeToBackUp(files, plan, good) && [] !in good
    ensures s in CopyTrace(files, Installed, Backup, plan) && !SomeGood(s, good)
  {
    var t := CopyTrace(files, Installed, Backup, plan);
    assert files[Installed][..0] == [];
    assert t[0] == files[Backup := []];
    s := t[0];
  }

  // ------------------------------------------------- image preservation, exactly, in any run

  /** Job j, if it reaches its backup, reaches it in a state in which a backup is safe. */
  ghost predicate BackupIsGuarded(hash: Hash, files: Files, jobs: seq<Job>, j: nat)
    requires j < |jobs| && Installed in files
  {
    GuardedJob(hash, DiskBefore(hash, files, jobs, j), jobs[j], GoodImages(hash, files, jobs, j + 1))
  }

  ghost predicate GuardedJob(hash: Hash, before: Files, job: Job, good: set<Image>) {
    ReachesBackup(Judge(hash, before, job)) ==> SafeToBackUp(before, job.env.backup, good)
  }

  /** At every write of job j one of the two files is an image that is good by then. */
  ghost predicate WritesKeepImage(hash: Hash, files: Files, jobs: seq<Job>, j: nat)
    requires j < |jobs| && Installed in files
  {
    AllGood(TraceOf(hash, files, jobs, j), GoodImages(hash, files, jobs, j + 1))
  }

  ghost predicate AllGood(trace: seq<Files>, good: set<Image>) {
    forall s :: s in trace ==> SomeGood(s, good)
  }

  lemma GuardedJobKeepsImage(hash: Hash, before: Files, job: Job, good: set<Image>)
    requires SomeGood(before, good) && GuardedJob(hash, before, job, good + AcceptedBy(hash, before, job))
    ensures var good' := good + AcceptedBy(hash, before, job);
            var t := JobTrace(hash, before, job);
            AllGood(t, good') && SomeGood(Last(before, t), good')
  {
    hide Judge, JobTrace, Last, AcceptedBy, ReachesBackup;
    var good' := good + AcceptedBy(hash, before, job);
    if !ReachesBackup(Judge(hash, before, job)) {
      UnreachedBackup(hash, before, job, good);
    } else if IsGood(before, Installed, good') {
      InstallingJob(hash, before, job, good');
      assert good' + AcceptedBy(hash, before, job) == good';
    } else {
      UntouchedBackup(hash, before, job, good);
    }
  }

  lemma UnreachedBackup(hash: Hash, before: Files, job: Job, good: set<Image>)
    requires SomeGood(before, good) && !ReachesBackup(Judge(hash, before, job))
    ensures var good' := good + AcceptedBy(hash, before, job);
            var t := JobTrace(hash, before, job);
            AllGood(t, good') && SomeGood(Last(before, t), good')
  {
    hide Judge, Trace, Last, AcceptedBy;
    QuietJob(hash, before, job, Installed);
    QuietJob(hash, before, job, Backup);
  }

  /** A backup that cannot even open its target leaves only the download. */
  lemma UntouchedBackup(hash: Hash, before: Files, job: Job, good: set<Image>)
    requires SomeGood(before, good) && ReachesBackup(Judge(hash, before, job))
    requires Installed !in before || job.env.backup.CannotOpen?
    ensures var good' := good + AcceptedBy(hash, before, job);
            var t := JobTrace(hash, before, job);
            AllGood(t, good') && SomeGood(Last(before, t), good')
  {
    hide DownloadTrace, AcceptedBy, Matches, Last, InstallTrace;
    DownloadKeepsOthers(before, job.env.download, Installed);
    DownloadKeepsOthers(before, job.env.download, Backup);
    var download := DownloadTrace(before, job.env.download);
    assert Judge(hash, before, job) == NotBackedUp;
    assert JobTrace(hash, before, job) == download + [] == download;
  }

  lemma UnguardedJobLosesImage(hash: Hash, before: Files, job: Job, good: set<Image>) returns (s: Files)
    requires !GuardedJob(hash, before, job, good) && [] !in good
    ensures s in JobTrace(hash, before, job) && !SomeGood(s, good)
  {
    hide DownloadTrace, CopyTrace, JudgeDownloaded, SomeGood, Last, InstallTrace;
    var d := Downloaded(before, job.env);
    DownloadKeepsOthers(before, job.env.download, Installed);
    s := UnsafeBackup(d, job.env.backup, good);
    assert s in BackupTrace(d, job.env);
  }

  lemma {:induction false} GuardedRunKeepsImage(hash: Hash, files: Files, jobs: seq<Job>, k: nat)
    requires k <= |jobs| && Installed in files
    requires forall j :: 0 <= j < k ==> BackupIsGuarded(hash, files, jobs, j)
    ensures SomeGood(DiskBefore(hash, files, jobs, k), GoodImages(hash, files, jobs, k))
    ensures forall j :: 0 <= j < k ==> WritesKeepImage(hash, files, jobs, j)
  {
    hide *;
    if k == 0 {
      GoodAtTheStart(hash, files, jobs);
    } else {
      GuardedRunKeepsImage(hash, files, jobs, k - 1);
      assert BackupIsGuarded(hash, files, jobs, k - 1);
      LastGuardedJob(hash, files, jobs, k - 1);
    }
  }

  lemma GoodAtTheStart(hash: Hash, files: Files, jobs: seq<Job>)
    requires Installed in files
    ensures SomeGood(DiskBefore(hash, files, jobs, 0), GoodImages(hash, files, jobs, 0))
  {
  }

  lemma LastGuardedJob(hash: Hash, files: Files, jobs: seq<Job>, j: nat)
    requires j < |jobs| && Installed in files
    ensures BackupIsGuarded(hash, files, jobs, j)
            && SomeGood(DiskBefore(hash, files, jobs, j), GoodImages(hash, files, jobs, j)) ==>
              && SomeGood(DiskBefore(hash, files, jobs, j + 1), GoodImages(hash, files, jobs, j + 1))
              && WritesKeepImage(hash, files, jobs, j)
  {
    hide Judge, JobTrace, Last, AcceptedBy, SomeGood, AllGood, GuardedJob;
    var before, good := DiskBefore(hash, files, jobs, j), GoodImages(hash, files, jobs, j);
    if BackupIsGuarded(hash, files, jobs, j) && SomeGood(before, good) {
      GuardedJobKeepsImage(hash, before, jobs[j], good);
    }
  }

  lemma {:induction false} GoodImagesGrow(hash: Hash, files: Files, jobs: seq<Job>, j: nat, k: nat)
    requires j <= k <= |jobs| && Installed in files
    ensures GoodImages(hash, files, jobs, j) <= GoodImages(hash, files, jobs, k)
    decreases k
  {
    hide AcceptedBy, DiskBefore;
    if j < k {
      GoodImagesGrow(hash, files, jobs, j, k - 1);
    }
  }

  /** Image preservation, exactly. In any run of k jobs: at every single write the installed file or the backup
      is a complete image that is the initial firmware or passed verification, if and only if every job that
      reaches its backup finds a good installed image there, or no installed file, or a backup that cannot be
      opened. (An empty file is no image; the if part needs no such assumption.) */
  lemma ImagePreservedIff(hash: Hash, files: Files, jobs: seq<Job>, k: nat)
    requires k <= |jobs| && Installed in files
    ensures [] !in GoodImages(hash, files, jobs, k) ==>
              ((forall j :: 0 <= j < k ==> WritesKeepImage(hash, files, jobs, j))
               <==> (forall j :: 0 <= j < k ==> BackupIsGuarded(hash, files, jobs, j)))
  {
    hide Judge, JobTrace, Last, AcceptedBy, SomeGood, GuardedJob, DiskBefore, GoodImages;
    if forall j :: 0 <= j < k ==> BackupIsGuarded(hash, files, jobs, j) {
      GuardedRunKeepsImage(hash, files, jobs, k);
    } else if [] !in GoodImages(hash, files, jobs, k) {
      var j :| 0 <= j < k && !BackupIsGuarded(hash, files, jobs, j);
      GoodImagesGrow(hash, files, jobs, j + 1, k);
      var s := UnguardedJobLosesImage(hash, DiskBefore(hash, files, jobs, j), jobs[j],
                                      GoodImages(hash, files, jobs, j + 1));
      assert !WritesKeepImage(hash, files, jobs, j);
    }
  }

  // ------------------------------------------- the same in terms of what has been reported

  /** Until a failed rollback is followed by another backup every backup is guarded. */
  lemma NoBackupMeansGuarded(hash: Hash, files: Files, jobs: seq<Job>, j: nat)
    requires j < |jobs| && Installed in files
    ensures NoBackupAfterFailedRollback(hash, files, jobs, j + 1) ==> BackupIsGuarded(hash, files, jobs, j)
  {
    hide Judge, Last, JobTrace;
    if NoBackupAfterFailedRollback(hash, files, jobs, j + 1) {
      BetweenJobs(hash, files, jobs, j);
    }
  }

  lemma {:induction false} EarlierToo(hash: Hash, files: Files, jobs: seq<Job>, j: nat, k: nat)
    requires j <= k <= |jobs|
    ensures NoBackupAfterFailedRollback(hash, files, jobs, k) ==> NoBackupAfterFailedRollback(hash, files, jobs, j)
    decreases k
  {
    hide RollbackHasFailed, VerdictOf, ReachesBackup;
    if j < k {
      EarlierToo(hash, files, jobs, j, k - 1);
    }
  }

  lemma NoBackupRunIsGuarded(hash: Hash, files: Files, jobs: seq<Job>, k: nat)
    requires k <= |jobs| && Installed in files
    ensures NoBackupAfterFailedRollback(hash, files, jobs, k) ==>
              forall j :: 0 <= j < k ==> BackupIsGuarded(hash, files, jobs, j)
  {
    hide *;
    forall j | NoBackupAfterFailedRollback(hash, files, jobs, k) && 0 <= j < k
      ensures BackupIsGuarded(hash, files, jobs, j)
    {
      EarlierToo(hash, files, jobs, j + 1, k);
      NoBackupMeansGuarded(hash, files, jobs, j);
    }
  }

  /** Image preservation by verdicts alone: it holds at every write until a failed rollback is followed by
      another backup, and within that job up to the end of its download. This is sufficient, not necessary:
      a failed rollback may have left the installed image intact. */
  lemma ImagePreserved(hash: Hash, files: Files, jobs: seq<Job>, k: nat)
    requires k < |jobs| && Installed in files
    ensures NoBackupAfterFailedRollback(hash, files, jobs, k) ==>
              var good := GoodImages(hash, files, jobs, k + 1);
              var exposed := RollbackHasFailed(hash, files, jobs, k) && ReachesBackup(VerdictOf(hash, files, jobs, k));
              var writes := if exposed then DownloadTrace(DiskBefore(hash, files, jobs, k), jobs[k].env.download)
                            else TraceOf(hash, files, jobs, k);
              writes <= TraceOf(hash, files, jobs, k) && AllGood(writes, good)
  {
    hide JobTrace, AcceptedBy, Last, Judge;
    if NoBackupAfterFailedRollback(hash, files, jobs, k) {
      if RollbackHasFailed(hash, files, jobs, k) && ReachesBackup(VerdictOf(hash, files, jobs, k)) {
        var before := DiskBefore(hash, files, jobs, k);
        NoBackupRunIsGuarded(hash, files, jobs, k);
        GuardedRunKeepsImage(hash, files, jobs, k);
        DownloadKeepsOthers(before, jobs[k].env.download, Installed);
        DownloadKeepsOthers(before, jobs[k].env.download, Backup);
        DownloadComesFirst(hash, before, jobs[k]);
      } else {
        NoBackupRunIsGuarded(hash, files, jobs, k + 1);
        GuardedRunKeepsImage(hash, files, jobs, k + 1);
        assert WritesKeepImage(hash, files, jobs, k);
      }
    }
  }

  // ------------------------------------------------------------------ two concrete runs

  const TORN := Writes([], false)

  /** A job whose image, the single byte 2, verifies and is backed up, and whose flash and rollback both fail
      in the given way. */
  function FailingJob(hash: Hash, url: string, failure: CopyPlan): Job {
    Job(Command(OTA_TRIGGER, "id", Object(map["url" := String(url)]["sha256" := String(Hex(hash([2])))])),
        Env(true, Received([[2]], true), true, Writes([], true), failure, failure))
  }

  /** What a failed copy leaves of its target: nothing of it if torn, all of it if it was not opened. */
  function Remains(files: Files, dst: Path, failure: CopyPlan): Files {
    if failure == TORN then files[dst := []] else files
  }

  lemma WholeCopy(files: Files, src: Path, dst: Path, failure: CopyPlan)
    requires src in files && src != dst && (failure == TORN || failure == CannotOpen)
    ensures Last(files, CopyTrace(files, src, dst, Writes([], true))) == files[dst := files[src]]
    ensures Last(files, CopyTrace(files, src, dst, failure)) == Remains(files, dst, failure)
  {
    GrowthEnd(files[src], 0, true);
    GrowthEnd(files[src], 0, false);
    assert files[src][..0] == [];
  }

  lemma WholeDownload(files: Files)
    ensures Last(files, DownloadTrace(files, Received([[2]], true))) == files[Firmware := [2]]
  {
    assert Appends([], [[2]]) == [[]] + Appends([2], []) by {
      assert [[2]][1..] == [];
      assert [] + [2] == [2];
    }
    assert Appends([2], []) == [[2]];
  }

  lemma FailingJobEffect(hash: Hash, url: string, failure: CopyPlan, files: Files)
    requires Installed in files && (failure == TORN || failure == CannotOpen)
    ensures var job := FailingJob(hash, url, failure);
            && Judge(hash, files, job) == RollbackFailed
            && AcceptedBy(hash, files, job) == {[2]}
            && Last(files, JobTrace(hash, files, job))
               == Remains(files[Firmware := [2]][Backup := files[Installed]], Installed, failure)
  {
    hide CopyTrace, DownloadTrace, Last;
    var job := FailingJob(hash, url, failure);
    var env := job.env;
    assert ParseManifest(job.cmd.payload) == Some(Manifest(url, Hex(hash([2])), "unknown"));
    WholeDownload(files);
    var d := Downloaded(files, env);
    WholeCopy(d, Installed, Backup, failure);
    var b := BackedUp(d, env);
    WholeCopy(b, Firmware, Installed, failure);
    var f := Flashed(b, env);
    WholeCopy(f, Backup, Installed, failure);
    LastAppend(b, FlashTrace(b, env), RollbackTrace(f, env));
    LastAppend(d, BackupTrace(d, env), InstallTrace(b, env, RollbackFailed));
    LastAppend(files, DownloadTrace(files, env.download), DownloadedTrace(d, env, RollbackFailed));
  }

  lemma TwoFailingJobs(hash: Hash, url: string, failure: CopyPlan)
    requires failure == TORN || failure == CannotOpen
    ensures var files: Files := map[Installed := [1]];
            var jobs := [FailingJob(hash, url, failure), FailingJob(hash, url, failure)];
            var torn := failure == TORN;
            && VerdictOf(hash, files, jobs, 0) == RollbackFailed && VerdictOf(hash, files, jobs, 1) == RollbackFailed
            && GoodImages(hash, files, jobs, 1) == {[1], [2]} && GoodImages(hash, files, jobs, 2) == {[1], [2]}
            && DiskBefore(hash, files, jobs, 0) == files
            && DiskBefore(hash, files, jobs, 1)
               == map[Firmware := [2], Backup := [1], Installed := if torn then [] else [1]]
            && DiskBefore(hash, files, jobs, 2)
               == map[Firmware := [2], Backup := if torn then [] else [1], Installed := if torn then [] else [1]]
  {
    hide JobTrace, Judge, Last, AcceptedBy;
    var files: Files := map[Installed := [1]];
    var jobs := [FailingJob(hash, url, failure), FailingJob(hash, url, failure)];
    FailingJobEffect(hash, url, failure, files);
    assert DiskBefore(hash, files, jobs, 0) == files;
    var middle := DiskBefore(hash, files, jobs, 1);
    FailingJobEffect(hash, url, failure, middle);
    assert GoodImages(hash, files, jobs, 1) == {[1], [2]};
  }

  /** A run that loses both copies: a flash and its rollback are torn, and the next command backs up the torn
      file over the last good image. */
  lemma FailedRollbackThenBackupLosesBoth(hash: Hash, url: string)
    ensures var files: Files := map[Installed := [1]];
            var jobs := [FailingJob(hash, url, TORN), FailingJob(hash, url, TORN)];
            && VerdictOf(hash, files, jobs, 0) == RollbackFailed
            && GoodImages(hash, files, jobs, 2) == {[1], [2]}
            && !SomeGood(DiskBefore(hash, files, jobs, 2), GoodImages(hash, files, jobs, 2))
  {
    hide JobTrace, Judge, VerdictOf, DiskBefore, GoodImages, FailingJob;
    TwoFailingJobs(hash, url, TORN);
  }

  /** A run with the same verdicts that loses nothing: neither the flash nor the rollback could open its target,
      so the second backup, too, copies a good image. */
  lemma FailedRollbackMayLoseNothing(hash: Hash, url: string)
    ensures var files: Files := map[Installed := [1]];
            var jobs := [FailingJob(hash, url, CannotOpen), FailingJob(hash, url, CannotOpen)];
            && !NoBackupAfterFailedRollback(hash, files, jobs, 2)
            && forall j :: 0 <= j < 2 ==> WritesKeepImage(hash, files, jobs, j)
  {
    hide JobTrace, Judge, DiskBefore, GoodImages, FailingJob, WritesKeepImage;
    var files: Files := map[Installed := [1]];
    var jobs := [FailingJob(hash, url, CannotOpen), FailingJob(hash, url, CannotOpen)];
    TwoFailingJobs(hash, url, CannotOpen);
    GuardedRunKeepsImage(hash, files, jobs, 2);
  }

  // --------------------------------------------------------------- what a status means

  /** The last status of a command and the installed image: FAILED leaves it as it was at every write, COMPLETE
      means an image with the digest of the manifest, and ROLLED_BACK the old image whenever the rollback copy
      succeeded, else an intact old image in the backup. */
  lemma StatusTellsTheImage(hash: Hash, files: Files, job: Job)
    requires Installed in files
    ensures var v := Judge(hash, files, job);
            var word := Word(job.cmd, v);
            var t := JobTrace(hash, files, job);
            var after := Last(files, t);
            match word[|word| - 1].state
            case FAILED => (forall s :: s in t ==> SameAt(files, s, Installed)) && SameAt(files, after, Installed)
            case COMPLETE => Installed in after
                             && Hex(hash(after[Installed])) == ParseManifest(job.cmd.payload).value.sha256
            case ROLLED_BACK =>
              if v == RolledBack then SameAt(files, after, Installed)
              else Backup in after && after[Backup] == files[Installed]
            case _ => false
  {
    hide DownloadTrace, DownloadedTrace, JudgeDownloaded, Last, ParseManifest;
    var v := Judge(hash, files, job);
    var env := job.env;
    if !ReachesBackup(v) {
      QuietJob(hash, files, job, Installed);
    } else {
      var d := Downloaded(files, env);
      var manifest := ParseManifest(job.cmd.payload).value;
      DownloadKeepsOthers(files, env.download, Installed);
      BackupStage(hash, d, manifest, env, {files[Installed]});
      LastAppend(files, DownloadTrace(files, env.download), DownloadedTrace(d, env, v));
      if v == NotBackedUp {
        NotBackedUpIsQuiet(hash, d, manifest, env);
      }
      AcceptedDigest(hash, d, manifest, env);
    }
  }

  lemma NotBackedUpIsQuiet(hash: Hash, d: Files, manifest: Manifest, env: Env)
    requires JudgeDownloaded(hash, d, manifest, env) == NotBackedUp
    ensures forall s :: s in DownloadedTrace(d, env, NotBackedUp) ==> SameAt(d, s, Installed)
  {
    CopyKeepsOthers(d, Installed, Backup, env.backup, Installed);
  }

  lemma AcceptedDigest(hash: Hash, d: Files, manifest: Manifest, env: Env)
    requires JudgeDownloaded(hash, d, manifest, env) != Rejected
    ensures Firmware in d && Hex(hash(d[Firmware])) == manifest.sha256
  {
  }

  // ------------------------------------------------------------------ status grammar

  /** The states of an automaton over status streams; Between is initial and the only accepting one. */
  datatype Dfa = Between | AfterManifest | AfterDownload | AfterVerify | AfterInstall

  function DfaStep(q: Dfa, s: OtaState): Option<Dfa> {
    match (q, s)
    case (Between, MANIFEST_RECEIVED) => Some(AfterManifest)
    case (AfterManifest, DOWNLOADING) => Some(AfterDownload)
    case (AfterDownload, VERIFYING) => Some(AfterVerify)
    case (AfterVerify, INSTALLING) => Some(AfterInstall)
    case (AfterInstall, COMPLETE) => Some(Between)
    case (AfterInstall, ROLLED_BACK) => Some(Between)
    case (AfterInstall, FAILED) => None
    case (_, FAILED) => Some(Between)
    case _ => None
  }

  function DfaRun(q: Dfa, word: seq<Status>): Option<Dfa> {
    if word == [] then Some(q)
    else
      var r := DfaRun(q, word[..|word| - 1]);
      if r.None? then None else DfaStep(r.value, word[|word| - 1].state)
  }

  predicate Terminal(s: OtaState) {
    s == COMPLETE || s == FAILED || s == ROLLED_BACK
  }

  function Terminals(word: seq<Status>): nat {
    if word == [] then 0
    else Terminals(word[..|word| - 1]) + if Terminal(word[|word| - 1].state) then 1 else 0
  }

  lemma {:induction false} DfaAppend(q: Dfa, a: seq<Status>, b: seq<Status>)
    requires DfaRun(q, a).Some?
    ensures DfaRun(q, a + b) == DfaRun(DfaRun(q, a).value, b)
    ensures Terminals(a + b) == Terminals(a) + Terminals(b)
  {
    if b == [] {
      assert a + b == a;
    } else {
      var n := |b| - 1;
      assert (a + b)[..|a| + n] == a + b[..n];
      DfaAppend(q, a, b[..n]);
    }
  }

  /** One command's word: one correlation id throughout, one terminal status and that one last, and progress
      that does not fall before it. */
  ghost predicate WellFormedWord(word: seq<Status>, id: string) {
    && word != []
    && (forall i :: 0 <= i < |word| ==> word[i].correlationId == id)
    && (forall i :: 0 <= i < |word| ==> (Terminal(word[i].state) <==> i == |word| - 1))
    && (forall i, j :: 0 <= i <= j < |word| - 1 ==> word[i].progress <= word[j].progress)
    && (word[|word| - 1].state == COMPLETE ==>
          forall i :: 0 <= i < |word| ==> word[i].progress <= 100 == word[|word| - 1].progress)
  }

  lemma ProgressIsOrdered(id: string, version: string)
    ensures var p := Progress(id, version);
            && (forall i :: 0 <= i < 4 ==> p[i].correlationId == id && !Terminal(p[i].state) && p[i].progress <= 75)
            && (forall i, j :: 0 <= i <= j < 4 ==> p[i].progress <= p[j].progress)
  {
  }

  lemma WordIsWellFormed(cmd: Command, v: Verdict)
    ensures WellFormedWord(Word(cmd, v), cmd.correlationId)
  {
    hide Progress, ParseManifest;
    var id, version := cmd.correlationId, Version(cmd);
    ProgressIsOrdered(id, version);
    var p := Progress(id, version);
    var word := Word(cmd, v);
    assert forall i :: 0 <= i < Steps(v) ==> word[i] == p[i];
    assert word[Steps(v)] == Final(id, version, v);
  }

  function StateAfter(n: nat): Dfa {
    match n
    case 0 => Between
    case 1 => AfterManifest
    case 2 => AfterDownload
    case 3 => AfterVerify
    case _ => AfterInstall
  }

  lemma FinalEnds(id: string, version: string, v: Verdict)
    ensures var last := Final(id, version, v).state;
            Terminal(last) && DfaStep(StateAfter(Steps(v)), last) == Some(Between)
  {
  }

  lemma PrefixOfWord(cmd: Command, n: nat)
    requires n <= 4
    ensures var p := Progress(cmd.correlationId, Version(cmd))[..n];
            && Terminals(p) == 0
            && DfaRun(Between, p) == Some(StateAfter(n))
  {
    if n > 0 {
      PrefixOfWord(cmd, n - 1);
      var all := Progress(cmd.correlationId, Version(cmd));
      assert all[..n][..n - 1] == all[..n - 1];
    }
  }

  lemma WordIsRegular(cmd: Command, v: Verdict)
    ensures DfaRun(Between, Word(cmd, v)) == Some(Between) && Terminals(Word(cmd, v)) == 1
  {
    hide Progress, Version, Final, Steps, StateAfter, DfaStep, Terminal;
    var id, version := cmd.correlationId, Version(cmd);
    PrefixOfWord(cmd, Steps(v));
    FinalEnds(id, version, v);
    var p := Progress(id, version)[..Steps(v)];
    assert Word(cmd, v) == p + [Final(id, version, v)];
    assert Word(cmd, v)[..|p|] == p;
  }

  /** The whole status stream of any run is accepted, with one terminal status per command. */
  lemma {:induction false} StatusGrammar(hash: Hash, files: Files, jobs: seq<Job>, k: nat)
    requires k <= |jobs|
    ensures DfaRun(Between, StatusLog(hash, files, jobs, k)) == Some(Between)
    ensures Terminals(StatusLog(hash, files, jobs, k)) == k
  {
    hide VerdictOf, Word, Progress, Final, Judge, DiskBefore;
    if k > 0 {
      var v := VerdictOf(hash, files, jobs, k - 1);
      StatusGrammar(hash, files, jobs, k - 1);
      WordIsRegular(jobs[k - 1].cmd, v);
      AppendWord(StatusLog(hash, files, jobs, k - 1), Word(jobs[k - 1].cmd, v), k - 1);
    }
  }

  lemma AppendWord(log: seq<Status>, word: seq<Status>, n: nat)
    requires DfaRun(Between, log) == Some(Between) && Terminals(log) == n
    requires DfaRun(Between, word) == Some(Between) && Terminals(word) == 1
    ensures DfaRun(Between, log + word) == Some(Between) && Terminals(log + word) == n + 1
  {
    DfaAppend(Between, log, word);
  }
}
