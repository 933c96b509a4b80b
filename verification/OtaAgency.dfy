/** OtaAgent: download, verify, back up, flash and roll back over three files, one write at a time. */
module OtaAgency {
  import opened Wrappers
  import opened Json
  import opened Commands
  import opened Sha256Check

  // ---------------------------------------------------------------------- the disk

  /** The three paths, which are distinct. */
  datatype Path = Firmware | Backup | Installed

  type Files = map<Path, Image>

  /** How one copy_file goes: it may fail before it touches the target, or truncate the target and write
      pieces of the source, and then complete or fail at any point. */
  datatype CopyPlan = CannotOpen | Writes(pieces: seq<nat>, completes: bool)

  predicate CopyOk(files: Files, src: Path, plan: CopyPlan) {
    src in files && plan.Writes? && plan.completes
  }

  function AtMost(a: nat, b: nat): nat {
    if a <= b then a else b
  }

  /** The contents of the target after each write, from the first `at` bytes on. */
  function Growth(source: Image, at: nat, pieces: seq<nat>, completes: bool): (r: seq<Image>)
    requires at <= |source|
    ensures |r| > 0 && r[0] == source[..at]
    ensures completes ==> r[|r| - 1] == source
    decreases |pieces|
  {
    [source[..at]]
    + if pieces == [] then (if completes then [source] else [])
      else Growth(source, AtMost(at + pieces[0], |source|), pieces[1..], completes)
  }

  function Puts(files: Files, p: Path, contents: seq<Image>): (r: seq<Files>)
    ensures |r| == |contents|
  {
    seq(|contents|, i requires 0 <= i < |contents| => files[p := contents[i]])
  }

  /** The disk after each write of a copy. */
  function CopyTrace(files: Files, src: Path, dst: Path, plan: CopyPlan): seq<Files> {
    if src !in files || plan.CannotOpen? then []
    else Puts(files, dst, Growth(files[src], 0, plan.pieces, plan.completes))
  }

  lemma GrowthTail(source: Image, at: nat, pieces: seq<nat>, completes: bool)
    requires at <= |source| && pieces != []
    ensures var next := AtMost(at + pieces[0], |source|);
            var g := Growth(source, at, pieces, completes);
            |g| > 1 && g[1..] == Growth(source, next, pieces[1..], completes) && g[1] == source[..next]
  {
    var next := AtMost(at + pieces[0], |source|);
    var tail := Growth(source, next, pieces[1..], completes);
    assert Growth(source, at, pieces, completes) == [source[..at]] + tail;
    assert tail[0] == source[..next];
  }

  lemma GrowthEnd(source: Image, at: nat, completes: bool)
    requires at <= |source|
    ensures Growth(source, at, [], completes) == [source[..at]] + if completes then [source] else []
  {
  }

  lemma PutsOneMore(files: Files, p: Path, contents: seq<Image>, n: nat, was: Image)
    requires n < |contents|
    ensures Puts(files, p, contents[..n + 1]) == Puts(files, p, contents[..n]) + [files[p := contents[n]]]
    ensures files[p := was][p := contents[n]] == files[p := contents[n]]
  {
  }

  /** The state of a copy loop after i pieces: `all` are the contents the target will go through. */
  ghost predicate CopyAt(all: seq<Image>, source: Image, at: nat, pieces: seq<nat>, completes: bool, i: nat) {
    && at <= |source| && i <= |pieces| && i < |all|
    && all[i..] == Growth(source, at, pieces[i..], completes)
  }

  lemma CopyAtBounds(all: seq<Image>, source: Image, at: nat, pieces: seq<nat>, completes: bool, i: nat)
    requires CopyAt(all, source, at, pieces, completes, i)
    ensures at <= |source| && i < |all|
  {
  }

  lemma CopyBegins(files: Files, p: Path, source: Image, pieces: seq<nat>, completes: bool)
    ensures var all := Growth(source, 0, pieces, completes);
            && CopyAt(all, source, 0, pieces, completes, 0)
            && Puts(files, p, all[..1]) == [files[p := []]]
  {
    var all := Growth(source, 0, pieces, completes);
    assert all[0..] == all && pieces[0..] == pieces;
    assert source[..0] == [];
  }

  lemma CopyAdvances(
    files: Files, p: Path, all: seq<Image>, source: Image, at: nat, pieces: seq<nat>, completes: bool, i: nat)
    requires CopyAt(all, source, at, pieces, completes, i) && i < |pieces|
    ensures var next := AtMost(at + pieces[i], |source|);
            && CopyAt(all, source, next, pieces, completes, i + 1)
            && Puts(files, p, all[..i + 2]) == Puts(files, p, all[..i + 1]) + [files[p := source[..next]]]
            && files[p := source[..at]][p := source[..next]] == files[p := source[..next]]
  {
    GrowthTail(source, at, pieces[i..], completes);
    assert pieces[i..][1..] == pieces[i + 1..] && all[i..][1..] == all[i + 1..];
    assert all[i..][1] == all[i + 1];
    PutsOneMore(files, p, all, i + 1, source[..at]);
  }

  lemma CopyEnds(files: Files, p: Path, all: seq<Image>, source: Image, at: nat, pieces: seq<nat>, completes: bool)
    requires CopyAt(all, source, at, pieces, completes, |pieces|)
    ensures var written := Puts(files, p, all[..|pieces| + 1]);
            if completes then
              && Puts(files, p, all) == written + [files[p := source]]
              && files[p := source[..at]][p := source] == files[p := source]
            else Puts(files, p, all) == written
    ensures Puts(files, p, all)[|all| - 1] == files[p := if completes then source else source[..at]]
  {
    var n := |pieces|;
    GrowthEnd(source, at, completes);
    assert all[|all| - 1] == all[n..][|all| - 1 - n];
    assert all[..|all|] == all;
    if completes {
      assert |all| == n + 2;
      PutsOneMore(files, p, all, n + 1, source[..at]);
    }
  }

  /** How a download goes. */
  datatype Download = NotStarted | Received(chunks: seq<Image>, ok: bool)

  function Appends(sofar: Image, chunks: seq<Image>): (r: seq<Image>)
    ensures |r| == |chunks| + 1 && r[0] == sofar
    decreases |chunks|
  {
    [sofar] + if chunks == [] then [] else Appends(sofar + chunks[0], chunks[1..])
  }

  lemma AppendsTail(sofar: Image, chunks: seq<Image>)
    requires chunks != []
    ensures Appends(sofar, chunks)[1..] == Appends(sofar + chunks[0], chunks[1..])
    ensures Appends(sofar, chunks)[1] == sofar + chunks[0]
  {
  }

  lemma AppendsAt(all: seq<Image>, sofar: Image, chunks: seq<Image>, i: nat)
    requires i < |chunks| && |all| == |chunks| + 1 && all[i..] == Appends(sofar, chunks[i..])
    ensures all[i + 1] == sofar + chunks[i]
    ensures all[i + 1..] == Appends(sofar + chunks[i], chunks[i + 1..])
  {
    hide Appends;
    AppendsTail(sofar, chunks[i..]);
    assert chunks[i..][1..] == chunks[i + 1..] && all[i..][1..] == all[i + 1..];
    assert all[i..][1] == all[i + 1];
  }

  function DownloadTrace(files: Files, d: Download): seq<Files> {
    if d.NotStarted? then [] else Puts(files, Firmware, Appends([], d.chunks))
  }

  function Last(files: Files, trace: seq<Files>): Files {
    if trace == [] then files else trace[|trace| - 1]
  }

  lemma CopyTraceParts(files: Files, src: Path, dst: Path, plan: CopyPlan)
    ensures src !in files || plan.CannotOpen? ==>
              CopyTrace(files, src, dst, plan) == [] && Last(files, []) == files
    ensures src in files && plan.Writes? ==>
              var all := Growth(files[src], 0, plan.pieces, plan.completes);
              && CopyTrace(files, src, dst, plan) == Puts(files, dst, all)
              && Last(files, Puts(files, dst, all)) == Puts(files, dst, all)[|all| - 1]
  {
  }

  lemma LastAppend(files: Files, a: seq<Files>, b: seq<Files>)
    ensures Last(files, a + b) == Last(Last(files, a), b)
  {
  }

  lemma LastOfOne(files: Files, last: Files)
    ensures Last(files, [last]) == last
  {
  }

  lemma LastOfNothing(files: Files)
    ensures Last(files, []) == files
  {
  }

  class Disk {
    var files: Files
    /** Every state of the disk, one per write. */
    ghost var history: seq<Files>

    constructor (files: Files)
      ensures this.files == files && history == []
    {
      this.files, history := files, [];
    }

    method Put(p: Path, image: Image)
      modifies this
      ensures files == old(files)[p := image] && history == old(history) + [files]
    {
      files := files[p := image];
      history := history + [files];
    }

    method Remove(p: Path)
      modifies this
      ensures files == old(files) - {p} && history == old(history) + [files]
    {
      files := files - {p};
      history := history + [files];
    }

    /** std::filesystem::copy_file with overwrite_existing; false stands for the exception. */
    method Copy(src: Path, dst: Path, plan: CopyPlan) returns (ok: bool)
      requires src != dst
      modifies this
      ensures ok == CopyOk(old(files), src, plan)
      ensures history == old(history) + CopyTrace(old(files), src, dst, plan)
      ensures files == Last(old(files), CopyTrace(old(files), src, dst, plan))
    {
      hide Growth, Puts, CopyAt, CopyTrace, Last;
      CopyTraceParts(files, src, dst, plan);
      if src !in files || plan.CannotOpen? {
        return false;
      }
      var source := files[src];
      ghost var all := Growth(source, 0, plan.pieces, plan.completes);
      ghost var before := files;
      var at := 0;
      Put(dst, []);
      CopyBegins(before, dst, source, plan.pieces, plan.completes);
      for i := 0 to |plan.pieces|
        invariant at <= |source| && i < |all| && CopyAt(all, source, at, plan.pieces, plan.completes, i)
        invariant files == before[dst := source[..at]]
        invariant history == old(history) + Puts(before, dst, all[..i + 1])
      {
        CopyAdvances(before, dst, all, source, at, plan.pieces, plan.completes, i);
        at := AtMost(at + plan.pieces[i], |source|);
        Put(dst, source[..at]);
        CopyAtBounds(all, source, at, plan.pieces, plan.completes, i + 1);
      }
      CopyEnds(before, dst, all, source, at, plan.pieces, plan.completes);
      if plan.completes {
        Put(dst, source);
      }
      return plan.completes;
    }

    /** The write callback of curl: fopen truncates, then each chunk is appended. */
    method Receive(d: Download) returns (ok: bool)
      modifies this
      ensures ok == (d.Received? && d.ok)
      ensures history == old(history) + DownloadTrace(old(files), d)
      ensures files == Last(old(files), DownloadTrace(old(files), d))
    {
      if d.NotStarted? {
        return false;
      }
      ghost var all := Appends([], d.chunks);
      ghost var before := files;
      var sofar: Image := [];
      Put(Firmware, sofar);
      assert all[0..] == all && d.chunks[0..] == d.chunks;
      for i := 0 to |d.chunks|
        invariant all[i..] == Appends(sofar, d.chunks[i..])
        invariant files == before[Firmware := sofar]
        invariant history == old(history) + Puts(before, Firmware, all[..i + 1])
      {
        hide Appends;
        AppendsAt(all, sofar, d.chunks, i);
        PutsOneMore(before, Firmware, all, i + 1, sofar);
        sofar := sofar + d.chunks[i];
        Put(Firmware, sofar);
      }
      assert all[..|all|] == all;
      assert all[|d.chunks|] == all[|d.chunks|..][0];
      return d.ok;
    }
  }

  // ------------------------------------------------------------ commands and statuses

  datatype Manifest = Manifest(url: string, sha256: string, version: string)

  function ParseManifest(payload: Json): Option<Manifest> {
    var url := AtString(payload, "url");
    var sha256 := AtString(payload, "sha256");
    var version := ValueString(payload, "version", "unknown");
    if url.Some? && sha256.Some? && version.Some? then Some(Manifest(url.value, sha256.value, version.value)) else None
  }

  datatype OtaState = MANIFEST_RECEIVED | DOWNLOADING | VERIFYING | INSTALLING | COMPLETE | FAILED | ROLLED_BACK

  datatype Status = Status(correlationId: string, state: OtaState, version: string, error: string, progress: int)

  /** Everything about one command that the program does not decide. */
  datatype Env = Env(
    preconditionsMet: bool, download: Download, readable: bool, backup: CopyPlan, flash: CopyPlan, rollback: CopyPlan)

  /** How far a command gets. */
  datatype Verdict =
    | BadManifest | NotReady | NotDownloaded | Rejected | NotBackedUp
    | RolledBack | RollbackFailed | FlashDone

  datatype Job = Job(cmd: Command, env: Env)

  function Downloaded(files: Files, env: Env): Files {
    Last(files, DownloadTrace(files, env.download))
  }

  function OpenedFirmware(d: Files, env: Env): Option<Image> {
    if env.readable && Firmware in d then Some(d[Firmware]) else None
  }

  function BackupTrace(d: Files, env: Env): seq<Files> {
    CopyTrace(d, Installed, Backup, env.backup)
  }

  function BackedUp(d: Files, env: Env): Files {
    Last(d, BackupTrace(d, env))
  }

  function FlashTrace(b: Files, env: Env): seq<Files> {
    CopyTrace(b, Firmware, Installed, env.flash)
  }

  function Flashed(b: Files, env: Env): Files {
    Last(b, FlashTrace(b, env))
  }

  function RollbackTrace(f: Files, env: Env): seq<Files> {
    CopyTrace(f, Backup, Installed, env.rollback)
  }

  /** What becomes of a firmware that was downloaded; d is the disk then. */
  ghost function JudgeDownloaded(hash: Hash, d: Files, manifest: Manifest, env: Env): (v: Verdict)
    ensures Steps(v) >= 3
  {
    if !Matches(hash, OpenedFirmware(d, env), manifest.sha256) then Rejected
    else if !CopyOk(d, Installed, env.backup) then NotBackedUp
    else JudgeBackedUp(BackedUp(d, env), env)
  }

  function JudgeBackedUp(b: Files, env: Env): Verdict {
    if CopyOk(b, Firmware, env.flash) then FlashDone
    else if CopyOk(Flashed(b, env), Backup, env.rollback) then RolledBack
    else RollbackFailed
  }

  ghost function Judge(hash: Hash, files: Files, job: Job): Verdict {
    var manifest := ParseManifest(job.cmd.payload);
    if manifest.None? then BadManifest
    else if !job.env.preconditionsMet then NotReady
    else if !(job.env.download.Received? && job.env.download.ok) then NotDownloaded
    else JudgeDownloaded(hash, Downloaded(files, job.env), manifest.value, job.env)
  }

  /** The disk after each write from the backup on. */
  function InstallTrace(b: Files, env: Env, v: Verdict): seq<Files> {
    FlashTrace(b, env) + if v == FlashDone then [] else RollbackTrace(Flashed(b, env), env)
  }

  /** The disk after each write from the download on. */
  function DownloadedTrace(d: Files, env: Env, v: Verdict): seq<Files> {
    if v == Rejected then [d - {Firmware}]
    else if v == NotBackedUp then BackupTrace(d, env)
    else BackupTrace(d, env) + InstallTrace(BackedUp(d, env), env, v)
  }

  /** The disk after each write of one command, in the order of the writes. */
  function Trace(files: Files, env: Env, v: Verdict): seq<Files> {
    if v in {BadManifest, NotReady} then []
    else
      DownloadTrace(files, env.download)
      + if v == NotDownloaded then [] else DownloadedTrace(Downloaded(files, env), env, v)
  }

  /** The statuses on the way, and how many of them a command emits. */
  function Progress(id: string, version: string): (p: seq<Status>)
    ensures |p| == 4
  {
    [Status(id, MANIFEST_RECEIVED, version, "", 0), Status(id, DOWNLOADING, version, "", 10),
     Status(id, VERIFYING, version, "", 50), Status(id, INSTALLING, version, "", 75)]
  }

  lemma ProgressParts(id: string, version: string)
    ensures var p := Progress(id, version);
            && |p| == 4
            && p[..0] == []
            && p[..1] == [Status(id, MANIFEST_RECEIVED, version, "", 0)]
            && p[..2] == [Status(id, MANIFEST_RECEIVED, version, "", 0), Status(id, DOWNLOADING, version, "", 10)]
            && p[2..3] == [Status(id, VERIFYING, version, "", 50)]
            && p[2..4] == [Status(id, VERIFYING, version, "", 50), Status(id, INSTALLING, version, "", 75)]
  {
  }

  function Steps(v: Verdict): (n: nat)
    ensures n <= 4
  {
    match v
    case BadManifest => 0
    case NotReady => 1
    case NotDownloaded => 2
    case Rejected => 3
    case NotBackedUp => 3
    case _ => 4
  }

  function Final(id: string, version: string, v: Verdict): Status {
    match v
    case BadManifest => Status(id, FAILED, "", "Invalid manifest JSON", 0)
    case NotReady => Status(id, FAILED, version, "Preconditions not met", 0)
    case NotDownloaded => Status(id, FAILED, version, "Download failed", 0)
    case Rejected => Status(id, FAILED, version, "SHA256 mismatch — firmware rejected", 0)
    case NotBackedUp => Status(id, FAILED, version, "Backup failed — OTA aborted", 0)
    case FlashDone => Status(id, COMPLETE, version, "", 100)
    case _ => Status(id, ROLLED_BACK, version, "Flash failed — rolled back to previous firmware", 0)
  }

  /** The statuses from the verification on. */
  lemma InstallWord(id: string, version: string, v: Verdict)
    requires Steps(v) >= 3
    ensures Progress(id, version)[2..Steps(v)] + [Final(id, version, v)]
            == [Status(id, VERIFYING, version, "", 50)]
               + (if v.Rejected? || v.NotBackedUp? then [] else [Status(id, INSTALLING, version, "", 75)])
               + [Final(id, version, v)]
    ensures Final(id, version, Rejected)
            == Status(id, FAILED, version, "SHA256 mismatch — firmware rejected", 0)
    ensures Final(id, version, NotBackedUp) == Status(id, FAILED, version, "Backup failed — OTA aborted", 0)
    ensures Final(id, version, FlashDone) == Status(id, COMPLETE, version, "", 100)
    ensures v.RolledBack? || v.RollbackFailed? ==>
              Final(id, version, v)
              == Status(id, ROLLED_BACK, version, "Flash failed — rolled back to previous firmware", 0)
  {
    hide Progress;
    ProgressParts(id, version);
  }

  lemma InstallVerdict(b: Files, env: Env)
    ensures var v := JudgeBackedUp(b, env); v.FlashDone? || v.RolledBack? || v.RollbackFailed?
  {
  }

  function Version(cmd: Command): string {
    var manifest := ParseManifest(cmd.payload);
    if manifest.Some? then manifest.value.version else ""
  }

  /** The statuses of one command. */
  function Word(cmd: Command, v: Verdict): seq<Status> {
    Progress(cmd.correlationId, Version(cmd))[..Steps(v)] + [Final(cmd.correlationId, Version(cmd), v)]
  }

  // ----------------------------------------------------------------- whole runs

  ghost function JobTrace(hash: Hash, files: Files, job: Job): seq<Files> {
    Trace(files, job.env, Judge(hash, files, job))
  }

  /** The disk before job k of a run. */
  ghost function DiskBefore(hash: Hash, files: Files, jobs: seq<Job>, k: nat): Files
    requires k <= |jobs|
  {
    if k == 0 then files
    else
      var before := DiskBefore(hash, files, jobs, k - 1);
      Last(before, JobTrace(hash, before, jobs[k - 1]))
  }

  ghost function VerdictOf(hash: Hash, files: Files, jobs: seq<Job>, k: nat): Verdict
    requires k < |jobs|
  {
    Judge(hash, DiskBefore(hash, files, jobs, k), jobs[k])
  }

  ghost function TraceOf(hash: Hash, files: Files, jobs: seq<Job>, k: nat): seq<Files>
    requires k < |jobs|
  {
    JobTrace(hash, DiskBefore(hash, files, jobs, k), jobs[k])
  }

  ghost function HistoryOf(hash: Hash, files: Files, jobs: seq<Job>, k: nat): seq<Files>
    requires k <= |jobs|
  {
    if k == 0 then [] else HistoryOf(hash, files, jobs, k - 1) + TraceOf(hash, files, jobs, k - 1)
  }

  ghost function StatusLog(hash: Hash, files: Files, jobs: seq<Job>, k: nat): seq<Status>
    requires k <= |jobs|
  {
    if k == 0 then []
    else StatusLog(hash, files, jobs, k - 1) + Word(jobs[k - 1].cmd, VerdictOf(hash, files, jobs, k - 1))
  }

  class OtaAgent {
    const hash: Hash
    const disk: Disk
    /** Every status whose publication was attempted. */
    var statuses: seq<Status>

    constructor (hash: Hash, disk: Disk)
      ensures this.hash == hash && this.disk == disk && statuses == []
    {
      this.hash, this.disk, statuses := hash, disk, [];
    }

    method ReportStatus(id: string, state: OtaState, version: string, error: string, progress: int)
      modifies this
      ensures statuses == old(statuses) + [Status(id, state, version, error, progress)]
    {
      statuses := statuses + [Status(id, state, version, error, progress)];
    }

    method BackupCurrent(plan: CopyPlan) returns (ok: bool)
      modifies disk
      ensures ok == CopyOk(old(disk.files), Installed, plan)
      ensures var trace := CopyTrace(old(disk.files), Installed, Backup, plan);
              disk.history == old(disk.history) + trace && disk.files == Last(old(disk.files), trace)
    {
      ok := disk.Copy(Installed, Backup, plan);
    }

    method Rollback(plan: CopyPlan) returns (ok: bool)
      modifies disk
      ensures ok == CopyOk(old(disk.files), Backup, plan)
      ensures var trace := CopyTrace(old(disk.files), Backup, Installed, plan);
              disk.history == old(disk.history) + trace && disk.files == Last(old(disk.files), trace)
    {
      ok := disk.Copy(Backup, Installed, plan);
    }

    /** A failed copy is rolled back at once; whether the rollback succeeded is not looked at. */
    method FlashFirmware(env: Env) returns (ok: bool)
      modifies disk
      ensures ok == CopyOk(old(disk.files), Firmware, env.flash)
      ensures ok == (JudgeBackedUp(old(disk.files), env) == FlashDone)
      ensures var trace := InstallTrace(old(disk.files), env, JudgeBackedUp(old(disk.files), env));
              disk.history == old(disk.history) + trace && disk.files == Last(old(disk.files), trace)
    {
      hide CopyTrace, CopyOk;
      ghost var b := disk.files;
      ok := disk.Copy(Firmware, Installed, env.flash);
      if !ok {
        var _ := Rollback(env.rollback);
        LastAppend(b, FlashTrace(b, env), RollbackTrace(Flashed(b, env), env));
      }
    }

    /** The rest of the iteration once the firmware was downloaded. */
    method VerifyAndInstall(id: string, manifest: Manifest, env: Env)
      modifies this, disk
      ensures var v := JudgeDownloaded(hash, old(disk.files), manifest, env);
              var trace := DownloadedTrace(old(disk.files), env, v);
              && statuses == old(statuses)
                             + (Progress(id, manifest.version)[2..Steps(v)] + [Final(id, manifest.version, v)])
              && disk.history == old(disk.history) + trace
              && disk.files == Last(old(disk.files), trace)
    {
      hide CopyTrace, CopyOk, Matches, Last, InstallTrace, Progress, Steps, Final, JudgeBackedUp;
      var version := manifest.version;
      InstallWord(id, version, JudgeDownloaded(hash, disk.files, manifest, env));
      ghost var d := disk.files;
      ReportStatus(id, VERIFYING, version, "", 50);
      var file := if env.readable && Firmware in disk.files then Some(disk.files[Firmware]) else None;
      var verified := VerifySha256(hash, file, manifest.sha256);
      if !verified {
        ReportStatus(id, FAILED, version, "SHA256 mismatch — firmware rejected", 0);
        disk.Remove(Firmware);
        LastOfOne(d, disk.files);
        return;
      }
      var backedUp := BackupCurrent(env.backup);
      if !backedUp {
        ReportStatus(id, FAILED, version, "Backup failed — OTA aborted", 0);
        return;
      }
      ReportStatus(id, INSTALLING, version, "", 75);
      ghost var b := disk.files;
      var flashed := FlashFirmware(env);
      InstallVerdict(b, env);
      LastAppend(d, BackupTrace(d, env), InstallTrace(b, env, JudgeBackedUp(b, env)));
      if !flashed {
        ReportStatus(id, ROLLED_BACK, version, "Flash failed — rolled back to previous firmware", 0);
        return;
      }
      ReportStatus(id, COMPLETE, version, "", 100);
    }

    /** One iteration of the worker loop, for a command that was popped. */
    method RunCommand(cmd: Command, env: Env)
      modifies this, disk
      ensures var v := Judge(hash, old(disk.files), Job(cmd, env));
              var trace := Trace(old(disk.files), env, v);
              && statuses == old(statuses) + Word(cmd, v)
              && disk.history == old(disk.history) + trace
              && disk.files == Last(old(disk.files), trace)
    {
      hide ParseManifest, DownloadTrace, DownloadedTrace, JudgeDownloaded, Last, Progress;
      ghost var files := disk.files;
      LastOfNothing(files);
      var id := cmd.correlationId;
      ProgressParts(id, Version(cmd));
      var manifest := ParseManifest(cmd.payload);
      if manifest.None? {
        ReportStatus(id, FAILED, "", "Invalid manifest JSON", 0);
        return;
      }
      var version := manifest.value.version;
      ReportStatus(id, MANIFEST_RECEIVED, version, "", 0);
      if !env.preconditionsMet {
        ReportStatus(id, FAILED, version, "Preconditions not met", 0);
        return;
      }
      ReportStatus(id, DOWNLOADING, version, "", 10);
      var downloaded := disk.Receive(env.download);
      if !downloaded {
        ReportStatus(id, FAILED, version, "Download failed", 0);
        assert DownloadTrace(files, env.download) + [] == DownloadTrace(files, env.download);
        return;
      }
      ghost var d := disk.files;
      VerifyAndInstall(id, manifest.value, env);
      ghost var v := JudgeDownloaded(hash, d, manifest.value, env);
      assert Progress(id, version)[..Steps(v)] == Progress(id, version)[..2] + Progress(id, version)[2..Steps(v)];
      LastAppend(files, DownloadTrace(files, env.download), DownloadedTrace(d, env, v));
    }

    /** The worker loop over the commands it pops before it is stopped. */
    method Run(jobs: seq<Job>)
      modifies this, disk
      ensures disk.files == DiskBefore(hash, old(disk.files), jobs, |jobs|)
      ensures disk.history == old(disk.history) + HistoryOf(hash, old(disk.files), jobs, |jobs|)
      ensures statuses == old(statuses) + StatusLog(hash, old(disk.files), jobs, |jobs|)
    {
      hide Judge, Trace, Word, Last;
      for k := 0 to |jobs|
        invariant disk.files == DiskBefore(hash, old(disk.files), jobs, k)
        invariant disk.history == old(disk.history) + HistoryOf(hash, old(disk.files), jobs, k)
        invariant statuses == old(statuses) + StatusLog(hash, old(disk.files), jobs, k)
      {
        assert Job(jobs[k].cmd, jobs[k].env) == jobs[k];
        RunCommand(jobs[k].cmd, jobs[k].env);
      }
    }
  }
}
