/** The install transaction: forward phase, rollback, and the whole run. */
module Installer {
  import opened Octets
  import opened FileTree
  import opened FileSystems
  import opened InstallNames
  import opened Preflight
  import opened InstallSteps
  import opened InstallJob

  function Base(rel: Path): Name
    requires rel != []
  {
    rel[|rel| - 1]
  }

  function InstallTemp(s: Site, rel: Path): Path
    requires rel != []
  {
    s.naming.Canon(Parent(rel) + ["." + Base(rel) + ".localsend-install-" + s.pid + ".part"])
  }

  function RollbackTemp(s: Site, rel: Path): Path
    requires rel != []
  {
    s.naming.Canon(Parent(rel) + ["." + Base(rel) + ".localsend-rollback-" + s.pid + ".part"])
  }

  function BackupDir(s: Site): Path { [s.naming.canon(BACKUP_DIR)] }

  function BackupRoot(s: Site): Path { [s.naming.canon(BACKUP_DIR), s.naming.canon(s.tx)] }

  /** The job's scratch names are the ones this site uses. */
  ghost predicate SiteFits(s: Site, j: Job) {
    && j.root == BackupRoot(s) && j.spare == BackupDir(s) && j.undo <= j.temps
    && forall e :: e in j.es ==>
         && e.rel != [] && e.target == s.naming.Canon(e.rel)
         && (!e.dir ==> InstallTemp(s, e.rel) in j.temps && RollbackTemp(s, e.rel) in j.temps && RollbackTemp(s, e.rel) in j.undo)
  }

  lemma TempBeside(s: Site, rel: Path)
    requires rel != []
    ensures InstallTemp(s, rel) != [] && RollbackTemp(s, rel) != [] && s.naming.Canon(rel) != []
    ensures Parent(InstallTemp(s, rel)) == Parent(s.naming.Canon(rel))
    ensures Parent(RollbackTemp(s, rel)) == Parent(s.naming.Canon(rel))
  {
    var n := |rel| - 1;
    s.naming.CanonPrefix(rel, n);
    s.naming.CanonPrefix(Parent(rel) + ["." + Base(rel) + ".localsend-install-" + s.pid + ".part"], n);
    s.naming.CanonPrefix(Parent(rel) + ["." + Base(rel) + ".localsend-rollback-" + s.pid + ".part"], n);
    assert (Parent(rel) + ["." + Base(rel) + ".localsend-install-" + s.pid + ".part"])[..n] == rel[..n];
    assert (Parent(rel) + ["." + Base(rel) + ".localsend-rollback-" + s.pid + ".part"])[..n] == rel[..n];
  }

  ghost predicate Next(j: Job, e: Entry, applied: seq<Applied>) {
    e in j.es && !e.dir && e.target !in Targets(applied)
  }

  /** The undo record about to be appended for `e`. */
  ghost predicate RecordFor(j: Job, e: Entry, a: Applied) {
    && a.target == e.target && a.rel == e.rel && a.backup == j.root + e.target
    && (a.existed <==> e.target in j.t0)
    && (a.existed ==> j.t0[e.target].File? && a.mode == j.t0[e.target].mode && a.mtime == j.t0[e.target].mtime)
  }

  lemma CopiedBackup(j: Job, t: Tree, u: Tree, applied: seq<Applied>, created: seq<Path>, e: Entry)
    requires Sound(j) && Forward(j, t, applied, created) && Next(j, e, applied) && IsDir(t, Parent(e.target))
    requires CopyState(u, t, j.root + e.target, DataAt(t, e.target))
    ensures Ledger(j, u, applied, created) && NoTemps(j, u) && RootHolds(j, u, Targets(applied) + {e.target})
    ensures SameAt(u, j.t0, e.target) && IsDir(u, Parent(e.target))
  {
    LedgerCopy(j, t, u, applied, created, e.target, DataAt(t, e.target));
    CopySame(j, t, u, e.target, DataAt(t, e.target));
    TargetUntouched(j, t, applied, created, e);
    TargetUntouched(j, u, applied, created, e);
    assert SameAt(u, t, Parent(e.target));
  }

  /** Everything the backup step relies on. */
  lemma BackUpReady(s: Site, j: Job, t: Tree, applied: seq<Applied>, created: seq<Path>, e: Entry)
    requires Sound(j) && SiteFits(s, j) && Next(j, e, applied)
    requires Forward(j, t, applied, created) && IsDir(t, Parent(e.target))
    ensures ParentClosed(t) && Recoverable(j, t)
    ensures BackupRoot(s) == j.root && e.target != [] && j.root + e.target != []
    ensures MissingErrno(t, e.target) == NotExist
    ensures j.root + e.target !in t && !Obstructed(t, Parent(j.root + e.target))
    ensures e.target in t <==> e.target in j.t0
    ensures e.target in t ==> t[e.target].File? && t[e.target] == j.t0[e.target] && |DataAt(t, e.target)| == Existing(j.t0, e)
    ensures e.target !in t ==> Existing(j.t0, e) == 0
    ensures CopyState(t, t, j.root + e.target, DataAt(t, e.target))
  {
    LedgerRecoverable(j, t, applied, created);
    TargetUntouched(j, t, applied, created, e);
    BackupIsClear(j, t, applied, created, e);
    AbsentBelowDir(t, e.target);
  }

  /** Lstat the target and, if a file is there, copy it into the transaction directory. */
  method BackUpTarget(s: Site, fs: FileSystem, e: Entry, applied: seq<Applied>, created: seq<Path>, ghost j: Job)
    returns (ok: bool, a: Applied)
    requires Sound(j) && SiteFits(s, j) && Next(j, e, applied)
    requires Forward(j, fs.tree, applied, created) && IsDir(fs.tree, Parent(e.target))
    requires fs.Recorded()
    modifies fs
    ensures fs.Recorded()
    ensures ParentClosed(fs.tree) && fs.faults >= old(fs.faults) && fs.ignored >= old(fs.ignored)
    ensures Ledger(j, fs.tree, applied, created)
    ensures SameAt(fs.tree, j.t0, e.target) && IsDir(fs.tree, Parent(e.target))
    ensures NoTemps(j, fs.tree) && RootHolds(j, fs.tree, Targets(applied) + {e.target})
    ensures ok ==> RecordFor(j, e, a) && (a.existed ==> Kept(j, fs.tree, e.target))
    ensures ok ==> BytesIn(fs.tree) == BytesIn(old(fs.tree)) + Existing(j.t0, e)
    ensures !ok ==> fs.faults > old(fs.faults)
    ensures old(fs.history) <= fs.history
    ensures SafeTrace(j, fs.history, |old(fs.history)|, BytesIn(old(fs.tree)) + Existing(j.t0, e))
  {
    hide Ledger, RootHolds, NoTemps, SafeTrace, Recoverable, CopyState, CopyTrace, Obstructed, ParentClosed;
    hide Sound, Forward, SiteFits, Next, SameAt, Existing, BytesIn;
    ghost var t, h := fs.tree, fs.history;
    a := Applied(e.rel, e.target, BackupRoot(s) + e.target, false, 0, 0);
    SafeTraceRefl(j, h, BytesIn(t) + Existing(j.t0, e));
    BackUpReady(s, j, t, applied, created, e);
    CopiedBackup(j, t, t, applied, created, e);
    var node, err := fs.Lstat(e.target);
    if err == NotExist { return true, a; }
    if err != Ok { return false, a; }
    if !node.File? { return false, a; }
    a := a.(existed := true, mode := node.mode, mtime := node.mtime);
    ok := CopyExact(fs, e.target, a.backup, node.mode);
    CopyTraceSafe(j, fs.history, |h|, t, e.target, DataAt(t, e.target));
    CopiedBackup(j, t, fs.tree, applied, created, e);
  }

  /** The state between backing up and writing one file. */
  ghost predicate BackedUp(j: Job, t: Tree, applied: seq<Applied>, created: seq<Path>, e: Entry, a: Applied) {
    && ParentClosed(t) && Ledger(j, t, applied, created)
    && SameAt(t, j.t0, e.target) && e.target != [] && IsDir(t, Parent(e.target))
    && NoTemps(j, t) && RootHolds(j, t, Targets(applied) + {e.target})
    && RecordFor(j, e, a) && (a.existed ==> Kept(j, t, e.target))
  }

  lemma WriteReady(s: Site, j: Job, t: Tree, applied: seq<Applied>, created: seq<Path>, e: Entry, a: Applied)
    requires Sound(j) && SiteFits(s, j) && Next(j, e, applied) && BackedUp(j, t, applied, created, e, a)
    ensures e in j.es && !e.dir && e.rel != [] && e.target != [] && InstallTemp(s, e.rel) in j.temps
    ensures InstallTemp(s, e.rel) != [] && Parent(InstallTemp(s, e.rel)) == Parent(e.target)
    ensures Renamable(t, e, InstallTemp(s, e.rel)) && Recoverable(j, t) && ParentClosed(t)
    ensures e.target in j.t0 ==> Kept(j, t, e.target)
    ensures (if e.target in t then Size(t[e.target]) else 0) == Existing(j.t0, e)
  {
    LedgerRecoverable(j, t, applied, created);
    TempBeside(s, e.rel);
    PlainTarget(j, e);
  }

  lemma WriteSucceeded(j: Job, t: Tree, u: Tree, applied: seq<Applied>, created: seq<Path>, e: Entry, a: Applied)
    requires Sound(j) && Next(j, e, applied) && BackedUp(j, t, applied, created, e, a)
    requires EntryDone(u, t, e) && u[e.target].mode == e.mode && ParentClosed(u)
    ensures Forward(j, u, applied + [a], created) && Targets(applied + [a]) == Targets(applied) + {e.target}
  {
    LedgerDone(j, t, u, applied, created, e, a);
    PlainTarget(j, e);
    forall q | Scratch(j, q)
      ensures SameAt(u, t, q)
    {
      DoneOnly(t, u, e, q);
    }
    ScratchSame(j, t, u, Targets(applied) + {e.target});
  }

  lemma WriteFailed(j: Job, t: Tree, u: Tree, applied: seq<Applied>, created: seq<Path>, e: Entry, a: Applied, tmp: Path)
    requires Sound(j) && BackedUp(j, t, applied, created, e, a) && tmp in j.temps
    requires FillState(u, t, tmp, Limited(e))
    ensures Ledger(j, u, applied, created) && TempFiles(j, u) && (u == t ==> NoTemps(j, u))
  {
    LedgerFill(j, t, u, applied, created, tmp, Limited(e));
  }

  /** Write one backed-up file and record it. */
  method WriteTarget(s: Site, fs: FileSystem, e: Entry, applied: seq<Applied>, created: seq<Path>, a: Applied, ghost j: Job)
    returns (ok: bool, applied': seq<Applied>)
    requires Sound(j) && SiteFits(s, j) && Next(j, e, applied) && BackedUp(j, fs.tree, applied, created, e, a)
    requires fs.Recorded()
    modifies fs
    ensures fs.Recorded()
    ensures ParentClosed(fs.tree) && fs.faults >= old(fs.faults) && fs.ignored >= old(fs.ignored)
    ensures Ledger(j, fs.tree, applied', created)
    ensures ok ==> Forward(j, fs.tree, applied', created) && applied' == applied + [a] && Targets(applied') == Targets(applied) + {e.target}
    ensures ok ==> GoodPayload(e) && BytesIn(fs.tree) == BytesIn(old(fs.tree)) + e.size - Existing(j.t0, e)
    ensures !ok ==> applied' == applied && TempFiles(j, fs.tree) && (fs.ignored == old(fs.ignored) ==> NoTemps(j, fs.tree))
    ensures !ok ==> fs.faults > old(fs.faults) || !GoodPayload(e)
    ensures old(fs.history) <= fs.history
    ensures SafeTrace(j, fs.history, |old(fs.history)|, BytesIn(old(fs.tree)) + e.size + 1)
  {
    hide Sound, SiteFits, Next, BackedUp, Ledger, Forward, NoTemps, TempFiles, SafeTrace, Recoverable, EntryTrace, FillState, ParentClosed;
    hide Existing, Kept, Renamable, GoodPayload, RecordFor, BytesIn, EntryDone, Limited, RootHolds, SameAt, InstallTemp, Targets;
    ghost var t, h := fs.tree, fs.history;
    WriteReady(s, j, t, applied, created, e, a);
    ok := WriteEntryAtomic(fs, e, InstallTemp(s, e.rel));
    EntryTraceSafe(j, fs.history, |h|, t, e, InstallTemp(s, e.rel));
    applied' := if ok then applied + [a] else applied;
    WriteOutcome(s, j, t, fs.tree, applied, created, e, a, ok);
  }

  /** Either way the undo log stays truthful. */
  lemma WriteOutcome(s: Site, j: Job, t: Tree, u: Tree, applied: seq<Applied>, created: seq<Path>, e: Entry, a: Applied, ok: bool)
    requires Sound(j) && SiteFits(s, j) && Next(j, e, applied) && BackedUp(j, t, applied, created, e, a)
    requires e.rel != [] && ParentClosed(u)
    requires ok ==> EntryDone(u, t, e) && u[e.target].mode == e.mode
    requires !ok ==> FillState(u, t, InstallTemp(s, e.rel), Limited(e))
    ensures Ledger(j, u, if ok then applied + [a] else applied, created)
    ensures ok ==> Forward(j, u, applied + [a], created) && Targets(applied + [a]) == Targets(applied) + {e.target}
    ensures ok ==> GoodPayload(e) && BytesIn(u) == BytesIn(t) + e.size - Existing(j.t0, e)
    ensures !ok ==> TempFiles(j, u) && (u == t ==> NoTemps(j, u))
  {
    WriteReady(s, j, t, applied, created, e, a);
    hide Sound, SiteFits, Next, BackedUp, Ledger, NoTemps, TempFiles, Recoverable, FillState, ParentClosed, Existing, RootHolds, GoodPayload;
    if ok {
      DoneBytes(t, u, e);
      WriteSucceeded(j, t, u, applied, created, e, a);
    } else {
      WriteFailed(j, t, u, applied, created, e, a, InstallTemp(s, e.rel));
    }
  }

  lemma DoneBytes(t: Tree, u: Tree, e: Entry)
    requires EntryDone(u, t, e)
    ensures GoodPayload(e)
    ensures BytesIn(u) == BytesIn(t) + e.size - (if e.target in t then Size(t[e.target]) else 0)
  {
  }

  lemma BackedUpIntro(j: Job, t: Tree, applied: seq<Applied>, created: seq<Path>, e: Entry, a: Applied)
    requires ParentClosed(t) && Ledger(j, t, applied, created)
    requires SameAt(t, j.t0, e.target) && e.target != [] && IsDir(t, Parent(e.target))
    requires NoTemps(j, t) && RootHolds(j, t, Targets(applied) + {e.target})
    requires RecordFor(j, e, a) && (a.existed ==> Kept(j, t, e.target))
    ensures BackedUp(j, t, applied, created, e, a)
  {
  }

  lemma InstallReady(s: Site, j: Job, t: Tree, applied: seq<Applied>, created: seq<Path>, e: Entry)
    requires Sound(j) && SiteFits(s, j) && Next(j, e, applied) && Forward(j, t, applied, created)
    ensures e in j.es && !e.dir && e.target != [] && ParentClosed(t) && Recoverable(j, t)
    ensures !Obstructed(t, Parent(e.target))
  {
    LedgerRecoverable(j, t, applied, created);
    WayIsClear(j, t, applied, created, e, Parent(e.target));
  }

  lemma ForwardFacts(j: Job, t: Tree, applied: seq<Applied>, created: seq<Path>)
    requires Forward(j, t, applied, created)
    ensures ParentClosed(t) && Ledger(j, t, applied, created) && NoTemps(j, t) && TempFiles(j, t)
  {
  }

  lemma NoTempsYet(j: Job, t: Tree)
    requires NoTemps(j, t)
    ensures TempFiles(j, t)
  {
  }

  lemma DirsBytes(t: Tree, u: Tree, d: Path)
    requires DirsState(u, t, d)
    ensures BytesIn(u) == BytesIn(t)
  {
  }

  lemma SafeTraceWiden(j: Job, h: seq<Tree>, n: nat, limit: int, bound: int)
    requires SafeTrace(j, h, n, limit) && limit <= bound
    ensures SafeTrace(j, h, n, bound)
  {
  }

  /** One round of the file loop: ensure the parents, back up, write, record. */
  method InstallFile(s: Site, fs: FileSystem, e: Entry, applied: seq<Applied>, created: seq<Path>, ghost j: Job)
    returns (ok: bool, applied': seq<Applied>, created': seq<Path>)
    requires Sound(j) && SiteFits(s, j) && Next(j, e, applied) && Forward(j, fs.tree, applied, created)
    requires fs.Recorded()
    modifies fs
    ensures fs.Recorded()
    ensures ParentClosed(fs.tree) && fs.faults >= old(fs.faults) && fs.ignored >= old(fs.ignored)
    ensures Ledger(j, fs.tree, applied', created')
    ensures ok ==> Forward(j, fs.tree, applied', created') && Targets(applied') == Targets(applied) + {e.target}
    ensures created <= created'
    ensures ok ==> |applied'| == |applied| + 1 && applied <= applied' && RecordFor(j, e, applied'[|applied|])
    ensures ok ==> GoodPayload(e) && BytesIn(fs.tree) == BytesIn(old(fs.tree)) + e.size
    ensures !ok ==> applied' == applied && TempFiles(j, fs.tree) && (fs.ignored == old(fs.ignored) ==> NoTemps(j, fs.tree))
    ensures !ok ==> fs.faults > old(fs.faults) || !GoodPayload(e)
    ensures old(fs.history) <= fs.history
    ensures SafeTrace(j, fs.history, |old(fs.history)|, BytesIn(old(fs.tree)) + Existing(j.t0, e) + e.size + 1)
  {
    hide Sound, SiteFits, Next, BackedUp, Ledger, Forward, NoTemps, TempFiles, SafeTrace, Recoverable, ParentClosed, RootHolds;
    hide Existing, Kept, GoodPayload, RecordFor, DirsTrace, DirsState, NewDirs, SameAt, Obstructed;
    ghost var t, h0 := fs.tree, fs.history;
    ghost var base := BytesIn(t);
    applied', created' := applied, created;
    InstallReady(s, j, t, applied, created, e);
    ok, created' := EnsureDirs(fs, Parent(e.target), created);
    ghost var t1, h1 := fs.tree, fs.history;
    LedgerDirs(j, t, t1, applied, created, e, Parent(e.target), created');
    DirsTraceSafe(j, h1, |h0|, t, e, Parent(e.target));
    DirsBytes(t, t1, Parent(e.target));
    ForwardFacts(j, t1, applied, created');
    if !ok {
      SafeTraceWiden(j, h1, |h0|, base, base + Existing(j.t0, e) + e.size + 1);
      return;
    }
    var a;
    ok, a := BackUpTarget(s, fs, e, applied, created', j);
    ghost var h2 := fs.history;
    NoTempsYet(j, fs.tree);
    SafeTraceAppend(j, h1, |h0|, h2, |h1|, base, base + Existing(j.t0, e), base + Existing(j.t0, e) + e.size + 1);
    if !ok { return; }
    assert BackedUp(j, fs.tree, applied, created', e, a) by { BackedUpIntro(j, fs.tree, applied, created', e, a); }
    ok, applied' := WriteTarget(s, fs, e, applied, created', a, j);
    SafeTraceAppend(j, h2, |h0|, fs.history, |h2|,
      base + Existing(j.t0, e) + e.size + 1, base + Existing(j.t0, e) + e.size + 1, base + Existing(j.t0, e) + e.size + 1);
  }
}
