/** The whole run: preflight, space check, directories, files, and either cleanup or rollback. */
module InstallRun {
  import opened Octets
  import opened Options
  import opened FileTree
  import opened FileSystems
  import opened InstallNames
  import opened Preflight
  import opened InstallSteps
  import opened InstallJob
  import opened Installer
  import opened Rollback
  import opened InstallSite

  ghost predicate DirsRecorded(t0: Tree, es: seq<Entry>, created: seq<Path>) {
    forall e :: e in es && e.dir ==> e.target in t0 || e.target in created
  }

  lemma DirReady(j: Job, t: Tree, created: seq<Path>, e: Entry)
    requires Sound(j) && Forward(j, t, [], created) && e in j.es && e.dir
    ensures ParentClosed(t) && Recoverable(j, t) && !Obstructed(t, e.target)
  {
    LedgerRecoverable(j, t, [], created);
    WayIsClear(j, t, [], created, e, e.target);
  }

  lemma DirEnsured(j: Job, t: Tree, es: seq<Entry>, created: seq<Path>, e: Entry)
    requires Sound(j) && Forward(j, t, [], created) && e in j.es
    requires IsDir(t, e.target) && DirsRecorded(j.t0, es, created)
    ensures DirsRecorded(j.t0, es + [e], created)
  {
    PlainTarget(j, e);
    assert e.target in created || SameAt(t, j.t0, e.target);
  }

  /** First loop of the install: the directory entries. */
  method InstallDirs(fs: FileSystem, es: seq<Entry>, ghost j: Job) returns (ok: bool, created: seq<Path>, count: nat)
    requires Sound(j) && es == j.es && Forward(j, fs.tree, [], [])
    requires fs.Recorded()
    modifies fs`tree, fs`history, fs`faults
    ensures fs.Recorded()
    ensures fs.faults >= old(fs.faults) && Forward(j, fs.tree, [], created)
    ensures ok ==> DirsRecorded(j.t0, es, created) && count == CountDirs(es)
    ensures !ok ==> fs.faults > old(fs.faults)
    ensures BytesIn(fs.tree) == BytesIn(old(fs.tree))
    ensures old(fs.history) <= fs.history && SafeTrace(j, fs.history, |old(fs.history)|, BytesIn(old(fs.tree)))
  {
    hide Sound, Forward, SafeTrace, ParentClosed, Recoverable, Obstructed, DirsState, DirsTrace, NewDirs, DirsRecorded, BytesIn;
    ghost var h0, base := fs.history, BytesIn(fs.tree);
    created, count := [], 0;
    SafeTraceRefl(j, h0, base);
    assert DirsRecorded(j.t0, es[..0], created) by { NoDirsRecorded(j.t0); }
    for i := 0 to |es|
      invariant fs.Recorded()
      invariant fs.faults >= old(fs.faults) && Forward(j, fs.tree, [], created)
      invariant DirsRecorded(j.t0, es[..i], created) && count == CountDirs(es[..i])
      invariant BytesIn(fs.tree) == base
      invariant h0 <= fs.history && SafeTrace(j, fs.history, |h0|, base)
    {
      var e := es[i];
      assert es[..i + 1][..i] == es[..i] && es[..i + 1] == es[..i] + [e];
      DirsRecordedMore(j.t0, es[..i], e, created, created);
      if e.dir {
        ghost var t, h, before := fs.tree, fs.history, created;
        DirReady(j, t, created, e);
        ok, created := EnsureDirs(fs, e.target, created);
        LedgerDirs(j, t, fs.tree, [], before, e, e.target, created);
        DirsTraceSafe(j, fs.history, |h|, t, e, e.target);
        DirsBytes(t, fs.tree, e.target);
        SafeTraceAppend(j, h, |h0|, fs.history, |h|, base, base, base);
        if !ok { return; }
        DirsRecordedMore(j.t0, es[..i], e, before, created);
        DirEnsured(j, fs.tree, es[..i], created, e);
        count := count + 1;
      }
    }
    assert es[..|es|] == es;
    ok := true;
  }

  lemma NoDirsRecorded(t0: Tree)
    ensures DirsRecorded(t0, [], [])
  {
  }

  lemma DirsRecordedMore(t0: Tree, es: seq<Entry>, e: Entry, created: seq<Path>, created': seq<Path>)
    requires DirsRecorded(t0, es, created) && created <= created'
    ensures DirsRecorded(t0, es, created') && (!e.dir ==> DirsRecorded(t0, es + [e], created'))
  {
    assert forall d :: d in created ==> d in created';
  }

  lemma FileTargetsSnoc(es: seq<Entry>, i: nat)
    requires i < |es|
    ensures FileTargets(es[..i + 1]) == FileTargets(es[..i]) + if es[i].dir then {} else {es[i].target}
    ensures DistinctPaths(es) ==> es[i].target !in FileTargets(es[..i])
  {
    assert forall e :: e in es[..i + 1] <==> e in es[..i] || e == es[i] by {
      assert es[..i + 1] == es[..i] + [es[i]];
    }
  }

  lemma {:induction false} PrefixSums(t: Tree, es: seq<Entry>, i: nat)
    requires i < |es|
    ensures SumSizes(es[..i]) + es[i].size == SumSizes(es[..i + 1]) <= SumSizes(es)
    ensures Existing(t, es[i]) <= MaxExisting(t, es)
  {
    assert es[..i + 1][..i] == es[..i];
    SumConcat(es[..i + 1], es[i + 1..]);
    assert es[..i + 1] + es[i + 1..] == es;
    if i < |es| - 1 {
      PrefixSums(t, es[..|es| - 1], i);
    }
  }

  /** What the file loop knows when it reaches entry `i`. */
  lemma FileRound(j: Job, applied: seq<Applied>, i: nat)
    requires Sound(j) && i < |j.es| && Targets(applied) == FileTargets(j.es[..i])
    ensures FileTargets(j.es[..i + 1]) == Targets(applied) + if j.es[i].dir then {} else {j.es[i].target}
    ensures if j.es[i].dir then j.es[i].size == 0 else Next(j, j.es[i], applied)
    ensures SumSizes(j.es[..i]) + j.es[i].size == SumSizes(j.es[..i + 1]) <= SumSizes(j.es)
    ensures Existing(j.t0, j.es[i]) <= MaxExisting(j.t0, j.es)
    ensures CountFiles(j.es[..i + 1]) == CountFiles(j.es[..i]) + if j.es[i].dir then 0 else 1
    ensures CountReplaced(j.t0, j.es[..i + 1]) ==
            CountReplaced(j.t0, j.es[..i]) + if !j.es[i].dir && j.es[i].target in j.t0 then 1 else 0
    ensures CountCreated(j.t0, j.es[..i + 1]) ==
            CountCreated(j.t0, j.es[..i]) + if !j.es[i].dir && j.es[i].target !in j.t0 then 1 else 0
  {
    hide Sound, Targets, FileTargets, SumSizes, MaxExisting, Existing, DistinctPaths;
    RoundPaths(j, i);
    FileTargetsSnoc(j.es, i);
    PrefixSums(j.t0, j.es, i);
    assert j.es[i] in j.es && j.es[..i + 1][..i] == j.es[..i];
  }

  lemma RoundPaths(j: Job, i: nat)
    requires Sound(j) && i < |j.es|
    ensures DistinctPaths(j.es) && (j.es[i].dir ==> j.es[i].size == 0)
  {
  }

  /** Second loop of the install: the file entries. */
  method InstallFiles(s: Site, fs: FileSystem, es: seq<Entry>, created0: seq<Path>, ghost j: Job)
    returns (ok: bool, applied: seq<Applied>, created: seq<Path>, replaced: nat, added: nat)
    requires Sound(j) && SiteFits(s, j) && es == j.es && Forward(j, fs.tree, [], created0)
    requires fs.Recorded()
    modifies fs
    ensures fs.Recorded()
    ensures ParentClosed(fs.tree) && fs.faults >= old(fs.faults) && fs.ignored >= old(fs.ignored)
    ensures Ledger(j, fs.tree, applied, created) && created0 <= created
    ensures ok ==> Forward(j, fs.tree, applied, created) && Targets(applied) == FileTargets(es)
    ensures ok ==> |applied| == CountFiles(es) && replaced == CountReplaced(j.t0, es) && added == CountCreated(j.t0, es)
    ensures ok ==> forall i :: 0 <= i < |es| && !es[i].dir ==> GoodPayload(es[i])
    ensures ok ==> BytesIn(fs.tree) == BytesIn(old(fs.tree)) + SumSizes(es)
    ensures !ok ==> TempFiles(j, fs.tree) && (fs.ignored == old(fs.ignored) ==> NoTemps(j, fs.tree))
    ensures !ok ==> fs.faults > old(fs.faults) || exists i :: 0 <= i < |es| && !es[i].dir && !GoodPayload(es[i])
    ensures old(fs.history) <= fs.history
    ensures SafeTrace(j, fs.history, |old(fs.history)|, BytesIn(old(fs.tree)) + SumSizes(es) + MaxExisting(j.t0, es) + 1)
  {
    hide Sound, SiteFits, Forward, SafeTrace, ParentClosed, Recoverable, Ledger, NoTemps, TempFiles, BytesIn, GoodPayload, Next, Existing;
    hide MaxExisting, DistinctPaths, Targets, FileTargets, SumSizes, CountFiles, CountReplaced, CountCreated;
    ghost var h0, base := fs.history, BytesIn(fs.tree);
    ghost var limit := base + SumSizes(es) + MaxExisting(j.t0, es) + 1;
    applied, created, replaced, added := [], created0, 0, 0;
    SafeTraceRefl(j, h0, limit);
    ForwardFacts(j, fs.tree, applied, created);
    NoTargetsYet(j.t0, es);
    for i := 0 to |es|
      invariant fs.Recorded()
      invariant fs.faults >= old(fs.faults) && fs.ignored >= old(fs.ignored)
      invariant Forward(j, fs.tree, applied, created) && created0 <= created
      invariant Targets(applied) == FileTargets(es[..i])
      invariant |applied| == CountFiles(es[..i]) && replaced == CountReplaced(j.t0, es[..i]) && added == CountCreated(j.t0, es[..i])
      invariant forall k :: 0 <= k < i && !es[k].dir ==> GoodPayload(es[k])
      invariant BytesIn(fs.tree) == base + SumSizes(es[..i])
      invariant h0 <= fs.history && SafeTrace(j, fs.history, |h0|, limit)
    {
      var e := es[i];
      ghost var t, h := fs.tree, fs.history;
      FileRound(j, applied, i);
      if e.dir { continue; }
      ok, applied, created := InstallFile(s, fs, e, applied, created, j);
      SafeTraceAppend(j, h, |h0|, fs.history, |h|, limit, BytesIn(t) + Existing(j.t0, e) + e.size + 1, limit);
      if !ok { return; }
      if applied[|applied| - 1].existed { replaced := replaced + 1; } else { added := added + 1; }
      assert RecordFor(j, e, applied[|applied| - 1]);
    }
    assert es[..|es|] == es;
    ForwardFacts(j, fs.tree, applied, created);
    ok := true;
  }

  lemma NoTargetsYet(t0: Tree, es: seq<Entry>)
    ensures Targets([]) == FileTargets(es[..0]) && SumSizes(es[..0]) == 0
    ensures CountFiles(es[..0]) == 0 && CountReplaced(t0, es[..0]) == 0 && CountCreated(t0, es[..0]) == 0
  {
  }

  /** The installed tree, outside scratch space: new file contents at every target, the old
      directories plus those the archive names or implies, and everything else as it was. */
  ghost predicate Overlay(j: Job, t: Tree) {
    && (forall p :: p in j.want ==> p in t && t[p].File? && t[p].data == Content(j.want[p]) && t[p].mode == j.want[p].mode)
    && (forall p :: !Scratch(j, p) && p !in j.want && p in j.t0 ==> SameAt(t, j.t0, p))
    && (forall p :: !Scratch(j, p) && p !in j.want && p !in j.t0 ==> (p in t <==> Needed(j, p)) && (p in t ==> t[p] == Dir))
  }

  ghost predicate OverlayTrace(j: Job, h: seq<Tree>, n: nat) {
    n <= |h| && forall i :: n <= i < |h| ==> Overlay(j, h[i])
  }

  lemma AllTargetsPresent(j: Job, t: Tree, applied: seq<Applied>, created: seq<Path>, e: Entry)
    requires Sound(j) && Forward(j, t, applied, created) && Targets(applied) == FileTargets(j.es)
    requires DirsRecorded(j.t0, j.es, created) && e in j.es
    ensures e.target in t
  {
    if e.dir {
      NeededFacts(j, e.target);
      RecordOf(j, t, applied, created, e.target);
      if e.target !in created { assert SameAt(t, j.t0, e.target); }
    } else {
      assert e.target in FileTargets(j.es);
      RecordOf(j, t, applied, created, e.target);
    }
  }

  lemma NeededPresent(j: Job, t: Tree, applied: seq<Applied>, created: seq<Path>, q: Path)
    requires Sound(j) && Forward(j, t, applied, created) && Targets(applied) == FileTargets(j.es)
    requires DirsRecorded(j.t0, j.es, created) && Needed(j, q)
    ensures q in t
  {
    var e :| e in j.es && (q < e.target || (e.dir && q == e.target));
    AllTargetsPresent(j, t, applied, created, e);
    if q < e.target { AncestorsAreDirs(t, q, e.target); }
  }

  lemma RecordsWhole(j: Job, t: Tree, applied: seq<Applied>, created: seq<Path>)
    requires Sound(j) && Ledger(j, t, applied, created) && Targets(applied) == FileTargets(j.es)
    ensures forall p :: p in j.want ==> p in t && t[p].File? && t[p].data == Content(j.want[p]) && t[p].mode == j.want[p].mode
  {
    forall p | p in j.want
      ensures p in t && t[p].File? && t[p].data == Content(j.want[p]) && t[p].mode == j.want[p].mode
    {
      assert j.want[p] in j.es && p in FileTargets(j.es);
      var i :| 0 <= i < |applied| && applied[i].target == p;
      assert GoodRecord(j, t, applied[i]);
    }
  }

  lemma ForwardOverlay(j: Job, t: Tree, applied: seq<Applied>, created: seq<Path>)
    requires Sound(j) && Forward(j, t, applied, created) && Targets(applied) == FileTargets(j.es)
    requires DirsRecorded(j.t0, j.es, created)
    ensures Overlay(j, t)
  {
    ForwardFacts(j, t, applied, created);
    hide Sound, Scratch, Needed, Ledger, Forward, Kept, TargetWhole, FileTargets, Targets, DirsRecorded;
    LedgerRecoverable(j, t, applied, created);
    RecordsWhole(j, t, applied, created);
    forall p | Needed(j, p)
      ensures p in t
    {
      NeededPresent(j, t, applied, created, p);
    }
  }

  lemma OverlayFrame(j: Job, t: Tree, u: Tree)
    requires Sound(j) && Overlay(j, t) && forall q :: !Scratch(j, q) ==> SameAt(u, t, q)
    ensures Overlay(j, u)
  {
    hide Scratch, Needed, Overlay, SameAt, ParentClosed;
    forall p | p in j.want
      ensures SameAt(u, t, p)
    {
      PlainTarget(j, j.want[p]);
    }
    hide Sound;
    OverlaySame(j, t, u);
  }

  lemma OverlaySame(j: Job, t: Tree, u: Tree)
    requires Overlay(j, t) && (forall q :: !Scratch(j, q) ==> SameAt(u, t, q)) && forall p :: p in j.want ==> SameAt(u, t, p)
    ensures Overlay(j, u)
  {
    hide Scratch, Needed;
    forall p | !Scratch(j, p) && p !in j.want
      ensures p in j.t0 ==> SameAt(u, j.t0, p)
      ensures p !in j.t0 ==> (p in u <==> Needed(j, p)) && (p in u ==> u[p] == Dir)
    {
      assert SameAt(u, t, p);
      if p in j.t0 { assert SameAt(t, j.t0, p); }
    }
  }

  lemma BelowFresh(j: Job, u: Tree, q: Path)
    requires Sound(j) && DirsState(u, j.t0, j.root) && j.root <= q && q != j.root
    ensures q !in u
  {
    if q in j.t0 { AncestorsAreDirs(j.t0, j.root, q); }
    assert !(q <= j.root);
  }

  lemma SetupPlain(j: Job, u: Tree, q: Path)
    requires Sound(j) && DirsState(u, j.t0, j.root) && !(j.root <= q) && q != j.spare
    ensures SameAt(u, j.t0, q)
  {
    if q <= j.root {
      assert |q| == 0;
      assert q == [];
    }
  }

  /** Making the transaction directory changes nothing outside scratch space. */
  lemma SetupState(j: Job, u: Tree)
    requires Sound(j) && DirsState(u, j.t0, j.root)
    ensures Ledger(j, u, [], []) && Recoverable(j, u) && NoTemps(j, u) && BytesIn(u) == BytesIn(j.t0)
    ensures ParentClosed(u) && IsDir(u, j.root) ==> Forward(j, u, [], [])
  {
    forall q | !(j.root <= q) && q != j.spare
      ensures SameAt(u, j.t0, q)
    {
      SetupPlain(j, u, q);
    }
    forall q | j.root <= q && q != j.root
      ensures q !in u
    {
      BelowFresh(j, u, q);
    }
    assert Ledger(j, u, [], []);
    LedgerRecoverable(j, u, [], []);
    if ParentClosed(u) && IsDir(u, j.root) { assert Parent(j.root) == j.spare && IsDir(u, Parent(j.root)); }
  }

  lemma SetupTrace(j: Job, h: seq<Tree>, n: nat)
    requires Sound(j) && DirsTrace(h, n, j.t0, j.root)
    ensures SafeTrace(j, h, n, BytesIn(j.t0))
  {
    hide Sound, Recoverable, DirsState, Ledger, NoTemps, ParentClosed, Forward;
    forall i | n <= i < |h|
      ensures Recoverable(j, h[i]) && BytesIn(h[i]) <= BytesIn(j.t0)
    {
      SetupState(j, h[i]);
    }
  }

  datatype InstallResult = InstallResult(files: nat, directories: nat, replaced: nat, created: nat, bytes: nat)

  datatype Outcome =
    | Rejected
    | NoSpace
    | SetupFailed
    | Completed(result: InstallResult)
    | RolledBack
    | RollbackIncomplete

  /** The counters an install of `es` over `t0` reports. */
  function Report(t0: Tree, es: seq<Entry>): InstallResult {
    InstallResult(CountFiles(es), CountDirs(es), CountReplaced(t0, es), CountCreated(t0, es), SumSizes(es))
  }

  ghost predicate GoodPayloads(es: seq<Entry>) {
    forall i :: 0 <= i < |es| && !es[i].dir ==> GoodPayload(es[i])
  }

  /** Every file counted is counted once more, as replaced or as created. */
  lemma {:induction false} FilesAddUp(t0: Tree, es: seq<Entry>)
    ensures Report(t0, es).files == Report(t0, es).replaced + Report(t0, es).created
  {
    if es != [] { FilesAddUp(t0, es[..|es| - 1]); }
  }

  /** Both loops. */
  method RunForward(s: Site, fs: FileSystem, es: seq<Entry>, ghost j: Job)
    returns (ok: bool, applied: seq<Applied>, created: seq<Path>, res: InstallResult)
    requires Sound(j) && SiteFits(s, j) && es == j.es && Forward(j, fs.tree, [], [])
    requires fs.Recorded()
    modifies fs
    ensures fs.Recorded()
    ensures ParentClosed(fs.tree) && fs.faults >= old(fs.faults) && fs.ignored >= old(fs.ignored)
    ensures Ledger(j, fs.tree, applied, created)
    ensures ok ==> Overlay(j, fs.tree) && NoTemps(j, fs.tree) && GoodPayloads(es) && res == Report(j.t0, es)
    ensures !ok ==> TempFiles(j, fs.tree) && (fs.ignored == old(fs.ignored) ==> NoTemps(j, fs.tree))
    ensures !ok ==> fs.faults > old(fs.faults) || !GoodPayloads(es)
    ensures old(fs.history) <= fs.history
    ensures SafeTrace(j, fs.history, |old(fs.history)|, BytesIn(old(fs.tree)) + SumSizes(es) + MaxExisting(j.t0, es) + 1)
  {
    hide Sound, SiteFits, Forward, SafeTrace, ParentClosed, Recoverable, Ledger, NoTemps, TempFiles, BytesIn, GoodPayload, Existing;
    hide MaxExisting, Targets, FileTargets, DirsRecorded, Overlay;
    ghost var h0, limit := fs.history, BytesIn(fs.tree) + SumSizes(es) + MaxExisting(j.t0, es) + 1;
    var dirs, replaced, added;
    applied, res := [], InstallResult(0, 0, 0, 0, 0);
    ok, created, dirs := InstallDirs(fs, es, j);
    ghost var h1, created1 := fs.history, created;
    ForwardFacts(j, fs.tree, [], created);
    SafeTraceWiden(j, h1, |h0|, BytesIn(old(fs.tree)), limit);
    if !ok { return; }
    ok, applied, created, replaced, added := InstallFiles(s, fs, es, created, j);
    SafeTraceAppend(j, h1, |h0|, fs.history, |h1|, limit, limit, limit);
    if !ok { return; }
    DirsRecordedGrow(j.t0, es, created1, created);
    ForwardFacts(j, fs.tree, applied, created);
    ForwardOverlay(j, fs.tree, applied, created);
    res := InstallResult(|applied|, dirs, replaced, added, SumSizes(es));
  }

  lemma DirsRecordedGrow(t0: Tree, es: seq<Entry>, created: seq<Path>, created': seq<Path>)
    requires DirsRecorded(t0, es, created) && created <= created'
    ensures DirsRecorded(t0, es, created')
  {
    assert forall d :: d in created ==> d in created';
  }

  lemma ThinnedOverlay(j: Job, h: seq<Tree>, n: nat, t: Tree)
    requires Sound(j) && Overlay(j, t) && ThinnedTrace(h, n, t, j.root)
    ensures OverlayTrace(j, h, n)
  {
    hide Sound, Overlay;
    forall i | n <= i < |h|
      ensures Overlay(j, h[i])
    {
      assert Thinned(h[i], t, j.root);
      OverlayFrame(j, t, h[i]);
    }
  }

  lemma OverlaySnoc(j: Job, h: seq<Tree>, n: nat, t: Tree)
    requires OverlayTrace(j, h, n) && Overlay(j, t)
    ensures OverlayTrace(j, h + [t], n)
  {
  }

  lemma StillNoTemps(j: Job, t: Tree, u: Tree)
    requires Sound(j) && NoTemps(j, t) && forall p :: !(j.root <= p) && p != j.spare ==> SameAt(u, t, p)
    ensures NoTemps(j, u)
  {
    forall p | p in j.temps
      ensures p !in u
    {
      assert SameAt(u, t, p);
    }
  }

  /** After the last file: drop the backups; a failure is only logged. */
  method CleanUp(s: Site, fs: FileSystem, ghost j: Job)
    requires Sound(j) && SiteFits(s, j) && ParentClosed(fs.tree) && Overlay(j, fs.tree) && NoTemps(j, fs.tree)
    requires fs.Recorded()
    modifies fs
    ensures fs.Recorded()
    ensures ParentClosed(fs.tree) && fs.faults >= old(fs.faults) && fs.ignored >= old(fs.ignored)
    ensures Overlay(j, fs.tree) && NoTemps(j, fs.tree)
    ensures fs.ignored == old(fs.ignored) ==> ScratchCleared(j, fs.tree)
    ensures |Leaves(fs.tree, j.root)| <= fs.faults - old(fs.faults)
    ensures old(fs.history) <= fs.history && OverlayTrace(j, fs.history, |old(fs.history)|)
  {
    hide ScratchCleared, Leaves, Sound, SiteFits, Overlay, OverlayTrace, ThinnedTrace, ParentClosed, CanRemove, Thinned, SameAt, Scratch, NoTemps;
    hide BackupRoot, BackupDir;
    ghost var t, h0 := fs.tree, fs.history;
    ScratchNames(s, j);
    var clean := RemoveAll(fs, BackupRoot(s));
    fs.Ignore(if clean then Ok else Fault);
    ghost var u, h1 := fs.tree, fs.history;
    ThinnedOverlay(j, h1, |h0|, t);
    ghost var ignored := fs.ignored;
    Discard(fs, BackupDir(s));
    ScratchGone(j, t, u, fs.tree);
    LeavesKept(j, u, fs.tree);
    if clean && fs.ignored == ignored { SpareGone(j, u, fs.tree); }
    OverlayFrame(j, t, u);
    OverlayFrame(j, u, fs.tree);
    OverlaySnoc(j, h1, |h0|, fs.tree);
    StillNoTemps(j, t, fs.tree);
  }

  /** A ghost account of a run: how many states there are before the cleanup or the rollback starts,
      the last of them, and the undo log at that point. */
  datatype Account = Account(mid: nat, before: Tree, log: seq<Applied>, made: seq<Path>)

  /** The most the forward phase may add to the bytes of the initial tree. */
  ghost function Peak(j: Job): int {
    BytesIn(j.t0) + SumSizes(j.es) + MaxExisting(j.t0, j.es) + 1
  }

  ghost predicate ForwardSafe(j: Job, h: seq<Tree>, n: nat, mid: nat) {
    n <= mid <= |h| && SafeTrace(j, h[..mid], n, Peak(j))
  }

  /** How many outside failures it takes to stop the forward phase. */
  ghost function Due(j: Job): nat {
    if GoodPayloads(j.es) then 1 else 0
  }

  /** What the outcome says about the final tree of a run in which `faults` outside failures happened,
      `ignored` of them thrown away. A rollback leaves at most as many targets unrestored as calls have
      failed in it, and at most as many empty directories as failures were thrown away; a cleanup leaves
      at most as many backups and empty directories of them as calls have failed in it. */
  ghost predicate Honest(j: Job, t: Tree, out: Outcome, faults: nat, ignored: nat, acc: Account) {
    match out
    case Rejected => t == j.t0
    case NoSpace => t == j.t0
    case SetupFailed => DirsState(t, j.t0, j.root)
    case Completed(res) =>
      && Overlay(j, t) && NoTemps(j, t) && GoodPayloads(j.es) && res == Report(j.t0, j.es)
      && |Leaves(t, j.root)| <= faults && (ignored == 0 ==> ScratchCleared(j, t))
    case RolledBack =>
      && AllRestored(j, t) && Ledger(j, acc.before, acc.log, acc.made)
      && Due(j) + |Leaves(t, j.root)| <= faults && |LeftEmpty(j, t)| <= ignored
      && (ignored == 0 ==> ScratchCleared(j, t) && forall p :: p != j.spare ==> SameAt(t, j.t0, p))
    case RollbackIncomplete =>
      && Recoverable(j, t) && Ledger(j, acc.before, acc.log, acc.made)
      && Due(j) < faults && |Unrestored(j, t)| + Due(j) <= faults && |LeftEmpty(j, t)| <= ignored
      && forall k :: 0 <= k < |acc.log| && acc.log[k].existed ==> Kept(j, t, acc.log[k].target)
  }

  ghost predicate Handed(h: seq<Tree>, acc: Account) {
    1 <= acc.mid <= |h| && acc.before == h[acc.mid - 1]
  }

  /** What must hold of all the states since the `n`th. The first `acc.mid` are recoverable and within
      the peak. From there on a completed install keeps the overlay; a rollback only undoes: targets
      change only by being restored, and nothing is added but its own temporary names. */
  ghost predicate HonestTrace(j: Job, h: seq<Tree>, n: nat, out: Outcome, acc: Account) {
    && ForwardSafe(j, h, n, acc.mid) && Handed(h, acc)
    && match out
       case Completed(_) => Overlay(j, acc.before) && OverlayTrace(j, h, acc.mid)
       case RolledBack => RecoverableTrace(j, h, n) && UndoTrace(j, h, acc.mid)
       case RollbackIncomplete => RecoverableTrace(j, h, n) && UndoTrace(j, h, acc.mid)
       case _ => RecoverableTrace(j, h, n) && acc.mid == |h|
  }

  /** Something outside the archive and the initial tree went wrong. */
  ghost predicate Excused(j: Job, out: Outcome, struck: bool) {
    match out
    case SetupFailed => struck || Obstructed(j.t0, j.root)
    case RolledBack => struck || !GoodPayloads(j.es)
    case RollbackIncomplete => struck
    case _ => true
  }

  /** From making the transaction directory to the end. */
  method Transact(s: Site, fs: FileSystem, es: seq<Entry>, ghost j: Job) returns (out: Outcome, ghost acc: Account)
    requires Sound(j) && SiteFits(s, j) && es == j.es && ParentClosed(fs.tree) && fs.tree == j.t0
    requires fs.Recorded()
    modifies fs
    ensures fs.Recorded()
    ensures ParentClosed(fs.tree) && fs.faults >= old(fs.faults) && fs.ignored >= old(fs.ignored)
    ensures out.SetupFailed? || out.Completed? || out.RolledBack? || out.RollbackIncomplete?
    ensures Honest(j, fs.tree, out, fs.faults - old(fs.faults), fs.ignored - old(fs.ignored), acc)
    ensures Excused(j, out, fs.faults > old(fs.faults))
    ensures old(fs.history) <= fs.history && HonestTrace(j, fs.history, |old(fs.history)|, out, acc)
  {
    hide Sound, SiteFits, Forward, SafeTrace, ParentClosed, Recoverable, Ledger, NoTemps, TempFiles, BytesIn, GoodPayloads, Kept;
    hide ScratchCleared, MaxExisting, Overlay, OverlayTrace, DirsState, DirsTrace, RecoverableTrace, AllRestored, SameAt, Obstructed, Report;
    hide ForwardSafe, UndoTrace, Unrestored, LeftEmpty, Leaves;
    ghost var h0, t0 := fs.history, fs.tree;
    acc := Account(|h0|, t0, [], []);
    SetupReady(s, j, h0);
    var hit := fs.Strike();
    if hit { return SetupFailed, acc; }
    var ok := MkdirAll(fs, BackupRoot(s));
    ghost var h1, t1 := fs.history, fs.tree;
    SetupDone(j, t1, h1, |h0|);
    acc := Account(|h1|, t1, [], []);
    if !ok { return SetupFailed, acc; }
    var applied, created, res;
    ok, applied, created, res := RunForward(s, fs, es, j);
    ghost var h2 := fs.history;
    acc := Account(|h2|, fs.tree, applied, created);
    TraceSoFar(j, h1, |h0|, h2, |h1|);
    if ok {
      CleanUp(s, fs, j);
      out := Completed(res);
    } else {
      ok := RollbackInstall(s, fs, applied, created, j);
      out := if ok then RolledBack else RollbackIncomplete;
    }
    WholeTrace(j, h2, |h0|, fs.history, out.Completed?);
    assert fs.history[|h2| - 1] == h2[|h2| - 1];
  }

  lemma SetupReady(s: Site, j: Job, h: seq<Tree>)
    requires Sound(j) && SiteFits(s, j)
    ensures BackupRoot(s) == j.root && DirsState(j.t0, j.t0, j.root)
    ensures ForwardSafe(j, h, |h|, |h|) && RecoverableTrace(j, h, |h|)
  {
    assert h[..|h|] == h;
  }

  lemma SetupDone(j: Job, t: Tree, h: seq<Tree>, n: nat)
    requires Sound(j) && DirsState(t, j.t0, j.root) && DirsTrace(h, n, j.t0, j.root)
    ensures ParentClosed(t) && IsDir(t, j.root) ==> Forward(j, t, [], [])
    ensures BytesIn(t) == BytesIn(j.t0)
    ensures ForwardSafe(j, h, n, |h|) && RecoverableTrace(j, h, n) && SafeTrace(j, h, n, Peak(j))
  {
    hide Sound, DirsState, DirsTrace, Forward, ParentClosed, Recoverable, Ledger, NoTemps, BytesIn, MaxExisting;
    SetupState(j, t);
    SetupTrace(j, h, n);
    SafeTraceWiden(j, h, n, BytesIn(j.t0), Peak(j));
    assert h[..|h|] == h;
  }

  lemma TraceSoFar(j: Job, h: seq<Tree>, n: nat, h': seq<Tree>, m: nat)
    requires SafeTrace(j, h, n, Peak(j)) && h <= h' && m == |h| && SafeTrace(j, h', m, Peak(j))
    ensures ForwardSafe(j, h', n, |h'|)
  {
    hide Peak;
    SafeTraceAppend(j, h, n, h', m, Peak(j), Peak(j), Peak(j));
    assert h'[..|h'|] == h';
  }

  lemma WholeTrace(j: Job, h: seq<Tree>, n: nat, h': seq<Tree>, done: bool)
    requires ForwardSafe(j, h, n, |h|) && h <= h'
    requires !done ==> UndoTrace(j, h', |h|)
    ensures ForwardSafe(j, h', n, |h|)
    ensures !done ==> RecoverableTrace(j, h', n)
  {
    hide Peak, Recoverable;
    assert h[..|h|] == h && h'[..|h|] == h;
    if !done { RecoverableAppend(j, h, n, h', |h|); }
  }

  lemma {:induction false} KeptThroughout(j: Job, h: seq<Tree>, m: nat, i: nat, p: Path)
    requires Sound(j) && j.undo <= j.temps && UndoTrace(j, h, m) && m - 1 <= i < |h|
    requires p in j.want && Kept(j, h[|h| - 1], p)
    ensures Kept(j, h[i], p)
    decreases |h| - i
  {
    hide Sound, Kept, Undoes, Recoverable;
    if i < |h| - 1 {
      KeptThroughout(j, h, m, i + 1, p);
      assert Undoes(j, h[i + 1 - 1], h[i + 1]);
      KeptBefore(j, h[i], h[i + 1], p);
    }
  }

  /** An incomplete rollback keeps the backup of every file it had to restore, in all its states. */
  lemma BackupsOutliveFailure(s: Site, j: Job, h: seq<Tree>, n: nat, faults: nat, ignored: nat, acc: Account, i: nat, a: Applied)
    requires Sound(j) && SiteFits(s, j) && HonestTrace(j, h, n, RollbackIncomplete, acc)
    requires Honest(j, h[|h| - 1], RollbackIncomplete, faults, ignored, acc)
    requires acc.mid - 1 <= i < |h| && a in acc.log && a.existed
    ensures Kept(j, h[i], a.target)
  {
    hide Sound, Kept, Recoverable, UndoTrace, RecoverableTrace, SafeTrace, ForwardSafe;
    var k :| 0 <= k < |acc.log| && acc.log[k] == a;
    assert GoodRecord(j, acc.before, acc.log[k]);
    KeptThroughout(j, h, acc.mid, i, a.target);
  }

  lemma KeptBefore(j: Job, t: Tree, u: Tree, p: Path)
    requires Sound(j) && j.undo <= j.temps && Undoes(j, t, u) && p in j.want && Kept(j, u, p)
    ensures Kept(j, t, p)
  {
    var q := j.root + p;
    assert j.root <= q;
    if q in j.want { PlainTarget(j, j.want[q]); }
    assert SameAt(u, t, q);
  }

  lemma {:induction false} MaxExistingBound(t: Tree, es: seq<Entry>, bound: nat)
    requires forall p :: p in t ==> Size(t[p]) <= bound
    ensures MaxExisting(t, es) <= bound
  {
    if es != [] { MaxExistingBound(t, es[..|es| - 1], bound); }
  }

  /** Free space left in a state, when `free` bytes were available at the start. */
  ghost function FreeIn(t: Tree, t0: Tree, free: int): int {
    free - (BytesIn(t) - BytesIn(t0))
  }

  ghost predicate Affordable(t: Tree, es: seq<Entry>, free: Option<int>) {
    free.Some? && SumSizes(es) + MaxExisting(t, es) + RESERVE <= free.value
  }

  /** Once the space check has passed, no state before the cleanup or the rollback eats into the
      reserve of 32 MiB by more than the one byte read past a declared size. */
  lemma ReserveKept(j: Job, h: seq<Tree>, n: nat, out: Outcome, acc: Account, i: nat, free: int)
    requires HonestTrace(j, h, n, out, acc) && n <= i < acc.mid && Affordable(j.t0, j.es, Some(free))
    ensures FreeIn(h[i], j.t0, free) >= 33_554_432 - 1
  {
    assert h[..acc.mid][i] == h[i];
  }

  /** The install transaction. `free` is the answer of the space query. Hypotheses: scratch
      names are fresh and file sizes are 64-bit. */
  method InstallZIPToRoot(s: Site, fs: FileSystem, zs: seq<ZipEntry>, free: Option<int>) returns (out: Outcome, ghost acc: Account)
    requires ParentClosed(fs.tree) && s.naming.Valid() && FreshNames(s, fs.tree, Installed(s, zs))
    requires forall p :: p in fs.tree ==> Size(fs.tree[p]) <= MAX_INT64
    requires free.Some? ==> free.value <= MAX_INT64
    requires fs.Recorded()
    modifies fs
    ensures fs.Recorded()
    ensures fs.faults >= old(fs.faults) && fs.ignored >= old(fs.ignored) && old(fs.history) <= fs.history
    ensures out.Rejected? ==> !Acceptable(s, zs, old(fs.tree)) || fs.faults > old(fs.faults)
    ensures !out.Rejected? ==> Acceptable(s, zs, old(fs.tree))
    ensures out.NoSpace? ==> !Affordable(old(fs.tree), Installed(s, zs), free)
    ensures !out.Rejected? && !out.NoSpace? ==> Affordable(old(fs.tree), Installed(s, zs), free)
    ensures out.Rejected? || out.NoSpace? ==> fs.history == old(fs.history)
    ensures var j := JobOf(s, old(fs.tree), Installed(s, zs));
            && Honest(j, fs.tree, out, fs.faults - old(fs.faults), fs.ignored - old(fs.ignored), acc)
            && Excused(j, out, fs.faults > old(fs.faults))
            && HonestTrace(j, fs.history, |old(fs.history)|, out, acc)
    ensures (fs.faults == old(fs.faults) && Acceptable(s, zs, old(fs.tree)) && Affordable(old(fs.tree), Installed(s, zs), free)
             && GoodPayloads(Installed(s, zs)) && !Obstructed(old(fs.tree), BackupRoot(s))) ==> out.Completed?
  {
    hide Sound, SiteFits, ParentClosed, Acceptable, FreshNames, Honest, HonestTrace, Installed, MaxExisting, GoodPayloads, Obstructed;
    ghost var t0, h0 := fs.tree, fs.history;
    ghost var j := JobOf(s, t0, Installed(s, zs));
    acc := Account(|h0|, t0, [], []);
    var plan := PreflightInstallZIP(s, fs, zs);
    NothingDone(j, h0, fs.faults - old(fs.faults), 0, acc);
    if plan.None? { return Rejected, acc; }
    var total, maxExisting := plan.value.total, plan.value.maxExisting;
    SpaceChecked(s, t0, zs, free);
    if free.None? || !EnoughSpace(total, maxExisting, free.value) { return NoSpace, acc; }
    JobSound(s, t0, zs);
    ghost var faults := fs.faults;
    out, acc := Transact(s, fs, plan.value.entries, j);
    HonestStill(j, fs.tree, out, fs.faults - faults, fs.faults - old(fs.faults), fs.ignored - old(fs.ignored), acc);
  }

  lemma HonestStill(j: Job, t: Tree, out: Outcome, faults: nat, more: nat, ignored: nat, acc: Account)
    requires Honest(j, t, out, faults, ignored, acc) && faults <= more
    ensures Honest(j, t, out, more, ignored, acc)
  {
  }

  lemma NothingDone(j: Job, h: seq<Tree>, faults: nat, ignored: nat, acc: Account)
    requires acc.mid == |h| && h != [] && h[|h| - 1] == acc.before
    ensures Honest(j, j.t0, Rejected, faults, ignored, acc) && Honest(j, j.t0, NoSpace, faults, ignored, acc)
    ensures HonestTrace(j, h, |h|, Rejected, acc) && HonestTrace(j, h, |h|, NoSpace, acc)
  {
    assert h[..|h|] == h;
  }

  lemma SpaceChecked(s: Site, t0: Tree, zs: seq<ZipEntry>, free: Option<int>)
    requires Acceptable(s, zs, t0) && forall p :: p in t0 ==> Size(t0[p]) <= MAX_INT64
    requires free.Some? ==> free.value <= MAX_INT64
    ensures var es := Installed(s, zs);
            Affordable(t0, es, free) <==> free.Some? && EnoughSpace(SumSizes(es), MaxExisting(t0, es), free.value)
  {
    var es := Installed(s, zs);
    MaxExistingBound(t0, es, MAX_INT64);
    if free.Some? { SpaceTestExact(SumSizes(es), MaxExisting(t0, es), free.value); }
  }

  /** Read for one file of the archive: in every state of a run, whatever failed, its target is
      in its old state or holds the whole new contents; and until the install has succeeded the
      old contents are at the target or at the backup path. */
  lemma EveryStateWhole(j: Job, h: seq<Tree>, n: nat, out: Outcome, acc: Account, i: nat, e: Entry)
    requires Sound(j) && HonestTrace(j, h, n, out, acc) && n <= i < |h| && e in j.es && !e.dir
    ensures Restored(j, h[i], e.target) || (e.target in h[i] && h[i][e.target].File? && h[i][e.target].data == Content(e))
    ensures e.target in j.t0 && (i < acc.mid || !out.Completed?) ==>
              Restored(j, h[i], e.target) || Kept(j, h[i], e.target)
  {
    assert e.target in j.want && j.want[e.target] == e;
    assert e.target in j.t0 ==> j.t0[e.target].File?;
    hide Sound, Elsewhere;
    if out.Completed? && i >= acc.mid {
      assert Overlay(j, h[i]);
    } else {
      if out.Completed? { assert h[..acc.mid][i] == h[i]; }
      assert Recoverable(j, h[i]) && TargetWhole(j, h[i], e.target);
    }
  }
}
