/** Undoing a partial install in reverse order. */
module Rollback {
  import opened Octets
  import opened FileTree
  import opened FileSystems
  import opened InstallNames
  import opened Preflight
  import opened InstallSteps
  import opened InstallJob
  import opened Installer

  /** What a record promises independently of the tree. */
  ghost predicate RecordFacts(j: Job, a: Applied) {
    && a.target in j.want && a.backup == j.root + a.target && a.rel == j.want[a.target].rel
    && (a.existed <==> a.target in j.t0)
    && (a.existed ==> j.t0[a.target].File? && a.mode == j.t0[a.target].mode && a.mtime == j.t0[a.target].mtime)
  }

  /** The target is back: its original bytes, or absent as before. */
  ghost predicate Restored(j: Job, t: Tree, p: Path) {
    if p in j.t0 then p in t && t[p].File? && t[p].data == DataAt(j.t0, p) else p !in t
  }

  ghost predicate OnlyTemps(j: Job, u: Tree, t: Tree) {
    forall q :: q !in j.temps ==> SameAt(u, t, q)
  }

  ghost predicate OnlyTempsAnd(j: Job, u: Tree, t: Tree, p: Path) {
    forall q :: q !in j.temps && q != p ==> SameAt(u, t, q)
  }

  /** A copy beside an existing file adds at most the copy. */
  lemma CopyBeside(j: Job, t: Tree, u: Tree, tmp: Path, data: Bytes)
    requires ParentClosed(t) && tmp in j.temps && tmp != [] && IsDir(t, Parent(tmp)) && CopyState(u, t, tmp, data)
    ensures OnlyTemps(j, u, t)
    ensures forall q :: q != tmp ==> SameAt(u, t, q)
  {
    forall q | q != tmp
      ensures SameAt(u, t, q)
    {
      if q <= tmp && q !in t {
        PrefixSlice(q, tmp);
        PrefixSlice(q, Parent(tmp));
        assert tmp[..|tmp|] == tmp;
        assert Parent(tmp)[..|q|] == tmp[..|q|];
        if q != Parent(tmp) { AncestorsAreDirs(t, q, Parent(tmp)); }
      }
    }
  }

  /** One step of an undo: a target changes only by being restored, nothing else changes but by going
      away, and only files at temporary names of the rollback are added. */
  ghost predicate Undoes(j: Job, t: Tree, u: Tree) {
    forall p :: SameAt(u, t, p) || (if p in j.want then Restored(j, u, p) else p !in u || (p in j.undo && u[p].File?))
  }

  /** Every state since the `n`th is recoverable, and each undoes the one before it. */
  ghost predicate UndoTrace(j: Job, h: seq<Tree>, n: nat) {
    RecoverableTrace(j, h, n) && 1 <= n && forall i :: n <= i < |h| ==> Undoes(j, h[i - 1], h[i])
  }

  /** A target once back stays back. */
  lemma {:induction false} UndoneStays(j: Job, h: seq<Tree>, n: nat, i: nat, k: nat, p: Path)
    requires UndoTrace(j, h, n) && n - 1 <= i <= k < |h| && p in j.want && Restored(j, h[i], p)
    ensures Restored(j, h[k], p)
    decreases k
  {
    if i < k {
      UndoneStays(j, h, n, i, k - 1, p);
      assert Undoes(j, h[k - 1], h[k]);
    }
  }

  /** Nothing but temporary names of the rollback is ever added or altered outside the targets. */
  lemma {:induction false} NothingAdded(j: Job, h: seq<Tree>, n: nat, i: nat, k: nat, p: Path)
    requires UndoTrace(j, h, n) && n - 1 <= i <= k < |h| && p !in j.want && p !in j.undo && p in h[k]
    ensures SameAt(h[k], h[i], p)
    decreases k
  {
    if i < k {
      assert Undoes(j, h[k - 1], h[k]);
      NothingAdded(j, h, n, i, k - 1, p);
    }
  }

  lemma UndoesNothing(j: Job, t: Tree)
    ensures Undoes(j, t, t)
  {
  }

  lemma {:induction false} TempFilesStay(j: Job, h: seq<Tree>, n: nat, i: nat, k: nat)
    requires Sound(j) && UndoTrace(j, h, n) && n - 1 <= i <= k < |h| && TempFiles(j, h[i])
    ensures TempFiles(j, h[k])
    decreases k
  {
    hide Sound, TempFiles, Undoes, Recoverable;
    if i < k {
      TempFilesStay(j, h, n, i, k - 1);
      assert Undoes(j, h[k - 1], h[k]);
      TempFilesStep(j, h[k - 1], h[k]);
    }
  }

  lemma TempFilesStep(j: Job, t: Tree, u: Tree)
    requires Sound(j) && Undoes(j, t, u) && TempFiles(j, t)
    ensures TempFiles(j, u)
  {
    forall p | p in j.temps && p in u
      ensures u[p].File?
    {
      if p in j.want { PlainTarget(j, j.want[p]); }
    }
  }

  /** What the states `h` of a call leave of the tree they began with: a target back stays back, and
      the temporary names stay free for files. */
  lemma UndoKeeps(j: Job, h: seq<Tree>, n: nat)
    requires Sound(j) && 1 <= n <= |h| && UndoTrace(j, h, n)
    ensures TempFiles(j, h[n - 1]) ==> TempFiles(j, h[|h| - 1])
    ensures forall p :: p in j.want && Restored(j, h[n - 1], p) ==> Restored(j, h[|h| - 1], p)
  {
    hide Sound, TempFiles, UndoTrace, Restored;
    if TempFiles(j, h[n - 1]) { TempFilesStay(j, h, n, n - 1, |h| - 1); }
    forall p | p in j.want && Restored(j, h[n - 1], p)
      ensures Restored(j, h[|h| - 1], p)
    {
      UndoneStays(j, h, n, n - 1, |h| - 1, p);
    }
  }

  lemma UndoesTemp(j: Job, t: Tree, u: Tree, tmp: Path)
    requires Sound(j) && tmp in j.temps && tmp in j.undo && forall q :: q != tmp ==> SameAt(u, t, q)
    requires SameAt(u, t, tmp) || tmp !in u || u[tmp].File?
    ensures Undoes(j, t, u)
  {
    if tmp in j.want { PlainTarget(j, j.want[tmp]); }
  }

  lemma BothBeside(t: Tree, u: Tree, v: Tree, tmp: Path)
    requires forall q :: q != tmp ==> SameAt(u, t, q)
    requires forall q :: q != tmp ==> SameAt(v, t, q)
    ensures forall q :: q != tmp ==> SameAt(v, u, q)
  {
    forall q
      ensures q != tmp ==> SameAt(v, u, q)
    {
      if q != tmp { assert SameAt(u, t, q) && SameAt(v, t, q); }
    }
  }

  lemma CopyBesideTrace(j: Job, h: seq<Tree>, n: nat, t: Tree, tmp: Path, data: Bytes)
    requires Sound(j) && Recoverable(j, t) && tmp in j.undo && 1 <= n <= |h| && h[n - 1] == t
    requires ParentClosed(t) && tmp in j.temps && tmp != [] && IsDir(t, Parent(tmp))
    requires CopyTrace(h, n, t, tmp, data)
    ensures UndoTrace(j, h, n)
  {
    hide Sound, Recoverable, ParentClosed, Undoes;
    forall i | n - 1 <= i < |h|
      ensures forall q :: q != tmp ==> SameAt(h[i], t, q)
      ensures SameAt(h[i], t, tmp) || (tmp !in t && (tmp in h[i] ==> h[i][tmp].File?))
    {
      if i >= n { CopyBeside(j, t, h[i], tmp, data); }
    }
    forall i | n <= i < |h|
      ensures Recoverable(j, h[i]) && Undoes(j, h[i - 1], h[i])
    {
      CopyBeside(j, t, h[i], tmp, data);
      BothBeside(t, h[i - 1], h[i], tmp);
      hide CopyState;
      TempRecoverable(j, t, h[i]);
      UndoesTemp(j, h[i - 1], h[i], tmp);
    }
  }

  lemma UndoSnoc(j: Job, h: seq<Tree>, n: nat, t: Tree, u: Tree)
    requires UndoTrace(j, h, n) && h != [] && h[|h| - 1] == t && Recoverable(j, u) && Undoes(j, t, u)
    ensures UndoTrace(j, h + [u], n)
  {
    hide Recoverable, Undoes;
  }

  lemma UndoAppend(j: Job, h: seq<Tree>, n: nat, h': seq<Tree>, m: nat)
    requires UndoTrace(j, h, n) && h <= h' && m == |h| && UndoTrace(j, h', m)
    ensures UndoTrace(j, h', n)
  {
    hide Recoverable, Undoes;
    forall i | n <= i < |h'|
      ensures Recoverable(j, h'[i]) && Undoes(j, h'[i - 1], h'[i])
    {
      if i < m { assert h'[i] == h[i] && h'[i - 1] == h[i - 1]; }
    }
  }

  lemma RecoverableAppend(j: Job, h: seq<Tree>, n: nat, h': seq<Tree>, m: nat)
    requires RecoverableTrace(j, h, n) && h <= h' && m == |h| && RecoverableTrace(j, h', m)
    ensures RecoverableTrace(j, h', n)
  {
    forall i | n <= i < |h'|
      ensures Recoverable(j, h'[i])
    {
      if i < m { assert h'[i] == h[i]; }
    }
  }

  lemma RenamedOver(j: Job, t: Tree, u: Tree, tmp: Path, p: Path)
    requires tmp in j.temps && p !in j.temps && tmp in t && t[tmp].File? && t[tmp].data == DataAt(j.t0, p)
    requires p in j.t0 && u == (t - {tmp})[p := t[tmp]]
    ensures OnlyTemps(j, t - {tmp}, t) && OnlyTempsAnd(j, u, t, p) && Restored(j, u, p) && tmp !in u
    ensures forall q :: q != p ==> SameAt(u, t - {tmp}, q)
    ensures u[p] == t[tmp]
  {
  }

  /** Renaming the restored copy over the target. */
  lemma RestoredIntoPlace(j: Job, t: Tree, u: Tree, tmp: Path, p: Path)
    requires Sound(j) && Recoverable(j, t) && tmp in j.temps && p in j.want && p in j.t0
    requires tmp in t && t[tmp].File? && t[tmp].data == DataAt(j.t0, p)
    requires u == (t - {tmp})[p := t[tmp]]
    ensures Recoverable(j, u) && OnlyTempsAnd(j, u, t, p) && Restored(j, u, p) && tmp !in u && u[p] == t[tmp]
    ensures Undoes(j, t, u)
  {
    assert p !in j.temps by { PlainTarget(j, j.want[p]); }
    assert tmp !in j.want by { if tmp in j.want { PlainTarget(j, j.want[tmp]); } }
    hide Sound, Recoverable, Needed, ParentClosed, OnlyTempsAnd, Undoes, Restored;
    RenamedOver(j, t, u, tmp, p);
    UndoesRename(j, t, u, tmp, p);
    hide Undoes;
    TempRecoverable(j, t, t - {tmp});
    TargetRecoverable(j, t - {tmp}, u, p);
  }

  lemma UndoesRename(j: Job, t: Tree, u: Tree, tmp: Path, p: Path)
    requires p in j.want && Restored(j, u, p) && tmp !in u && tmp !in j.want && forall q :: q != p ==> SameAt(u, t - {tmp}, q)
    ensures Undoes(j, t, u)
  {
    forall q
      ensures SameAt(u, t, q) || (if q in j.want then Restored(j, u, q) else q !in u)
    {
      if q != p && q != tmp { assert SameAt(u, t - {tmp}, q); }
    }
  }

  lemma RestampedTarget(j: Job, t: Tree, u: Tree, p: Path, f: Node)
    requires Sound(j) && Recoverable(j, t) && p in j.want && p in j.t0 && Restored(j, t, p)
    requires f.File? && f.data == t[p].data && (u == t || u == t[p := f])
    ensures Recoverable(j, u) && Restored(j, u, p) && OnlyTempsAnd(j, u, t, p) && Undoes(j, t, u)
  {
    hide Sound, Recoverable, Needed;
    if u != t { TargetRecoverable(j, t, u, p); }
  }

  /** The record is the next to undo: installed, or already back to something whole. */
  ghost predicate Undoable(j: Job, t: Tree, a: Applied) {
    && ParentClosed(t) && Recoverable(j, t) && RecordFacts(j, a)
    && a.target in t && t[a.target].File?
    && (a.existed ==> Kept(j, t, a.target))
  }

  lemma DirIsClear(t: Tree, d: Path)
    requires ParentClosed(t) && IsDir(t, d)
    ensures !Obstructed(t, d)
  {
    forall k | 0 <= k <= |d| && d[..k] in t
      ensures t[d[..k]].Dir?
    {
      PrefixSlice(d[..k], d);
      assert d[..|d|] == d;
      if k < |d| { AncestorsAreDirs(t, d[..k], d); }
    }
  }

  lemma RestoreReady(s: Site, j: Job, t: Tree, a: Applied)
    requires Sound(j) && SiteFits(s, j) && Undoable(j, t, a) && a.existed
    ensures a.rel != [] && a.target != [] && a.target in j.want && a.target in j.t0 && a.target !in j.temps
    ensures var tmp := RollbackTemp(s, a.rel); tmp in j.temps && tmp in j.undo && tmp != [] && Parent(tmp) == Parent(a.target)
    ensures IsDir(t, Parent(a.target)) && !Obstructed(t, Parent(a.target))
    ensures ParentClosed(t) && Recoverable(j, t)
    ensures a.backup in t && t[a.backup].File? && DataAt(t, a.backup) == DataAt(j.t0, a.target) && a.backup !in j.temps
  {
    hide Recoverable, Obstructed, Needed;
    var e := j.want[a.target];
    assert e in j.es && e.target == a.target && !e.dir;
    TempBeside(s, e.rel);
    PlainTarget(j, e);
    assert j.root <= a.backup;
    DirIsClear(t, Parent(a.target));
  }

  lemma OnlyTempsTrans(j: Job, t: Tree, u: Tree, v: Tree, p: Path)
    requires OnlyTemps(j, u, t) && OnlyTempsAnd(j, v, u, p)
    ensures OnlyTempsAnd(j, v, t, p)
  {
    forall q | q !in j.temps && q != p
      ensures SameAt(v, t, q)
    {
      assert SameAt(u, t, q) && SameAt(v, u, q);
    }
  }

  lemma NoNewStates(j: Job, h: seq<Tree>)
    requires h != []
    ensures UndoTrace(j, h, |h|)
  {
  }

  /** The tree in which the backup is about to be copied to `tmp`. */
  ghost predicate CopyBackReady(j: Job, t: Tree, a: Applied, tmp: Path) {
    && ParentClosed(t) && Recoverable(j, t) && tmp in j.temps && tmp in j.undo && tmp != []
    && IsDir(t, Parent(tmp)) && !Obstructed(t, Parent(tmp))
    && a.backup in t && t[a.backup].File? && DataAt(t, a.backup) == DataAt(j.t0, a.target)
  }

  lemma DiscardReady(s: Site, j: Job, t: Tree, u: Tree, a: Applied, tmp: Path)
    requires Sound(j) && SiteFits(s, j) && Undoable(j, t, a) && a.existed
    requires a.rel != [] && tmp == RollbackTemp(s, a.rel) && ParentClosed(u) && (u == t || u == t - {tmp})
    ensures CopyBackReady(j, u, a, tmp) && OnlyTemps(j, u, t) && (NoTemps(j, t) ==> NoTemps(j, u))
    ensures Undoes(j, t, u)
  {
    hide Undoes, Sound, SiteFits, Undoable, RollbackTemp, Needed, RecordFacts, ParentClosed, Obstructed, Recoverable;
    RestoreReady(s, j, t, a);
    StillClear(t, u, Parent(tmp), tmp);
    assert OnlyTemps(j, u, t);
    assert Parent(tmp) != tmp;
    TempRecoverable(j, t, u);
    UndoesTemp(j, t, u, tmp);
  }

  lemma StillClear(t: Tree, u: Tree, d: Path, p: Path)
    requires !Obstructed(t, d) && (u == t || u == t - {p})
    ensures !Obstructed(u, d)
  {
    forall k | 0 <= k <= |d| && d[..k] in u
      ensures u[d[..k]].Dir?
    {
      assert d[..k] in t;
    }
  }

  lemma CopyBackDone(j: Job, t: Tree, u: Tree, v: Tree, a: Applied, tmp: Path)
    requires Sound(j) && CopyBackReady(j, u, a, tmp) && OnlyTemps(j, u, t)
    requires CopyState(v, u, tmp, DataAt(u, a.backup))
    ensures Recoverable(j, v) && OnlyTemps(j, v, t)
    ensures NoTemps(j, u) ==> NoTemps(j, v - {tmp}) && (tmp !in v ==> NoTemps(j, v))
  {
    CopyBeside(j, u, v, tmp, DataAt(u, a.backup));
    hide CopyState;
    TempRecoverable(j, u, v);
    forall q | q !in j.temps
      ensures SameAt(v, t, q)
    {
      assert SameAt(u, t, q) && SameAt(v, u, q);
    }
    forall q | q in j.temps && q != tmp
      ensures SameAt(v, u, q)
    {
    }
  }

  /** Copy the backup to the temporary name beside the target. */
  method CopyBack(s: Site, fs: FileSystem, a: Applied, tmp: Path, ghost j: Job) returns (ok: bool)
    requires Sound(j) && SiteFits(s, j) && Undoable(j, fs.tree, a) && a.existed
    requires a.rel != [] && tmp == RollbackTemp(s, a.rel)
    requires fs.Recorded()
    modifies fs
    ensures fs.Recorded()
    ensures ParentClosed(fs.tree) && fs.faults >= old(fs.faults) && fs.ignored >= old(fs.ignored)
    ensures Recoverable(j, fs.tree) && OnlyTemps(j, fs.tree, old(fs.tree))
    ensures ok ==> tmp in fs.tree && fs.tree[tmp].File? && fs.tree[tmp].data == DataAt(j.t0, a.target)
    ensures fs.ignored == old(fs.ignored) && NoTemps(j, old(fs.tree)) ==>
              if ok then NoTemps(j, fs.tree - {tmp}) else NoTemps(j, fs.tree)
    ensures !ok && TempFiles(j, old(fs.tree)) ==> fs.faults > old(fs.faults)
    ensures old(fs.history) <= fs.history && UndoTrace(j, fs.history, |old(fs.history)|)
  {
    hide Sound, SiteFits, Recoverable, UndoTrace, Undoes, CopyTrace, CopyState, RollbackTemp, RecordFacts, OnlyTemps;
    hide Obstructed, ParentClosed, Kept, Undoable, CopyBackReady, NoTemps, CanRemove;
    ghost var t, h0 := fs.tree, fs.history;
    UndoableFacts(j, t, a);
    CopyBackFacts(s, j, t, t, a, tmp);
    Discard(fs, tmp);
    ghost var u, h1 := fs.tree, fs.history;
    CopyBackFacts(s, j, t, u, a, tmp);
    NoNewStates(j, h0);
    UndoSnoc(j, h0, |h0|, t, u);
    assert h1[|h1| - 1] == u;
    ok := CopyExact(fs, a.backup, tmp, a.mode);
    assert fs.history[|h1| - 1] == h1[|h1| - 1];
    CopyBesideTrace(j, fs.history, |h1|, u, tmp, DataAt(u, a.backup));
    CopyBackDone(j, t, u, fs.tree, a, tmp);
    UndoAppend(j, h1, |h0|, fs.history, |h1|);
  }

  lemma CopyBackFacts(s: Site, j: Job, t: Tree, u: Tree, a: Applied, tmp: Path)
    requires Sound(j) && SiteFits(s, j) && Undoable(j, t, a) && a.existed
    requires a.rel != [] && tmp == RollbackTemp(s, a.rel) && ParentClosed(u) && (u == t || u == t - {tmp})
    ensures CopyBackReady(j, u, a, tmp) && OnlyTemps(j, u, t) && (NoTemps(j, t) ==> NoTemps(j, u) && tmp !in u)
    ensures Undoes(j, t, u)
    ensures Recoverable(j, u) && tmp in j.temps && tmp in j.undo && tmp != [] && IsDir(u, Parent(tmp)) && !Obstructed(u, Parent(tmp))
    ensures a.backup in u && u[a.backup].File? && DataAt(u, a.backup) == DataAt(j.t0, a.target)
  {
    DiscardReady(s, j, t, u, a, tmp);
  }

  /** The best-effort mode and time of a restored file. */
  method Restamp(fs: FileSystem, a: Applied, ghost j: Job)
    requires Sound(j) && ParentClosed(fs.tree) && Recoverable(j, fs.tree)
    requires a.target in j.want && a.target in j.t0 && Restored(j, fs.tree, a.target)
    requires fs.Recorded()
    modifies fs
    ensures fs.Recorded()
    ensures ParentClosed(fs.tree) && fs.faults >= old(fs.faults) && fs.ignored >= old(fs.ignored)
    ensures Recoverable(j, fs.tree) && Restored(j, fs.tree, a.target)
    ensures fs.tree == old(fs.tree)[a.target := fs.tree[a.target]]
    ensures fs.ignored == old(fs.ignored) ==> fs.tree[a.target] == File(DataAt(j.t0, a.target), a.mode, a.mtime)
    ensures fs.ignored == old(fs.ignored) + 1 ==> fs.tree[a.target].mode == a.mode || fs.tree[a.target].mtime == a.mtime
    ensures old(fs.history) <= fs.history && UndoTrace(j, fs.history, |old(fs.history)|)
  {
    hide Sound, Recoverable, UndoTrace, Undoes, ParentClosed;
    ghost var t, h0 := fs.tree, fs.history;
    NoNewStates(j, h0);
    var err := fs.Chmod(a.target, a.mode);
    ghost var u, h1 := fs.tree, fs.history;
    RestampedTarget(j, t, u, a.target, t[a.target].(mode := a.mode));
    UndoSnoc(j, h0, |h0|, t, u);
    fs.Ignore(err);
    err := fs.Chtimes(a.target, a.mtime);
    RestampedTarget(j, u, fs.tree, a.target, u[a.target].(mtime := a.mtime));
    UndoSnoc(j, h1, |h0|, u, fs.tree);
    fs.Ignore(err);
  }

  /** After the copy: rename over the target, or give the copy up. */
  method PutBack(fs: FileSystem, a: Applied, tmp: Path, ghost j: Job) returns (ok: bool)
    requires Sound(j) && ParentClosed(fs.tree) && Recoverable(j, fs.tree) && RecordFacts(j, a) && a.existed
    requires tmp in j.temps && tmp in fs.tree && fs.tree[tmp].File? && fs.tree[tmp].data == DataAt(j.t0, a.target)
    requires CanRename(fs.tree, tmp, a.target) && tmp in j.undo
    requires fs.Recorded()
    modifies fs
    ensures fs.Recorded()
    ensures ParentClosed(fs.tree) && fs.faults >= old(fs.faults) && fs.ignored >= old(fs.ignored)
    ensures Recoverable(j, fs.tree) && OnlyTempsAnd(j, fs.tree, old(fs.tree), a.target)
    ensures ok ==> Restored(j, fs.tree, a.target)
    ensures !ok ==> OnlyTemps(j, fs.tree, old(fs.tree)) && fs.faults > old(fs.faults)
    ensures fs.ignored == old(fs.ignored) && NoTemps(j, old(fs.tree) - {tmp}) ==>
              NoTemps(j, fs.tree) && (ok ==> SameAt(fs.tree, j.t0, a.target))
    ensures old(fs.history) <= fs.history && UndoTrace(j, fs.history, |old(fs.history)|)
  {
    hide Sound, Recoverable, UndoTrace, Undoes, ParentClosed, CanRename, Kept, OnlyTemps, OnlyTempsAnd, NoTemps;
    hide Restored, SameAt;
    ghost var t, h0 := fs.tree, fs.history;
    NoNewStates(j, h0);
    var err := fs.Rename(tmp, a.target);
    ghost var u, h1 := fs.tree, fs.history;
    if err != Ok {
      UndoesNothing(j, t);
      UndoSnoc(j, h0, |h0|, t, t);
      Discard(fs, tmp);
      GaveUp(j, t, fs.tree, tmp, a.target);
      UndoSnoc(j, h1, |h0|, u, fs.tree);
      return false;
    }
    RestoredIntoPlace(j, t, u, tmp, a.target);
    UndoSnoc(j, h0, |h0|, t, u);
    Restamp(fs, a, j);
    PlacedAndStamped(j, t, u, fs.tree, tmp, a);
    UndoAppend(j, h1, |h0|, fs.history, |h1|);
    return true;
  }

  lemma GaveUp(j: Job, t: Tree, v: Tree, tmp: Path, p: Path)
    requires Sound(j) && Recoverable(j, t) && tmp in j.temps && tmp in j.undo && (v == t || v == t - {tmp})
    ensures Undoes(j, t, v)
    ensures Recoverable(j, v) && OnlyTemps(j, v, t) && OnlyTempsAnd(j, v, t, p)
    ensures v == t - {tmp} && NoTemps(j, t - {tmp}) ==> NoTemps(j, v)
    ensures tmp !in v ==> v == t - {tmp}
  {
    assert OnlyTemps(j, v, t);
    hide Sound, Recoverable, Undoes;
    UndoesTemp(j, t, v, tmp);
    TempRecoverable(j, t, v);
  }

  lemma PlacedAndStamped(j: Job, t: Tree, u: Tree, v: Tree, tmp: Path, a: Applied)
    requires Sound(j) && RecordFacts(j, a) && a.existed && tmp in j.temps && tmp in t
    requires u == (t - {tmp})[a.target := t[tmp]] && a.target in v && v == u[a.target := v[a.target]]
    ensures OnlyTempsAnd(j, v, t, a.target)
    ensures NoTemps(j, t - {tmp}) ==> NoTemps(j, v)
    ensures v[a.target] == File(DataAt(j.t0, a.target), a.mode, a.mtime) ==> SameAt(v, j.t0, a.target)
  {
    assert a.target !in j.temps by { PlainTarget(j, j.want[a.target]); }
    hide Sound;
  }

  /** Restore one replaced file from its backup. */
  method RestoreFile(s: Site, fs: FileSystem, a: Applied, ghost j: Job) returns (ok: bool)
    requires Sound(j) && SiteFits(s, j) && Undoable(j, fs.tree, a) && a.existed && a.rel != []
    requires fs.Recorded()
    modifies fs
    ensures fs.Recorded()
    ensures ParentClosed(fs.tree) && fs.faults >= old(fs.faults) && fs.ignored >= old(fs.ignored)
    ensures Recoverable(j, fs.tree) && OnlyTempsAnd(j, fs.tree, old(fs.tree), a.target)
    ensures ok ==> Restored(j, fs.tree, a.target)
    ensures !ok ==> OnlyTemps(j, fs.tree, old(fs.tree))
    ensures fs.ignored == old(fs.ignored) && NoTemps(j, old(fs.tree)) ==>
              NoTemps(j, fs.tree) && (ok ==> SameAt(fs.tree, j.t0, a.target))
    ensures !ok && TempFiles(j, old(fs.tree)) ==> fs.faults > old(fs.faults)
    ensures old(fs.history) <= fs.history && UndoTrace(j, fs.history, |old(fs.history)|)
  {
    hide Sound, SiteFits, Recoverable, UndoTrace, Undoes, ParentClosed, Undoable, NoTemps, TempFiles, RollbackTemp;
    hide Restored, OnlyTemps, OnlyTempsAnd, CanRename, Kept, RecordFacts, SameAt, Obstructed;
    ghost var t, h0 := fs.tree, fs.history;
    var tmp := RollbackTemp(s, a.rel);
    RestoreReady(s, j, t, a);
    OnlyTempsWiden(j, t, t, a.target);
    ok := CopyBack(s, fs, a, tmp, j);
    ghost var u, h1 := fs.tree, fs.history;
    OnlyTempsWiden(j, u, t, a.target);
    if !ok { return; }
    PutBackReady(s, j, t, u, a, tmp);
    ok := PutBack(fs, a, tmp, j);
    OnlyTempsTrans(j, t, u, fs.tree, a.target);
    UndoAppend(j, h1, |h0|, fs.history, |h1|);
    if !ok { OnlyTempsTwice(j, t, u, fs.tree); }
  }

  lemma OnlyTempsWiden(j: Job, u: Tree, t: Tree, p: Path)
    ensures OnlyTemps(j, u, t) ==> OnlyTempsAnd(j, u, t, p)
    ensures OnlyTemps(j, t, t)
  {
  }

  lemma OnlyTempsTwice(j: Job, t: Tree, u: Tree, v: Tree)
    requires OnlyTemps(j, u, t) && OnlyTemps(j, v, u)
    ensures OnlyTemps(j, v, t)
  {
    forall q | q !in j.temps
      ensures SameAt(v, t, q)
    {
      assert SameAt(u, t, q) && SameAt(v, u, q);
    }
  }

  lemma PutBackReady(s: Site, j: Job, t: Tree, u: Tree, a: Applied, tmp: Path)
    requires Sound(j) && SiteFits(s, j) && Undoable(j, t, a) && a.existed && a.rel != []
    requires tmp == RollbackTemp(s, a.rel) && OnlyTemps(j, u, t) && ParentClosed(u)
    requires tmp in u && u[tmp].File?
    ensures tmp in j.temps && tmp in j.undo && CanRename(u, tmp, a.target) && RecordFacts(j, a)
  {
    RestoreReady(s, j, t, a);
    hide Sound, SiteFits, RollbackTemp, Obstructed, Recoverable, Kept;
    assert SameAt(u, t, a.target);
    assert IsDir(u, Parent(tmp));
  }

  lemma RemovedTarget(j: Job, t: Tree, u: Tree, a: Applied)
    requires Sound(j) && Undoable(j, t, a) && !a.existed && (u == t || u == t - {a.target})
    ensures Recoverable(j, u) && OnlyTempsAnd(j, u, t, a.target)
    ensures NoTemps(j, t) ==> NoTemps(j, u)
    ensures u == t - {a.target} ==> Restored(j, u, a.target) && SameAt(u, j.t0, a.target)
    ensures Undoes(j, t, u)
  {
    hide Sound, Recoverable, ParentClosed, Undoable, Needed, Kept, Elsewhere, Scratch, RecordFacts;
    UndoableFacts(j, t, a);
    assert forall q :: q != a.target ==> SameAt(u, t, q);
    if u != t { TargetRecoverable(j, t, u, a.target); }
  }

  lemma UndoableFacts(j: Job, t: Tree, a: Applied)
    requires Undoable(j, t, a)
    ensures a.target in t && !t[a.target].Dir? && ParentClosed(t) && Recoverable(j, t)
    ensures a.target in j.want && (a.existed <==> a.target in j.t0)
  {
  }

  /** Remove one file that was not there before the install. */
  method RemoveInstalled(fs: FileSystem, a: Applied, ghost j: Job) returns (ok: bool)
    requires Sound(j) && Undoable(j, fs.tree, a) && !a.existed
    requires fs.Recorded()
    modifies fs
    ensures fs.Recorded()
    ensures ParentClosed(fs.tree) && fs.faults >= old(fs.faults) && fs.ignored >= old(fs.ignored)
    ensures Recoverable(j, fs.tree) && OnlyTempsAnd(j, fs.tree, old(fs.tree), a.target)
    ensures ok ==> Restored(j, fs.tree, a.target) && SameAt(fs.tree, j.t0, a.target)
    ensures !ok ==> fs.tree == old(fs.tree) && fs.faults > old(fs.faults)
    ensures NoTemps(j, old(fs.tree)) ==> NoTemps(j, fs.tree)
    ensures old(fs.history) <= fs.history && UndoTrace(j, fs.history, |old(fs.history)|)
  {
    hide Sound, Recoverable, UndoTrace, Undoes, ParentClosed, Undoable, CanRemove, OnlyTempsAnd, Restored, SameAt, NoTemps;
    ghost var t, h0 := fs.tree, fs.history;
    UndoableFacts(j, t, a);
    NoNewStates(j, h0);
    var err := fs.Remove(a.target);
    RemovedTarget(j, t, fs.tree, a);
    UndoSnoc(j, h0, |h0|, t, fs.tree);
    ok := err == Ok || err == NotExist;
  }

  /** Undo one record. */
  method UndoRecord(s: Site, fs: FileSystem, a: Applied, ghost j: Job) returns (ok: bool)
    requires Sound(j) && SiteFits(s, j) && Undoable(j, fs.tree, a) && a.rel != []
    requires fs.Recorded()
    modifies fs
    ensures fs.Recorded()
    ensures ParentClosed(fs.tree) && fs.faults >= old(fs.faults) && fs.ignored >= old(fs.ignored)
    ensures Recoverable(j, fs.tree) && OnlyTempsAnd(j, fs.tree, old(fs.tree), a.target)
    ensures ok ==> Restored(j, fs.tree, a.target)
    ensures fs.ignored == old(fs.ignored) && NoTemps(j, old(fs.tree)) ==>
              NoTemps(j, fs.tree) && (ok ==> SameAt(fs.tree, j.t0, a.target))
    ensures !ok && TempFiles(j, old(fs.tree)) ==> fs.faults > old(fs.faults)
    ensures old(fs.history) <= fs.history && UndoTrace(j, fs.history, |old(fs.history)|)
  {
    hide Sound, SiteFits, Recoverable, UndoTrace, Undoes, ParentClosed, Undoable, NoTemps, TempFiles, Restored, OnlyTemps, OnlyTempsAnd, SameAt;
    if a.existed {
      ok := RestoreFile(s, fs, a, j);
    } else {
      ok := RemoveInstalled(fs, a, j);
    }
  }

  ghost predicate DistinctTargets(applied: seq<Applied>) {
    forall k, l :: 0 <= k < l < |applied| ==> applied[k].target != applied[l].target
  }

  ghost predicate UndoRecords(j: Job, t: Tree, applied: seq<Applied>, i: nat, allOk: bool) {
    && (forall k :: 0 <= k < |applied| ==> RecordFacts(j, applied[k]) && (applied[k].existed ==> Kept(j, t, applied[k].target)))
    && (forall k :: 0 <= k < i && k < |applied| ==> applied[k].target in t && t[applied[k].target].File?)
    && (allOk ==> forall k :: i <= k < |applied| ==> Restored(j, t, applied[k].target))
  }

  ghost predicate CreatedStand(j: Job, t: Tree, created: seq<Path>, n: nat) {
    && (forall k :: 0 <= k < n && k < |created| ==> GoodCreated(j, t, created[k]))
    && (forall k :: 0 <= k < |created| ==> created[k] !in j.t0 && Needed(j, created[k]))
    && (forall k, l :: 0 <= k < l < |created| ==> !(created[l] <= created[k]))
  }

  ghost predicate RestUnchanged(j: Job, t: Tree, applied: seq<Applied>, created: seq<Path>) {
    forall p :: !Scratch(j, p) && p !in Targets(applied) && p !in created ==> SameAt(t, j.t0, p)
  }

  /** Records from `i` on have been undone; the earlier ones are still installed. */
  ghost predicate Undoing(j: Job, t: Tree, applied: seq<Applied>, created: seq<Path>, i: nat, allOk: bool) {
    && i <= |applied| && ParentClosed(t) && Recoverable(j, t)
    && DistinctTargets(applied) && UndoRecords(j, t, applied, i, allOk)
    && CreatedStand(j, t, created, |created|) && RestUnchanged(j, t, applied, created)
  }

  /** Besides contents, modes and times are back too and no temporary file is left. */
  ghost predicate Exact(j: Job, t: Tree, applied: seq<Applied>, i: nat) {
    NoTemps(j, t) && forall k :: i <= k < |applied| ==> SameAt(t, j.t0, applied[k].target)
  }

  lemma UndoingStart(j: Job, t: Tree, applied: seq<Applied>, created: seq<Path>)
    requires Sound(j) && ParentClosed(t) && Ledger(j, t, applied, created)
    ensures Undoing(j, t, applied, created, |applied|, true)
    ensures NoTemps(j, t) ==> Exact(j, t, applied, |applied|)
  {
    LedgerRecoverable(j, t, applied, created);
    forall k | 0 <= k < |applied|
      ensures RecordFacts(j, applied[k]) && (applied[k].existed ==> Kept(j, t, applied[k].target))
      ensures applied[k].target in t && t[applied[k].target].File?
    {
      assert GoodRecord(j, t, applied[k]);
    }
  }

  lemma UndoReady(s: Site, j: Job, t: Tree, applied: seq<Applied>, created: seq<Path>, i: nat, allOk: bool)
    requires Sound(j) && SiteFits(s, j) && Undoing(j, t, applied, created, i, allOk) && i > 0
    ensures Undoable(j, t, applied[i - 1]) && applied[i - 1].rel != [] && applied[i - 1].target in j.want
  {
    var a := applied[i - 1];
    assert RecordFacts(j, a) && j.want[a.target] in j.es;
  }

  /** Undoing one record touches nothing another record, a backup or a created directory relies on. */
  lemma UndoFrame(j: Job, t: Tree, u: Tree, applied: seq<Applied>, created: seq<Path>, i: nat, allOk: bool)
    requires Sound(j) && Undoing(j, t, applied, created, i, allOk) && i > 0
    requires OnlyTempsAnd(j, u, t, applied[i - 1].target)
    ensures SameRecords(t, u, applied, j.root, i - 1)
    ensures forall k :: 0 <= k < |created| ==> SameAt(u, t, created[k])
    ensures forall q :: !Scratch(j, q) && q !in Targets(applied) ==> SameAt(u, t, q)
  {
    hide Recoverable, ParentClosed, Needed, Kept;
    var p := applied[i - 1].target;
    assert RecordFacts(j, applied[i - 1]) && j.want[p] in j.es && applied[i - 1] in applied;
    PlainTarget(j, j.want[p]);
    forall k | 0 <= k < |applied|
      ensures k != i - 1 ==> SameAt(u, t, applied[k].target)
      ensures SameAt(u, t, j.root + applied[k].target)
    {
      assert RecordFacts(j, applied[k]) && j.want[applied[k].target] in j.es;
      PlainTarget(j, j.want[applied[k].target]);
      assert j.root <= j.root + applied[k].target;
      if k > i - 1 { assert applied[i - 1].target != applied[k].target; }
    }
    forall k | 0 <= k < |created|
      ensures SameAt(u, t, created[k])
    {
      assert GoodCreated(j, t, created[k]);
      NeededFacts(j, created[k]);
    }
  }

  ghost predicate SameRecords(t: Tree, u: Tree, applied: seq<Applied>, root: Path, i: int) {
    && (forall k :: 0 <= k < |applied| && k != i ==> SameAt(u, t, applied[k].target))
    && (forall k :: 0 <= k < |applied| ==> SameAt(u, t, root + applied[k].target))
  }

  lemma UndoRecordsStep(j: Job, t: Tree, u: Tree, applied: seq<Applied>, i: nat, allOk: bool, ok: bool)
    requires 0 < i <= |applied| && UndoRecords(j, t, applied, i, allOk) && SameRecords(t, u, applied, j.root, i - 1)
    requires ok ==> Restored(j, u, applied[i - 1].target)
    ensures UndoRecords(j, u, applied, i - 1, allOk && ok)
  {
    forall k | 0 <= k < |applied|
      ensures RecordFacts(j, applied[k]) && (applied[k].existed ==> Kept(j, u, applied[k].target))
      ensures k < i - 1 ==> applied[k].target in u && u[applied[k].target].File?
      ensures allOk && ok && i - 1 <= k ==> Restored(j, u, applied[k].target)
    {
      assert SameAt(u, t, j.root + applied[k].target);
      if k != i - 1 { assert SameAt(u, t, applied[k].target); }
      assert allOk && i <= k ==> Restored(j, t, applied[k].target);
    }
  }

  lemma CreatedFrame(j: Job, t: Tree, u: Tree, created: seq<Path>, n: nat)
    requires CreatedStand(j, t, created, n)
    requires forall k :: 0 <= k < n && k < |created| ==> SameAt(u, t, created[k])
    ensures CreatedStand(j, u, created, n)
  {
    hide Needed;
    forall k | 0 <= k < n && k < |created|
      ensures GoodCreated(j, u, created[k])
    {
      assert GoodCreated(j, t, created[k]);
    }
  }

  lemma RestFrame(j: Job, t: Tree, u: Tree, applied: seq<Applied>, created: seq<Path>)
    requires RestUnchanged(j, t, applied, created)
    requires forall q :: !Scratch(j, q) && q !in Targets(applied) && q !in created ==> SameAt(u, t, q)
    ensures RestUnchanged(j, u, applied, created)
  {
    hide Scratch, Targets;
    forall q | !Scratch(j, q) && q !in Targets(applied) && q !in created
      ensures SameAt(u, j.t0, q)
    {
      assert SameAt(u, t, q) && SameAt(t, j.t0, q);
    }
  }

  lemma ExactStep(j: Job, t: Tree, u: Tree, applied: seq<Applied>, i: nat)
    requires 0 < i <= |applied| && Exact(j, t, applied, i) && SameRecords(t, u, applied, j.root, i - 1)
    requires NoTemps(j, u) && SameAt(u, j.t0, applied[i - 1].target)
    ensures Exact(j, u, applied, i - 1)
  {
    forall k | i - 1 <= k < |applied|
      ensures SameAt(u, j.t0, applied[k].target)
    {
      if k != i - 1 { assert SameAt(u, t, applied[k].target) && SameAt(t, j.t0, applied[k].target); }
    }
  }

  lemma UndoStep(j: Job, t: Tree, u: Tree, applied: seq<Applied>, created: seq<Path>, i: nat, allOk: bool, ok: bool)
    requires Sound(j) && Undoing(j, t, applied, created, i, allOk) && i > 0
    requires ParentClosed(u) && Recoverable(j, u) && OnlyTempsAnd(j, u, t, applied[i - 1].target)
    requires ok ==> Restored(j, u, applied[i - 1].target)
    ensures Undoing(j, u, applied, created, i - 1, allOk && ok)
    ensures ok && Exact(j, t, applied, i) && NoTemps(j, u) && SameAt(u, j.t0, applied[i - 1].target) ==> Exact(j, u, applied, i - 1)
  {
    hide Sound, Recoverable, ParentClosed, OnlyTempsAnd, Targets, Scratch, UndoRecords, CreatedStand, RestUnchanged;
    hide DistinctTargets, Exact, NoTemps, SameAt, Restored;
    UndoFrame(j, t, u, applied, created, i, allOk);
    UndoRecordsStep(j, t, u, applied, i, allOk, ok);
    CreatedFrame(j, t, u, created, |created|);
    RestFrame(j, t, u, applied, created);
    if ok && Exact(j, t, applied, i) && NoTemps(j, u) && SameAt(u, j.t0, applied[i - 1].target) {
      ExactStep(j, t, u, applied, i);
    }
  }

  /** The targets that are not back. */
  ghost function Unrestored(j: Job, t: Tree): set<Path> {
    set p | p in j.want && !Restored(j, t, p)
  }

  /** Every record from `i` on is undone, but for those of the targets in `bad`. */
  ghost predicate UndoneBut(j: Job, t: Tree, applied: seq<Applied>, i: nat, bad: set<Path>) {
    forall k :: i <= k < |applied| ==> applied[k].target in j.want && (applied[k].target in bad || Restored(j, t, applied[k].target))
  }

  lemma UndoneStep(j: Job, t: Tree, u: Tree, applied: seq<Applied>, i: nat, bad: set<Path>, ok: bool)
    requires 0 < i <= |applied| && UndoneBut(j, t, applied, i, bad) && applied[i - 1].target in j.want
    requires forall p :: p in j.want && Restored(j, t, p) ==> Restored(j, u, p)
    requires ok ==> Restored(j, u, applied[i - 1].target)
    ensures UndoneBut(j, u, applied, i - 1, if ok then bad else bad + {applied[i - 1].target})
  {
    hide Restored;
  }

  /** Only targets of records that could not be undone are missing in the end. */
  lemma UndoneAll(j: Job, t: Tree, applied: seq<Applied>, created: seq<Path>, allOk: bool, bad: set<Path>)
    requires Sound(j) && Undoing(j, t, applied, created, 0, allOk) && UndoneBut(j, t, applied, 0, bad)
    ensures |Unrestored(j, t)| <= |bad|
  {
    hide Recoverable, ParentClosed, Kept, UndoRecords;
    forall p | p in j.want
      ensures p in bad || Restored(j, t, p)
    {
      if p in Targets(applied) {
        var k :| 0 <= k < |applied| && applied[k].target == p;
        assert applied[k].target in bad || Restored(j, t, applied[k].target);
      } else {
        if p in created { NeededFacts(j, p); }
        PlainTarget(j, j.want[p]);
        assert SameAt(t, j.t0, p);
      }
    }
    FewerOf(Unrestored(j, t), bad);
  }

  /** First loop of the rollback: the records in reverse, going on past failures. Each target that is
      not back at the end costs an outside failure of its own. */
  method UndoAll(s: Site, fs: FileSystem, applied: seq<Applied>, created: seq<Path>, ghost j: Job) returns (allOk: bool)
    requires Sound(j) && SiteFits(s, j) && ParentClosed(fs.tree) && Ledger(j, fs.tree, applied, created)
    requires fs.Recorded()
    modifies fs
    ensures fs.Recorded()
    ensures fs.faults >= old(fs.faults) && fs.ignored >= old(fs.ignored)
    ensures Undoing(j, fs.tree, applied, created, 0, allOk)
    ensures allOk && fs.ignored == old(fs.ignored) && NoTemps(j, old(fs.tree)) ==> Exact(j, fs.tree, applied, 0)
    ensures TempFiles(j, old(fs.tree)) ==> |Unrestored(j, fs.tree)| <= fs.faults - old(fs.faults)
    ensures !allOk && TempFiles(j, old(fs.tree)) ==> fs.faults > old(fs.faults)
    ensures old(fs.history) <= fs.history && UndoTrace(j, fs.history, |old(fs.history)|)
  {
    hide Sound, SiteFits, Ledger, Undoing, Exact, NoTemps, ParentClosed, Recoverable, UndoTrace, Undoes, SameAt;
    hide OnlyTempsAnd, Restored, Undoable, TempFiles, Unrestored, UndoneBut;
    ghost var t0, h0 := fs.tree, fs.history;
    ghost var bad: set<Path> := {};
    UndoingStart(j, t0, applied, created);
    NothingUndone(j, t0, applied);
    NoNewStates(j, h0);
    var i := |applied|;
    allOk := true;
    while i > 0
      invariant fs.Recorded()
      invariant 0 <= i <= |applied|
      invariant fs.faults >= old(fs.faults) && fs.ignored >= old(fs.ignored)
      invariant Undoing(j, fs.tree, applied, created, i, allOk)
      invariant UndoneBut(j, fs.tree, applied, i, bad)
      invariant TempFiles(j, t0) ==> TempFiles(j, fs.tree) && |bad| <= fs.faults - old(fs.faults)
      invariant fs.ignored == old(fs.ignored) && NoTemps(j, t0) ==> NoTemps(j, fs.tree)
      invariant allOk && fs.ignored == old(fs.ignored) && NoTemps(j, t0) ==> Exact(j, fs.tree, applied, i)
      invariant !allOk && TempFiles(j, t0) ==> fs.faults > old(fs.faults)
      invariant h0 <= fs.history && UndoTrace(j, fs.history, |h0|)
    {
      ghost var t, h := fs.tree, fs.history;
      UndoReady(s, j, t, applied, created, i, allOk);
      var ok := UndoRecord(s, fs, applied[i - 1], j);
      UndoStep(j, t, fs.tree, applied, created, i, allOk, ok);
      UndoAppend(j, h, |h0|, fs.history, |h|);
      assert fs.history[|h| - 1] == h[|h| - 1];
      UndoKeeps(j, fs.history, |h|);
      UndoneStep(j, t, fs.tree, applied, i, bad, ok);
      if !ok { bad := bad + {applied[i - 1].target}; }
      allOk := allOk && ok;
      i := i - 1;
    }
    UndoneAll(j, fs.tree, applied, created, allOk, bad);
  }

  lemma NothingUndone(j: Job, t: Tree, applied: seq<Applied>)
    ensures UndoneBut(j, t, applied, |applied|, {})
  {
  }

  /** Created directories from `i` on have been visited; targets are back unless something failed. */
  ghost predicate Sweeping(j: Job, t: Tree, applied: seq<Applied>, created: seq<Path>, i: nat, allOk: bool) {
    && i <= |created| && ParentClosed(t) && Recoverable(j, t)
    && UndoRecords(j, t, applied, 0, allOk)
    && CreatedStand(j, t, created, i) && RestUnchanged(j, t, applied, created)
  }

  ghost predicate SweepExact(j: Job, t: Tree, applied: seq<Applied>, created: seq<Path>, i: nat) {
    Exact(j, t, applied, 0) && forall k :: i <= k < |created| ==> created[k] !in t
  }

  lemma SweepRecoverable(j: Job, t: Tree, u: Tree, c: Path)
    requires Sound(j) && Recoverable(j, t) && c !in j.t0 && Needed(j, c) && (u == t || u == t - {c})
    ensures Recoverable(j, u)
  {
    hide Needed, Sound, ParentClosed, Scratch, Kept, TargetWhole, Elsewhere, SameAt;
    SweepApart(j, t, u, c);
    SweepTargets(j, t, u, c);
    SweepElsewhere(j, t, u, c);
  }

  lemma SweepUndoes(j: Job, t: Tree, u: Tree, c: Path)
    requires Sound(j) && Needed(j, c) && (u == t || u == t - {c})
    ensures Undoes(j, t, u)
  {
    SweepApart(j, t, u, c);
    hide Sound, Needed;
  }

  lemma SweepApart(j: Job, t: Tree, u: Tree, c: Path)
    requires Sound(j) && Needed(j, c) && (u == t || u == t - {c})
    ensures c !in j.want && forall p :: p in j.want ==> j.root + p != c
    ensures forall q :: q != c ==> SameAt(u, t, q)
  {
    NeededFacts(j, c);
    hide Needed, Sound;
    forall p | p in j.want
      ensures j.root + p != c
    {
      assert j.root <= j.root + p;
    }
  }

  lemma SweepElsewhere(j: Job, t: Tree, u: Tree, c: Path)
    requires Elsewhere(j, t) && c !in j.t0 && (u == t || u == t - {c})
    ensures Elsewhere(j, u)
  {
    hide Needed, Scratch;
    forall p | !Scratch(j, p) && p !in j.want
      ensures p in j.t0 ==> SameAt(u, j.t0, p)
      ensures p !in j.t0 && p in u ==> u[p] == Dir && Needed(j, p)
    {
      if p in j.t0 { assert SameAt(t, j.t0, p); }
    }
  }

  lemma SweepTargets(j: Job, t: Tree, u: Tree, c: Path)
    requires Recoverable(j, t) && c !in j.want && forall p :: p in j.want ==> j.root + p != c
    requires forall q :: q != c ==> SameAt(u, t, q)
    ensures forall p :: p in j.want ==>
              TargetWhole(j, u, p) && (p in j.t0 && DataAt(u, p) != DataAt(j.t0, p) ==> Kept(j, u, p))
  {
    hide Needed, Elsewhere;
    forall p | p in j.want
      ensures TargetWhole(j, u, p) && (p in j.t0 && DataAt(u, p) != DataAt(j.t0, p) ==> Kept(j, u, p))
    {
      assert TargetWhole(j, t, p);
      assert SameAt(u, t, p) && SameAt(u, t, j.root + p);
      KeptFrame(j, t, u, p);
    }
  }

  lemma KeptFrame(j: Job, t: Tree, u: Tree, p: Path)
    requires SameAt(u, t, j.root + p)
    ensures Kept(j, t, p) ==> Kept(j, u, p)
  {
  }

  /** Outside scratch space, an exactly undone tree holds old nodes and unvisited created directories. */
  lemma StillThere(j: Job, t: Tree, applied: seq<Applied>, created: seq<Path>, i: nat, q: Path)
    requires Sweeping(j, t, applied, created, i, true) && SweepExact(j, t, applied, created, i)
    requires q in t && !Scratch(j, q)
    ensures q in j.t0 || exists k :: 0 <= k < i && created[k] == q
  {
    hide Recoverable, Kept, Needed, Scratch;
    if q in Targets(applied) {
      var k :| 0 <= k < |applied| && applied[k].target == q;
      assert SameAt(t, j.t0, applied[k].target);
    } else if q in created {
      var k :| 0 <= k < |created| && created[k] == q;
      assert k < i;
    } else {
      assert SameAt(t, j.t0, q);
    }
  }

  lemma RootChild(j: Job, q: Path)
    requires |j.root| == 2 && j.spare == j.root[..1] && q != [] && j.root <= q
    ensures j.root <= Parent(q) || Parent(q) == j.spare
  {
    PrefixSlice(j.root, q);
    PrefixSlice(j.root, Parent(q));
    if |q| > 2 { assert Parent(q)[..2] == q[..2]; }
  }

  /** What lies directly below a created directory is not scratch space. */
  lemma ChildPlain(j: Job, t: Tree, q: Path)
    requires Sound(j) && NoTemps(j, t) && q in t && q != [] && Needed(j, Parent(q))
    ensures !Scratch(j, q)
  {
    NeededFacts(j, Parent(q));
    hide Needed;
    if j.root <= q { RootChild(j, q); }
  }

  lemma NotBelow(t0: Tree, created: seq<Path>, i: nat, q: Path)
    requires ParentClosed(t0) && 0 < i <= |created| && q != []
    requires q in t0 || exists k :: 0 <= k < i && created[k] == q
    requires created[i - 1] !in t0
    requires forall k, l :: 0 <= k < l < |created| ==> !(created[l] <= created[k])
    ensures Parent(q) != created[i - 1]
  {
    assert Parent(q) <= q && |Parent(q)| < |q|;
    if q in t0 {
      assert IsDir(t0, Parent(q));
    } else {
      var k :| 0 <= k < i && created[k] == q;
      if k < i - 1 { assert !(created[i - 1] <= created[k]); }
    }
  }

  /** A created directory is empty when its turn comes. */
  lemma EmptyWhenReached(j: Job, t: Tree, applied: seq<Applied>, created: seq<Path>, i: nat)
    requires Sound(j) && Sweeping(j, t, applied, created, i, true) && SweepExact(j, t, applied, created, i) && i > 0
    ensures CanRemove(t, created[i - 1])
  {
    var c := created[i - 1];
    assert GoodCreated(j, t, c) && NoTemps(j, t) && ParentClosed(j.t0);
    assert forall k, l :: 0 <= k < l < |created| ==> !(created[l] <= created[k]);
    hide Scratch, Needed, Recoverable, Kept, ParentClosed, Sound, NoTemps, Sweeping, SweepExact;
    forall q | q in t && q != []
      ensures Parent(q) != c
    {
      if Parent(q) == c {
        ChildPlain(j, t, q);
        StillThere(j, t, applied, created, i, q);
        NotBelow(j.t0, created, i, q);
      }
    }
  }

  lemma SweepStart(j: Job, t: Tree, applied: seq<Applied>, created: seq<Path>, allOk: bool)
    requires Undoing(j, t, applied, created, 0, allOk)
    ensures Sweeping(j, t, applied, created, |created|, allOk) && SweptBut(t, created, |created|, {})
    ensures Exact(j, t, applied, 0) ==> SweepExact(j, t, applied, created, |created|)
  {
  }

  lemma SweepFrame(j: Job, t: Tree, applied: seq<Applied>, created: seq<Path>, i: nat, allOk: bool, u: Tree)
    requires Sound(j) && Sweeping(j, t, applied, created, i, allOk) && i > 0
    requires u == t || u == t - {created[i - 1]}
    ensures SameRecords(t, u, applied, j.root, -1)
    ensures forall k :: 0 <= k < i - 1 ==> SameAt(u, t, created[k])
    ensures NoTemps(j, t) ==> NoTemps(j, u)
    ensures created[i - 1] !in j.t0 && Needed(j, created[i - 1])
  {
    var c := created[i - 1];
    assert CreatedStand(j, t, created, i) && UndoRecords(j, t, applied, 0, allOk);
    assert GoodCreated(j, t, c);
    hide Recoverable, Needed, ParentClosed, CreatedStand, RestUnchanged, UndoRecords, Sweeping, Sound, SameRecords, NoTemps, Scratch;
    SweepApart(j, t, u, c);
    SweepRecords(j, t, u, applied, allOk, c);
    SweepCreated(j, t, u, created, i);
    assert NoTemps(j, t) ==> NoTemps(j, u) by { FewerTemps(j, t, u, c); }
  }

  lemma FewerTemps(j: Job, t: Tree, u: Tree, c: Path)
    requires u == t || u == t - {c}
    ensures NoTemps(j, t) ==> NoTemps(j, u)
  {
  }

  lemma SweepRecords(j: Job, t: Tree, u: Tree, applied: seq<Applied>, allOk: bool, c: Path)
    requires UndoRecords(j, t, applied, 0, allOk) && c !in j.want && forall p :: p in j.want ==> j.root + p != c
    requires forall q :: q != c ==> SameAt(u, t, q)
    ensures SameRecords(t, u, applied, j.root, -1)
  {
    forall k | 0 <= k < |applied|
      ensures applied[k].target != c && j.root + applied[k].target != c
    {
      assert RecordFacts(j, applied[k]);
    }
    hide UndoRecords;
  }

  lemma SweepCreated(j: Job, t: Tree, u: Tree, created: seq<Path>, i: nat)
    requires CreatedStand(j, t, created, i) && 0 < i <= |created| && forall q :: q != created[i - 1] ==> SameAt(u, t, q)
    ensures forall k :: 0 <= k < i - 1 ==> SameAt(u, t, created[k])
  {
    hide Needed;
    forall k | 0 <= k < i - 1
      ensures created[k] != created[i - 1]
    {
      assert !(created[i - 1] <= created[k]);
    }
  }

  lemma RecordsFrame(j: Job, t: Tree, u: Tree, applied: seq<Applied>, allOk: bool)
    requires UndoRecords(j, t, applied, 0, allOk) && SameRecords(t, u, applied, j.root, -1)
    ensures UndoRecords(j, u, applied, 0, allOk)
  {
    forall k | 0 <= k < |applied|
      ensures RecordFacts(j, applied[k]) && (applied[k].existed ==> Kept(j, u, applied[k].target))
      ensures allOk ==> Restored(j, u, applied[k].target)
    {
      assert SameAt(u, t, j.root + applied[k].target) && SameAt(u, t, applied[k].target);
    }
  }

  lemma SweepRest(j: Job, t: Tree, u: Tree, applied: seq<Applied>, created: seq<Path>, c: Path)
    requires RestUnchanged(j, t, applied, created) && c in created && (u == t || u == t - {c})
    ensures RestUnchanged(j, u, applied, created)
  {
    hide RestUnchanged, Scratch, Targets;
    assert forall q :: q != c ==> SameAt(u, t, q);
    RestFrame(j, t, u, applied, created);
  }

  lemma SweepExactStep(j: Job, t: Tree, u: Tree, applied: seq<Applied>, created: seq<Path>, i: nat)
    requires 0 < i <= |created| && SweepExact(j, t, applied, created, i) && created[i - 1] !in u
    requires SameRecords(t, u, applied, j.root, -1) && NoTemps(j, u) && (u == t || u == t - {created[i - 1]})
    ensures SweepExact(j, u, applied, created, i - 1)
  {
    hide NoTemps;
    forall k | 0 <= k < |applied|
      ensures SameAt(u, j.t0, applied[k].target)
    {
      assert SameAt(u, t, applied[k].target) && SameAt(t, j.t0, applied[k].target);
    }
  }

  lemma SweepStep(j: Job, t: Tree, u: Tree, applied: seq<Applied>, created: seq<Path>, i: nat, allOk: bool)
    requires Sound(j) && Sweeping(j, t, applied, created, i, allOk) && i > 0
    requires ParentClosed(u) && (u == t || u == t - {created[i - 1]})
    ensures Sweeping(j, u, applied, created, i - 1, allOk)
    ensures SweepExact(j, t, applied, created, i) && created[i - 1] !in u ==> SweepExact(j, u, applied, created, i - 1)
    ensures Undoes(j, t, u)
  {
    hide Undoes, Sound, Recoverable, Needed, ParentClosed, UndoRecords, RestUnchanged, NoTemps, SameRecords, SameAt, Targets, Kept, Restored;
    SweepFrame(j, t, applied, created, i, allOk, u);
    SweepRecoverable(j, t, u, created[i - 1]);
    SweepUndoes(j, t, u, created[i - 1]);
    RecordsFrame(j, t, u, applied, allOk);
    assert CreatedStand(j, t, created, i - 1);
    hide CreatedStand;
    CreatedFrame(j, t, u, created, i - 1);
    SweepRest(j, t, u, applied, created, created[i - 1]);
    if SweepExact(j, t, applied, created, i) && created[i - 1] !in u { SweepExactStep(j, t, u, applied, created, i); }
  }

  /** Every created directory from `i` on is gone or in use, but for those in `left`. */
  ghost predicate SweptBut(t: Tree, created: seq<Path>, i: nat, left: set<Path>) {
    forall k :: i <= k < |created| ==> created[k] in left || !CanRemove(t, created[k])
  }

  /** A visit empties no directory visited before it. */
  lemma SweptStep(j: Job, t: Tree, u: Tree, created: seq<Path>, i: nat, left: set<Path>, failed: bool)
    requires 0 < i <= |created| && CreatedStand(j, t, created, i) && SweptBut(t, created, i, left)
    requires u == t || u == t - {created[i - 1]}
    requires !failed && CanRemove(t, created[i - 1]) ==> created[i - 1] !in u
    ensures SweptBut(u, created, i - 1, if failed then left + {created[i - 1]} else left)
  {
    hide Needed;
    var c := created[i - 1];
    forall k | i - 1 <= k < |created|
      ensures created[k] in (if failed then left + {c} else left) || !CanRemove(u, created[k])
    {
      if k >= i && HasChild(t, created[k]) {
        var q :| q in t && q != [] && Parent(q) == created[k];
        assert !(created[k] <= c) && Parent(q) <= q;
      }
    }
  }

  /** Empty directories the install has brought and the rollback has not taken away. */
  ghost function LeftEmpty(j: Job, t: Tree): set<Path> {
    set c | c in t && t[c].Dir? && !Scratch(j, c) && c !in j.t0 && CanRemove(t, c)
  }

  lemma SweptAll(j: Job, t: Tree, applied: seq<Applied>, created: seq<Path>, allOk: bool, left: set<Path>)
    requires Sound(j) && Sweeping(j, t, applied, created, 0, allOk) && SweptBut(t, created, 0, left)
    ensures |LeftEmpty(j, t)| <= |left|
  {
    hide ParentClosed, Kept, Elsewhere, Scratch, CanRemove, Sound;
    forall c | c in t && !Scratch(j, c) && c !in j.t0
      ensures c in created || !t[c].Dir?
    {
      if c in Targets(applied) {
        var k :| 0 <= k < |applied| && applied[k].target == c;
        assert RecordFacts(j, applied[k]) && TargetWhole(j, t, c);
      } else {
        assert c in created || SameAt(t, j.t0, c);
      }
    }
    FewerOf(LeftEmpty(j, t), left);
  }

  /** Second loop of the rollback: remove created directories, children first, ignoring errors. Each
      empty directory left behind costs a failed call of its own. */
  method SweepDirs(fs: FileSystem, applied: seq<Applied>, created: seq<Path>, allOk: bool, ghost j: Job)
    requires Sound(j) && Undoing(j, fs.tree, applied, created, 0, allOk)
    requires fs.Recorded()
    modifies fs
    ensures fs.Recorded()
    ensures fs.faults >= old(fs.faults) && fs.ignored >= old(fs.ignored)
    ensures Sweeping(j, fs.tree, applied, created, 0, allOk)
    ensures |LeftEmpty(j, fs.tree)| <= fs.ignored - old(fs.ignored)
    ensures allOk && fs.ignored == old(fs.ignored) && Exact(j, old(fs.tree), applied, 0) ==> SweepExact(j, fs.tree, applied, created, 0)
    ensures old(fs.history) <= fs.history && UndoTrace(j, fs.history, |old(fs.history)|)
  {
    hide Sound, Undoing, Exact, SweepExact, NoTemps, Recoverable, UndoTrace, Undoes, Sweeping, SweptBut, LeftEmpty, CanRemove, ParentClosed;
    hide CreatedStand;
    ghost var t0, h0 := fs.tree, fs.history;
    ghost var left: set<Path> := {};
    SweepStart(j, t0, applied, created, allOk);
    NoNewStates(j, h0);
    var i := |created|;
    while i > 0
      invariant fs.Recorded()
      invariant 0 <= i <= |created|
      invariant fs.faults >= old(fs.faults) && fs.ignored >= old(fs.ignored)
      invariant Sweeping(j, fs.tree, applied, created, i, allOk)
      invariant SweptBut(fs.tree, created, i, left) && |left| <= fs.ignored - old(fs.ignored)
      invariant allOk && fs.ignored == old(fs.ignored) && Exact(j, t0, applied, 0) ==> SweepExact(j, fs.tree, applied, created, i)
      invariant h0 <= fs.history && UndoTrace(j, fs.history, |h0|)
    {
      ghost var t, h, ignored := fs.tree, fs.history, fs.ignored;
      SweepFacts(j, t, applied, created, i, allOk);
      Discard(fs, created[i - 1]);
      SweepStep(j, t, fs.tree, applied, created, i, allOk);
      SweptStep(j, t, fs.tree, created, i, left, fs.ignored != ignored);
      if fs.ignored != ignored { left := left + {created[i - 1]}; }
      SweepFacts(j, fs.tree, applied, created, i - 1, allOk);
      UndoSnoc(j, h, |h0|, t, fs.tree);
      i := i - 1;
    }
    SweptAll(j, fs.tree, applied, created, allOk, left);
  }

  lemma SweepFacts(j: Job, t: Tree, applied: seq<Applied>, created: seq<Path>, i: nat, allOk: bool)
    requires Sound(j) && Sweeping(j, t, applied, created, i, allOk)
    ensures ParentClosed(t) && Recoverable(j, t) && CreatedStand(j, t, created, i)
    ensures allOk && i > 0 && SweepExact(j, t, applied, created, i) ==> CanRemove(t, created[i - 1])
  {
    if allOk && i > 0 && SweepExact(j, t, applied, created, i) { EmptyWhenReached(j, t, applied, created, i); }
  }

  /** Every file target is back. */
  ghost predicate AllRestored(j: Job, t: Tree) {
    forall p :: p in j.want ==> Restored(j, t, p)
  }

  lemma SweptRestored(j: Job, t: Tree, applied: seq<Applied>, created: seq<Path>)
    requires Sound(j) && Sweeping(j, t, applied, created, 0, true)
    ensures AllRestored(j, t)
    ensures SweepExact(j, t, applied, created, 0) ==> forall p :: !(j.root <= p) && p != j.spare ==> SameAt(t, j.t0, p)
  {
    hide Recoverable, ParentClosed, Kept;
    forall p | p in j.want
      ensures Restored(j, t, p)
    {
      if p in Targets(applied) {
        var k :| 0 <= k < |applied| && applied[k].target == p;
        assert Restored(j, t, applied[k].target);
      } else {
        if p in created { NeededFacts(j, p); }
        PlainTarget(j, j.want[p]);
        assert SameAt(t, j.t0, p);
      }
    }
    if SweepExact(j, t, applied, created, 0) {
      forall p | !(j.root <= p) && p != j.spare
        ensures SameAt(t, j.t0, p)
      {
        if p in j.temps {
        } else if p in Targets(applied) {
          var k :| 0 <= k < |applied| && applied[k].target == p;
          assert SameAt(t, j.t0, applied[k].target);
        } else if p in created {
          var k :| 0 <= k < |created| && created[k] == p;
          assert created[k] !in t && created[k] !in j.t0;
        } else {
          assert SameAt(t, j.t0, p);
        }
      }
    }
  }

  /** Once every target is back, the transaction directory is no longer missed. */
  lemma ThinnedRecoverable(j: Job, t: Tree, u: Tree)
    requires Sound(j) && AllRestored(j, t) && Recoverable(j, t)
    requires forall q :: !Scratch(j, q) ==> SameAt(u, t, q)
    ensures Recoverable(j, u) && AllRestored(j, u)
  {
    hide Needed, Kept;
    forall p | p in j.want
      ensures Restored(j, u, p) && TargetWhole(j, u, p)
    {
      PlainTarget(j, j.want[p]);
      assert SameAt(u, t, p) && Restored(j, t, p);
    }
    assert Elsewhere(j, u) by {
      hide Sound, TargetWhole, Restored, Scratch;
      forall p | !Scratch(j, p) && p !in j.want
        ensures p in j.t0 ==> SameAt(u, j.t0, p)
        ensures p !in j.t0 && p in u ==> u[p] == Dir && Needed(j, p)
      {
        assert SameAt(u, t, p);
        if p in j.t0 { assert SameAt(t, j.t0, p); }
      }
    }
  }

  /** Removing what lies under the transaction directory undoes nothing but backups. */
  lemma UndoesThinning(j: Job, t: Tree, u: Tree)
    requires Sound(j) && Thinned(u, t, j.root)
    ensures Undoes(j, t, u)
  {
    forall p | p in j.want
      ensures SameAt(u, t, p)
    {
      PlainTarget(j, j.want[p]);
    }
    hide Sound;
  }

  lemma UndoesSpare(j: Job, t: Tree, u: Tree)
    requires Sound(j) && (u == t || u == t - {j.spare})
    ensures Undoes(j, t, u)
  {
    if j.spare in j.want { PlainTarget(j, j.want[j.spare]); }
  }

  lemma ThinnedUndoes(j: Job, h: seq<Tree>, n: nat, t: Tree)
    requires Sound(j) && AllRestored(j, t) && Recoverable(j, t) && ThinnedTrace(h, n, t, j.root)
    ensures UndoTrace(j, h, n)
  {
    hide Sound, AllRestored, Recoverable, Undoes;
    forall i | n <= i < |h|
      ensures Recoverable(j, h[i]) && Undoes(j, h[i - 1], h[i])
    {
      assert Thinned(h[i], t, j.root) && Thinned(h[i], h[i - 1], j.root);
      ThinnedRecoverable(j, t, h[i]);
      UndoesThinning(j, h[i - 1], h[i]);
    }
  }

  /** No backup is left, and the scratch directory is gone unless something else is in it. */
  ghost predicate ScratchCleared(j: Job, t: Tree) {
    (forall p :: j.root <= p ==> p !in t) && (j.spare in t ==> HasChild(t, j.spare))
  }

  lemma SpareGone(j: Job, u: Tree, v: Tree)
    requires j.spare != [] && (v == u || v == u - {j.spare}) && (CanRemove(u, j.spare) ==> j.spare !in v)
    requires forall p :: j.root <= p ==> p !in v
    ensures ScratchCleared(j, v)
  {
  }

  lemma ScratchGone(j: Job, t: Tree, u: Tree, v: Tree)
    requires |j.root| == 2 && j.spare == j.root[..1] && ParentClosed(u)
    requires Thinned(u, t, j.root) && (v == u || v == u - {j.spare})
    ensures forall q :: !Scratch(j, q) ==> SameAt(u, t, q) && SameAt(v, u, q)
    ensures forall p :: !(j.root <= p) && p != j.spare ==> SameAt(v, t, p)
    ensures (forall q :: j.root <= q ==> q !in u) ==> forall q :: j.root <= q ==> q !in v
  {
    hide ParentClosed;
  }

  lemma ScratchNames(s: Site, j: Job)
    requires Sound(j) && SiteFits(s, j)
    ensures BackupRoot(s) == j.root && BackupDir(s) == j.spare && |j.root| == 2 && j.spare == j.root[..1]
  {
  }

  lemma LeavesKept(j: Job, u: Tree, v: Tree)
    requires |j.root| == 2 && j.spare == j.root[..1] && (v == u || v == u - {j.spare})
    ensures |Leaves(v, j.root)| <= |Leaves(u, j.root)|
  {
    forall q | q in u && j.root <= q && HasChild(u, q)
      ensures HasChild(v, q)
    {
      var c :| c in u && c != [] && Parent(c) == q;
      ChildBelow(j.root, c);
      assert c in v;
    }
    FewerOf(Leaves(v, j.root), Leaves(u, j.root));
  }

  /** Remove the backups and, if nothing else is in it, the scratch directory. */
  method RemoveScratch(s: Site, fs: FileSystem, ghost j: Job)
    requires Sound(j) && SiteFits(s, j) && ParentClosed(fs.tree) && AllRestored(j, fs.tree) && Recoverable(j, fs.tree)
    requires fs.Recorded()
    modifies fs
    ensures fs.Recorded()
    ensures ParentClosed(fs.tree) && fs.faults >= old(fs.faults) && fs.ignored >= old(fs.ignored)
    ensures AllRestored(j, fs.tree) && Recoverable(j, fs.tree)
    ensures forall p :: !(j.root <= p) && p != j.spare ==> SameAt(fs.tree, old(fs.tree), p)
    ensures fs.ignored == old(fs.ignored) ==> ScratchCleared(j, fs.tree)
    ensures |Leaves(fs.tree, j.root)| <= fs.faults - old(fs.faults)
    ensures old(fs.history) <= fs.history && UndoTrace(j, fs.history, |old(fs.history)|)
  {
    hide ScratchCleared, Leaves, Sound, SiteFits, AllRestored, Recoverable, UndoTrace, Undoes, ThinnedTrace, ParentClosed;
    hide CanRemove, Thinned, SameAt, Scratch, BackupRoot, BackupDir;
    ghost var t, h0 := fs.tree, fs.history;
    ScratchNames(s, j);
    var clean := RemoveAll(fs, BackupRoot(s));
    fs.Ignore(if clean then Ok else Fault);
    ghost var u, h1 := fs.tree, fs.history;
    ThinnedUndoes(j, h1, |h0|, t);
    ghost var ignored := fs.ignored;
    Discard(fs, BackupDir(s));
    ScratchGone(j, t, u, fs.tree);
    LeavesKept(j, u, fs.tree);
    if clean && fs.ignored == ignored { SpareGone(j, u, fs.tree); }
    ThinnedRecoverable(j, t, u);
    ThinnedRecoverable(j, u, fs.tree);
    UndoesSpare(j, u, fs.tree);
    UndoSnoc(j, h1, |h0|, u, fs.tree);
  }

  /** Undo a partial install. Success means every target is back; backups outlive any failure. Each
      target that is not back, and each empty directory left behind, costs a failed call of its own. */
  method RollbackInstall(s: Site, fs: FileSystem, applied: seq<Applied>, created: seq<Path>, ghost j: Job) returns (ok: bool)
    requires Sound(j) && SiteFits(s, j) && ParentClosed(fs.tree) && Ledger(j, fs.tree, applied, created)
    requires fs.Recorded()
    modifies fs
    ensures fs.Recorded()
    ensures ParentClosed(fs.tree) && fs.faults >= old(fs.faults) && fs.ignored >= old(fs.ignored)
    ensures ok ==> AllRestored(j, fs.tree)
    ensures ok && fs.ignored == old(fs.ignored) && NoTemps(j, old(fs.tree)) ==> forall p :: p != j.spare ==> SameAt(fs.tree, j.t0, p)
    ensures ok && fs.ignored == old(fs.ignored) ==> ScratchCleared(j, fs.tree)
    ensures ok ==> |Leaves(fs.tree, j.root)| <= fs.faults - old(fs.faults)
    ensures !ok ==> forall k :: 0 <= k < |applied| && applied[k].existed ==> Kept(j, fs.tree, applied[k].target)
    ensures TempFiles(j, old(fs.tree)) ==> |Unrestored(j, fs.tree)| <= fs.faults - old(fs.faults)
    ensures !ok && TempFiles(j, old(fs.tree)) ==> fs.faults > old(fs.faults)
    ensures |LeftEmpty(j, fs.tree)| <= fs.ignored - old(fs.ignored)
    ensures Recoverable(j, fs.tree)
    ensures old(fs.history) <= fs.history && UndoTrace(j, fs.history, |old(fs.history)|)
  {
    hide Sound, SiteFits, ParentClosed, Ledger, AllRestored, NoTemps, SameAt, Kept, Recoverable, UndoTrace, Undoes, Undoing, Sweeping;
    hide Exact, SweepExact, TempFiles, Unrestored, LeftEmpty, Leaves, Restored;
    ghost var t0, h0 := fs.tree, fs.history;
    ok := UndoAll(s, fs, applied, created, j);
    ghost var t1, h1 := fs.tree, fs.history;
    SweepDirs(fs, applied, created, ok, j);
    ghost var t, h2 := fs.tree, fs.history;
    UndoAppend(j, h1, |h0|, h2, |h1|);
    assert h2[|h1| - 1] == h1[|h1| - 1];
    StillBack(j, h2, |h1|);
    SweepFacts(j, t, applied, created, 0, ok);
    if !ok {
      StillKept(j, t, applied, created);
      return;
    }
    SweptRestored(j, t, applied, created);
    RemoveScratch(s, fs, j);
    ScratchApart(s, j, t, fs.tree);
    UndoAppend(j, h2, |h0|, fs.history, |h2|);
    if fs.ignored == old(fs.ignored) && NoTemps(j, t0) { BackToStart(j, t, fs.tree); }
  }

  lemma StillBack(j: Job, h: seq<Tree>, n: nat)
    requires Sound(j) && 1 <= n <= |h| && UndoTrace(j, h, n)
    ensures |Unrestored(j, h[|h| - 1])| <= |Unrestored(j, h[n - 1])|
  {
    hide Sound, UndoTrace, Restored;
    UndoKeeps(j, h, n);
    FewerOf(Unrestored(j, h[|h| - 1]), Unrestored(j, h[n - 1]));
  }

  /** Once all is back, no target is missing, and scratch space holds no child of another directory. */
  lemma ScratchApart(s: Site, j: Job, t: Tree, u: Tree)
    requires Sound(j) && SiteFits(s, j) && AllRestored(j, u)
    requires forall p :: !(j.root <= p) && p != j.spare ==> SameAt(u, t, p)
    ensures |Unrestored(j, u)| == 0 && |LeftEmpty(j, u)| <= |LeftEmpty(j, t)|
  {
    hide Restored, BackupRoot, BackupDir;
    assert Unrestored(j, u) == {};
    forall c | c in LeftEmpty(j, u)
      ensures c in LeftEmpty(j, t)
    {
      assert SameAt(u, t, c);
      if HasChild(t, c) {
        var q :| q in t && q != [] && Parent(q) == c;
        if j.root <= q { RootChild(j, q); }
        assert SameAt(u, t, q);
      }
    }
    FewerOf(LeftEmpty(j, u), LeftEmpty(j, t));
  }

  lemma StillKept(j: Job, t: Tree, applied: seq<Applied>, created: seq<Path>)
    requires Sweeping(j, t, applied, created, 0, false)
    ensures forall k :: 0 <= k < |applied| && applied[k].existed ==> Kept(j, t, applied[k].target)
  {
  }

  lemma BackToStart(j: Job, t: Tree, u: Tree)
    requires Sound(j)
    requires forall p :: !(j.root <= p) && p != j.spare ==> SameAt(t, j.t0, p)
    requires forall p :: !(j.root <= p) && p != j.spare ==> SameAt(u, t, p)
    requires forall p :: j.root <= p ==> p !in u
    ensures forall p :: p != j.spare ==> SameAt(u, j.t0, p)
  {
    forall p | p != j.spare
      ensures SameAt(u, j.t0, p)
    {
      if j.root <= p {
        if p in j.t0 && j.root != p { AncestorsAreDirs(j.t0, j.root, p); }
      } else {
        assert SameAt(t, j.t0, p) && SameAt(u, t, p);
      }
    }
  }
}
