/** One install: what it starts from, what it wants, and what must hold in every state. */
module InstallJob {
  import opened Octets
  import opened FileTree
  import opened FileSystems
  import opened InstallNames
  import opened Preflight
  import opened InstallSteps

  /** The undo record of one installed file. */
  datatype Applied = Applied(rel: Path, target: Path, backup: Path, existed: bool, mode: nat, mtime: int)

  /** `want` maps each file target to its entry; `temps` are the temporary names of both
      phases, `undo` those of the rollback; `root` is the transaction directory inside the scratch directory `spare`. */
  datatype Job = Job(t0: Tree, es: seq<Entry>, want: map<Path, Entry>, temps: set<Path>, undo: set<Path>, spare: Path, root: Path)

  ghost predicate Scratch(j: Job, p: Path) {
    j.root <= p || p == j.spare || p in j.temps
  }

  /** A directory the archive names or implies. */
  ghost predicate Needed(j: Job, q: Path) {
    q != [] && exists e :: e in j.es && (q < e.target || (e.dir && q == e.target))
  }

  /** Everything preflight and the naming hypotheses guarantee about a job. */
  ghost predicate Sound(j: Job) {
    && ParentClosed(j.t0)
    && |j.root| == 2 && j.spare == j.root[..1] && j.root !in j.t0
    && (forall e :: e in j.es ==> e.target != [] && (e.dir ==> e.size == 0))
    && (forall i, k :: 0 <= i < k < |j.es| ==> j.es[i].target != j.es[k].target)
    && (forall e :: e in j.es ==> if e.dir then e.target !in j.want else e.target in j.want && j.want[e.target] == e)
    && (forall p :: p in j.want ==> p != [] && j.want[p] in j.es && j.want[p].target == p && !j.want[p].dir)
    && (forall e, q :: e in j.es && q <= e.target ==> !Scratch(j, q))
    && (forall e, p :: e in j.es && p in j.want ==> !(p < e.target))
    && (forall p :: p in j.temps ==> p !in j.t0 && p != [] && !(j.root <= p) && p != j.spare)
    && (forall e, q :: e in j.es && q < e.target && q in j.t0 ==> j.t0[q].Dir?)
    && (forall e :: e in j.es && e.target in j.t0 ==> if e.dir then j.t0[e.target].Dir? else j.t0[e.target].File?)
  }

  lemma NeededFacts(j: Job, q: Path)
    requires Sound(j) && Needed(j, q)
    ensures !Scratch(j, q) && q !in j.want
    ensures q in j.t0 ==> j.t0[q].Dir?
  {
    var e :| e in j.es && (q < e.target || (e.dir && q == e.target));
    assert q <= e.target;
  }

  /** Away from scratch space and file targets: the old nodes, plus directories the archive needs. */
  ghost predicate Elsewhere(j: Job, t: Tree) {
    && (forall p :: !Scratch(j, p) && p !in j.want && p in j.t0 ==> SameAt(t, j.t0, p))
    && (forall p :: !Scratch(j, p) && p !in j.want && p !in j.t0 && p in t ==> t[p] == Dir && Needed(j, p))
  }

  /** A file target holds its whole old contents or its whole new contents. */
  ghost predicate TargetWhole(j: Job, t: Tree, p: Path)
    requires p in j.want
  {
    if p in j.t0 then
      p in t && t[p].File? && (t[p].data == DataAt(j.t0, p) || t[p].data == Content(j.want[p]))
    else
      p in t ==> t[p].File? && t[p].data == Content(j.want[p])
  }

  /** The backup of a replaced file is there and whole. */
  ghost predicate Kept(j: Job, t: Tree, p: Path) {
    j.root + p in t && t[j.root + p].File? && t[j.root + p].data == DataAt(j.t0, p)
  }

  /** Per-file atomicity. */
  ghost predicate Whole(j: Job, t: Tree) {
    Elsewhere(j, t) && forall p :: p in j.want ==> TargetWhole(j, t, p)
  }

  /** No original is lost: where the target no longer has the old bytes, the backup has. */
  ghost predicate Recoverable(j: Job, t: Tree) {
    && Whole(j, t)
    && forall p :: p in j.want && p in j.t0 && DataAt(t, p) != DataAt(j.t0, p) ==> Kept(j, t, p)
  }

  ghost predicate RecoverableTrace(j: Job, h: seq<Tree>, n: nat) {
    n <= |h| && forall i :: n <= i < |h| ==> Recoverable(j, h[i])
  }

  ghost predicate BudgetTrace(h: seq<Tree>, n: nat, limit: int) {
    n <= |h| && forall i :: n <= i < |h| ==> BytesIn(h[i]) <= limit
  }

  ghost function Targets(applied: seq<Applied>): set<Path> {
    set a | a in applied :: a.target
  }

  /** One undo record describes an installed file truthfully. */
  ghost predicate GoodRecord(j: Job, t: Tree, a: Applied) {
    && a.target in j.want && a.backup == j.root + a.target
    && a.target in t && t[a.target].File? && t[a.target].data == Content(j.want[a.target])
    && t[a.target].mode == j.want[a.target].mode && a.rel == j.want[a.target].rel
    && (a.existed <==> a.target in j.t0)
    && (a.existed ==> j.t0[a.target].File? && a.mode == j.t0[a.target].mode && a.mtime == j.t0[a.target].mtime && Kept(j, t, a.target))
  }

  ghost predicate GoodCreated(j: Job, t: Tree, c: Path) {
    c !in j.t0 && c in t && t[c] == Dir && Needed(j, c)
  }

  /** The undo log accounts for every difference from the initial tree outside scratch space. */
  ghost predicate Ledger(j: Job, t: Tree, applied: seq<Applied>, created: seq<Path>) {
    && (forall i :: 0 <= i < |applied| ==> GoodRecord(j, t, applied[i]))
    && (forall i, k :: 0 <= i < k < |applied| ==> applied[i].target != applied[k].target)
    && (forall i :: 0 <= i < |created| ==> GoodCreated(j, t, created[i]))
    && (forall i, k :: 0 <= i < k < |created| ==> !(created[k] <= created[i]))
    && (forall p :: !Scratch(j, p) && p !in Targets(applied) && p !in created ==> SameAt(t, j.t0, p))
  }

  /** What lies in the transaction directory: backups of the targets in `done` and directories above them. */
  ghost predicate RootHolds(j: Job, t: Tree, done: set<Path>) {
    && IsDir(t, j.root) && IsDir(t, j.spare)
    && forall q :: j.root <= q && q != j.root && q in t ==>
         if t[q].Dir? then exists p :: p in done && q < j.root + p else q[|j.root|..] in done
  }

  ghost predicate NoTemps(j: Job, t: Tree) {
    forall p :: p in j.temps ==> p !in t
  }

  /** The temporary names carry nothing but files. */
  ghost predicate TempFiles(j: Job, t: Tree) {
    forall p :: p in j.temps && p in t ==> t[p].File?
  }

  /** The state between two rounds of the forward phase. */
  ghost predicate Forward(j: Job, t: Tree, applied: seq<Applied>, created: seq<Path>) {
    ParentClosed(t) && Ledger(j, t, applied, created) && RootHolds(j, t, Targets(applied)) && NoTemps(j, t)
  }

  lemma LedgerRecoverable(j: Job, t: Tree, applied: seq<Applied>, created: seq<Path>)
    requires Sound(j) && Ledger(j, t, applied, created)
    ensures Recoverable(j, t)
  {
    forall p | p in j.want
      ensures TargetWhole(j, t, p)
      ensures p in j.t0 && DataAt(t, p) != DataAt(j.t0, p) ==> Kept(j, t, p)
    {
      if p in Targets(applied) {
        var i :| 0 <= i < |applied| && applied[i].target == p;
        assert GoodRecord(j, t, applied[i]);
      } else {
        if p in created {
          var i :| 0 <= i < |created| && created[i] == p;
          assert GoodCreated(j, t, created[i]);
          NeededFacts(j, p);
        }
        assert j.want[p] in j.es && p <= j.want[p].target;
        assert SameAt(t, j.t0, p);
      }
    }
    forall p | !Scratch(j, p) && p !in j.want
      ensures p in j.t0 ==> SameAt(t, j.t0, p)
      ensures p !in j.t0 && p in t ==> t[p] == Dir && Needed(j, p)
    {
      assert p !in Targets(applied) by {
        assert forall i :: 0 <= i < |applied| ==> GoodRecord(j, t, applied[i]);
      }
      if p in created {
        var i :| 0 <= i < |created| && created[i] == p;
        assert GoodCreated(j, t, created[i]);
      } else {
        assert SameAt(t, j.t0, p);
      }
    }
  }

  /** Ancestors of a file target, and every prefix of a directory target, are needed. */
  lemma PrefixNeeded(j: Job, e: Entry, d: Path, q: Path)
    requires e in j.es && e.target != [] && q <= d && q != []
    requires d == if e.dir then e.target else Parent(e.target)
    ensures Needed(j, q)
  {
    if !e.dir { ParentPrefix(e.target, q); }
  }

  /** Paths on the way to a backup are the root, scratch space, or nothing else. */
  lemma BackupWay(j: Job, p: Path, q: Path)
    requires Sound(j) && q <= j.root + p && !Scratch(j, q)
    ensures q == []
  {
  }

  lemma DirsRecoverable(j: Job, t: Tree, u: Tree, e: Entry, d: Path)
    requires Sound(j) && ParentClosed(t) && Recoverable(j, t) && e in j.es
    requires d == if e.dir then e.target else Parent(e.target)
    requires DirsState(u, t, d)
    ensures Recoverable(j, u)
  {
    forall q | !SameAt(u, t, q)
      ensures q !in t && u[q] == Dir && Needed(j, q) && !Scratch(j, q) && q !in j.want
    {
      assert q <= d && q !in t;
      PrefixNeeded(j, e, d, q);
      NeededFacts(j, q);
    }
    FrameRecoverable(j, t, u);
  }

  /** A change that only adds needed directories outside scratch space and keeps backups. */
  lemma FrameRecoverable(j: Job, t: Tree, u: Tree)
    requires Sound(j) && Recoverable(j, t)
    requires forall q :: !Scratch(j, q) && !SameAt(u, t, q) ==> q !in t && u[q] == Dir && Needed(j, q) && q !in j.want
    requires forall p :: p in j.want && j.root + p in t ==> SameAt(u, t, j.root + p)
    ensures Recoverable(j, u)
  {
    forall p | p in j.want
      ensures TargetWhole(j, u, p) && (p in j.t0 && DataAt(u, p) != DataAt(j.t0, p) ==> Kept(j, u, p))
    {
      assert j.want[p] in j.es && p <= j.want[p].target;
      assert SameAt(u, t, p);
      assert TargetWhole(j, t, p);
    }
    forall p | !Scratch(j, p) && p !in j.want
      ensures p in j.t0 ==> SameAt(u, j.t0, p)
      ensures p !in j.t0 && p in u ==> u[p] == Dir && Needed(j, p)
    {
      if p in j.t0 { assert SameAt(t, j.t0, p); }
      if SameAt(u, t, p) { }
    }
  }

  lemma CopyRecoverable(j: Job, t: Tree, u: Tree, p: Path, data: Bytes)
    requires Sound(j) && ParentClosed(t) && Recoverable(j, t)
    requires CopyState(u, t, j.root + p, data)
    ensures Recoverable(j, u)
  {
    forall q | !Scratch(j, q)
      ensures SameAt(u, t, q)
    {
      if q <= j.root + p { BackupWay(j, p, q); }
    }
    FrameRecoverable(j, t, u);
  }

  lemma FillOnly(t: Tree, u: Tree, tmp: Path, data: Bytes, q: Path)
    requires FillState(u, t, tmp, data) && q != tmp
    ensures SameAt(u, t, q)
  {
  }

  lemma FillRecoverable(j: Job, t: Tree, u: Tree, tmp: Path, data: Bytes)
    requires Sound(j) && Recoverable(j, t) && tmp in j.temps
    requires FillState(u, t, tmp, data)
    ensures Recoverable(j, u)
  {
    forall q | q != tmp
      ensures SameAt(u, t, q)
    {
      FillOnly(t, u, tmp, data, q);
    }
    forall p | p in j.want
      ensures j.root + p != tmp
    {
      assert j.root <= j.root + p;
    }
    hide FillState, Recoverable, Needed;
    FrameRecoverable(j, t, u);
  }

  lemma DoneOnly(t: Tree, u: Tree, e: Entry, q: Path)
    requires EntryDone(u, t, e) && q != e.target
    ensures SameAt(u, t, q)
  {
  }

  lemma ElsewhereFrame(j: Job, t: Tree, u: Tree, p: Path)
    requires Elsewhere(j, t) && p in j.want && forall q :: q != p ==> SameAt(u, t, q)
    ensures Elsewhere(j, u)
  {
    hide Needed, Scratch;
    forall q | !Scratch(j, q) && q !in j.want
      ensures q in j.t0 ==> SameAt(u, j.t0, q)
      ensures q !in j.t0 && q in u ==> u[q] == Dir && Needed(j, q)
    {
      assert SameAt(u, t, q);
      if q in j.t0 { assert SameAt(t, j.t0, q); }
    }
  }

  /** A change of one file target to a whole state that is not missed. */
  lemma TargetRecoverable(j: Job, t: Tree, u: Tree, p: Path)
    requires Sound(j) && Recoverable(j, t) && p in j.want
    requires forall q :: q != p ==> SameAt(u, t, q)
    requires TargetWhole(j, u, p)
    requires p in j.t0 && DataAt(u, p) != DataAt(j.t0, p) ==> Kept(j, t, p)
    ensures Recoverable(j, u)
  {
    hide Needed, ParentClosed, Elsewhere;
    assert j.want[p] in j.es;
    PlainTarget(j, j.want[p]);
    hide Sound;
    ElsewhereFrame(j, t, u, p);
    forall q | q in j.want
      ensures TargetWhole(j, u, q) && (q in j.t0 && DataAt(u, q) != DataAt(j.t0, q) ==> Kept(j, u, q))
    {
      assert SameAt(u, t, j.root + q);
      if q != p {
        assert SameAt(u, t, q);
        assert TargetWhole(j, t, q);
      }
    }
  }

  lemma DoneRecoverable(j: Job, t: Tree, u: Tree, e: Entry)
    requires Sound(j) && Recoverable(j, t) && e in j.es && !e.dir
    requires EntryDone(u, t, e) && (e.target in j.t0 ==> Kept(j, t, e.target))
    ensures Recoverable(j, u)
  {
    assert e.target in j.want && j.want[e.target] == e;
    forall q | q != e.target
      ensures SameAt(u, t, q)
    {
      DoneOnly(t, u, e, q);
    }
    assert e.target in j.t0 ==> j.t0[e.target].File?;
    TargetRecoverable(j, t, u, e.target);
  }

  lemma RecordOf(j: Job, t: Tree, applied: seq<Applied>, created: seq<Path>, p: Path)
    requires Ledger(j, t, applied, created)
    ensures p in Targets(applied) ==> p in j.want && p in t && t[p].File?
    ensures p in created ==> GoodCreated(j, t, p)
  {
    if p in Targets(applied) {
      var i :| 0 <= i < |applied| && applied[i].target == p;
      assert GoodRecord(j, t, applied[i]);
    }
    if p in created {
      var i :| 0 <= i < |created| && created[i] == p;
      assert GoodCreated(j, t, created[i]);
    }
  }

  lemma RecordFrame(j: Job, t: Tree, u: Tree, a: Applied)
    requires GoodRecord(j, t, a) && SameAt(u, t, a.target)
    requires j.root + a.target in t ==> SameAt(u, t, j.root + a.target)
    ensures GoodRecord(j, u, a)
  {
  }

  lemma PlainTarget(j: Job, e: Entry)
    requires Sound(j) && e in j.es
    ensures !Scratch(j, e.target) && !(j.root <= e.target)
    ensures forall p: Path :: j.root + p != e.target
  {
    assert e.target <= e.target;
    assert !Scratch(j, e.target);
    forall p: Path
      ensures j.root + p != e.target
    {
      assert j.root <= j.root + p;
    }
  }

  /** Records and created directories survive any change that keeps targets, backups and directories. */
  lemma LedgerFrame(j: Job, t: Tree, u: Tree, applied: seq<Applied>, created: seq<Path>)
    requires Sound(j) && Ledger(j, t, applied, created)
    requires forall q :: !Scratch(j, q) ==> SameAt(u, t, q)
    requires forall q :: j.root <= q && q in t ==> SameAt(u, t, q)
    ensures Ledger(j, u, applied, created)
  {
    hide ParentClosed;
    forall i | 0 <= i < |applied|
      ensures GoodRecord(j, u, applied[i])
    {
      var a := applied[i];
      assert GoodRecord(j, t, a);
      assert j.want[a.target] in j.es;
      PlainTarget(j, j.want[a.target]);
      assert j.root <= j.root + a.target;
      RecordFrame(j, t, u, a);
    }
    forall i | 0 <= i < |created|
      ensures GoodCreated(j, u, created[i])
    {
      assert GoodCreated(j, t, created[i]);
      NeededFacts(j, created[i]);
      assert SameAt(u, t, created[i]);
    }
    forall p | !Scratch(j, p) && p !in Targets(applied) && p !in created
      ensures SameAt(u, j.t0, p)
    {
      assert SameAt(u, t, p) && SameAt(t, j.t0, p);
    }
  }

  lemma CopySame(j: Job, t: Tree, u: Tree, p: Path, data: Bytes)
    requires Sound(j) && ParentClosed(t) && CopyState(u, t, j.root + p, data)
    ensures forall q :: !Scratch(j, q) ==> SameAt(u, t, q)
    ensures forall q :: q in t ==> SameAt(u, t, q)
  {
    forall q | !Scratch(j, q)
      ensures SameAt(u, t, q)
    {
      if q <= j.root + p { BackupWay(j, p, q); }
    }
  }

  lemma LedgerCopy(j: Job, t: Tree, u: Tree, applied: seq<Applied>, created: seq<Path>, p: Path, data: Bytes)
    requires Sound(j) && Forward(j, t, applied, created) && p in j.want
    requires CopyState(u, t, j.root + p, data)
    ensures Ledger(j, u, applied, created) && NoTemps(j, u)
    ensures RootHolds(j, u, Targets(applied) + {p})
  {
    hide Sound, Ledger, CopyState, ParentClosed, RootHolds;
    ForwardParts(j, t, applied, created);
    CopySame(j, t, u, p, data);
    LedgerFrame(j, t, u, applied, created);
    TempsCopy(j, t, u, p, data);
    RootCopy(j, t, u, Targets(applied), p, data);
  }

  lemma TempsCopy(j: Job, t: Tree, u: Tree, p: Path, data: Bytes)
    requires Sound(j) && NoTemps(j, t) && CopyState(u, t, j.root + p, data)
    ensures NoTemps(j, u)
  {
    forall q | q in j.temps
      ensures q !in u
    {
      assert SameAt(u, t, q);
    }
  }

  lemma ForwardParts(j: Job, t: Tree, applied: seq<Applied>, created: seq<Path>)
    requires Forward(j, t, applied, created)
    ensures ParentClosed(t) && Ledger(j, t, applied, created) && RootHolds(j, t, Targets(applied)) && NoTemps(j, t)
  {
  }

  lemma RootCopy(j: Job, t: Tree, u: Tree, done: set<Path>, p: Path, data: Bytes)
    requires RootHolds(j, t, done) && CopyState(u, t, j.root + p, data) && forall q :: q in t ==> SameAt(u, t, q)
    ensures RootHolds(j, u, done + {p})
  {
    forall q | j.root <= q && q != j.root && q in u
      ensures if u[q].Dir? then exists p' :: p' in done + {p} && q < j.root + p' else q[|j.root|..] in done + {p}
    {
      if q in t {
        assert SameAt(u, t, q);
      } else {
        assert q <= j.root + p;
        assert q == j.root + p ==> q[|j.root|..] == p;
        assert p in done + {p};
      }
    }
    assert SameAt(u, t, j.root) && SameAt(u, t, j.spare);
  }

  lemma LedgerFill(j: Job, t: Tree, u: Tree, applied: seq<Applied>, created: seq<Path>, tmp: Path, data: Bytes)
    requires Sound(j) && Ledger(j, t, applied, created) && tmp in j.temps
    requires FillState(u, t, tmp, data)
    ensures Ledger(j, u, applied, created)
  {
    forall q | q != tmp
      ensures SameAt(u, t, q)
    {
      FillOnly(t, u, tmp, data, q);
    }
    hide FillState;
    LedgerFrame(j, t, u, applied, created);
  }

  lemma TargetsSnoc(applied: seq<Applied>, a: Applied)
    ensures Targets(applied + [a]) == Targets(applied) + {a.target}
  {
    forall p | p in Targets(applied) + {a.target}
      ensures p in Targets(applied + [a])
    {
      if p == a.target {
        assert a in applied + [a];
      } else {
        var b :| b in applied && b.target == p;
        assert b in applied + [a];
      }
    }
  }

  lemma LedgerDone(j: Job, t: Tree, u: Tree, applied: seq<Applied>, created: seq<Path>, e: Entry, a: Applied)
    requires Sound(j) && Ledger(j, t, applied, created) && e in j.es && !e.dir
    requires EntryDone(u, t, e) && u[e.target].mode == e.mode
    requires a.target == e.target && a.rel == e.rel && a.backup == j.root + e.target && e.target !in Targets(applied)
    requires a.existed <==> e.target in j.t0
    requires a.existed ==> j.t0[e.target].File? && a.mode == j.t0[e.target].mode && a.mtime == j.t0[e.target].mtime && Kept(j, t, e.target)
    ensures Ledger(j, u, applied + [a], created)
    ensures Targets(applied + [a]) == Targets(applied) + {e.target}
  {
    hide Sound, Ledger, EntryDone, ParentClosed, Needed, Scratch, Kept, GoodRecord, GoodCreated, RestAsBefore;
    DoneRecord(j, t, u, e, a);
    TargetsSnoc(applied, a);
    LedgerParts(j, t, applied, created);
    DoneRecords(j, t, u, applied, e, a);
    DoneCreated(j, t, u, created, e);
    DoneRest(j, t, u, applied, created, e, a);
    LedgerParts(j, u, applied + [a], created);
  }

  ghost predicate RestAsBefore(j: Job, t: Tree, applied: seq<Applied>, created: seq<Path>) {
    forall p :: !Scratch(j, p) && p !in Targets(applied) && p !in created ==> SameAt(t, j.t0, p)
  }

  lemma LedgerParts(j: Job, t: Tree, applied: seq<Applied>, created: seq<Path>)
    ensures Ledger(j, t, applied, created) <==>
              && (forall i :: 0 <= i < |applied| ==> GoodRecord(j, t, applied[i]))
              && (forall i, k :: 0 <= i < k < |applied| ==> applied[i].target != applied[k].target)
              && (forall i :: 0 <= i < |created| ==> GoodCreated(j, t, created[i]))
              && (forall i, k :: 0 <= i < k < |created| ==> !(created[k] <= created[i]))
              && RestAsBefore(j, t, applied, created)
  {
  }

  /** The new record is truthful, and nothing but the target has changed. */
  lemma DoneRecord(j: Job, t: Tree, u: Tree, e: Entry, a: Applied)
    requires Sound(j) && e in j.es && !e.dir && EntryDone(u, t, e) && u[e.target].mode == e.mode
    requires a.target == e.target && a.rel == e.rel && a.backup == j.root + e.target
    requires a.existed <==> e.target in j.t0
    requires a.existed ==> j.t0[e.target].File? && a.mode == j.t0[e.target].mode && a.mtime == j.t0[e.target].mtime && Kept(j, t, e.target)
    ensures GoodRecord(j, u, a)
    ensures forall q :: q != e.target ==> SameAt(u, t, q)
    ensures !Scratch(j, e.target) && forall p: Path :: j.root + p != e.target
  {
    PlainTarget(j, e);
    hide Scratch, ParentClosed;
    assert j.want[e.target] == e;
  }

  lemma DoneRecords(j: Job, t: Tree, u: Tree, applied: seq<Applied>, e: Entry, a: Applied)
    requires GoodRecord(j, u, a) && a.target == e.target && e.target !in Targets(applied)
    requires forall i :: 0 <= i < |applied| ==> GoodRecord(j, t, applied[i])
    requires forall q :: q != e.target ==> SameAt(u, t, q)
    requires forall p: Path :: j.root + p != e.target
    requires forall i, k :: 0 <= i < k < |applied| ==> applied[i].target != applied[k].target
    ensures forall i :: 0 <= i < |applied + [a]| ==> GoodRecord(j, u, (applied + [a])[i])
    ensures forall i, k :: 0 <= i < k < |applied + [a]| ==> (applied + [a])[i].target != (applied + [a])[k].target
  {
    var all := applied + [a];
    forall i | 0 <= i < |all|
      ensures GoodRecord(j, u, all[i])
      ensures i < |applied| ==> all[i].target != e.target
    {
      if i < |applied| {
        assert applied[i] in applied;
        RecordFrame(j, t, u, applied[i]);
      }
    }
  }

  lemma DoneCreated(j: Job, t: Tree, u: Tree, created: seq<Path>, e: Entry)
    requires Sound(j) && e in j.es && !e.dir && forall q :: q != e.target ==> SameAt(u, t, q)
    requires forall i :: 0 <= i < |created| ==> GoodCreated(j, t, created[i])
    ensures forall i :: 0 <= i < |created| ==> GoodCreated(j, u, created[i])
  {
    hide Needed, ParentClosed, Scratch;
    assert e.target in j.want;
    forall i | 0 <= i < |created|
      ensures GoodCreated(j, u, created[i])
    {
      assert GoodCreated(j, t, created[i]);
      NeededFacts(j, created[i]);
      assert SameAt(u, t, created[i]);
    }
  }

  lemma DoneRest(j: Job, t: Tree, u: Tree, applied: seq<Applied>, created: seq<Path>, e: Entry, a: Applied)
    requires RestAsBefore(j, t, applied, created) && forall q :: q != e.target ==> SameAt(u, t, q)
    requires Targets(applied + [a]) == Targets(applied) + {e.target}
    ensures RestAsBefore(j, u, applied + [a], created)
  {
    hide Scratch, Targets;
    forall p | !Scratch(j, p) && p !in Targets(applied + [a]) && p !in created
      ensures SameAt(u, j.t0, p)
    {
      assert SameAt(u, t, p) && SameAt(t, j.t0, p);
    }
  }

  lemma DirsSame(j: Job, t: Tree, u: Tree, applied: seq<Applied>, created: seq<Path>, e: Entry, d: Path)
    requires Sound(j) && Ledger(j, t, applied, created) && e in j.es && DirsState(u, t, d)
    requires d == if e.dir then e.target else Parent(e.target)
    ensures forall q :: Scratch(j, q) || q in Targets(applied) || q in created ==> SameAt(u, t, q)
  {
    forall q | Scratch(j, q) || q in Targets(applied) || q in created
      ensures SameAt(u, t, q)
    {
      RecordOf(j, t, applied, created, q);
      if q <= d && q != [] {
        PrefixNeeded(j, e, d, q);
        NeededFacts(j, q);
      }
    }
  }

  lemma ScratchSame(j: Job, t: Tree, u: Tree, done: set<Path>)
    requires RootHolds(j, t, done) && NoTemps(j, t)
    requires forall q :: Scratch(j, q) ==> SameAt(u, t, q)
    ensures RootHolds(j, u, done) && NoTemps(j, u)
  {
    assert SameAt(u, t, j.root) && SameAt(u, t, j.spare);
    forall q | j.root <= q && q != j.root && q in u
      ensures SameAt(u, t, q)
    {
    }
    forall q | q in j.temps
      ensures SameAt(u, t, q)
    {
    }
  }

  lemma LedgerDirs(j: Job, t: Tree, u: Tree, applied: seq<Applied>, created: seq<Path>, e: Entry, d: Path, created': seq<Path>)
    requires Sound(j) && Forward(j, t, applied, created) && e in j.es && ParentClosed(u)
    requires d == if e.dir then e.target else Parent(e.target)
    requires DirsState(u, t, d) && created <= created' && NewDirs(u, t, d, created', |created|)
    ensures Forward(j, u, applied, created')
  {
    DirsSame(j, t, u, applied, created, e, d);
    DirsCreated(j, t, u, applied, created, e, d, created');
    CreatedOrder(j, t, u, created, d, created');
    forall p | !Scratch(j, p) && p !in Targets(applied) && p !in created'
      ensures SameAt(u, j.t0, p)
    {
      assert p !in created;
      assert SameAt(t, j.t0, p);
      assert SameAt(u, t, p);
    }
    hide ParentClosed, DirsState, NewDirs, GoodCreated, Needed;
    ScratchSame(j, t, u, Targets(applied));
    forall i | 0 <= i < |applied|
      ensures GoodRecord(j, u, applied[i])
    {
      assert GoodRecord(j, t, applied[i]) && applied[i] in applied;
      assert applied[i].target in Targets(applied);
      assert j.root <= j.root + applied[i].target;
      RecordFrame(j, t, u, applied[i]);
    }
  }

  lemma DirsCreated(j: Job, t: Tree, u: Tree, applied: seq<Applied>, created: seq<Path>, e: Entry, d: Path, created': seq<Path>)
    requires Sound(j) && Forward(j, t, applied, created) && e in j.es
    requires d == if e.dir then e.target else Parent(e.target)
    requires DirsState(u, t, d) && created <= created' && NewDirs(u, t, d, created', |created|)
    ensures forall i :: 0 <= i < |created'| ==> GoodCreated(j, u, created'[i])
  {
    var n := |created|;
    forall i | 0 <= i < |created'|
      ensures GoodCreated(j, u, created'[i])
    {
      var c := created'[i];
      if i < n {
        assert c == created[i] && GoodCreated(j, t, created[i]);
        assert SameAt(u, t, c);
      } else {
        assert c !in t && c <= d && c in u;
        assert c != [];
        PrefixNeeded(j, e, d, c);
        NeededFacts(j, c);
        RecordOf(j, t, applied, created, c);
        assert SameAt(t, j.t0, c);
      }
    }
  }

  /** Later created directories are never ancestors of earlier ones. */
  lemma CreatedOrder(j: Job, t: Tree, u: Tree, created: seq<Path>, d: Path, created': seq<Path>)
    requires ParentClosed(t) && forall i :: 0 <= i < |created| ==> GoodCreated(j, t, created[i])
    requires forall i, k :: 0 <= i < k < |created| ==> !(created[k] <= created[i])
    requires created <= created' && NewDirs(u, t, d, created', |created|)
    ensures forall i, k :: 0 <= i < k < |created'| ==> !(created'[k] <= created'[i])
  {
    var n := |created|;
    forall i, k | 0 <= i < k < |created'|
      ensures !(created'[k] <= created'[i])
    {
      var ci, ck := created'[i], created'[k];
      if k < n {
        assert ck == created[k] && ci == created[i];
      } else if i < n {
        assert ci == created[i] && GoodCreated(j, t, created[i]);
        assert ck !in t;
        PrefixSlice(ck, ci);
        assert ci[..|ci|] == ci;
        if ck < ci { AncestorsAreDirs(t, ck, ci); }
      } else {
        assert ci < ck;
        PrefixSlice(ci, ck);
        PrefixSlice(ck, ci);
      }
    }
  }

  /** Every state since `n` is recoverable and within the space limit. */
  ghost predicate SafeTrace(j: Job, h: seq<Tree>, n: nat, limit: int) {
    RecoverableTrace(j, h, n) && BudgetTrace(h, n, limit)
  }

  lemma SafeTraceRefl(j: Job, h: seq<Tree>, limit: int)
    ensures SafeTrace(j, h, |h|, limit)
  {
  }

  lemma SafeTraceAppend(j: Job, h: seq<Tree>, n: nat, h': seq<Tree>, m: nat, limit: int, limit': int, bound: int)
    requires SafeTrace(j, h, n, limit) && h <= h' && m == |h| && SafeTrace(j, h', m, limit')
    requires limit <= bound && limit' <= bound
    ensures SafeTrace(j, h', n, bound)
  {
    forall i | n <= i < |h'|
      ensures Recoverable(j, h'[i]) && BytesIn(h'[i]) <= bound
    {
      if i < m { assert h'[i] == h[i]; }
    }
  }

  lemma DirsTraceSafe(j: Job, h: seq<Tree>, n: nat, t: Tree, e: Entry, d: Path)
    requires Sound(j) && ParentClosed(t) && Recoverable(j, t) && e in j.es
    requires d == if e.dir then e.target else Parent(e.target)
    requires DirsTrace(h, n, t, d)
    ensures SafeTrace(j, h, n, BytesIn(t))
  {
    forall i | n <= i < |h|
      ensures Recoverable(j, h[i])
    {
      DirsRecoverable(j, t, h[i], e, d);
    }
  }

  lemma CopyTraceSafe(j: Job, h: seq<Tree>, n: nat, t: Tree, p: Path, data: Bytes)
    requires Sound(j) && ParentClosed(t) && Recoverable(j, t)
    requires CopyTrace(h, n, t, j.root + p, data)
    ensures SafeTrace(j, h, n, BytesIn(t) + |data|)
  {
    forall i | n <= i < |h|
      ensures Recoverable(j, h[i])
    {
      CopyRecoverable(j, t, h[i], p, data);
    }
  }

  lemma EntryStateSafe(j: Job, t: Tree, u: Tree, e: Entry, tmp: Path)
    requires Sound(j) && Recoverable(j, t) && e in j.es && !e.dir && tmp in j.temps
    requires e.target in j.t0 ==> Kept(j, t, e.target)
    requires EntryState(u, t, e, tmp)
    ensures Recoverable(j, u) && BytesIn(u) <= BytesIn(t) + e.size + 1
  {
    hide Sound, Recoverable, Kept;
    if EntryDone(u, t, e) {
      DoneRecoverable(j, t, u, e);
    } else {
      FillBytes(t, u, tmp, Limited(e));
      hide FillState;
      FillRecoverable(j, t, u, tmp, Limited(e));
    }
  }

  lemma EntryTraceSafe(j: Job, h: seq<Tree>, n: nat, t: Tree, e: Entry, tmp: Path)
    requires Sound(j) && Recoverable(j, t) && e in j.es && !e.dir && tmp in j.temps
    requires e.target in j.t0 ==> Kept(j, t, e.target)
    requires EntryTrace(h, n, t, e, tmp)
    ensures SafeTrace(j, h, n, BytesIn(t) + e.size + 1)
  {
    hide Sound, Recoverable, Kept, EntryState;
    forall i | n <= i < |h|
      ensures Recoverable(j, h[i]) && BytesIn(h[i]) <= BytesIn(t) + e.size + 1
    {
      EntryStateSafe(j, t, h[i], e, tmp);
    }
  }

  lemma FillBytes(t: Tree, u: Tree, tmp: Path, data: Bytes)
    requires FillState(u, t, tmp, data)
    ensures BytesIn(u) <= BytesIn(t) + |data|
  {
  }

  /** Before its turn an entry's target is as it was at the start. */
  lemma TargetUntouched(j: Job, t: Tree, applied: seq<Applied>, created: seq<Path>, e: Entry)
    requires Sound(j) && Ledger(j, t, applied, created) && e in j.es && !e.dir && e.target !in Targets(applied)
    ensures SameAt(t, j.t0, e.target)
  {
    PlainTarget(j, e);
    RecordOf(j, t, applied, created, e.target);
    if e.target in created { NeededFacts(j, e.target); }
  }

  /** No ancestor of an entry has become anything but a directory. */
  lemma WayIsClear(j: Job, t: Tree, applied: seq<Applied>, created: seq<Path>, e: Entry, d: Path)
    requires Sound(j) && Forward(j, t, applied, created) && e in j.es
    requires d == if e.dir then e.target else Parent(e.target)
    ensures !Obstructed(t, d)
  {
    LedgerRecoverable(j, t, applied, created);
    forall k | 0 <= k <= |d| && d[..k] in t
      ensures t[d[..k]].Dir?
    {
      var q := d[..k];
      if k > 0 {
        assert q <= d;
        PrefixNeeded(j, e, d, q);
        NeededFacts(j, q);
        if q in j.t0 { assert SameAt(t, j.t0, q); }
      } else {
        assert q == [];
      }
    }
  }

  lemma BelowRoot(root: Path, p: Path, q: Path)
    requires root <= q
    ensures q <= root + p <==> q[|root|..] <= p
    ensures q < root + p <==> q[|root|..] < p
  {
    var r := q[|root|..];
    PrefixSlice(q, root + p);
    PrefixSlice(r, p);
    PrefixSlice(root, q);
    assert q == root + r;
    if |q| <= |root + p| {
      assert (root + p)[..|q|] == root + p[..|r|];
    }
    if |r| <= |p| && p[..|r|] == r {
      assert (root + p)[..|q|] == q;
    }
    if |q| <= |root + p| && (root + p)[..|q|] == q {
      assert (root + p[..|r|])[|root|..] == p[..|r|];
    }
  }

  /** Below the transaction directory, the way to the next backup holds directories only. */
  lemma BackupWayIsClear(j: Job, t: Tree, applied: seq<Applied>, created: seq<Path>, e: Entry, q: Path)
    requires Sound(j) && Ledger(j, t, applied, created) && RootHolds(j, t, Targets(applied))
    requires e in j.es && !e.dir && e.target !in Targets(applied)
    requires j.root <= q <= j.root + e.target && q in t
    ensures t[q].Dir? && q != j.root + e.target
  {
    hide ParentClosed, Needed, GoodRecord, GoodCreated, Ledger;
    var r := q[2..];
    BelowRoot(j.root, e.target, q);
    RecordOf(j, t, applied, created, r);
    PrefixSlice(r, e.target);
    assert e.target[..|e.target|] == e.target;
    if q != j.root {
      if t[q].Dir? {
        var p :| p in Targets(applied) && q < j.root + p;
        BelowRoot(j.root, p, q);
        RecordOf(j, t, applied, created, p);
        assert j.want[p] in j.es && e.target in j.want;
        assert !(e.target < p);
      }
    }
  }

  /** The backup of the next file meets neither a file on its way nor an earlier backup. */
  lemma BackupIsClear(j: Job, t: Tree, applied: seq<Applied>, created: seq<Path>, e: Entry)
    requires Sound(j) && Forward(j, t, applied, created) && e in j.es && !e.dir && e.target !in Targets(applied)
    ensures j.root + e.target !in t && !Obstructed(t, Parent(j.root + e.target))
  {
    var b := j.root + e.target;
    forall q | q <= b && q in t
      ensures t[q].Dir? && q != b
    {
      PrefixSlice(q, b);
      if |q| >= 2 {
        assert b[..|q|][..2] == j.root;
        PrefixSlice(j.root, q);
        BackupWayIsClear(j, t, applied, created, e, q);
      } else {
        assert q == if |q| == 0 then [] else j.root[..1];
      }
    }
    forall k | 0 <= k <= |Parent(b)| && Parent(b)[..k] in t
      ensures t[Parent(b)[..k]].Dir?
    {
      assert Parent(b)[..k] == b[..k];
      PrefixSlice(b[..k], b);
    }
  }

  /** Changes of temporary files are never missed. */
  lemma TempRecoverable(j: Job, t: Tree, u: Tree)
    requires Sound(j) && Recoverable(j, t)
    requires forall q :: q !in j.temps ==> SameAt(u, t, q)
    ensures Recoverable(j, u)
  {
    forall p | p in j.want
      ensures j.root + p !in j.temps
    {
      assert j.root <= j.root + p;
    }
    hide Needed, Recoverable;
    FrameRecoverable(j, t, u);
  }
}
