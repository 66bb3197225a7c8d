/** The building blocks of an install: making directories, copying a file, writing one entry.
    Each contract speaks of the final tree and of every state in between. */
module InstallSteps {
  import opened Octets
  import opened Options
  import opened FileTree
  import opened FileSystems
  import opened InstallNames
  import opened Preflight

  /** Only directories on the way to `p` may have been added. */
  ghost predicate DirsState(t: Tree, t0: Tree, p: Path) {
    && (forall q :: q in t0 || !(q <= p) ==> SameAt(t, t0, q))
    && (forall q :: q in t && q !in t0 ==> t[q] == Dir)
    && BytesIn(t) == BytesIn(t0)
  }

  ghost predicate DirsTrace(h: seq<Tree>, n: nat, t0: Tree, p: Path) {
    n <= |h| && forall i :: n <= i < |h| ==> DirsState(h[i], t0, p)
  }

  /** Besides that, `p` may have been added as a file holding a prefix of `data`. */
  ghost predicate CopyState(t: Tree, t0: Tree, p: Path, data: Bytes) {
    && (forall q :: q in t0 || !(q <= p) ==> SameAt(t, t0, q))
    && (forall q :: q in t && q !in t0 && q != p ==> t[q] == Dir)
    && (p in t && p !in t0 ==> t[p].File? && t[p].data <= data)
    && BytesIn(t) <= BytesIn(t0) + |data|
  }

  /** Some ancestor-or-self of `p` is there and is not a directory. */
  ghost predicate Obstructed(t: Tree, p: Path) {
    exists k :: 0 <= k <= |p| && p[..k] in t && !t[p[..k]].Dir?
  }

  method Discard(fs: FileSystem, p: Path)
    requires ParentClosed(fs.tree)
    requires fs.Recorded()
    modifies fs
    ensures fs.Recorded()
    ensures ParentClosed(fs.tree)
    ensures fs.tree == old(fs.tree) || fs.tree == old(fs.tree) - {p}
    ensures fs.ignored == old(fs.ignored) && p in old(fs.tree) && !old(fs.tree)[p].Dir? ==> p !in fs.tree
    ensures fs.ignored == old(fs.ignored) && CanRemove(old(fs.tree), p) ==> p !in fs.tree
    ensures fs.tree != old(fs.tree) ==> CanRemove(old(fs.tree), p)
    ensures BytesIn(fs.tree) <= BytesIn(old(fs.tree))
    ensures fs.tree != old(fs.tree) ==> BytesIn(old(fs.tree)) == BytesIn(fs.tree) + Size(old(fs.tree)[p])
    ensures fs.faults - old(fs.faults) == fs.ignored - old(fs.ignored) >= 0
    ensures fs.history == old(fs.history) + [fs.tree]
  {
    var err := fs.Remove(p);
    fs.Ignore(err);
  }

  method MkdirAll(fs: FileSystem, p: Path) returns (ok: bool)
    requires ParentClosed(fs.tree)
    requires fs.Recorded()
    modifies fs`tree, fs`history, fs`faults
    ensures fs.Recorded()
    ensures ParentClosed(fs.tree)
    ensures ok ==> IsDir(fs.tree, p)
    ensures !ok ==> fs.faults > old(fs.faults) || Obstructed(old(fs.tree), p)
    ensures fs.faults >= old(fs.faults)
    ensures DirsState(fs.tree, old(fs.tree), p)
    ensures old(fs.history) <= fs.history
    ensures DirsTrace(fs.history, |old(fs.history)|, old(fs.tree), p)
  {
    var k := 0;
    ghost var t0 := fs.tree;
    assert p[..0] == [];
    while k < |p|
      invariant fs.Recorded()
      invariant 0 <= k <= |p| && IsDir(fs.tree, p[..k])
      invariant ParentClosed(fs.tree)
      invariant fs.faults >= old(fs.faults)
      invariant DirsState(fs.tree, t0, p)
      invariant forall j :: k < j <= |p| && p[..j] in fs.tree ==> p[..j] in t0
      invariant old(fs.history) <= fs.history
      invariant DirsTrace(fs.history, |old(fs.history)|, t0, p)
    {
      k := k + 1;
      assert Parent(p[..k]) == p[..k - 1];
      if !IsDir(fs.tree, p[..k]) {
        var err := fs.Mkdir(p[..k]);
        if err != Ok { return false; }
      }
    }
    assert p[..|p|] == p;
    return true;
  }

  /** The paths appended to `created` since index `from` are exactly the directories added. */
  ghost predicate NewDirs(t: Tree, t0: Tree, p: Path, created: seq<Path>, from: nat) {
    && from <= |created|
    && (forall i :: from <= i < |created| ==> created[i] !in t0 && created[i] in t && created[i] <= p)
    && (forall i, j :: from <= i < j < |created| ==> created[i] < created[j])
    && (forall q :: q in t && q !in t0 ==> q in created[from..])
  }

  lemma NewDirsSnoc(t: Tree, t0: Tree, p: Path, created: seq<Path>, from: nat, k: nat)
    requires k < |p| && NewDirs(t, t0, p[..k], created, from) && p[..k + 1] !in t0
    ensures NewDirs(t[p[..k + 1] := Dir], t0, p[..k + 1], created + [p[..k + 1]], from)
  {
    var q, all := p[..k + 1], created + [p[..k + 1]];
    PrefixSlice(p[..k], q);
    assert all[from..] == created[from..] + [q];
    forall i | from <= i < |created|
      ensures all[i] < q && all[i] <= q
    {
      PrefixSlice(created[i], p[..k]);
      PrefixSlice(created[i], q);
      assert q[..|created[i]|] == p[..k][..|created[i]|];
    }
  }

  lemma NewDirsWiden(t: Tree, t0: Tree, p: Path, created: seq<Path>, from: nat, k: nat, m: nat)
    requires k <= m <= |p| && NewDirs(t, t0, p[..k], created, from)
    ensures NewDirs(t, t0, p[..m], created, from)
  {
    forall i | from <= i < |created|
      ensures created[i] <= p[..m]
    {
      PrefixSlice(created[i], p[..k]);
      assert p[..m][..|created[i]|] == p[..k][..|created[i]|];
    }
  }

  lemma AbsentBelowDir(t: Tree, q: Path)
    requires ParentClosed(t) && q != [] && IsDir(t, Parent(q))
    ensures MissingErrno(t, q) == NotExist
  {
    forall i | 0 <= i < |q| && q[..i] in t
      ensures t[q[..i]].Dir?
    {
      assert q[..i] == Parent(q)[..i];
      if i < |Parent(q)| { AncestorsAreDirs(t, q[..i], Parent(q)); }
    }
  }

  lemma DirsStep(t: Tree, t0: Tree, p: Path, k: nat)
    requires DirsState(t, t0, p) && k <= |p| && p[..k] !in t
    ensures DirsState(t[p[..k] := Dir], t0, p)
  {
    BytesUpdate(t, p[..k], Dir);
  }

  lemma NoDirs(t: Tree, p: Path, created: seq<Path>)
    ensures DirsState(t, t, p) && NewDirs(t, t, p, created, |created|)
  {
  }

  lemma DirsTraceSnoc(h: seq<Tree>, n: nat, t0: Tree, p: Path, t: Tree)
    requires DirsTrace(h, n, t0, p) && DirsState(t, t0, p)
    ensures DirsTrace(h + [t], n, t0, p)
  {
  }

  lemma AddedIsNew(t: Tree, t0: Tree, p: Path, k: nat)
    requires DirsState(t, t0, p) && k <= |p| && p[..k] !in t
    ensures p[..k] !in t0
  {
  }

  lemma ObstructedBefore(t: Tree, t0: Tree, p: Path, k: nat)
    requires DirsState(t, t0, p) && k <= |p| && p[..k] in t && !t[p[..k]].Dir?
    ensures Obstructed(t0, p)
  {
  }

  /** What one component of EnsureDirs does to the bookkeeping. */
  lemma EnsureStep(t: Tree, t1: Tree, t0: Tree, p: Path, k: nat, before: seq<Path>, after: seq<Path>, n: nat)
    requires k < |p| && DirsState(t, t0, p) && NewDirs(t, t0, p[..k], before, n)
    requires || (t1 == t && after == before)
             || (p[..k + 1] !in t && t1 == t[p[..k + 1] := Dir] && after == before + [p[..k + 1]])
    ensures DirsState(t1, t0, p)
    ensures NewDirs(t1, t0, p[..k + 1], after, n) && NewDirs(t1, t0, p, after, n)
    ensures p[..k + 1] in t && !t[p[..k + 1]].Dir? ==> Obstructed(t0, p)
  {
    if t1 != t {
      DirsStep(t, t0, p, k + 1);
      AddedIsNew(t, t0, p, k + 1);
      NewDirsSnoc(t, t0, p, before, n, k);
    } else {
      NewDirsWiden(t, t0, p, before, n, k, k + 1);
      if p[..k + 1] in t && !t[p[..k + 1]].Dir? { ObstructedBefore(t, t0, p, k + 1); }
    }
    NewDirsWiden(t1, t0, p, after, n, k + 1, |p|);
    assert p[..|p|] == p;
  }

  /** One component of EnsureDirs: already a directory, or created and recorded. */
  method EnsureDir(fs: FileSystem, q: Path, created: seq<Path>) returns (ok: bool, created': seq<Path>)
    requires ParentClosed(fs.tree) && q != [] && IsDir(fs.tree, Parent(q))
    requires fs.Recorded()
    modifies fs`tree, fs`history, fs`faults
    ensures fs.Recorded()
    ensures ParentClosed(fs.tree) && fs.faults >= old(fs.faults)
    ensures ok ==> IsDir(fs.tree, q)
    ensures !ok ==> fs.faults > old(fs.faults) || (q in old(fs.tree) && !old(fs.tree)[q].Dir?)
    ensures || (fs.tree == old(fs.tree) && created' == created)
            || (q !in old(fs.tree) && fs.tree == old(fs.tree)[q := Dir] && created' == created + [q])
    ensures fs.history == old(fs.history) || fs.history == old(fs.history) + [fs.tree]
    ensures BytesIn(fs.tree) == BytesIn(old(fs.tree))
  {
    created' := created;
    var node, err := fs.Lstat(q);
    if err == Ok { return node.Dir?, created; }
    if err != NotExist {
      AbsentBelowDir(fs.tree, q);
      return false, created;
    }
    err := fs.Mkdir(q);
    if err != Ok { return false, created; }
    return true, created + [q];
  }

  method EnsureDirs(fs: FileSystem, p: Path, created: seq<Path>) returns (ok: bool, created': seq<Path>)
    requires ParentClosed(fs.tree)
    requires fs.Recorded()
    modifies fs`tree, fs`history, fs`faults
    ensures fs.Recorded()
    ensures ParentClosed(fs.tree) && fs.faults >= old(fs.faults)
    ensures ok ==> IsDir(fs.tree, p)
    ensures !ok ==> fs.faults > old(fs.faults) || Obstructed(old(fs.tree), p)
    ensures DirsState(fs.tree, old(fs.tree), p)
    ensures old(fs.history) <= fs.history
    ensures DirsTrace(fs.history, |old(fs.history)|, old(fs.tree), p)
    ensures created <= created' && NewDirs(fs.tree, old(fs.tree), p, created', |created|)
  {
    created' := created;
    var k := 0;
    ghost var t0, n, h0 := fs.tree, |created|, fs.history;
    assert p[..0] == [] && p[..|p|] == p;
    NoDirs(t0, p, created);
    NoDirs(t0, [], created);
    while k < |p|
      invariant fs.Recorded()
      invariant 0 <= k <= |p| && IsDir(fs.tree, p[..k])
      invariant ParentClosed(fs.tree) && fs.faults >= old(fs.faults)
      invariant DirsState(fs.tree, t0, p)
      invariant h0 <= fs.history && DirsTrace(fs.history, |h0|, t0, p)
      invariant created <= created' && NewDirs(fs.tree, t0, p[..k], created', n)
    {
      hide DirsState, NewDirs, DirsTrace, ParentClosed;
      ghost var before, t, h := created', fs.tree, fs.history;
      assert Parent(p[..k + 1]) == p[..k];
      ok, created' := EnsureDir(fs, p[..k + 1], created');
      EnsureStep(t, fs.tree, t0, p, k, before, created', n);
      DirsTraceSnoc(h, |h0|, t0, p, fs.tree);
      if !ok { return; }
      k := k + 1;
    }
    ok := true;
  }

  /** `p`, an empty file in `t0`, has received some prefix of `data`; nothing else changed. */
  ghost predicate Written(t: Tree, t0: Tree, p: Path, data: Bytes) {
    && p in t && t[p].File? && t[p].data <= data
    && t == t0[p := t[p]]
    && BytesIn(t) == BytesIn(t0) + |t[p].data|
  }

  ghost predicate WrittenTrace(h: seq<Tree>, n: nat, t0: Tree, p: Path, data: Bytes) {
    n <= |h| && forall i :: n <= i < |h| ==> Written(h[i], t0, p, data)
  }

  lemma WrittenStart(h: seq<Tree>, t: Tree, p: Path, data: Bytes)
    requires p in t && t[p].File? && t[p].data == []
    ensures Written(t, t, p, data) && t[p].data == data[..0] && WrittenTrace(h, |h|, t, p, data)
  {
    assert t == t[p := t[p]];
  }

  lemma WrittenStep(t: Tree, u: Tree, t0: Tree, p: Path, data: Bytes, m: nat, k: nat, n: nat)
    requires Written(t, t0, p, data) && m <= k <= |data| && t[p].data == data[..m]
    requires p in u && u[p].File? && u == t[p := u[p]] && n <= k - m
    requires u[p].data == t[p].data + data[m..k][..n]
    requires BytesIn(u) == BytesIn(t) + |u[p].data| - |t[p].data|
    ensures Written(u, t0, p, data) && u[p].data == data[..m + n]
  {
    assert data[..m] + data[m..k][..n] == data[..m + n];
  }

  lemma WrittenTraceSnoc(h: seq<Tree>, n: nat, t0: Tree, p: Path, data: Bytes, t: Tree)
    requires WrittenTrace(h, n, t0, p, data) && Written(t, t0, p, data)
    ensures WrittenTrace(h + [t], n, t0, p, data)
  {
  }

  /** io.Copy: chunks of any size; a read or a write may fail between or inside chunks. */
  method CopyStream(fs: FileSystem, p: Path, data: Bytes) returns (ok: bool)
    requires ParentClosed(fs.tree) && p in fs.tree && fs.tree[p].File? && fs.tree[p].data == []
    requires fs.Recorded()
    modifies fs`tree, fs`history, fs`faults
    ensures fs.Recorded()
    ensures ParentClosed(fs.tree)
    ensures Written(fs.tree, old(fs.tree), p, data)
    ensures ok ==> fs.tree[p].data == data
    ensures !ok ==> fs.faults > old(fs.faults)
    ensures fs.faults >= old(fs.faults)
    ensures old(fs.history) <= fs.history && WrittenTrace(fs.history, |old(fs.history)|, old(fs.tree), p, data)
  {
    hide Written, WrittenTrace, ParentClosed;
    ghost var t0, h0 := fs.tree, fs.history;
    WrittenStart(h0, t0, p, data);
    var m := 0;
    while m < |data|
      invariant fs.Recorded()
      invariant 0 <= m <= |data|
      invariant ParentClosed(fs.tree) && fs.faults >= old(fs.faults)
      invariant p in fs.tree && fs.tree[p].File? && Written(fs.tree, t0, p, data) && fs.tree[p].data == data[..m]
      invariant h0 <= fs.history && WrittenTrace(fs.history, |h0|, t0, p, data)
    {
      var unread := fs.Strike();
      if unread { return false; }
      var k: nat := *;
      if !(m < k <= |data|) { k := |data|; }
      ghost var t, h := fs.tree, fs.history;
      var err := fs.Append(p, data[m..k]);
      ghost var n: nat :| n <= k - m && fs.tree[p].data == t[p].data + data[m..k][..n];
      WrittenStep(t, fs.tree, t0, p, data, m, k, n);
      WrittenTraceSnoc(h, |h0|, t0, p, data, fs.tree);
      if err == Ok { WrittenStep(t, fs.tree, t0, p, data, m, k, k - m); }
      if err != Ok { return false; }
      m := k;
    }
    return true;
  }

  function DataAt(t: Tree, p: Path): Bytes {
    if p in t && t[p].File? then t[p].data else []
  }

  ghost predicate CopyTrace(h: seq<Tree>, n: nat, t0: Tree, p: Path, data: Bytes) {
    n <= |h| && forall i :: n <= i < |h| ==> CopyState(h[i], t0, p, data)
  }

  /** Between creating `p` and giving it up or keeping it: absent, or holding a prefix. */
  ghost predicate FillState(t: Tree, t0: Tree, p: Path, data: Bytes) {
    t == t0 ||
    (&& p !in t0 && p in t && t[p].File? && t[p].data <= data
     && t == t0[p := t[p]]
     && BytesIn(t) == BytesIn(t0) + |t[p].data|)
  }

  ghost predicate FillTrace(h: seq<Tree>, n: nat, t0: Tree, p: Path, data: Bytes) {
    n <= |h| && forall i :: n <= i < |h| ==> FillState(h[i], t0, p, data)
  }

  lemma WrittenFill(t: Tree, t0: Tree, f: Node, p: Path, data: Bytes)
    requires p !in t0 && f.File? && f.data == []
    requires Written(t, t0[p := f], p, data)
    ensures FillState(t, t0, p, data) && t != t0 && t - {p} == t0
  {
    BytesUpdate(t0, p, f);
    assert t0[p := f][p := t[p]] == t0[p := t[p]];
  }

  lemma FillTraceRefl(h: seq<Tree>, t0: Tree, p: Path, data: Bytes)
    ensures FillTrace(h, |h|, t0, p, data) && FillState(t0, t0, p, data)
  {
  }

  lemma WrittenFills(h: seq<Tree>, n: nat, t0: Tree, f: Node, p: Path, data: Bytes)
    requires p !in t0 && f.File? && f.data == []
    requires WrittenTrace(h, n, t0[p := f], p, data)
    ensures FillTrace(h, n, t0, p, data)
  {
    forall i | n <= i < |h|
      ensures FillState(h[i], t0, p, data)
    {
      WrittenFill(h[i], t0, f, p, data);
    }
  }

  lemma FillTraceAppend(h: seq<Tree>, n: nat, h': seq<Tree>, m: nat, t0: Tree, p: Path, data: Bytes)
    requires FillTrace(h, n, t0, p, data) && h <= h' && m == |h|
    requires FillTrace(h', m, t0, p, data)
    ensures FillTrace(h', n, t0, p, data)
  {
    forall i | n <= i < |h'|
      ensures FillState(h'[i], t0, p, data)
    {
      if i < m { assert h'[i] == h[i]; }
    }
  }

  lemma FillTraceSnoc(h: seq<Tree>, n: nat, t: Tree, t0: Tree, p: Path, data: Bytes)
    requires FillTrace(h, n, t0, p, data) && FillState(t, t0, p, data)
    ensures FillTrace(h + [t], n, t0, p, data)
  {
  }

  lemma CreatedEmpty(t0: Tree, p: Path, f: Node, data: Bytes)
    requires CanCreate(t0, p) && f.File? && f.data == []
    ensures FillState(t0[p := f], t0, p, data) && p !in t0
  {
    BytesUpdate(t0, p, f);
  }

  /** The second half of copyExact: exclusive create, copy, sync, close; on failure, remove. */
  method CreateAndFill(fs: FileSystem, p: Path, data: Bytes, mode: nat) returns (ok: bool)
    requires ParentClosed(fs.tree)
    requires fs.Recorded()
    modifies fs
    ensures fs.Recorded()
    ensures ParentClosed(fs.tree)
    ensures fs.faults >= old(fs.faults) && fs.ignored >= old(fs.ignored)
    ensures FillState(fs.tree, old(fs.tree), p, data)
    ensures ok ==> fs.tree != old(fs.tree) && fs.tree[p].data == data && fs.ignored == old(fs.ignored)
    ensures !ok && fs.ignored == old(fs.ignored) ==> fs.tree == old(fs.tree)
    ensures !ok ==> fs.faults > old(fs.faults) || !CanCreate(old(fs.tree), p)
    ensures old(fs.history) <= fs.history && FillTrace(fs.history, |old(fs.history)|, old(fs.tree), p, data)
  {
    hide FillTrace, ParentClosed, FillState, Written, WrittenTrace, CanCreate;
    ghost var t0, h0 := fs.tree, fs.history;
    FillTraceRefl(h0, t0, p, data);
    var err := fs.CreateExclusive(p, mode);
    ghost var t1, h1 := fs.tree, fs.history;
    if err != Ok {
      FillTraceSnoc(h0, |h0|, t0, t0, p, data);
      return false;
    }
    CreatedEmpty(t0, p, t1[p], data);
    FillTraceSnoc(h0, |h0|, t1, t0, p, data);
    ok := CopyStream(fs, p, data);
    WrittenFills(fs.history, |h1|, t0, t1[p], p, data);
    WrittenFill(fs.tree, t0, t1[p], p, data);
    FillTraceAppend(h1, |h0|, fs.history, |h1|, t0, p, data);
    if ok {
      err := fs.Flush();
      if err == Ok { err := fs.Flush(); }
      ok := err == Ok;
    }
    if !ok {
      ghost var u, h2 := fs.tree, fs.history;
      Discard(fs, p);
      FillTraceRefl(h2, t0, p, data);
      FillTraceSnoc(h2, |h0|, fs.tree, t0, p, data);
    }
  }

  lemma ParentPrefix(p: Path, q: Path)
    requires p != []
    ensures q <= Parent(p) ==> q <= p
  {
  }

  lemma DirsIsCopy(t: Tree, t0: Tree, p: Path, data: Bytes)
    requires p != [] && DirsState(t, t0, Parent(p))
    ensures CopyState(t, t0, p, data) && SameAt(t, t0, p)
  {
    forall q | !(q <= p)
      ensures SameAt(t, t0, q)
    {
      ParentPrefix(p, q);
    }
  }

  lemma DirsThenFill(t: Tree, t1: Tree, t0: Tree, p: Path, data: Bytes)
    requires p != [] && DirsState(t1, t0, Parent(p)) && FillState(t, t1, p, data)
    ensures CopyState(t, t0, p, data)
    ensures t == t1 ==> SameAt(t, t0, p)
    ensures t != t1 ==> BytesIn(t) == BytesIn(t0) + |t[p].data|
  {
    DirsIsCopy(t1, t0, p, data);
  }

  lemma CopyTraceOf(h: seq<Tree>, n: nat, m: nat, t0: Tree, t1: Tree, p: Path, data: Bytes)
    requires p != [] && n <= m <= |h| && DirsTrace(h[..m], n, t0, Parent(p))
    requires DirsState(t1, t0, Parent(p)) && FillTrace(h, m, t1, p, data)
    ensures CopyTrace(h, n, t0, p, data)
  {
    forall i | n <= i < |h|
      ensures CopyState(h[i], t0, p, data)
    {
      if i < m {
        assert h[..m][i] == h[i];
        DirsIsCopy(h[i], t0, p, data);
      } else {
        DirsThenFill(h[i], t1, t0, p, data);
      }
    }
  }

  /** Copy a file to a new place, never over an existing one. */
  method CopyExact(fs: FileSystem, src: Path, dst: Path, mode: nat) returns (ok: bool)
    requires ParentClosed(fs.tree) && dst != []
    requires fs.Recorded()
    modifies fs
    ensures fs.Recorded()
    ensures ParentClosed(fs.tree)
    ensures fs.faults >= old(fs.faults) && fs.ignored >= old(fs.ignored)
    ensures CopyState(fs.tree, old(fs.tree), dst, DataAt(old(fs.tree), src))
    ensures ok ==> dst !in old(fs.tree) && dst in fs.tree && fs.tree[dst].File?
                   && fs.tree[dst].data == DataAt(old(fs.tree), src) && fs.ignored == old(fs.ignored)
                   && BytesIn(fs.tree) == BytesIn(old(fs.tree)) + |fs.tree[dst].data|
    ensures !ok && fs.ignored == old(fs.ignored) ==> SameAt(fs.tree, old(fs.tree), dst)
    ensures !ok ==> || fs.faults > old(fs.faults) || dst in old(fs.tree) || Obstructed(old(fs.tree), Parent(dst))
                    || src !in old(fs.tree) || !old(fs.tree)[src].File?
    ensures old(fs.history) <= fs.history
    ensures CopyTrace(fs.history, |old(fs.history)|, old(fs.tree), dst, DataAt(old(fs.tree), src))
  {
    ghost var t0, h0 := fs.tree, fs.history;
    ghost var whole := DataAt(t0, src);
    NoDirs(t0, Parent(dst), []);
    DirsIsCopy(t0, t0, dst, whole);
    var data, err := fs.Open(src);
    if err != Ok { return false; }
    ok := MkdirAll(fs, Parent(dst));
    ghost var t1, h1 := fs.tree, fs.history;
    DirsIsCopy(t1, t0, dst, whole);
    assert h1[..|h1|] == h1;
    if !ok {
      CopyTraceOf(h1, |h0|, |h1|, t0, t1, dst, whole);
      return false;
    }
    hide DirsTrace, CopyTrace, FillTrace, ParentClosed, CopyState;
    ok := CreateAndFill(fs, dst, data, mode);
    assert fs.history[..|h1|] == h1;
    CopyTraceOf(fs.history, |h0|, |h1|, t0, t1, dst, whole);
    DirsThenFill(fs.tree, t1, t0, dst, whole);
  }

  /** The bytes a reader limited to one past the declared size hands over. */
  function Limited(e: Entry): Bytes {
    if e.zf.payload.Unopenable? then []
    else if |e.zf.payload.data| <= e.size then e.zf.payload.data
    else e.zf.payload.data[..e.size + 1]
  }

  predicate GoodPayload(e: Entry) {
    e.zf.payload.Payload? && e.zf.payload.intact && |e.zf.payload.data| == e.size
  }

  function Content(e: Entry): Bytes {
    if e.zf.payload.Payload? then e.zf.payload.data else []
  }

  /** The target, and nothing else, holds the entry's whole contents. */
  ghost predicate EntryDone(t: Tree, t0: Tree, e: Entry) {
    && GoodPayload(e)
    && e.target in t && t[e.target].File? && t[e.target].data == Content(e)
    && t == t0[e.target := t[e.target]]
    && BytesIn(t) == BytesIn(t0) + e.size - (if e.target in t0 then Size(t0[e.target]) else 0)
  }

  ghost predicate EntryState(t: Tree, t0: Tree, e: Entry, tmp: Path) {
    FillState(t, t0, tmp, Limited(e)) || EntryDone(t, t0, e)
  }

  ghost predicate EntryTrace(h: seq<Tree>, n: nat, t0: Tree, e: Entry, tmp: Path) {
    n <= |h| && forall i :: n <= i < |h| ==> EntryState(h[i], t0, e, tmp)
  }

  ghost predicate Renamable(t0: Tree, e: Entry, tmp: Path) {
    && tmp !in t0 && tmp != e.target
    && e.target != [] && IsDir(t0, Parent(e.target)) && !IsDir(t0, e.target)
  }

  lemma RenamedIntoPlace(t: Tree, u: Tree, t0: Tree, e: Entry, tmp: Path)
    requires GoodPayload(e) && Renamable(t0, e, tmp) && tmp in t
    requires FillState(t, t0, tmp, Limited(e)) && t[tmp].data == Limited(e)
    requires u == (t - {tmp})[e.target := t[tmp]]
    requires BytesIn(u) == BytesIn(t) - if e.target in t then Size(t[e.target]) else 0
    ensures EntryDone(u, t0, e) && e.target in u && u[e.target] == t[tmp]
  {
    assert t - {tmp} == t0;
  }

  lemma ReadyToRename(t: Tree, t0: Tree, e: Entry, tmp: Path)
    requires Renamable(t0, e, tmp) && FillState(t, t0, tmp, Limited(e)) && tmp in t
    ensures t[tmp].File? && CanRename(t, tmp, e.target) && tmp !in t0 && tmp != e.target
  {
  }

  lemma EntryTraceRefl(h: seq<Tree>, t0: Tree, e: Entry, tmp: Path)
    ensures EntryTrace(h, |h|, t0, e, tmp) && FillState(t0, t0, tmp, Limited(e)) && EntryState(t0, t0, e, tmp)
  {
  }

  lemma FreshFill(t0: Tree, p: Path, f: Node, data: Bytes)
    requires p !in t0 && f.File? && f.data == []
    ensures FillState(t0[p := f], t0, p, data)
  {
    BytesUpdate(t0, p, f);
  }

  lemma EntryTraceAppend(h: seq<Tree>, n: nat, h': seq<Tree>, m: nat, t0: Tree, e: Entry, tmp: Path)
    requires EntryTrace(h, n, t0, e, tmp) && h <= h' && m == |h|
    requires EntryTrace(h', m, t0, e, tmp)
    ensures EntryTrace(h', n, t0, e, tmp)
  {
    forall i | n <= i < |h'|
      ensures EntryState(h'[i], t0, e, tmp)
    {
      if i < m { assert h'[i] == h[i]; }
    }
  }

  lemma GivenUp(t: Tree, t0: Tree, p: Path, data: Bytes)
    requires FillState(t, t0, p, data) && p in t && p !in t0
    ensures t[p].File? && t - {p} == t0 && FillState(t - {p}, t0, p, data)
  {
  }

  lemma EntryTraceSnoc(h: seq<Tree>, n: nat, t0: Tree, e: Entry, tmp: Path, t: Tree)
    requires EntryTrace(h, n, t0, e, tmp) && EntryState(t, t0, e, tmp)
    ensures EntryTrace(h + [t], n, t0, e, tmp)
  {
  }

  lemma FillIsEntry(h: seq<Tree>, n: nat, t0: Tree, e: Entry, tmp: Path)
    requires FillTrace(h, n, t0, tmp, Limited(e))
    ensures EntryTrace(h, n, t0, e, tmp)
  {
  }

  /** New mode or time of the temporary file, or new time of the finished target. */
  lemma StatusChange(t: Tree, t0: Tree, e: Entry, tmp: Path, p: Path, f: Node)
    requires p in t && t[p].File? && f.File? && f.data == t[p].data
    ensures p == tmp && tmp !in t0 && FillState(t, t0, tmp, Limited(e)) ==> FillState(t[p := f], t0, tmp, Limited(e))
    ensures p == e.target && EntryDone(t, t0, e) ==> EntryDone(t[p := f], t0, e)
  {
    BytesUpdate(t, p, f);
    if p == tmp && tmp !in t0 && FillState(t, t0, tmp, Limited(e)) {
      assert t0[p := t[p]][p := f] == t0[p := f];
    }
    if p == e.target && EntryDone(t, t0, e) {
      assert t0[p := t[p]][p := f] == t0[p := f];
    }
  }

  /** Sync, close, chmod, rename, and the best-effort time stamp. */
  method Commit(fs: FileSystem, e: Entry, tmp: Path, ghost t0: Tree) returns (ok: bool)
    requires ParentClosed(fs.tree) && GoodPayload(e) && Renamable(t0, e, tmp)
    requires FillState(fs.tree, t0, tmp, Limited(e)) && tmp in fs.tree && fs.tree[tmp].data == Limited(e)
    requires fs.Recorded()
    modifies fs
    ensures fs.Recorded()
    ensures ParentClosed(fs.tree)
    ensures fs.faults >= old(fs.faults) && fs.ignored >= old(fs.ignored)
    ensures ok ==> EntryDone(fs.tree, t0, e) && fs.tree[e.target].mode == e.mode
    ensures ok && fs.ignored == old(fs.ignored) && e.zf.modified.Some? ==> fs.tree[e.target].mtime == e.zf.modified.value
    ensures !ok ==> fs.ignored == old(fs.ignored) && FillState(fs.tree, t0, tmp, Limited(e)) && tmp in fs.tree
    ensures !ok ==> fs.faults > old(fs.faults)
    ensures old(fs.history) <= fs.history && EntryTrace(fs.history, |old(fs.history)|, t0, e, tmp)
  {
    hide EntryTrace, FillState, ParentClosed, EntryDone, CanRename, GoodPayload, Renamable, Limited, BytesIn;
    ghost var t, h := fs.tree, fs.history;
    ghost var h0 := h;
    EntryTraceRefl(h0, t0, e, tmp);
    ReadyToRename(t, t0, e, tmp);
    var err := fs.Flush();
    if err != Ok { return false; }
    err := fs.Flush();
    if err != Ok { return false; }
    err := fs.Chmod(tmp, e.mode);
    StatusChange(t, t0, e, tmp, tmp, t[tmp].(mode := e.mode));
    EntryTraceSnoc(h, |h0|, t0, e, tmp, fs.tree);
    if err != Ok { return false; }
    t, h := fs.tree, fs.history;
    ReadyToRename(t, t0, e, tmp);
    err := fs.Rename(tmp, e.target);
    if err == Ok { RenamedIntoPlace(t, fs.tree, t0, e, tmp); }
    EntryTraceSnoc(h, |h0|, t0, e, tmp, fs.tree);
    if err != Ok { return false; }
    if e.zf.modified.Some? {
      t, h := fs.tree, fs.history;
      err := fs.Chtimes(e.target, e.zf.modified.value);
      StatusChange(t, t0, e, tmp, e.target, t[e.target].(mtime := e.zf.modified.value));
      EntryTraceSnoc(h, |h0|, t0, e, tmp, fs.tree);
      fs.Ignore(err);
    }
    return true;
  }

  /** From the copy to the rename; the caller removes the temporary file on failure. */
  method FillEntry(fs: FileSystem, e: Entry, tmp: Path, ghost t0: Tree) returns (ok: bool)
    requires ParentClosed(fs.tree) && e.zf.payload.Payload? && Renamable(t0, e, tmp)
    requires tmp in fs.tree && fs.tree[tmp].File? && fs.tree[tmp].data == [] && fs.tree == t0[tmp := fs.tree[tmp]]
    requires fs.Recorded()
    modifies fs
    ensures fs.Recorded()
    ensures ParentClosed(fs.tree)
    ensures fs.faults >= old(fs.faults) && fs.ignored >= old(fs.ignored)
    ensures ok ==> EntryDone(fs.tree, t0, e) && fs.tree[e.target].mode == e.mode
    ensures ok && fs.ignored == old(fs.ignored) && e.zf.modified.Some? ==> fs.tree[e.target].mtime == e.zf.modified.value
    ensures !ok ==> fs.ignored == old(fs.ignored) && FillState(fs.tree, t0, tmp, Limited(e)) && tmp in fs.tree
    ensures !ok ==> fs.faults > old(fs.faults) || !GoodPayload(e)
    ensures old(fs.history) <= fs.history && EntryTrace(fs.history, |old(fs.history)|, t0, e, tmp)
  {
    hide FillTrace, ParentClosed, FillState, Written, WrittenTrace, EntryDone, EntryTrace;
    ghost var f, h0 := fs.tree[tmp], fs.history;
    ok := CopyStream(fs, tmp, Limited(e));
    ghost var h1 := fs.history;
    WrittenFills(h1, |h0|, t0, f, tmp, Limited(e));
    WrittenFill(fs.tree, t0, f, tmp, Limited(e));
    FillIsEntry(h1, |h0|, t0, e, tmp);
    if !ok || (|e.zf.payload.data| <= e.size && !e.zf.payload.intact) { return false; }
    if |Limited(e)| != e.size { return false; }
    ok := Commit(fs, e, tmp, t0);
    EntryTraceAppend(h1, |h0|, fs.history, |h1|, t0, e, tmp);
  }

  /** Exclusive create of the temporary file, then FillEntry; on failure, remove. */
  method CreateAndFillEntry(fs: FileSystem, e: Entry, tmp: Path) returns (ok: bool)
    requires ParentClosed(fs.tree) && Renamable(fs.tree, e, tmp) && CanCreate(fs.tree, tmp)
    requires e.zf.payload.Payload?
    requires fs.Recorded()
    modifies fs
    ensures fs.Recorded()
    ensures ParentClosed(fs.tree)
    ensures fs.faults >= old(fs.faults) && fs.ignored >= old(fs.ignored)
    ensures ok ==> EntryDone(fs.tree, old(fs.tree), e) && fs.tree[e.target].mode == e.mode
    ensures ok && fs.ignored == old(fs.ignored) && e.zf.modified.Some? ==> fs.tree[e.target].mtime == e.zf.modified.value
    ensures !ok ==> FillState(fs.tree, old(fs.tree), tmp, Limited(e))
    ensures !ok && fs.ignored == old(fs.ignored) ==> fs.tree == old(fs.tree)
    ensures !ok ==> fs.faults > old(fs.faults) || !GoodPayload(e)
    ensures old(fs.history) <= fs.history && EntryTrace(fs.history, |old(fs.history)|, old(fs.tree), e, tmp)
  {
    hide FillState, EntryDone, EntryTrace, ParentClosed, Renamable, GoodPayload, Limited;
    ghost var t0, h0 := fs.tree, fs.history;
    EntryTraceRefl(h0, t0, e, tmp);
    var err := fs.CreateExclusive(tmp, e.mode);
    ghost var h1 := fs.history;
    if err != Ok {
      EntryTraceSnoc(h0, |h0|, t0, e, tmp, t0);
      return false;
    }
    FreshFill(t0, tmp, fs.tree[tmp], Limited(e));
    EntryTraceSnoc(h0, |h0|, t0, e, tmp, fs.tree);
    ok := FillEntry(fs, e, tmp, t0);
    ghost var u, h2 := fs.tree, fs.history;
    EntryTraceAppend(h1, |h0|, h2, |h1|, t0, e, tmp);
    if !ok {
      Discard(fs, tmp);
      GivenUp(u, t0, tmp, Limited(e));
      EntryTraceSnoc(h2, |h0|, t0, e, tmp, fs.tree);
    }
  }

  /** Write one entry beside its target and rename it into place. */
  method WriteEntryAtomic(fs: FileSystem, e: Entry, tmp: Path) returns (ok: bool)
    requires ParentClosed(fs.tree) && Renamable(fs.tree, e, tmp)
    requires tmp != [] && Parent(tmp) == Parent(e.target)
    requires fs.Recorded()
    modifies fs
    ensures fs.Recorded()
    ensures ParentClosed(fs.tree)
    ensures fs.faults >= old(fs.faults) && fs.ignored >= old(fs.ignored)
    ensures ok ==> EntryDone(fs.tree, old(fs.tree), e) && fs.tree[e.target].mode == e.mode
    ensures ok && fs.ignored == old(fs.ignored) && e.zf.modified.Some? ==> fs.tree[e.target].mtime == e.zf.modified.value
    ensures !ok ==> FillState(fs.tree, old(fs.tree), tmp, Limited(e))
    ensures !ok && fs.ignored == old(fs.ignored) ==> fs.tree == old(fs.tree)
    ensures !ok ==> fs.faults > old(fs.faults) || !GoodPayload(e)
    ensures old(fs.history) <= fs.history && EntryTrace(fs.history, |old(fs.history)|, old(fs.tree), e, tmp)
  {
    ghost var t0, h0 := fs.tree, fs.history;
    EntryTraceRefl(h0, t0, e, tmp);
    var hit := fs.Strike();
    if hit || e.zf.payload.Unopenable? { return false; }
    assert CanCreate(t0, tmp);
    hide FillState, EntryDone, EntryTrace, ParentClosed, CanCreate;
    Discard(fs, tmp);
    assert fs.tree == t0 - {tmp} ==> fs.tree == t0;
    ghost var h1 := fs.history;
    EntryTraceSnoc(h0, |h0|, t0, e, tmp, t0);
    ok := CreateAndFillEntry(fs, e, tmp);
    EntryTraceAppend(h1, |h0|, fs.history, |h1|, t0, e, tmp);
  }

  /** Nodes at or below `p` may be gone; everything else is untouched. */
  ghost predicate Thinned(t: Tree, t0: Tree, p: Path) {
    forall q :: !(p <= q) || q in t ==> SameAt(t, t0, q)
  }

  /** Every state is thinner than `t0` and than the one before it. */
  ghost predicate ThinnedTrace(h: seq<Tree>, n: nat, t0: Tree, p: Path) {
    1 <= n <= |h| && forall i :: n <= i < |h| ==> Thinned(h[i], t0, p) && Thinned(h[i], h[i - 1], p)
  }

  lemma ThinnedSnoc(h: seq<Tree>, n: nat, t0: Tree, p: Path, t: Tree)
    requires ThinnedTrace(h, n, t0, p) && Thinned(t, t0, p) && Thinned(t, h[|h| - 1], p)
    ensures ThinnedTrace(h + [t], n, t0, p)
  {
  }

  lemma {:induction false} DeepestExists(s: set<Path>)
    requires s != {}
    ensures exists q :: q in s && forall r :: r in s ==> |r| <= |q|
  {
    var q :| q in s;
    if s != {q} {
      DeepestExists(s - {q});
      var d :| d in s - {q} && forall r :: r in s - {q} ==> |r| <= |d|;
      var top := if |d| < |q| then q else d;
      assert forall r :: r in s ==> |r| <= |top|;
    }
  }

  /** The nodes still to be visited; as long as nothing failed they are all that is left. */
  ghost predicate Removing(t: Tree, t0: Tree, p: Path, pending: set<Path>, ok: bool) {
    && Thinned(t, t0, p)
    && (forall q :: q in pending ==> p <= q && q in t)
    && (ok ==> forall q :: p <= q && q in t ==> q in pending)
  }

  lemma RemovingStep(t: Tree, u: Tree, t0: Tree, p: Path, pending: set<Path>, q: Path, ok: bool)
    requires Removing(t, t0, p, pending, ok) && q in pending && (u == t || u == t - {q})
    ensures Removing(u, t0, p, pending - {q}, ok && u == t - {q}) && Thinned(u, t, p)
  {
    if u != t {
      forall r | !(p <= r) || r in u
        ensures SameAt(u, t0, r)
      {
        assert SameAt(t, t0, r);
      }
    }
  }

  /** What is left at or below `p` with nothing below it. */
  ghost function Leaves(t: Tree, p: Path): set<Path> {
    set q | q in t && p <= q && !HasChild(t, q)
  }

  /** What was visited and is left is in `bad`, or above something else that was visited and is left. */
  ghost predicate LeftBut(t: Tree, p: Path, pending: set<Path>, bad: set<Path>) {
    forall q :: p <= q && q in t && q !in pending ==> q in bad || exists c :: c in t && c !in pending && c != [] && Parent(c) == q
  }

  lemma LeftStep(t: Tree, u: Tree, p: Path, pending: set<Path>, q: Path, bad: set<Path>, err: Errno)
    requires LeftBut(t, p, pending, bad) && q in pending && q in t && p != [] && p <= q
    requires forall r :: r in pending ==> |r| <= |q|
    requires u == if err == Ok then t - {q} else t
    requires err !in {Ok, Fault} ==> !CanRemove(t, q)
    ensures LeftBut(u, p, pending - {q}, if err == Fault then bad + {q} else bad)
  {
    forall r | p <= r && r in u && r !in pending - {q}
      ensures r in (if err == Fault then bad + {q} else bad)
              || exists c :: c in u && c !in pending - {q} && c != [] && Parent(c) == r
    {
      if r == q {
        if err != Fault {
          var c :| c in t && c != [] && Parent(c) == q;
          assert |c| > |q| && c !in pending;
        }
      } else if r !in bad {
        var c :| c in t && c !in pending && c != [] && Parent(c) == r;
        assert c in u;
      }
    }
  }

  lemma LeftAll(t: Tree, p: Path, bad: set<Path>)
    requires LeftBut(t, p, {}, bad)
    ensures |Leaves(t, p)| <= |bad|
  {
    FewerOf(Leaves(t, p), bad);
  }

  lemma FewerOf(a: set<Path>, b: set<Path>)
    requires a <= b
    ensures |a| <= |b|
  {
    assert b == a + (b - a);
  }

  /** os.RemoveAll: children before parents, going on past failures. Each node left with nothing below it
      costs an outside failure of its own. */
  method RemoveAll(fs: FileSystem, p: Path) returns (ok: bool)
    requires ParentClosed(fs.tree) && p != []
    requires fs.Recorded()
    modifies fs`tree, fs`history, fs`faults
    ensures fs.Recorded()
    ensures ParentClosed(fs.tree) && fs.faults >= old(fs.faults)
    ensures Thinned(fs.tree, old(fs.tree), p)
    ensures ok ==> forall q :: p <= q ==> q !in fs.tree
    ensures !ok ==> fs.faults > old(fs.faults)
    ensures |Leaves(fs.tree, p)| <= fs.faults - old(fs.faults)
    ensures old(fs.history) <= fs.history && ThinnedTrace(fs.history, |old(fs.history)|, old(fs.tree), p)
  {
    hide CanRemove, ParentClosed, ThinnedTrace, Removing, Thinned, LeftBut, Leaves;
    ghost var t0, h0 := fs.tree, fs.history;
    var pending := set q | q in fs.tree.Keys && p <= q;
    ghost var bad: set<Path> := {};
    ok := true;
    RemovingStart(h0, t0, p, pending);
    while pending != {}
      invariant fs.Recorded()
      invariant ParentClosed(fs.tree) && fs.faults >= old(fs.faults)
      invariant Removing(fs.tree, t0, p, pending, ok)
      invariant !ok ==> fs.faults > old(fs.faults)
      invariant LeftBut(fs.tree, p, pending, bad) && |bad| <= fs.faults - old(fs.faults)
      invariant h0 <= fs.history && ThinnedTrace(fs.history, |h0|, t0, p)
      decreases |pending|
    {
      DeepestExists(pending);
      var q :| q in pending && forall r :: r in pending ==> |r| <= |q|;
      ghost var t, h := fs.tree, fs.history;
      LeafWhenDeepest(t, t0, p, pending, q, ok);
      var err := fs.Remove(q);
      RemovingStep(t, fs.tree, t0, p, pending, q, ok);
      RemovingThins(fs.tree, t0, p, pending - {q}, ok && fs.tree == t - {q});
      ThinnedSnoc(h, |h0|, t0, p, fs.tree);
      LeftStep(t, fs.tree, p, pending, q, bad, err);
      if err == Fault { bad := bad + {q}; }
      if err != Ok { ok := false; }
      pending := pending - {q};
    }
    RemovingThins(fs.tree, t0, p, pending, ok);
    LeftAll(fs.tree, p, bad);
  }

  lemma RemovingStart(h: seq<Tree>, t: Tree, p: Path, pending: set<Path>)
    requires h != [] && pending == set q | q in t.Keys && p <= q
    ensures Removing(t, t, p, pending, true) && ThinnedTrace(h, |h|, t, p) && LeftBut(t, p, pending, {})
  {
  }

  lemma RemovingThins(t: Tree, t0: Tree, p: Path, pending: set<Path>, ok: bool)
    requires Removing(t, t0, p, pending, ok)
    ensures Thinned(t, t0, p) && (!ok || Removing(t, t0, p, pending, false))
    ensures ok && pending == {} ==> forall q :: p <= q ==> q !in t
  {
  }

  lemma LeafWhenDeepest(t: Tree, t0: Tree, p: Path, pending: set<Path>, q: Path, ok: bool)
    requires Removing(t, t0, p, pending, ok) && q in pending && p != []
    requires forall r :: r in pending ==> |r| <= |q|
    ensures q in t && p <= q && (ok ==> CanRemove(t, q))
  {
    forall c | c in t && c != [] && Parent(c) == q
      ensures p <= c && |c| > |q|
    {
      ChildBelow(p, c);
    }
  }

  lemma ChildBelow(p: Path, c: Path)
    requires c != [] && p <= Parent(c)
    ensures p <= c && |c| > |Parent(c)|
  {
    PrefixSlice(p, c);
    PrefixSlice(p, Parent(c));
    assert c[..|p|] == Parent(c)[..|p|];
  }
}
