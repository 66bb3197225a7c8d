/** Directory trees as finite maps from paths to nodes, and how many bytes they hold. */
module FileTree {
  import opened Octets

  type Name = string
  type Path = seq<Name>

  /** `Special` stands for symbolic links, devices and everything else that is
      neither a directory nor a regular file. */
  datatype Node = Dir | File(data: Bytes, mode: nat, mtime: int) | Special

  type Tree = map<Path, Node>

  function Parent(p: Path): Path
    requires p != []
  {
    p[..|p| - 1]
  }

  predicate IsDir(t: Tree, p: Path) {
    p in t && t[p].Dir?
  }

  ghost predicate ParentClosed(t: Tree) {
    IsDir(t, []) && forall p :: p in t && p != [] ==> IsDir(t, Parent(p))
  }

  ghost predicate SameAt(t: Tree, u: Tree, p: Path) {
    (p in t <==> p in u) && (p in t ==> t[p] == u[p])
  }

  /** Prefixes are ancestors, and every ancestor of a node is a directory. */
  lemma {:induction false} AncestorsAreDirs(t: Tree, p: Path, q: Path)
    requires ParentClosed(t) && q in t && p < q
    ensures IsDir(t, p)
    decreases |q|
  {
    if p != Parent(q) {
      AncestorsAreDirs(t, p, Parent(q));
    }
  }

  lemma PrefixSlice(p: Path, q: Path)
    ensures p < q <==> |p| < |q| && q[..|p|] == p
    ensures p <= q <==> |p| <= |q| && q[..|p|] == p
  {
  }

  lemma ClosedWithoutFile(t: Tree, p: Path)
    requires ParentClosed(t) && p in t && !t[p].Dir?
    ensures ParentClosed(t - {p})
  {
    forall q | q in t - {p} && q != []
      ensures IsDir(t - {p}, Parent(q))
    {
      assert IsDir(t, Parent(q));
    }
  }

  lemma ClosedWithFile(t: Tree, p: Path, n: Node)
    requires ParentClosed(t) && p != [] && IsDir(t, Parent(p)) && !IsDir(t, p)
    ensures ParentClosed(t[p := n])
  {
    forall q | q in t[p := n] && q != []
      ensures IsDir(t[p := n], Parent(q))
    {
      assert q == p || IsDir(t, Parent(q));
    }
  }

  lemma ClosedWithStatus(t: Tree, p: Path, n: Node)
    requires ParentClosed(t) && p in t && !t[p].Dir? && !n.Dir?
    ensures ParentClosed(t[p := n])
  {
    forall q | q in t[p := n] && q != []
      ensures IsDir(t[p := n], Parent(q))
    {
      assert IsDir(t, Parent(q));
    }
  }

  function Size(n: Node): nat {
    if n.File? then |n.data| else 0
  }

  /** The file bytes of a whole tree. */
  ghost function BytesIn(t: Tree): nat {
    if t == map[] then 0 else
    var p :| p in t;
    Size(t[p]) + BytesIn(t - {p})
  }

  lemma {:induction false} BytesWithout(t: Tree, p: Path)
    requires p in t
    ensures BytesIn(t) == Size(t[p]) + BytesIn(t - {p})
    decreases |t|
  {
    var q :| q in t && BytesIn(t) == Size(t[q]) + BytesIn(t - {q});
    if q != p {
      BytesWithout(t - {q}, p);
      BytesWithout(t - {p}, q);
      assert t - {q} - {p} == t - {p} - {q};
    }
  }

  /** Setting one node changes the total by the difference of the two sizes. */
  lemma BytesUpdate(t: Tree, p: Path, n: Node)
    ensures BytesIn(t[p := n]) == BytesIn(t) + Size(n) - (if p in t then Size(t[p]) else 0)
  {
    BytesWithout(t[p := n], p);
    if p in t {
      BytesWithout(t, p);
      assert t[p := n] - {p} == t - {p};
    } else {
      assert t[p := n] - {p} == t;
    }
  }
}

/** The system calls of the installer, with every outside failure possible at every call. */
module FileSystems {
  import opened Octets
  import opened FileTree

  datatype Errno = Ok | NotExist | Exists | NotDir | NotEmpty | IsDirectory | Fault

  predicate CanCreate(t: Tree, p: Path) {
    p !in t && p != [] && IsDir(t, Parent(p))
  }

  predicate CanTruncate(t: Tree, p: Path) {
    if p in t then t[p].File? else CanCreate(t, p)
  }

  predicate HasChild(t: Tree, p: Path) {
    exists q :: q in t && q != [] && Parent(q) == p
  }

  predicate CanRemove(t: Tree, p: Path) {
    p in t && p != [] && !HasChild(t, p)
  }

  predicate CanRename(t: Tree, src: Path, dst: Path) {
    src in t && t[src].File? && dst != [] && IsDir(t, Parent(dst)) && !IsDir(t, dst)
  }

  /** What a lookup of an absent path reports: ENOTDIR below a non-directory, else ENOENT. */
  function MissingErrno(t: Tree, p: Path): Errno {
    if exists i | 0 <= i < |p| :: p[..i] in t && !t[p[..i]].Dir? then NotDir else NotExist
  }

  class FileSystem {
    var tree: Tree
    /** The tree after each mutating call, in order. */
    ghost var history: seq<Tree>
    /** Calls that failed for a reason outside the tree. */
    ghost var faults: nat
    /** Faults whose error the program throws away. */
    ghost var ignored: nat

    constructor (t: Tree)
      requires ParentClosed(t)
      ensures tree == t && history == [t] && faults == 0 && ignored == 0 && Recorded()
    {
      tree := t;
      history, faults, ignored := [t], 0, 0;
    }

    /** The latest state on record is the current one. */
    ghost predicate Recorded()
      reads this`tree, this`history
    {
      history != [] && history[|history| - 1] == tree
    }

    /** Whether the next call is hit by a failure the tree does not explain. */
    method Strike() returns (hit: bool)
      modifies this`faults
      ensures faults == old(faults) + if hit then 1 else 0
    {
      hit := *;
      if hit { faults := faults + 1; }
    }

    /** The caller discards this error. */
    method Ignore(err: Errno)
      modifies this`ignored
      ensures ignored == old(ignored) + if err == Fault then 1 else 0
    {
      if err == Fault { ignored := ignored + 1; }
    }

    /** Sync and Close: no effect on the tree, but each may report a failure. */
    method Flush() returns (err: Errno)
      modifies this`faults
      ensures err == Ok || err == Fault
      ensures faults == old(faults) + if err == Fault then 1 else 0
    {
      var hit := Strike();
      err := if hit then Fault else Ok;
    }

    method Lstat(p: Path) returns (node: Node, err: Errno)
      modifies this`faults
      ensures err != Fault ==> (err == Ok <==> p in tree)
      ensures err == Ok ==> p in tree && node == tree[p]
      ensures err !in {Ok, Fault} ==> err == MissingErrno(tree, p)
      ensures faults == old(faults) + if err == Fault then 1 else 0
    {
      node := Dir;
      var hit := Strike();
      if hit { return Dir, Fault; }
      if p in tree { return tree[p], Ok; }
      err := MissingErrno(tree, p);
    }

    /** Open for reading; reading itself happens in the copy loops. */
    method Open(p: Path) returns (data: Bytes, err: Errno)
      modifies this`faults
      ensures err == Ok ==> p in tree && tree[p].File? && data == tree[p].data
      ensures err !in {Ok, Fault} ==> p !in tree || !tree[p].File?
      ensures faults == old(faults) + if err == Fault then 1 else 0
    {
      data := [];
      var hit := Strike();
      if hit { return [], Fault; }
      if p !in tree { return [], MissingErrno(tree, p); }
      if !tree[p].File? { return [], IsDirectory; }
      return tree[p].data, Ok;
    }

    method Mkdir(p: Path) returns (err: Errno)
      requires ParentClosed(tree)
      modifies this`tree, this`history, this`faults
      ensures ParentClosed(tree)
      ensures err == Ok ==> CanCreate(old(tree), p) && tree == old(tree)[p := Dir]
      ensures err != Ok ==> tree == old(tree)
      ensures err !in {Ok, Fault} ==> !CanCreate(old(tree), p)
      ensures BytesIn(tree) == BytesIn(old(tree))
      ensures faults == old(faults) + if err == Fault then 1 else 0
      ensures history == old(history) + [tree] && Recorded()
    {
      var hit := Strike();
      if hit {
        err := Fault;
      } else if CanCreate(tree, p) {
        BytesUpdate(tree, p, Dir);
        tree, err := tree[p := Dir], Ok;
      } else {
        err := if p in tree then Exists else MissingErrno(tree, p);
      }
      history := history + [tree];
    }

    /** Exclusive create; the new file's mode is subject to the umask, its time to the clock. */
    method CreateExclusive(p: Path, mode: nat) returns (err: Errno)
      requires ParentClosed(tree)
      modifies this`tree, this`history, this`faults
      ensures ParentClosed(tree)
      ensures err == Ok ==> CanCreate(old(tree), p) && p in tree && tree[p].File? && tree[p].data == []
      ensures err == Ok ==> tree == old(tree)[p := tree[p]]
      ensures err != Ok ==> tree == old(tree)
      ensures err !in {Ok, Fault} ==> !CanCreate(old(tree), p)
      ensures BytesIn(tree) == BytesIn(old(tree))
      ensures faults == old(faults) + if err == Fault then 1 else 0
      ensures history == old(history) + [tree] && Recorded()
    {
      var hit := Strike();
      if hit {
        err := Fault;
      } else if CanCreate(tree, p) {
        var masked: nat, now: int := *, *;
        BytesUpdate(tree, p, File([], masked, now));
        tree, err := tree[p := File([], masked, now)], Ok;
      } else {
        err := Exists;
      }
      history := history + [tree];
    }

    /** Open for writing: create the file, or empty the one that is there. */
    method CreateTruncate(p: Path, mode: nat) returns (err: Errno)
      requires ParentClosed(tree)
      modifies this`tree, this`history, this`faults
      ensures ParentClosed(tree)
      ensures err == Ok ==> CanTruncate(old(tree), p) && p in tree && tree[p].File? && tree[p].data == []
      ensures err == Ok ==> tree == old(tree)[p := tree[p]]
      ensures err != Ok ==> tree == old(tree)
      ensures err !in {Ok, Fault} ==> !CanTruncate(old(tree), p)
      ensures faults == old(faults) + if err == Fault then 1 else 0
      ensures history == old(history) + [tree] && Recorded()
    {
      var hit := Strike();
      if hit {
        err := Fault;
      } else if CanTruncate(tree, p) {
        var masked: nat, now: int := *, *;
        var f := File([], masked, now);
        if p in tree { ClosedWithStatus(tree, p, f); } else { ClosedWithFile(tree, p, f); }
        tree, err := tree[p := f], Ok;
      } else {
        err := if p in tree then IsDirectory else MissingErrno(tree, p);
      }
      history := history + [tree];
    }

    /** Append a chunk to an open file; a failing write may leave part of the chunk behind. */
    method Append(p: Path, chunk: Bytes) returns (err: Errno)
      requires ParentClosed(tree) && p in tree && tree[p].File?
      modifies this`tree, this`history, this`faults
      ensures ParentClosed(tree)
      ensures p in tree && tree[p].File? && tree == old(tree)[p := tree[p]]
      ensures tree[p].mode == old(tree[p].mode)
      ensures err == Ok || err == Fault
      ensures err == Ok ==> tree[p].data == old(tree[p].data) + chunk
      ensures exists n: nat :: n <= |chunk| && tree[p].data == old(tree[p].data) + chunk[..n]
      ensures BytesIn(tree) == BytesIn(old(tree)) + |tree[p].data| - |old(tree[p].data)|
      ensures faults == old(faults) + if err == Fault then 1 else 0
      ensures history == old(history) + [tree] && Recorded()
    {
      hide ParentClosed;
      var hit := Strike();
      var n: nat := |chunk|;
      if hit {
        n := *;
        if n > |chunk| { n := |chunk|; }
      }
      var now: int := *;
      var grown := tree[p].(data := tree[p].data + chunk[..n], mtime := now);
      BytesUpdate(tree, p, grown);
      ClosedWithStatus(tree, p, grown);
      assert chunk[..|chunk|] == chunk;
      tree := tree[p := grown];
      err := if hit then Fault else Ok;
      history := history + [tree];
    }

    method Rename(src: Path, dst: Path) returns (err: Errno)
      requires ParentClosed(tree)
      modifies this`tree, this`history, this`faults
      ensures ParentClosed(tree)
      ensures err == Ok ==> CanRename(old(tree), src, dst) && tree == (old(tree) - {src})[dst := old(tree)[src]]
      ensures err != Ok ==> tree == old(tree)
      ensures err !in {Ok, Fault} ==> !CanRename(old(tree), src, dst)
      ensures src != dst && err == Ok ==>
                BytesIn(tree) == BytesIn(old(tree)) - if dst in old(tree) then Size(old(tree)[dst]) else 0
      ensures faults == old(faults) + if err == Fault then 1 else 0
      ensures history == old(history) + [tree] && Recorded()
    {
      var hit := Strike();
      if hit {
        err := Fault;
      } else if CanRename(tree, src, dst) {
        BytesWithout(tree, src);
        BytesUpdate(tree - {src}, dst, tree[src]);
        ClosedWithoutFile(tree, src);
        ClosedWithFile(tree - {src}, dst, tree[src]);
        tree, err := (tree - {src})[dst := tree[src]], Ok;
      } else {
        err := NotExist;
      }
      history := history + [tree];
    }

    method Remove(p: Path) returns (err: Errno)
      requires ParentClosed(tree)
      modifies this`tree, this`history, this`faults
      ensures ParentClosed(tree)
      ensures err == Ok ==> CanRemove(old(tree), p) && tree == old(tree) - {p}
      ensures err != Ok ==> tree == old(tree)
      ensures err !in {Ok, Fault} ==> !CanRemove(old(tree), p)
      ensures p in old(tree) && !old(tree)[p].Dir? ==> err == Ok || err == Fault
      ensures err == NotExist ==> p !in old(tree)
      ensures err == Ok ==> BytesIn(old(tree)) == BytesIn(tree) + Size(old(tree)[p])
      ensures faults == old(faults) + if err == Fault then 1 else 0
      ensures history == old(history) + [tree] && Recorded()
    {
      var hit := Strike();
      if hit {
        err := Fault;
      } else if CanRemove(tree, p) {
        BytesWithout(tree, p);
        tree, err := tree - {p}, Ok;
      } else {
        err := if p in tree then NotEmpty else MissingErrno(tree, p);
      }
      history := history + [tree];
    }

    method Chmod(p: Path, mode: nat) returns (err: Errno)
      requires ParentClosed(tree) && p in tree && tree[p].File?
      modifies this`tree, this`history, this`faults
      ensures ParentClosed(tree)
      ensures err == Ok || err == Fault
      ensures tree == if err == Ok then old(tree)[p := old(tree)[p].(mode := mode)] else old(tree)
      ensures BytesIn(tree) == BytesIn(old(tree))
      ensures faults == old(faults) + if err == Fault then 1 else 0
      ensures history == old(history) + [tree] && Recorded()
    {
      hide ParentClosed;
      var hit := Strike();
      err := if hit then Fault else Ok;
      if !hit {
        BytesUpdate(tree, p, tree[p].(mode := mode));
        ClosedWithStatus(tree, p, tree[p].(mode := mode));
        tree := tree[p := tree[p].(mode := mode)];
      }
      history := history + [tree];
    }

    method Chtimes(p: Path, mtime: int) returns (err: Errno)
      requires ParentClosed(tree) && p in tree && tree[p].File?
      modifies this`tree, this`history, this`faults
      ensures ParentClosed(tree)
      ensures err == Ok || err == Fault
      ensures tree == if err == Ok then old(tree)[p := old(tree)[p].(mtime := mtime)] else old(tree)
      ensures BytesIn(tree) == BytesIn(old(tree))
      ensures faults == old(faults) + if err == Fault then 1 else 0
      ensures history == old(history) + [tree] && Recorded()
    {
      hide ParentClosed;
      var hit := Strike();
      err := if hit then Fault else Ok;
      if !hit {
        BytesUpdate(tree, p, tree[p].(mtime := mtime));
        ClosedWithStatus(tree, p, tree[p].(mtime := mtime));
        tree := tree[p := tree[p].(mtime := mtime)];
      }
      history := history + [tree];
    }
  }
}
