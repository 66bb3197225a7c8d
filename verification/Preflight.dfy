/** The whole-archive check that runs before anything is written. */
module Preflight {
  import opened Octets
  import opened Options
  import opened FileTree
  import opened FileSystems
  import opened InstallNames

  const MAX_ENTRIES := 20000
  const MAX_INT64: int := 0x7fff_ffff_ffff_ffff

  datatype Kind = Regular | Directory | Symlink | Irregular

  /** What reading an entry yields: nothing, or some bytes followed by a clean end or an error. */
  datatype Payload = Unopenable | Payload(data: Bytes, intact: bool)

  datatype ZipEntry = ZipEntry(name: string, kind: Kind, perm: nat, size: nat, modified: Option<int>, payload: Payload)

  /** Everything the install depends on besides the archive and the tree: naming, the
      archive's own path when it lies below the root, process id and transaction name. */
  datatype Site = Site(naming: Naming, source: Option<Path>, pid: string, tx: Name) {
    function Key(rel: Path): Path { naming.Lower(rel) }
  }

  datatype Entry = Entry(zf: ZipEntry, rel: Path, target: Path, dir: bool, mode: nat, size: nat)

  datatype Plan = Plan(entries: seq<Entry>, total: nat, maxExisting: nat)

  predicate IsDirEntry(z: ZipEntry) {
    EndsInSlash(z.name) || z.kind.Directory?
  }

  predicate Installable(s: Site, z: ZipEntry) {
    var r := NormalName(s.naming, z.name);
    r.Some? && r.value != []
  }

  function EntryOf(s: Site, z: ZipEntry): Entry
    requires Installable(s, z)
  {
    var rel := NormalName(s.naming, z.name).value;
    var dir := IsDirEntry(z);
    var mode := if z.perm != 0 then z.perm else if dir then 493 else 420;
    Entry(z, rel, s.naming.Canon(rel), dir, mode, if dir then 0 else z.size)
  }

  /** The entries an archive installs, in archive order. */
  function Installed(s: Site, zs: seq<ZipEntry>): seq<Entry> {
    if zs == [] then []
    else
      var n := |zs| - 1;
      Installed(s, zs[..n]) + if Installable(s, zs[n]) then [EntryOf(s, zs[n])] else []
  }

  function SumSizes(es: seq<Entry>): nat {
    if es == [] then 0 else SumSizes(es[..|es| - 1]) + es[|es| - 1].size
  }

  function Existing(t: Tree, e: Entry): nat {
    if !e.dir && e.target in t then Size(t[e.target]) else 0
  }

  function Max(a: nat, b: nat): nat { if a < b then b else a }

  function MaxExisting(t: Tree, es: seq<Entry>): nat {
    if es == [] then 0 else Max(MaxExisting(t, es[..|es| - 1]), Existing(t, es[|es| - 1]))
  }

  ghost predicate ParentsSafe(t: Tree, p: Path) {
    forall k :: 0 < k < |p| && p[..k] in t ==> t[p[..k]].Dir?
  }

  ghost predicate Fits(s: Site, t: Tree, e: Entry) {
    && s.source != Some(e.rel)
    && ParentsSafe(t, e.target)
    && (e.target in t ==> if e.dir then t[e.target].Dir? else t[e.target].File?)
  }

  predicate GoodKind(s: Site, z: ZipEntry) {
    Installable(s, z) ==>
      && z.kind != Symlink
      && (!IsDirEntry(z) ==> z.kind == Regular && z.size <= MAX_INT64)
  }

  ghost predicate DistinctKeys(s: Site, es: seq<Entry>) {
    forall i, j :: 0 <= i < j < |es| ==> s.Key(es[i].rel) != s.Key(es[j].rel)
  }

  ghost predicate FreshKey(s: Site, es: seq<Entry>, e: Entry) {
    forall i :: 0 <= i < |es| ==> s.Key(es[i].rel) != s.Key(e.rel)
  }

  ghost predicate AllFit(s: Site, t: Tree, es: seq<Entry>) {
    forall i :: 0 <= i < |es| ==> Fits(s, t, es[i])
  }

  predicate GoodEntry(s: Site, z: ZipEntry) {
    NormalName(s.naming, z.name).Some? && GoodKind(s, z)
  }

  predicate AllGood(s: Site, zs: seq<ZipEntry>) {
    forall i :: 0 <= i < |zs| ==> GoodEntry(s, zs[i])
  }

  ghost predicate NoFileAbove(s: Site, es: seq<Entry>) {
    forall i, j :: 0 <= i < |es| && 0 <= j < |es| && !es[i].dir ==> !(s.Key(es[i].rel) < s.Key(es[j].rel))
  }

  /** Acceptance, stated without any order of checking. */
  ghost predicate Acceptable(s: Site, zs: seq<ZipEntry>, t: Tree) {
    var es := Installed(s, zs);
    && 1 <= |zs| <= MAX_ENTRIES
    && AllGood(s, zs)
    && es != []
    && AllFit(s, t, es)
    && DistinctKeys(s, es)
    && NoFileAbove(s, es)
    && SumSizes(es) <= MAX_INT64
  }

  lemma {:induction false} InstalledConcat(s: Site, a: seq<ZipEntry>, b: seq<ZipEntry>)
    ensures Installed(s, a + b) == Installed(s, a) + Installed(s, b)
  {
    if b == [] {
      assert a + b == a;
    } else {
      var n := |b| - 1;
      assert (a + b)[..|a + b| - 1] == a + b[..n];
      InstalledConcat(s, a, b[..n]);
    }
  }

  lemma {:induction false} SumConcat(a: seq<Entry>, b: seq<Entry>)
    ensures SumSizes(a + b) == SumSizes(a) + SumSizes(b)
  {
    if b == [] {
      assert a + b == a;
    } else {
      assert (a + b)[..|a + b| - 1] == a + b[..|b| - 1];
      SumConcat(a, b[..|b| - 1]);
    }
  }

  lemma EntriesSnoc(s: Site, t: Tree, es: seq<Entry>, e: Entry)
    ensures DistinctKeys(s, es + [e]) <==> DistinctKeys(s, es) && FreshKey(s, es, e)
    ensures AllFit(s, t, es + [e]) <==> AllFit(s, t, es) && Fits(s, t, e)
    ensures SumSizes(es + [e]) == SumSizes(es) + e.size
    ensures MaxExisting(t, es + [e]) == Max(MaxExisting(t, es), Existing(t, e))
  {
    var all := es + [e];
    assert all[..|es|] == es && all[|es|] == e;
    assert forall i :: 0 <= i < |es| ==> all[i] == es[i];
    if DistinctKeys(s, all) {
      forall i, j | 0 <= i < j < |es|
        ensures s.Key(es[i].rel) != s.Key(es[j].rel)
      {
        assert s.Key(all[i].rel) != s.Key(all[j].rel);
      }
      forall i | 0 <= i < |es|
        ensures s.Key(es[i].rel) != s.Key(e.rel)
      {
        assert s.Key(all[i].rel) != s.Key(all[|es|].rel);
      }
    }
    if AllFit(s, t, all) {
      assert forall i :: 0 <= i < |es| ==> Fits(s, t, all[i]);
      assert Fits(s, t, all[|es|]);
    }
  }

  lemma AllGoodSnoc(s: Site, zs: seq<ZipEntry>, z: ZipEntry)
    ensures AllGood(s, zs + [z]) <==> AllGood(s, zs) && GoodEntry(s, z)
  {
    assert (zs + [z])[|zs|] == z;
    assert forall i :: 0 <= i < |zs| ==> (zs + [z])[i] == zs[i];
  }

  /** What admitting one more archive entry takes. */
  ghost predicate Admissible(s: Site, t: Tree, es: seq<Entry>, z: ZipEntry) {
    && GoodEntry(s, z)
    && (Installable(s, z) ==>
          Addable(s, t, es, EntryOf(s, z)))
  }

  function Extended(s: Site, es: seq<Entry>, z: ZipEntry): seq<Entry> {
    if Installable(s, z) then es + [EntryOf(s, z)] else es
  }

  /** Admission entry by entry, as the preflight loop performs it. */
  ghost predicate Admitted(s: Site, zs: seq<ZipEntry>, t: Tree) {
    zs == [] ||
    (var n := |zs| - 1; Admitted(s, zs[..n], t) && Admissible(s, t, Installed(s, zs[..n]), zs[n]))
  }

  lemma AdmittedStep(s: Site, zs: seq<ZipEntry>, t: Tree, k: nat)
    requires k < |zs|
    ensures Installed(s, zs[..k + 1]) == Extended(s, Installed(s, zs[..k]), zs[k])
    ensures Admitted(s, zs[..k + 1], t) <==> Admitted(s, zs[..k], t) && Admissible(s, t, Installed(s, zs[..k]), zs[k])
  {
    assert zs[..k + 1][..k] == zs[..k];
  }

  lemma {:induction false} AdmittedPrefix(s: Site, zs: seq<ZipEntry>, t: Tree, k: nat)
    requires k <= |zs| && Admitted(s, zs, t)
    ensures Admitted(s, zs[..k], t)
    decreases |zs|
  {
    var n := |zs|;
    assert zs[..n] == zs;
    if k < n {
      AdmittedPrefix(s, zs[..n - 1], t, k);
      assert zs[..n - 1][..k] == zs[..k];
    }
  }

  /** Admission one by one says exactly what acceptance says of the whole archive. */
  lemma {:induction false} AdmittedMeans(s: Site, zs: seq<ZipEntry>, t: Tree)
    ensures Admitted(s, zs, t) <==>
            var es := Installed(s, zs);
            AllGood(s, zs) && AllFit(s, t, es) && DistinctKeys(s, es) && SumSizes(es) <= MAX_INT64
  {
    if zs != [] {
      var n := |zs| - 1;
      AdmittedMeans(s, zs[..n], t);
      AllGoodSnoc(s, zs[..n], zs[n]);
      assert zs == zs[..n] + [zs[n]];
      hide AllGood, AllFit, DistinctKeys, FreshKey, Fits, GoodEntry;
      assert Installed(s, zs) == Extended(s, Installed(s, zs[..n]), zs[n]);
      if Installable(s, zs[n]) {
        EntriesSnoc(s, t, Installed(s, zs[..n]), EntryOf(s, zs[n]));
      }
    }
  }

  lemma NothingBelowMissing(t: Tree, p: Path, k: nat, j: nat)
    requires ParentClosed(t) && k <= j <= |p| && p[..k] !in t
    ensures p[..j] !in t
  {
    if p[..j] in t && k < j {
      PrefixSlice(p[..k], p[..j]);
      AncestorsAreDirs(t, p[..k], p[..j]);
    }
  }

  lemma SafeWhenMissing(t: Tree, p: Path, k: nat)
    requires ParentClosed(t) && k < |p| && p[..k] !in t
    requires forall j :: 0 < j < k ==> IsDir(t, p[..j])
    ensures ParentsSafe(t, p)
  {
    forall j | 0 < j < |p| && p[..j] in t
      ensures t[p[..j]].Dir?
    {
      if k <= j { NothingBelowMissing(t, p, k, j); }
    }
  }

  lemma UnsafeBelowFile(t: Tree, p: Path, k: nat)
    requires ParentClosed(t) && k < |p| && MissingErrno(t, p[..k]) == NotDir
    ensures !ParentsSafe(t, p)
  {
    var i :| 0 <= i < k && p[..k][..i] in t && !t[p[..k][..i]].Dir?;
    assert p[..k][..i] == p[..i];
  }

  /** Walk down from the root until a component is missing or is not a directory. */
  method SafeExistingParents(fs: FileSystem, target: Path) returns (ok: bool)
    requires ParentClosed(fs.tree)
    modifies fs`faults
    ensures ok ==> ParentsSafe(fs.tree, target)
    ensures !ok ==> !ParentsSafe(fs.tree, target) || fs.faults > old(fs.faults)
    ensures fs.faults >= old(fs.faults)
  {
    var k := 1;
    while k < |target|
      invariant 1 <= k
      invariant forall j :: 0 < j < k && j < |target| ==> IsDir(fs.tree, target[..j])
      invariant fs.faults >= old(fs.faults)
    {
      var node, err := fs.Lstat(target[..k]);
      if err == NotExist {
        SafeWhenMissing(fs.tree, target, k);
        return true;
      }
      if err != Ok {
        if err != Fault { UnsafeBelowFile(fs.tree, target, k); }
        return false;
      }
      if !node.Dir? { return false; }
      k := k + 1;
    }
    return true;
  }

  /** The checks of one entry against the tree, and the size of the file it would replace. */
  method CheckTarget(s: Site, fs: FileSystem, e: Entry) returns (ok: bool, existing: nat)
    requires ParentClosed(fs.tree)
    modifies fs`faults
    ensures ok ==> Fits(s, fs.tree, e) && existing == Existing(fs.tree, e)
    ensures !ok ==> !Fits(s, fs.tree, e) || fs.faults > old(fs.faults)
    ensures fs.faults >= old(fs.faults)
  {
    existing := 0;
    if s.source == Some(e.rel) { return false, 0; }
    var safe := SafeExistingParents(fs, e.target);
    if !safe { return false, 0; }
    var node, err := fs.Lstat(e.target);
    if err == Ok {
      if node.Special? || e.dir != node.Dir? { return false, 0; }
      if !e.dir { existing := Size(node); }
    } else if err != NotExist {
      return false, 0;
    }
    return true, existing;
  }

  /** No file of the archive is an ancestor of another of its entries. */
  method CheckNesting(s: Site, es: seq<Entry>, seen: map<Path, bool>) returns (ok: bool)
    requires SeenBy(s, seen, es)
    ensures ok <==> NoFileAbove(s, es)
  {
    for i := 0 to |es|
      invariant forall j, k :: 0 <= j < i && 0 <= k < |s.Key(es[j].rel)| && s.Key(es[j].rel)[..k] in seen && k > 0 ==>
                                 seen[s.Key(es[j].rel)[..k]]
    {
      var key := s.Key(es[i].rel);
      var n := |key| - 1;
      while n > 0
        invariant n < |key|
        invariant forall k :: 0 < k < |key| && n < k && key[..k] in seen ==> seen[key[..k]]
      {
        if key[..n] in seen && !seen[key[..n]] {
          ghost var e :| e in es && s.Key(e.rel) == key[..n];
          ghost var j :| 0 <= j < |es| && es[j] == e;
          assert s.Key(es[j].rel) < s.Key(es[i].rel);
          return false;
        }
        n := n - 1;
      }
    }
    forall i, j | 0 <= i < |es| && 0 <= j < |es| && !es[i].dir
      ensures !(s.Key(es[i].rel) < s.Key(es[j].rel))
    {
      assert es[i] in es;
      ghost var key, k := s.Key(es[j].rel), |es[i].rel|;
      PrefixSlice(s.Key(es[i].rel), key);
      assert 0 < k < |key| && key[..k] in seen ==> seen[key[..k]];
    }
    return true;
  }

  /** The table of folded names seen so far, with the kind of each. */
  ghost predicate SeenBy(s: Site, seen: map<Path, bool>, es: seq<Entry>) {
    && (forall e :: e in es ==> e.rel != [] && s.Key(e.rel) in seen && seen[s.Key(e.rel)] == e.dir)
    && (forall k :: k in seen ==> exists e :: e in es && s.Key(e.rel) == k)
  }

  lemma SeenSnoc(s: Site, seen: map<Path, bool>, es: seq<Entry>, e: Entry)
    requires SeenBy(s, seen, es) && e.rel != []
    ensures s.Key(e.rel) !in seen <==> FreshKey(s, es, e)
    ensures FreshKey(s, es, e) ==> SeenBy(s, seen[s.Key(e.rel) := e.dir], es + [e])
  {
    if s.Key(e.rel) in seen {
      var d :| d in es && s.Key(d.rel) == s.Key(e.rel);
      var i :| 0 <= i < |es| && es[i] == d;
      assert !FreshKey(s, es, e);
    } else {
      assert forall i :: 0 <= i < |es| ==> es[i] in es;
    }
    if FreshKey(s, es, e) {
      var seen', es' := seen[s.Key(e.rel) := e.dir], es + [e];
      forall k | k in seen'
        ensures exists d :: d in es' && s.Key(d.rel) == k
      {
        if k == s.Key(e.rel) {
          assert e in es';
        } else {
          var d :| d in es && s.Key(d.rel) == k;
          assert d in es';
        }
      }
    }
  }

  ghost predicate PlanOf(p: Plan, t: Tree) {
    p.total == SumSizes(p.entries) <= MAX_INT64 && p.maxExisting == MaxExisting(t, p.entries)
  }

  ghost predicate Addable(s: Site, t: Tree, es: seq<Entry>, e: Entry) {
    Fits(s, t, e) && FreshKey(s, es, e) && SumSizes(es) + e.size <= MAX_INT64
  }

  /** Second half of a preflight round: duplicate, target and size checks. */
  method AddEntry(s: Site, fs: FileSystem, e: Entry, seen: map<Path, bool>, p: Plan)
    returns (ok: bool, seen': map<Path, bool>, p': Plan)
    requires ParentClosed(fs.tree) && SeenBy(s, seen, p.entries) && PlanOf(p, fs.tree)
    requires e.rel != [] && (e.dir ==> e.size == 0)
    modifies fs`faults
    ensures fs.faults >= old(fs.faults)
    ensures ok ==> Addable(s, fs.tree, p.entries, e)
    ensures ok ==> p'.entries == p.entries + [e] && SeenBy(s, seen', p'.entries) && PlanOf(p', fs.tree)
    ensures !ok ==> !Addable(s, fs.tree, p.entries, e) || fs.faults > old(fs.faults)
  {
    seen', p' := seen, p;
    var key := s.Key(e.rel);
    SeenSnoc(s, seen, p.entries, e);
    hide SeenBy, FreshKey, Fits, Existing, SumSizes, MaxExisting, ParentClosed, PlanOf;
    if key in seen { return false, seen, p; }
    seen' := seen[key := e.dir];
    var fits, existing := CheckTarget(s, fs, e);
    if !fits { return false, seen', p; }
    PlanTotal(fs.tree, p);
    if !e.dir && p.total > MAX_INT64 - e.size { return false, seen', p; }
    PlanSnoc(s, fs.tree, p, e);
    p' := Plan(p.entries + [e], p.total + e.size, Max(p.maxExisting, existing));
    return true, seen', p';
  }

  lemma PlanSnoc(s: Site, t: Tree, p: Plan, e: Entry)
    requires PlanOf(p, t) && p.total + e.size <= MAX_INT64
    ensures PlanOf(Plan(p.entries + [e], p.total + e.size, Max(p.maxExisting, Existing(t, e))), t)
    ensures SumSizes(p.entries) + e.size <= MAX_INT64
  {
    hide Existing, SumSizes, MaxExisting, DistinctKeys, AllFit, FreshKey, Fits;
    EntriesSnoc(s, t, p.entries, e);
  }

  lemma PlanTotal(t: Tree, p: Plan)
    requires PlanOf(p, t)
    ensures p.total == SumSizes(p.entries) <= MAX_INT64
  {
  }

  /** One round of the preflight loop. */
  method AdmitEntry(s: Site, fs: FileSystem, z: ZipEntry, seen: map<Path, bool>, p: Plan)
    returns (ok: bool, seen': map<Path, bool>, p': Plan)
    requires ParentClosed(fs.tree) && SeenBy(s, seen, p.entries) && PlanOf(p, fs.tree)
    modifies fs`faults
    ensures fs.faults >= old(fs.faults)
    ensures ok ==> Admissible(s, fs.tree, p.entries, z)
    ensures ok ==> p'.entries == Extended(s, p.entries, z) && SeenBy(s, seen', p'.entries) && PlanOf(p', fs.tree)
    ensures !ok ==> !Admissible(s, fs.tree, p.entries, z) || fs.faults > old(fs.faults)
  {
    seen', p' := seen, p;
    var rel := NormalizeInstallName(s.naming, z.name);
    if rel.None? { return false, seen, p; }
    if rel.value == [] { return true, seen, p; }
    var dir := IsDirEntry(z);
    if !dir && z.kind != Regular { return false, seen, p; }
    if z.kind == Symlink { return false, seen, p; }
    if !dir && z.size > MAX_INT64 { return false, seen, p; }
    ok, seen', p' := AddEntry(s, fs, EntryOf(s, z), seen, p);
  }

  lemma AdmittedStart(s: Site, t: Tree, zs: seq<ZipEntry>)
    ensures Admitted(s, zs[..0], t) && Installed(s, zs[..0]) == [] && SeenBy(s, map[], []) && PlanOf(Plan([], 0, 0), t)
  {
  }

  /** Accepts exactly the acceptable archives, unless a lookup failed for an outside reason. */
  method PreflightInstallZIP(s: Site, fs: FileSystem, zs: seq<ZipEntry>) returns (r: Option<Plan>)
    requires ParentClosed(fs.tree)
    modifies fs`faults
    ensures fs.faults >= old(fs.faults)
    ensures r.Some? ==> Acceptable(s, zs, fs.tree)
    ensures r.Some? ==> r.value == Plan(Installed(s, zs), SumSizes(Installed(s, zs)), MaxExisting(fs.tree, Installed(s, zs)))
    ensures r.None? ==> !Acceptable(s, zs, fs.tree) || fs.faults > old(fs.faults)
  {
    hide Admissible, Admitted, Installed, Extended, NoFileAbove, SeenBy, PlanOf, Acceptable;
    AdmittedStart(s, fs.tree, zs);
    AcceptableMeans(s, zs, fs.tree);
    if |zs| == 0 || |zs| > MAX_ENTRIES { return None; }
    var seen: map<Path, bool> := map[];
    var p := Plan([], 0, 0);
    for i := 0 to |zs|
      invariant fs.faults >= old(fs.faults)
      invariant Admitted(s, zs[..i], fs.tree) && p.entries == Installed(s, zs[..i])
      invariant SeenBy(s, seen, p.entries)
      invariant PlanOf(p, fs.tree)
    {
      var ok;
      AdmittedStep(s, zs, fs.tree, i);
      ok, seen, p := AdmitEntry(s, fs, zs[i], seen, p);
      if !ok {
        if Admitted(s, zs, fs.tree) { AdmittedPrefix(s, zs, fs.tree, i + 1); }
        return None;
      }
    }
    assert zs[..|zs|] == zs;
    if p.entries == [] { return None; }
    var flat := CheckNesting(s, p.entries, seen);
    PlanIs(p, fs.tree);
    return if flat then Some(p) else None;
  }

  lemma PlanIs(p: Plan, t: Tree)
    requires PlanOf(p, t)
    ensures p == Plan(p.entries, SumSizes(p.entries), MaxExisting(t, p.entries))
  {
  }

  lemma AcceptableMeans(s: Site, zs: seq<ZipEntry>, t: Tree)
    ensures Acceptable(s, zs, t) <==>
            1 <= |zs| <= MAX_ENTRIES && Admitted(s, zs, t) && Installed(s, zs) != [] && NoFileAbove(s, Installed(s, zs))
  {
    AdmittedMeans(s, zs, t);
  }
}
