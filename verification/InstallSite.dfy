/** From an accepted archive to a sound job: space check, counts, targets and scratch names. */
module InstallSite {
  import opened Octets
  import opened Options
  import opened FileTree
  import opened FileSystems
  import opened InstallNames
  import opened Preflight
  import opened InstallSteps
  import opened InstallJob
  import opened Installer

  const RESERVE := 32 * 1024 * 1024

  function Wrap64(x: int): int {
    (x + 0x8000_0000_0000_0000) % 0x1_0000_0000_0000_0000 - 0x8000_0000_0000_0000
  }

  /** The space check as the machine computes it, in 64-bit two's complement. */
  predicate EnoughSpace(total: int, maxExisting: int, free: int) {
    var need := Wrap64(Wrap64(total + maxExisting) + RESERVE);
    !(need < total || free < need)
  }

  /** The one comparison `need < total` catches every wrap-around. */
  lemma SpaceTestExact(total: int, maxExisting: int, free: int)
    requires 0 <= total <= MAX_INT64 && 0 <= maxExisting <= MAX_INT64 && free <= MAX_INT64
    ensures EnoughSpace(total, maxExisting, free) <==> total + maxExisting + RESERVE <= free
  {
    var sum := total + maxExisting;
    assert Wrap64(sum) == if sum <= MAX_INT64 then sum else sum - 0x1_0000_0000_0000_0000;
    var need := Wrap64(Wrap64(sum) + RESERVE);
    assert need == if sum + RESERVE <= MAX_INT64 then sum + RESERVE
                   else if sum + RESERVE - 0x1_0000_0000_0000_0000 <= MAX_INT64 then sum + RESERVE - 0x1_0000_0000_0000_0000
                   else sum + RESERVE - 0x2_0000_0000_0000_0000;
  }

  function FileTargets(es: seq<Entry>): set<Path> {
    set e | e in es && !e.dir :: e.target
  }

  /** How many entries are directories, files that replace one of `t0`, files that do not, and files. */
  function CountDirs(es: seq<Entry>): nat {
    if es == [] then 0 else CountDirs(es[..|es| - 1]) + if es[|es| - 1].dir then 1 else 0
  }

  function CountReplaced(t0: Tree, es: seq<Entry>): nat {
    if es == [] then 0
    else CountReplaced(t0, es[..|es| - 1]) + if !es[|es| - 1].dir && es[|es| - 1].target in t0 then 1 else 0
  }

  function CountCreated(t0: Tree, es: seq<Entry>): nat {
    if es == [] then 0
    else CountCreated(t0, es[..|es| - 1]) + if !es[|es| - 1].dir && es[|es| - 1].target !in t0 then 1 else 0
  }

  function CountFiles(es: seq<Entry>): nat {
    if es == [] then 0 else CountFiles(es[..|es| - 1]) + if es[|es| - 1].dir then 0 else 1
  }

  ghost function WantOf(es: seq<Entry>): map<Path, Entry> {
    if es == [] then map[]
    else
      var e := es[|es| - 1];
      if e.dir then WantOf(es[..|es| - 1]) else WantOf(es[..|es| - 1])[e.target := e]
  }

  ghost function UndoTemps(s: Site, es: seq<Entry>): set<Path> {
    set e | e in es && !e.dir && e.rel != [] :: RollbackTemp(s, e.rel)
  }

  ghost function TempsOf(s: Site, es: seq<Entry>): set<Path> {
    (set e | e in es && !e.dir && e.rel != [] :: InstallTemp(s, e.rel)) + UndoTemps(s, es)
  }

  ghost function JobOf(s: Site, t0: Tree, es: seq<Entry>): Job {
    Job(t0, es, WantOf(es), TempsOf(s, es), UndoTemps(s, es), BackupDir(s), BackupRoot(s))
  }

  /** The transaction name is fresh, and the temporary names are neither in the initial tree,
      nor on the way to an archive target, nor the scratch directory. */
  ghost predicate FreshNames(s: Site, t0: Tree, es: seq<Entry>) {
    && BackupRoot(s) !in t0
    && forall tmp :: tmp in TempsOf(s, es) ==>
         tmp !in t0 && tmp != BackupDir(s) && forall e :: e in es ==> !(tmp <= e.target)
  }

  lemma {:induction false} InstalledShape(s: Site, zs: seq<ZipEntry>)
    ensures forall e :: e in Installed(s, zs) ==>
              e.rel != [] && e.target == s.naming.Canon(e.rel) && e.target != [] && !Protected(s.naming, e.rel)
    ensures forall e :: e in Installed(s, zs) ==> e.dir ==> e.size == 0
  {
    if zs != [] { InstalledShape(s, zs[..|zs| - 1]); }
  }

  ghost predicate DistinctPaths(es: seq<Entry>) {
    forall i, k :: 0 <= i < k < |es| ==> es[i].target != es[k].target
  }

  /** The table holds exactly the file entries, under their targets. */
  ghost predicate Indexes(want: map<Path, Entry>, es: seq<Entry>) {
    && (forall e :: e in es ==> if e.dir then e.target !in want else e.target in want && want[e.target] == e)
    && (forall p :: p in want ==> want[p] in es && want[p].target == p && !want[p].dir)
  }

  lemma IndexesSnoc(want: map<Path, Entry>, es: seq<Entry>, e: Entry)
    requires Indexes(want, es) && forall d :: d in es ==> d.target != e.target
    ensures Indexes(if e.dir then want else want[e.target := e], es + [e])
  {
    assert forall d :: d in es + [e] <==> d in es || d == e;
    forall p | p in want
      ensures p != e.target
    {
      assert want[p] in es;
    }
  }

  lemma {:induction false} WantMeans(es: seq<Entry>)
    requires DistinctPaths(es)
    ensures Indexes(WantOf(es), es)
  {
    if es != [] {
      var n := |es| - 1;
      WantMeans(es[..n]);
      assert es == es[..n] + [es[n]];
      forall d | d in es[..n]
        ensures d.target != es[n].target
      {
        var k :| 0 <= k < n && es[k] == d;
      }
      hide Indexes;
      IndexesSnoc(WantOf(es[..n]), es[..n], es[n]);
    }
  }

  lemma DistinctFromKeys(s: Site, es: seq<Entry>)
    requires s.naming.Valid() && DistinctKeys(s, es) && forall e :: e in es ==> e.target == s.naming.Canon(e.rel)
    ensures DistinctPaths(es)
  {
    forall i, k | 0 <= i < k < |es|
      ensures es[i].target != es[k].target
    {
      assert es[i] in es && es[k] in es;
      if es[i].target == es[k].target { s.naming.CanonNoCoarser(es[i].rel, es[k].rel); }
    }
  }

  lemma FoldedPrefix(s: Site, p: Path, q: Path)
    requires s.naming.Valid() && s.naming.Canon(p) <= s.naming.Canon(q)
    ensures s.Key(p) <= s.Key(q)
  {
    PrefixSlice(s.naming.Canon(p), s.naming.Canon(q));
    s.naming.CanonPrefix(q, |p|);
    s.naming.CanonNoCoarser(p, q[..|p|]);
    PrefixSlice(s.Key(p), s.Key(q));
  }

  lemma NoTargetAbove(s: Site, es: seq<Entry>, e: Entry, f: Entry)
    requires s.naming.Valid() && NoFileAbove(s, es) && e in es && f in es && !f.dir
    requires e.target == s.naming.Canon(e.rel) && f.target == s.naming.Canon(f.rel)
    ensures !(f.target < e.target)
  {
    var i :| 0 <= i < |es| && es[i] == f;
    var k :| 0 <= k < |es| && es[k] == e;
    assert !(s.Key(es[i].rel) < s.Key(es[k].rel));
    if f.target < e.target { FoldedPrefix(s, f.rel, e.rel); }
  }

  /** Accepted targets stay out of the scratch directory, under either case of its name. */
  lemma OutsideScratch(s: Site, rel: Path, q: Path)
    requires s.naming.Valid() && !Protected(s.naming, rel) && q <= s.naming.Canon(rel)
    ensures !(BackupDir(s) <= q)
  {
    assert s.naming.Canon([BACKUP_DIR]) == BackupDir(s);
    assert s.Key([BACKUP_DIR]) == [BACKUP_DIR];
    if BackupDir(s) <= q { FoldedPrefix(s, [BACKUP_DIR], rel); }
  }

  /** A temporary name lies beside its target, hence outside the transaction directory. */
  lemma TempOutside(s: Site, rel: Path, tmp: Path)
    requires s.naming.Valid() && rel != [] && !Protected(s.naming, rel)
    requires tmp == InstallTemp(s, rel) || tmp == RollbackTemp(s, rel)
    ensures tmp != [] && !(BackupRoot(s) <= tmp)
  {
    TempBeside(s, rel);
    if BackupRoot(s) <= tmp {
      assert tmp[..2] == BackupRoot(s) && Parent(tmp)[..1] == tmp[..1];
      assert BackupDir(s) <= Parent(tmp);
      OutsideScratch(s, rel, Parent(tmp));
    }
  }

  lemma FitFacts(s: Site, t0: Tree, es: seq<Entry>, e: Entry)
    requires AllFit(s, t0, es) && e in es && e.target != [] && ParentClosed(t0)
    ensures forall q :: q < e.target && q in t0 ==> t0[q].Dir?
    ensures e.target in t0 ==> if e.dir then t0[e.target].Dir? else t0[e.target].File?
  {
    var i :| 0 <= i < |es| && es[i] == e;
    assert Fits(s, t0, es[i]);
    forall q | q < e.target && q in t0
      ensures t0[q].Dir?
    {
      PrefixSlice(q, e.target);
      assert e.target[..|q|] == q;
    }
  }

  lemma TempsFacts(s: Site, t0: Tree, zs: seq<ZipEntry>)
    requires s.naming.Valid() && FreshNames(s, t0, Installed(s, zs))
    ensures var es := Installed(s, zs);
            forall p :: p in TempsOf(s, es) ==>
              p !in t0 && p != [] && !(BackupRoot(s) <= p) && p != BackupDir(s) && forall e :: e in es ==> !(p <= e.target)
  {
    var es := Installed(s, zs);
    InstalledShape(s, zs);
    hide Protected, InstallTemp, RollbackTemp;
    forall p | p in TempsOf(s, es)
      ensures p != [] && !(BackupRoot(s) <= p)
    {
      var e :| e in es && !e.dir && e.rel != [] && (p == InstallTemp(s, e.rel) || p == RollbackTemp(s, e.rel));
      TempOutside(s, e.rel, p);
    }
  }

  lemma ScratchFacts(s: Site, t0: Tree, zs: seq<ZipEntry>, e: Entry, q: Path)
    requires s.naming.Valid() && FreshNames(s, t0, Installed(s, zs)) && e in Installed(s, zs) && q <= e.target
    ensures !Scratch(JobOf(s, t0, Installed(s, zs)), q)
  {
    InstalledShape(s, zs);
    OutsideScratch(s, e.rel, q);
  }

  lemma TargetsFit(s: Site, t0: Tree, es: seq<Entry>)
    requires AllFit(s, t0, es) && ParentClosed(t0) && forall e :: e in es ==> e.target != []
    ensures forall e, q :: e in es && q < e.target && q in t0 ==> t0[q].Dir?
    ensures forall e :: e in es && e.target in t0 ==> if e.dir then t0[e.target].Dir? else t0[e.target].File?
  {
    hide AllFit, ParentClosed;
    forall e | e in es
      ensures forall q :: q < e.target && q in t0 ==> t0[q].Dir?
      ensures e.target in t0 ==> if e.dir then t0[e.target].Dir? else t0[e.target].File?
    {
      FitFacts(s, t0, es, e);
    }
  }

  lemma TargetsFlat(s: Site, zs: seq<ZipEntry>)
    requires s.naming.Valid() && NoFileAbove(s, Installed(s, zs))
    ensures forall e, f :: e in Installed(s, zs) && f in Installed(s, zs) && !f.dir ==> !(f.target < e.target)
  {
    InstalledShape(s, zs);
    hide Protected, NoFileAbove;
    forall e, f | e in Installed(s, zs) && f in Installed(s, zs) && !f.dir
      ensures !(f.target < e.target)
    {
      NoTargetAbove(s, Installed(s, zs), e, f);
    }
  }

  lemma TargetsPlain(s: Site, t0: Tree, zs: seq<ZipEntry>)
    requires s.naming.Valid() && FreshNames(s, t0, Installed(s, zs))
    ensures var j := JobOf(s, t0, Installed(s, zs)); forall e, q :: e in j.es && q <= e.target ==> !Scratch(j, q)
  {
    hide Scratch, FreshNames, Installed, WantOf, TempsOf;
    var j := JobOf(s, t0, Installed(s, zs));
    forall e, q | e in j.es && q <= e.target
      ensures !Scratch(j, q)
    {
      ScratchFacts(s, t0, zs, e, q);
    }
  }

  lemma JobFits(s: Site, t0: Tree, zs: seq<ZipEntry>)
    ensures SiteFits(s, JobOf(s, t0, Installed(s, zs)))
  {
    InstalledShape(s, zs);
    hide Protected, InstallTemp, RollbackTemp, Installed;
  }

  lemma JobPaths(s: Site, t0: Tree, zs: seq<ZipEntry>)
    requires s.naming.Valid() && Acceptable(s, zs, t0) && FreshNames(s, t0, Installed(s, zs))
    ensures var es := Installed(s, zs);
            && DistinctPaths(es) && BackupRoot(s) !in t0
            && (forall e :: e in es ==> e.target != [] && (e.dir ==> e.size == 0))
  {
    InstalledShape(s, zs);
    DistinctFromKeys(s, Installed(s, zs));
  }

  /** Whatever preflight accepts is a sound job under the naming hypotheses. */
  lemma JobSound(s: Site, t0: Tree, zs: seq<ZipEntry>)
    requires s.naming.Valid() && ParentClosed(t0) && Acceptable(s, zs, t0) && FreshNames(s, t0, Installed(s, zs))
    ensures Sound(JobOf(s, t0, Installed(s, zs))) && SiteFits(s, JobOf(s, t0, Installed(s, zs)))
  {
    var es := Installed(s, zs);
    hide FreshNames, Scratch, SiteFits, TempsOf, WantOf, DistinctKeys, NoFileAbove, AllFit, ParentClosed, Installed;
    JobFits(s, t0, zs);
    JobPaths(s, t0, zs);
    WantMeans(es);
    TempsFacts(s, t0, zs);
    TargetsPlain(s, t0, zs);
    TargetsFlat(s, zs);
    TargetsFit(s, t0, es);
  }
}
