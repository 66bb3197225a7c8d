/** What a user of the installer relies on, said of archives, names and trees alone. */
module InstallLaws {
  import opened Octets
  import opened Options
  import opened FileTree
  import opened InstallNames
  import opened Preflight
  import opened InstallSteps
  import opened InstallJob
  import opened Installer
  import opened Rollback
  import opened InstallSite
  import opened InstallRun

  /** The path an archive name stands for; empty when it names nothing to install. */
  ghost function Rel(s: Site, z: ZipEntry): Path {
    var r := NormalName(s.naming, z.name);
    if r.Some? then r.value else []
  }

  ghost predicate NamesDir(z: ZipEntry) {
    z.kind == Directory || (z.name != "" && z.name[|z.name| - 1] == '/')
  }

  /** The bytes the files of an archive claim to hold. */
  ghost function Claimed(s: Site, zs: seq<ZipEntry>): nat {
    if zs == [] then 0
    else
      var n := |zs| - 1;
      Claimed(s, zs[..n]) + if Rel(s, zs[n]) == [] || NamesDir(zs[n]) then 0 else zs[n].size
  }

  /** The kind, the size and the place of one entry are in order. */
  ghost predicate Suits(s: Site, t: Tree, z: ZipEntry) {
    var p := s.naming.Canon(Rel(s, z));
    && z.kind != Symlink && (NamesDir(z) || (z.kind == Regular && z.size <= 0x7fff_ffff_ffff_ffff))
    && s.source != Some(Rel(s, z))
    && (forall k :: 0 < k < |p| && p[..k] in t ==> t[p[..k]].Dir?)
    && (p in t ==> if NamesDir(z) then t[p].Dir? else t[p].File?)
  }

  ghost predicate NoneTwice(s: Site, zs: seq<ZipEntry>) {
    forall i, k :: 0 <= i < k < |zs| && Rel(s, zs[i]) != [] ==>
      s.naming.Lower(Rel(s, zs[i])) != s.naming.Lower(Rel(s, zs[k]))
  }

  lemma EntryMeans(s: Site, z: ZipEntry)
    ensures Installable(s, z) <==> Rel(s, z) != []
    ensures Installable(s, z) ==>
              var e := EntryOf(s, z);
              && e.zf == z && e.rel == Rel(s, z) && e.target == s.naming.Canon(e.rel) && (e.dir <==> NamesDir(z))
              && e.size == (if e.dir then 0 else z.size)
  {
    hide NormalName, Naming.Canon;
  }

  lemma {:induction false} InstalledMember(s: Site, zs: seq<ZipEntry>, e: Entry)
    ensures e in Installed(s, zs) <==> exists z :: z in zs && Installable(s, z) && e == EntryOf(s, z)
  {
    hide Installable, EntryOf;
    if zs != [] {
      var n := |zs| - 1;
      InstalledMember(s, zs[..n], e);
      assert zs == zs[..n] + [zs[n]];
    }
  }

  lemma {:induction false} InstalledKeys(s: Site, zs: seq<ZipEntry>)
    ensures DistinctKeys(s, Installed(s, zs)) <==> NoneTwice(s, zs)
    ensures SumSizes(Installed(s, zs)) == Claimed(s, zs)
  {
    hide Installable, EntryOf, Rel, NamesDir, DistinctKeys, NoneTwice, SumSizes, NewName;
    if zs == [] {
      NoKeys(s);
    } else {
      var n := |zs| - 1;
      InstalledKeys(s, zs[..n]);
      NoneTwiceSnoc(s, zs[..n], zs[n]);
      assert zs[..n] + [zs[n]] == zs;
      KeysSnoc(s, zs[..n], zs[n]);
      EntryMeans(s, zs[n]);
    }
  }

  lemma KeysSnoc(s: Site, zs: seq<ZipEntry>, z: ZipEntry)
    ensures Installable(s, z) ==>
              var es, e := Installed(s, zs), EntryOf(s, z);
              && (DistinctKeys(s, es + [e]) <==> DistinctKeys(s, es) && NewName(s, zs, z))
              && SumSizes(es + [e]) == SumSizes(es) + if NamesDir(z) then 0 else z.size
    ensures !Installable(s, z) ==> Installed(s, zs) + [] == Installed(s, zs)
  {
    hide Installable, EntryOf, Rel, NamesDir, DistinctKeys, SumSizes, NewName, Installed, FreshKey, AllFit, Fits;
    if Installable(s, z) {
      EntriesSnoc(s, map[], Installed(s, zs), EntryOf(s, z));
      FreshMeans(s, zs, z);
      EntryMeans(s, z);
    }
  }

  lemma NoKeys(s: Site)
    ensures DistinctKeys(s, []) && NoneTwice(s, []) && SumSizes([]) == 0
  {
  }

  ghost predicate NewName(s: Site, zs: seq<ZipEntry>, z: ZipEntry) {
    forall y :: y in zs && Rel(s, y) != [] ==> s.naming.Lower(Rel(s, y)) != s.naming.Lower(Rel(s, z))
  }

  lemma NoneTwiceSnoc(s: Site, zs: seq<ZipEntry>, z: ZipEntry)
    ensures NoneTwice(s, zs + [z]) <==> NoneTwice(s, zs) && (Rel(s, z) != [] ==> NewName(s, zs, z))
  {
    hide Rel;
    var all := zs + [z];
    assert all[|zs|] == z && forall i :: 0 <= i < |zs| ==> all[i] == zs[i];
    if NoneTwice(s, all) {
      forall i, k | 0 <= i < k < |zs| && Rel(s, zs[i]) != []
        ensures s.naming.Lower(Rel(s, zs[i])) != s.naming.Lower(Rel(s, zs[k]))
      {
        assert s.naming.Lower(Rel(s, all[i])) != s.naming.Lower(Rel(s, all[k]));
      }
      forall y | y in zs && Rel(s, y) != []
        ensures s.naming.Lower(Rel(s, y)) != s.naming.Lower(Rel(s, z))
      {
        var i :| 0 <= i < |zs| && zs[i] == y;
        assert s.naming.Lower(Rel(s, all[i])) != s.naming.Lower(Rel(s, all[|zs|]));
      }
    }
  }

  lemma FreshMeans(s: Site, zs: seq<ZipEntry>, z: ZipEntry)
    requires Installable(s, z)
    ensures FreshKey(s, Installed(s, zs), EntryOf(s, z)) <==> NewName(s, zs, z)
  {
    hide Installable, EntryOf, Rel, NamesDir, Naming.Lower, Installed;
    var es := Installed(s, zs);
    EntryMeans(s, z);
    if FreshKey(s, es, EntryOf(s, z)) {
      forall y | y in zs && Rel(s, y) != []
        ensures s.naming.Lower(Rel(s, y)) != s.naming.Lower(Rel(s, z))
      {
        EntryMeans(s, y);
        InstalledMember(s, zs, EntryOf(s, y));
        var i :| 0 <= i < |es| && es[i] == EntryOf(s, y);
        assert s.Key(es[i].rel) != s.Key(EntryOf(s, z).rel);
      }
    }
    if NewName(s, zs, z) {
      forall i | 0 <= i < |es|
        ensures s.Key(es[i].rel) != s.Key(EntryOf(s, z).rel)
      {
        InstalledMember(s, zs, es[i]);
        var y :| y in zs && Installable(s, y) && es[i] == EntryOf(s, y);
        EntryMeans(s, y);
      }
    }
  }

  lemma SuitsMeans(s: Site, t: Tree, z: ZipEntry)
    requires Installable(s, z)
    ensures Suits(s, t, z) <==> GoodKind(s, z) && Fits(s, t, EntryOf(s, z))
  {
    EntryMeans(s, z);
    hide NormalName, Installable, EntryOf, Rel, Naming.Canon;
  }

  lemma AllSuit(s: Site, t: Tree, zs: seq<ZipEntry>)
    ensures AllGood(s, zs) && AllFit(s, t, Installed(s, zs)) <==>
            forall z :: z in zs ==> NormalName(s.naming, z.name).Some? && (Rel(s, z) != [] ==> Suits(s, t, z))
  {
    var es := Installed(s, zs);
    hide NormalName, EntryOf, Suits, Fits, Rel, Installable, Installed, GoodKind;
    if AllGood(s, zs) && AllFit(s, t, es) {
      forall z | z in zs
        ensures NormalName(s.naming, z.name).Some? && (Rel(s, z) != [] ==> Suits(s, t, z))
      {
        var i :| 0 <= i < |zs| && zs[i] == z;
        assert GoodEntry(s, zs[i]);
        EntryMeans(s, z);
        if Rel(s, z) != [] {
          InstalledMember(s, zs, EntryOf(s, z));
          var k :| 0 <= k < |es| && es[k] == EntryOf(s, z);
          assert Fits(s, t, es[k]);
          SuitsMeans(s, t, z);
        }
      }
    }
    if forall z :: z in zs ==> NormalName(s.naming, z.name).Some? && (Rel(s, z) != [] ==> Suits(s, t, z)) {
      forall i | 0 <= i < |zs|
        ensures GoodEntry(s, zs[i])
      {
        assert zs[i] in zs;
        EntryMeans(s, zs[i]);
        if Installable(s, zs[i]) { SuitsMeans(s, t, zs[i]); } else { Unasked(s, zs[i]); }
      }
      forall k | 0 <= k < |es|
        ensures Fits(s, t, es[k])
      {
        InstalledMember(s, zs, es[k]);
        var z :| z in zs && Installable(s, z) && es[k] == EntryOf(s, z);
        EntryMeans(s, z);
        SuitsMeans(s, t, z);
      }
    }
  }

  lemma Unasked(s: Site, z: ZipEntry)
    requires !Installable(s, z)
    ensures GoodKind(s, z)
  {
  }

  /** No file of the archive is named above another entry. */
  ghost predicate NoneAbove(s: Site, zs: seq<ZipEntry>) {
    forall y, z :: y in zs && z in zs && Rel(s, y) != [] && !NamesDir(y) ==>
      !(s.naming.Lower(Rel(s, y)) < s.naming.Lower(Rel(s, z)))
  }

  lemma NestingMeans(s: Site, zs: seq<ZipEntry>)
    ensures NoFileAbove(s, Installed(s, zs)) <==> NoneAbove(s, zs)
  {
    var es := Installed(s, zs);
    hide Rel, NamesDir, EntryOf, Installable, Installed, Naming.Lower;
    if NoFileAbove(s, es) {
      forall y, z | y in zs && z in zs && Rel(s, y) != [] && !NamesDir(y)
        ensures !(s.naming.Lower(Rel(s, y)) < s.naming.Lower(Rel(s, z)))
      {
        EntryMeans(s, y);
        EntryMeans(s, z);
        InstalledMember(s, zs, EntryOf(s, y));
        var i :| 0 <= i < |es| && es[i] == EntryOf(s, y);
        if Rel(s, z) != [] {
          InstalledMember(s, zs, EntryOf(s, z));
          var k :| 0 <= k < |es| && es[k] == EntryOf(s, z);
          assert !(s.Key(es[i].rel) < s.Key(es[k].rel));
        } else {
          NothingBelow(s.naming, Rel(s, y));
        }
      }
    }
    if NoneAbove(s, zs) {
      forall i, k | 0 <= i < |es| && 0 <= k < |es| && !es[i].dir
        ensures !(s.Key(es[i].rel) < s.Key(es[k].rel))
      {
        InstalledMember(s, zs, es[i]);
        InstalledMember(s, zs, es[k]);
        var y :| y in zs && Installable(s, y) && es[i] == EntryOf(s, y);
        var z :| z in zs && Installable(s, z) && es[k] == EntryOf(s, z);
        EntryMeans(s, y);
        EntryMeans(s, z);
      }
    }
  }

  lemma NothingBelow(n: Naming, p: Path)
    ensures !(n.Lower(p) < n.Lower([]))
  {
  }

  /** Exactly these archives are accepted: of one to 20000 entries; every name accepted and at least one
      naming something; every entry suitable; no two names the same but for case; no file above another
      entry; and no more than a signed 64-bit number of bytes in all. */
  lemma AcceptedExactly(s: Site, zs: seq<ZipEntry>, t: Tree)
    ensures Acceptable(s, zs, t) <==>
              && 1 <= |zs| <= 20000
              && (forall z :: z in zs ==> NormalName(s.naming, z.name).Some? && (Rel(s, z) != [] ==> Suits(s, t, z)))
              && (exists z :: z in zs && Rel(s, z) != [])
              && NoneTwice(s, zs) && NoneAbove(s, zs) && Claimed(s, zs) <= 0x7fff_ffff_ffff_ffff
  {
    var es := Installed(s, zs);
    AllSuit(s, t, zs);
    InstalledKeys(s, zs);
    NestingMeans(s, zs);
    SomethingNamed(s, zs);
    hide AllGood, AllFit, Installed, DistinctKeys, NoFileAbove, NoneTwice, NoneAbove, Suits, Rel, SumSizes;
  }

  lemma SomethingNamed(s: Site, zs: seq<ZipEntry>)
    ensures Installed(s, zs) != [] <==> exists z :: z in zs && Rel(s, z) != []
  {
    var es := Installed(s, zs);
    hide Rel, NamesDir, EntryOf, Installable, Installed;
    if es != [] {
      InstalledMember(s, zs, es[0]);
      var z :| z in zs && Installable(s, z) && es[0] == EntryOf(s, z);
      EntryMeans(s, z);
    }
    if z :| z in zs && Rel(s, z) != [] {
      EntryMeans(s, z);
      InstalledMember(s, zs, EntryOf(s, z));
    }
  }

  /** A completed install has put every file in its place: the whole payload, undamaged and of the size
      claimed, and the mode of the archive, or 0644 when the archive has none. */
  lemma InstalledFile(s: Site, t0: Tree, zs: seq<ZipEntry>, t: Tree, z: ZipEntry)
    requires s.naming.Valid() && ParentClosed(t0) && Acceptable(s, zs, t0) && FreshNames(s, t0, Installed(s, zs))
    requires Overlay(JobOf(s, t0, Installed(s, zs)), t) && GoodPayloads(Installed(s, zs))
    requires z in zs && Rel(s, z) != [] && !NamesDir(z)
    ensures var p := s.naming.Canon(Rel(s, z));
            && z.payload.Payload? && z.payload.intact && |z.payload.data| == z.size
            && p in t && t[p].File? && t[p].data == z.payload.data
            && t[p].mode == (if z.perm == 0 then 0x1a4 else z.perm)
  {
    var es, e := Installed(s, zs), EntryOf(s, z);
    EntryMeans(s, z);
    InstalledMember(s, zs, e);
    JobSound(s, t0, zs);
    var i :| 0 <= i < |es| && es[i] == e;
    assert !es[i].dir && GoodPayload(es[i]);
    ModeOf(s, z);
    hide Acceptable, FreshNames, Installed, EntryOf, Rel, NamesDir, ParentClosed, TempsOf, Scratch, Needed;
    assert e.target in WantOf(es);
  }

  lemma ModeOf(s: Site, z: ZipEntry)
    requires Installable(s, z) && !NamesDir(z)
    ensures EntryOf(s, z).mode == if z.perm == 0 then 0x1a4 else z.perm
  {
  }

  /** Every directory of the archive stands, and so does every directory above an entry. */
  lemma InstalledDirectory(s: Site, t0: Tree, zs: seq<ZipEntry>, t: Tree, z: ZipEntry, k: nat)
    requires s.naming.Valid() && ParentClosed(t0) && Acceptable(s, zs, t0) && FreshNames(s, t0, Installed(s, zs))
    requires Overlay(JobOf(s, t0, Installed(s, zs)), t)
    requires z in zs && 0 < k && if NamesDir(z) then k <= |Rel(s, z)| else k < |Rel(s, z)|
    ensures IsDir(t, s.naming.Canon(Rel(s, z)[..k]))
  {
    hide Acceptable, FreshNames, Installed, EntryOf, Rel, NamesDir, ParentClosed, Overlay, Sound, Naming.Canon, WantOf, TempsOf, UndoTemps;
    EntryMeans(s, z);
    var e := EntryOf(s, z);
    InstalledMember(s, zs, e);
    JobSound(s, t0, zs);
    s.naming.CanonPrefix(e.rel, k);
    CanonLength(s.naming, e.rel);
    NeededStands(JobOf(s, t0, Installed(s, zs)), t, e, k);
  }

  lemma CanonLength(n: Naming, p: Path)
    ensures |n.Canon(p)| == |p|
  {
  }

  lemma NeededStands(j: Job, t: Tree, e: Entry, k: nat)
    requires Sound(j) && Overlay(j, t) && e in j.es && 0 < k && if e.dir then k <= |e.target| else k < |e.target|
    ensures IsDir(t, e.target[..k])
  {
    hide Overlay, Scratch, ParentClosed;
    var p := e.target[..k];
    PrefixSlice(p, e.target);
    assert e.target[..|e.target|] == e.target;
    assert Needed(j, p);
    NeededFacts(j, p);
    hide Sound, Needed;
    OverlayHas(j, t, p);
  }

  lemma OverlayHas(j: Job, t: Tree, p: Path)
    requires Overlay(j, t) && Needed(j, p) && !Scratch(j, p) && p !in j.want && (p in j.t0 ==> j.t0[p].Dir?)
    ensures IsDir(t, p)
  {
    hide Scratch, Needed;
    assert p in j.t0 ==> SameAt(t, j.t0, p);
  }

  /** The bytes reported are those the archive's files claim, which is what a completed install has written. */
  lemma BytesReported(s: Site, t0: Tree, zs: seq<ZipEntry>)
    ensures Report(t0, Installed(s, zs)).bytes == Claimed(s, zs)
  {
    InstalledKeys(s, zs);
    hide Installed, SumSizes, Claimed;
  }

  /** Where a run keeps its scratch data. */
  lemma ScratchSpelled(s: Site, dir: Path, name: Name)
    ensures BackupRoot(s) == s.naming.Canon([".localsend-install-backup", s.tx]) && BackupDir(s) == s.naming.Canon([".localsend-install-backup"])
    ensures InstallTemp(s, dir + [name]) == s.naming.Canon(dir + ["." + name + ".localsend-install-" + s.pid + ".part"])
    ensures RollbackTemp(s, dir + [name]) == s.naming.Canon(dir + ["." + name + ".localsend-rollback-" + s.pid + ".part"])
  {
    assert Parent(dir + [name]) == dir && Base(dir + [name]) == name;
  }

  /** Outside scratch space and the file targets a run of any outcome changes nothing that was there, and
      adds nothing but directories the archive needs, in every state. */
  lemma RestUntouched(j: Job, h: seq<Tree>, n: nat, out: Outcome, acc: Account, i: nat, p: Path)
    requires Sound(j) && HonestTrace(j, h, n, out, acc) && n <= i < |h| && !Scratch(j, p) && p !in j.want
    ensures p in j.t0 ==> SameAt(h[i], j.t0, p)
    ensures p !in j.t0 && p in h[i] ==> h[i][p] == Dir && Needed(j, p)
  {
    hide Sound, Scratch, Needed, BudgetTrace, TargetWhole, Kept;
    if out.Completed? && i >= acc.mid {
      assert Overlay(j, h[i]);
    } else {
      if out.Completed? { assert h[..acc.mid][i] == h[i]; }
      assert Recoverable(j, h[i]);
    }
  }

  /** `r` is told from every accepted name, in any case of letters, and from all scratch names. */
  ghost predicate Apart(s: Site, r: Path) {
    && r != [] && s.naming.lower(r[0]) != BACKUP_DIR
    && (forall rel :: rel != [] && !Protected(s.naming, rel) ==> s.naming.Lower(rel) != s.naming.Lower(r))
    && (forall rel, x :: rel != [] && !Protected(s.naming, rel) && "." <= x ==> s.naming.Lower(Parent(rel) + [x]) != s.naming.Lower(r))
  }

  lemma ApartIsPlain(s: Site, t0: Tree, zs: seq<ZipEntry>, r: Path)
    requires s.naming.Valid() && Apart(s, r)
    ensures var j := JobOf(s, t0, Installed(s, zs)); !Scratch(j, s.naming.Canon(r)) && forall e :: e in j.es ==> e.target != s.naming.Canon(r)
  {
    var es, p := Installed(s, zs), s.naming.Canon(r);
    hide Protected, Installed, Apart, InstallTemp, RollbackTemp, Naming.Canon, Naming.Lower;
    InstalledShape(s, zs);
    ApartFromScratch(s, r);
    forall e | e in es
      ensures e.target != p && InstallTemp(s, e.rel) != p && RollbackTemp(s, e.rel) != p
    {
      ApartFrom(s, r, e.rel);
    }
  }

  lemma ApartFromScratch(s: Site, r: Path)
    requires s.naming.Valid() && Apart(s, r)
    ensures !(BackupRoot(s) <= s.naming.Canon(r)) && s.naming.Canon(r) != BackupDir(s)
  {
    assert s.naming.Canon(r)[0] == s.naming.canon(r[0]) != s.naming.canon(BACKUP_DIR);
  }

  lemma ApartFrom(s: Site, r: Path, rel: Path)
    requires s.naming.Valid() && Apart(s, r) && rel != [] && !Protected(s.naming, rel)
    ensures s.naming.Canon(rel) != s.naming.Canon(r)
    ensures InstallTemp(s, rel) != s.naming.Canon(r) && RollbackTemp(s, rel) != s.naming.Canon(r)
  {
    hide Protected, Naming.Canon, Naming.Lower;
    var x, y := "." + Base(rel) + ".localsend-install-" + s.pid + ".part", "." + Base(rel) + ".localsend-rollback-" + s.pid + ".part";
    assert "." <= x && "." <= y;
    if s.naming.Canon(rel) == s.naming.Canon(r) { s.naming.CanonNoCoarser(rel, r); }
    if InstallTemp(s, rel) == s.naming.Canon(r) { s.naming.CanonNoCoarser(Parent(rel) + [x], r); }
    if RollbackTemp(s, rel) == s.naming.Canon(r) { s.naming.CanonNoCoarser(Parent(rel) + [y], r); }
  }

  /** A temporary name beside an unprotected path is not at or below `d`, nor is it `r`. */
  lemma TempApart(n: Naming, d: Path, r: Path, rel: Path, x: Name)
    requires n.Valid() && d != [] && d <= n.Lower(r) && rel != [] && !(d <= n.Lower(rel)) && "." <= x
    requires !("." <= d[|d| - 1]) || |d| < |r|
    ensures n.Lower(Parent(rel) + [x]) != n.Lower(r)
  {
    hide Naming.Lower;
    var q, m := Parent(rel) + [x], |rel| - 1;
    n.CanonPrefix(rel, m);
    n.CanonPrefix(q, m);
    assert q[..m] == Parent(rel) == rel[..m];
    LowerLast(n, q);
    LowerLast(n, rel);
    LowerLast(n, r);
    if |d| <= m {
      var i :| 0 <= i < |d| && n.Lower(rel)[i] != d[i];
      assert n.Lower(q)[..m][i] == n.Lower(rel)[..m][i];
      assert n.Lower(q)[i] != n.Lower(r)[i];
    } else {
      assert |r| == |q| ==> n.Lower(q)[m] != n.Lower(r)[m];
    }
  }

  lemma LowerLast(n: Naming, p: Path)
    ensures |n.Lower(p)| == |p| && (p != [] ==> n.Lower(p)[|p| - 1] == n.lower(p[|p| - 1]) && n.Lower(p)[0] == n.lower(p[0]))
  {
  }

  /** What lies at or below a protected directory; strictly below, when its name starts with a dot. */
  lemma ApartBelow(s: Site, d: Path, r: Path)
    requires s.naming.Valid() && d != [] && d <= s.naming.Lower(r) && d[0] != BACKUP_DIR
    requires forall rel :: d <= s.naming.Lower(rel) ==> Protected(s.naming, rel)
    requires !("." <= d[|d| - 1]) || |d| < |r|
    ensures Apart(s, r) && forall rel :: !Protected(s.naming, rel) ==> !(s.naming.Canon(r) <= s.naming.Canon(rel))
  {
    hide Protected, Naming.Lower, Naming.Canon, Naming.Valid;
    var n := s.naming;
    LowerLast(n, r);
    forall rel, x | rel != [] && !Protected(n, rel) && "." <= x
      ensures n.Lower(Parent(rel) + [x]) != n.Lower(r)
    {
      TempApart(n, d, r, rel, x);
    }
    forall rel | !Protected(n, rel)
      ensures !(n.Canon(r) <= n.Canon(rel))
    {
      if n.Canon(r) <= n.Canon(rel) { FoldedPrefix(s, r, rel); }
    }
  }

  /** A run of any outcome leaves the private state, the logs and the contents of the stage directory as
      they were, in every state, however the paths are spelled. */
  lemma PrivateUntouched(s: Site, t0: Tree, zs: seq<ZipEntry>, h: seq<Tree>, n: nat, out: Outcome, acc: Account, i: nat, r: Path)
    requires s.naming.Valid() && ParentClosed(t0) && Acceptable(s, zs, t0) && FreshNames(s, t0, Installed(s, zs))
    requires HonestTrace(JobOf(s, t0, Installed(s, zs)), h, n, out, acc) && n <= i < |h|
    requires || ["extensions", "localsend", "state"] <= s.naming.Lower(r)
             || ["extensions", "localsend", "logs"] <= s.naming.Lower(r)
             || [".localsend-install-stage"] < s.naming.Lower(r)
    ensures SameAt(h[i], t0, s.naming.Canon(r))
  {
    hide Acceptable, FreshNames, Installed, ParentClosed, HonestTrace, Sound, Apart, Naming.Lower, Naming.Canon, WantOf, TempsOf, UndoTemps, Scratch;
    PrivateApart(s, r);
    JobSound(s, t0, zs);
    PlainUntouched(s, t0, zs, h, n, out, acc, i, r);
    InstalledShape(s, zs);
  }

  lemma PrivateApart(s: Site, r: Path)
    requires s.naming.Valid()
    requires || ["extensions", "localsend", "state"] <= s.naming.Lower(r)
             || ["extensions", "localsend", "logs"] <= s.naming.Lower(r)
             || [".localsend-install-stage"] < s.naming.Lower(r)
    ensures Apart(s, r) && forall rel :: !Protected(s.naming, rel) ==> !(s.naming.Canon(r) <= s.naming.Canon(rel))
  {
    hide Apart, Naming.Canon;
    assert BACKUP_DIR[0] == '.' && "extensions"[0] == 'e' && "state"[0] == 's' && "logs"[0] == 'l';
    assert |BACKUP_DIR| > |".localsend-install-stage"| && |r| == |s.naming.Lower(r)|;
    if ["extensions", "localsend", "state"] <= s.naming.Lower(r) {
      ApartBelow(s, ["extensions", "localsend", "state"], r);
    } else if ["extensions", "localsend", "logs"] <= s.naming.Lower(r) {
      ApartBelow(s, ["extensions", "localsend", "logs"], r);
    } else {
      ApartBelow(s, [".localsend-install-stage"], r);
    }
  }

  lemma PlainUntouched(s: Site, t0: Tree, zs: seq<ZipEntry>, h: seq<Tree>, n: nat, out: Outcome, acc: Account, i: nat, r: Path)
    requires s.naming.Valid() && Apart(s, r) && Sound(JobOf(s, t0, Installed(s, zs)))
    requires HonestTrace(JobOf(s, t0, Installed(s, zs)), h, n, out, acc) && n <= i < |h|
    ensures var p := s.naming.Canon(r);
            && (p in t0 ==> SameAt(h[i], t0, p))
            && (p !in t0 && p in h[i] ==>
                  h[i][p] == Dir && exists e :: e in Installed(s, zs) && p <= e.target && p != e.target)
  {
    hide FreshNames, Installed, HonestTrace, Apart, Naming.Lower, Naming.Canon, TempsOf, UndoTemps, Scratch, WantOf;
    var j, p := JobOf(s, t0, Installed(s, zs)), s.naming.Canon(r);
    ApartIsPlain(s, t0, zs, r);
    WantTargets(j, p);
    hide Sound;
    RestUntouched(j, h, n, out, acc, i, p);
  }

  lemma WantTargets(j: Job, p: Path)
    requires Sound(j) && forall e :: e in j.es ==> e.target != p
    ensures p !in j.want
  {
  }

  lemma ApartSettings(s: Site, r: Path)
    requires s.naming.Valid() && s.naming.Lower(r) == ["extensions", "localsend", "config", "settings.json"]
    ensures Apart(s, r)
  {
    assert BACKUP_DIR[0] == '.' && "extensions"[0] == 'e' && "settings.json"[0] == 's';
    assert |r| == |s.naming.Lower(r)| && s.naming.lower(r[0]) == s.naming.Lower(r)[0];
    PrivateNames(s.naming, r);
    forall rel | rel != [] && !Protected(s.naming, rel)
      ensures s.naming.Lower(rel) != s.naming.Lower(r)
    {
      PrivateNames(s.naming, rel);
    }
    hide Protected;
    forall rel, x | rel != [] && "." <= x
      ensures s.naming.Lower(Parent(rel) + [x]) != s.naming.Lower(r)
    {
      var q := Parent(rel) + [x];
      assert s.naming.Lower(q)[|q| - 1] == s.naming.lower(x);
    }
  }

  /** A run of any outcome leaves a settings file as it was, in every state. Where there is none, it makes
      at most a directory of that name, and only for an archive with an entry below it. */
  lemma SettingsUntouched(s: Site, t0: Tree, zs: seq<ZipEntry>, h: seq<Tree>, n: nat, out: Outcome, acc: Account, i: nat, r: Path)
    requires s.naming.Valid() && ParentClosed(t0) && Acceptable(s, zs, t0) && FreshNames(s, t0, Installed(s, zs))
    requires HonestTrace(JobOf(s, t0, Installed(s, zs)), h, n, out, acc) && n <= i < |h|
    requires s.naming.Lower(r) == ["extensions", "localsend", "config", "settings.json"]
    ensures s.naming.Canon(r) in t0 ==> SameAt(h[i], t0, s.naming.Canon(r))
    ensures s.naming.Canon(r) !in t0 && s.naming.Canon(r) in h[i] ==>
              h[i][s.naming.Canon(r)] == Dir && exists z :: z in zs && s.naming.Canon(r) < s.naming.Canon(Rel(s, z))
  {
    hide Acceptable, FreshNames, Installed, ParentClosed, HonestTrace, Sound, Apart, Naming.Lower, Naming.Canon, WantOf, TempsOf, UndoTemps, Scratch;
    hide NormalName, Installable, EntryOf, Rel;
    ApartSettings(s, r);
    JobSound(s, t0, zs);
    PlainUntouched(s, t0, zs, h, n, out, acc, i, r);
    var p := s.naming.Canon(r);
    if p !in t0 && p in h[i] {
      var e :| e in Installed(s, zs) && p <= e.target && p != e.target;
      InstalledMember(s, zs, e);
      var z :| z in zs && Installable(s, z) && e == EntryOf(s, z);
      EntryMeans(s, z);
    }
  }

  /** Exactly such an archive makes it. */
  lemma SettingsDirectory(s: Site, t0: Tree, zs: seq<ZipEntry>, t: Tree, r: Path)
    requires s.naming.Valid() && ParentClosed(t0) && Acceptable(s, zs, t0) && FreshNames(s, t0, Installed(s, zs))
    requires Overlay(JobOf(s, t0, Installed(s, zs)), t) && s.naming.Canon(r) !in t0
    requires s.naming.Lower(r) == ["extensions", "localsend", "config", "settings.json"]
    ensures IsDir(t, s.naming.Canon(r)) <==> exists z :: z in zs && s.naming.Canon(r) < s.naming.Canon(Rel(s, z))
  {
    hide Acceptable, FreshNames, Installed, ParentClosed, Overlay, Sound, Apart, Naming.Lower, Naming.Canon, WantOf, TempsOf, UndoTemps, Scratch;
    hide NormalName, Installable, EntryOf, Rel, NamesDir;
    var j, p := JobOf(s, t0, Installed(s, zs)), s.naming.Canon(r);
    ApartSettings(s, r);
    JobSound(s, t0, zs);
    ApartIsPlain(s, t0, zs, r);
    WantTargets(j, p);
    OverlayAt(j, t, p);
    if IsDir(t, p) {
      var e :| e in j.es && (p < e.target || (e.dir && p == e.target));
      InstalledMember(s, zs, e);
      var z :| z in zs && Installable(s, z) && e == EntryOf(s, z);
      EntryMeans(s, z);
    }
    if z :| z in zs && p < s.naming.Canon(Rel(s, z)) {
      NonEmpty(s.naming, p, r, Rel(s, z));
      EntryMeans(s, z);
      InstalledMember(s, zs, EntryOf(s, z));
    }
  }

  lemma NonEmpty(n: Naming, p: Path, r: Path, rel: Path)
    requires p == n.Canon(r) < n.Canon(rel) && |n.Lower(r)| == 4
    ensures p != [] && rel != []
  {
  }

  lemma OverlayAt(j: Job, t: Tree, p: Path)
    requires Overlay(j, t) && !Scratch(j, p) && p !in j.want && p !in j.t0
    ensures p in t <==> Needed(j, p)
    ensures p in t ==> t[p] == Dir
  {
  }

  /** The archive's own file is left alone in every state, unless the archive holds a file that the file
      system takes for the same. */
  lemma SourceUntouched(s: Site, t0: Tree, zs: seq<ZipEntry>, h: seq<Tree>, n: nat, out: Outcome, acc: Account, i: nat, r: Path)
    requires s.naming.Valid() && ParentClosed(t0) && Acceptable(s, zs, t0) && FreshNames(s, t0, Installed(s, zs))
    requires HonestTrace(JobOf(s, t0, Installed(s, zs)), h, n, out, acc) && n <= i < |h|
    requires s.source == Some(r) && s.naming.Canon(r) in t0 && t0[s.naming.Canon(r)].File? && s.naming.Canon(r) != BackupDir(s)
    requires forall z :: z in zs && Rel(s, z) != [] && !NamesDir(z) ==> s.naming.Canon(Rel(s, z)) != s.naming.Canon(r)
    ensures SameAt(h[i], t0, s.naming.Canon(r))
  {
    hide Acceptable, FreshNames, Installed, HonestTrace, Naming.Lower, Naming.Canon, WantOf, TempsOf, UndoTemps, NamesDir;
    hide NormalName, Installable, EntryOf, Rel;
    var j, p := JobOf(s, t0, Installed(s, zs)), s.naming.Canon(r);
    JobSound(s, t0, zs);
    if p in j.want {
      var e := j.want[p];
      InstalledMember(s, zs, e);
      var z :| z in zs && Installable(s, z) && e == EntryOf(s, z);
      EntryMeans(s, z);
    }
    FileIsPlain(j, p);
    hide Sound, ParentClosed;
    RestUntouched(j, h, n, out, acc, i, p);
  }

  lemma FileIsPlain(j: Job, p: Path)
    requires Sound(j) && p in j.t0 && j.t0[p].File? && p != j.spare
    ensures !Scratch(j, p)
  {
    if j.root <= p && j.root != p { AncestorsAreDirs(j.t0, j.root, p); }
  }

  /** On a file system that tells all names apart it is left alone always. */
  lemma SourceSpared(s: Site, t0: Tree, zs: seq<ZipEntry>, h: seq<Tree>, n: nat, out: Outcome, acc: Account, i: nat, r: Path)
    requires s.naming.Valid() && ParentClosed(t0) && Acceptable(s, zs, t0) && FreshNames(s, t0, Installed(s, zs))
    requires HonestTrace(JobOf(s, t0, Installed(s, zs)), h, n, out, acc) && n <= i < |h|
    requires s.source == Some(r) && s.naming.Canon(r) in t0 && t0[s.naming.Canon(r)].File? && s.naming.Canon(r) != BackupDir(s)
    requires forall a, b :: s.naming.canon(a) == s.naming.canon(b) ==> a == b
    ensures SameAt(h[i], t0, s.naming.Canon(r))
  {
    hide FreshNames, Installed, HonestTrace, Naming.Lower, WantOf, TempsOf, UndoTemps, NamesDir, NormalName, NoneTwice, NoneAbove, Claimed, Acceptable;
    AcceptedExactly(s, zs, t0);
    forall z | z in zs && Rel(s, z) != [] && !NamesDir(z)
      ensures s.naming.Canon(Rel(s, z)) != s.naming.Canon(r)
    {
      assert Suits(s, t0, z);
      SameSpelling(s.naming, Rel(s, z), r);
    }
    SourceUntouched(s, t0, zs, h, n, out, acc, i, r);
  }

  lemma SameSpelling(n: Naming, p: Path, q: Path)
    requires forall a, b :: n.canon(a) == n.canon(b) ==> a == b
    ensures n.Canon(p) == n.Canon(q) ==> p == q
  {
    if n.Canon(p) == n.Canon(q) {
      forall i | 0 <= i < |p|
        ensures p[i] == q[i]
      {
        assert n.Canon(p)[i] == n.Canon(q)[i];
      }
    }
  }

  /** An archive of one small file that is named `parts`, for a root with the nodes `t0`. */
  lemma OneFile(s: Site, t0: Tree, parts: Path, z: ZipEntry)
    requires NormalName(s.naming, z.name) == Some(parts) && parts != [] && !NamesDir(z) && z.kind == Regular && z.size == 1
    requires s.source != Some(parts) && (s.naming.Canon(parts) in t0 ==> t0[s.naming.Canon(parts)].File?)
    requires forall k :: 0 < k < |parts| ==> s.naming.Canon(parts)[..k] !in t0
    ensures Acceptable(s, [z], t0)
  {
    AcceptedExactly(s, [z], t0);
    CanonLength(s.naming, parts);
    hide NormalName, Acceptable, Naming.Canon, Naming.Lower;
    assert z in [z] && Rel(s, z) == parts;
    assert [z][..0] == [] && Suits(s, t0, z);
  }

  /** Names with a leading dot are not folded, and none stands in the way. */
  lemma FreshFor(s: Site, t0: Tree, parts: Path, z: ZipEntry)
    requires Installable(s, z) && Rel(s, z) == parts != []
    requires forall x :: "." <= x ==> s.naming.canon(x) == x
    requires !("." <= s.naming.canon(parts[|parts| - 1])) && forall p :: p in t0 ==> |p| <= 1 && (p != [] ==> !("." <= p[0]))
    ensures FreshNames(s, t0, Installed(s, [z]))
  {
    hide EntryOf, Rel, NormalName, Installable, Naming.Canon, FreshNames;
    EntryMeans(s, z);
    assert [z][..0] == [] && Installed(s, [z]) == [EntryOf(s, z)];
    FreshEntry(s, t0, EntryOf(s, z));
  }

  lemma FreshEntry(s: Site, t0: Tree, e: Entry)
    requires e.rel != [] && e.target == s.naming.Canon(e.rel)
    requires forall x :: "." <= x ==> s.naming.canon(x) == x
    requires !("." <= s.naming.canon(e.rel[|e.rel| - 1])) && forall p :: p in t0 ==> |p| <= 1 && (p != [] ==> !("." <= p[0]))
    ensures FreshNames(s, t0, [e])
  {
    hide InstallTemp, RollbackTemp, Naming.Canon, BackupDir, BackupRoot, TempsOf, FreshNames;
    TempShape(s, e.rel);
    ScratchShape(s, e.rel);
    OutOfTheWay(t0, e.target, InstallTemp(s, e.rel));
    OutOfTheWay(t0, e.target, RollbackTemp(s, e.rel));
    TempsOfOne(s, e);
    FreshIntro(s, t0, e, InstallTemp(s, e.rel), RollbackTemp(s, e.rel));
  }

  lemma FreshIntro(s: Site, t0: Tree, e: Entry, a: Path, b: Path)
    requires BackupRoot(s) !in t0 && TempsOf(s, [e]) <= {a, b}
    requires a !in t0 && b !in t0 && a != BackupDir(s) && b != BackupDir(s) && !(a <= e.target) && !(b <= e.target)
    ensures FreshNames(s, t0, [e])
  {
    hide TempsOf, BackupDir, BackupRoot;
  }

  lemma OutOfTheWay(t0: Tree, target: Path, tmp: Path)
    requires |tmp| == |target| > 0 && "." <= tmp[|tmp| - 1] && !("." <= target[|target| - 1])
    requires forall p :: p in t0 ==> |p| <= 1 && (p != [] ==> !("." <= p[0]))
    ensures tmp !in t0 && !(tmp <= target)
  {
    assert target[|tmp| - 1] != tmp[|tmp| - 1];
  }

  lemma TempsOfOne(s: Site, e: Entry)
    requires e.rel != []
    ensures TempsOf(s, [e]) <= {InstallTemp(s, e.rel), RollbackTemp(s, e.rel)}
  {
    hide InstallTemp, RollbackTemp;
  }

  lemma ScratchShape(s: Site, parts: Path)
    requires parts != []
    ensures |BackupRoot(s)| == 2 && |s.naming.Canon(parts)| == |parts|
    ensures s.naming.Canon(parts)[|parts| - 1] == s.naming.canon(parts[|parts| - 1])
  {
  }

  lemma TempShape(s: Site, parts: Path)
    requires parts != [] && forall x :: "." <= x ==> s.naming.canon(x) == x
    ensures forall tmp :: tmp in {InstallTemp(s, parts), RollbackTemp(s, parts)} ==>
              |tmp| == |parts| && "." <= tmp[|parts| - 1] && tmp != BackupDir(s)
  {
    hide BackupDir;
    var n := |parts| - 1;
    var x, y := "." + Base(parts) + ".localsend-install-" + s.pid, "." + Base(parts) + ".localsend-rollback-" + s.pid;
    DottedPart(x);
    DottedPart(y);
    OnlyScratch(s);
    assert InstallTemp(s, parts)[n] == x + ".part" && RollbackTemp(s, parts)[n] == y + ".part";
  }

  lemma DottedPart(x: string)
    requires "." <= x
    ensures "." <= x + ".part" && x + ".part" != BACKUP_DIR
  {
    assert (x + ".part")[|x| + 4] == 't' && BACKUP_DIR[|BACKUP_DIR| - 1] == 'p';
  }

  lemma OnlyScratch(s: Site)
    requires forall x :: "." <= x ==> s.naming.canon(x) == x
    ensures BackupDir(s) == [BACKUP_DIR]
  {
    assert "." <= BACKUP_DIR;
  }

  /** A case-sensitive file system, and names compared as they are. */
  ghost predicate Plainly(n: Naming) {
    n.Valid() && forall x :: n.lower(x) == x && n.canon(x) == x
  }

  lemma PlainPaths(n: Naming, p: Path)
    requires Plainly(n)
    ensures n.Lower(p) == p && n.Canon(p) == p
  {
  }

  /** The hypotheses of an install can be met: one small file into an empty root. */
  lemma SmallInstall(n: Naming, parts: Path) returns (s: Site, t0: Tree, z: ZipEntry)
    requires Plainly(n) && parts != [] && !("." <= parts[|parts| - 1]) && !Protected(n, parts)
    requires forall i :: 0 <= i < |parts| ==> IsComponent(parts[i]) && '\\' !in parts[i] && '\0' !in parts[i]
    ensures s.naming == n && t0 == map[[] := Dir] && ParentClosed(t0) && Rel(s, z) == parts
    ensures Acceptable(s, [z], t0) && FreshNames(s, t0, Installed(s, [z])) && GoodPayloads(Installed(s, [z]))
  {
    hide Acceptable, FreshNames, Protected, Installed, ParentClosed;
    PlainName(n, parts);
    s, t0 := Site(n, None, "1", "tx"), map[[] := Dir];
    z := ZipEntry(Join(parts), Regular, 0, 1, None, Payload("x", true));
    hide Join, NormalName;
    PlainPaths(n, parts);
    OneFile(s, t0, parts, z);
    FreshFor(s, t0, parts, z);
    OneGood(s, z);
    assert ParentClosed(t0) by { RootClosed(); }
  }

  lemma RootClosed()
    ensures ParentClosed(map[[] := Dir])
  {
  }

  lemma OneGood(s: Site, z: ZipEntry)
    requires Installable(s, z) && !NamesDir(z) && z.payload.Payload? && z.payload.intact && |z.payload.data| == z.size
    ensures GoodPayloads(Installed(s, [z]))
  {
    EntryMeans(s, z);
    assert [z][..0] == [] && Installed(s, [z]) == [EntryOf(s, z)];
  }

  /** Such an archive exists: installed where there are no settings yet, it leaves a directory in their place. */
  lemma SettingsBecomeDirectory(n: Naming) returns (s: Site, t0: Tree, z: ZipEntry, r: Path)
    requires Plainly(n)
    ensures s.naming == n && t0 == map[[] := Dir] && ParentClosed(t0) && Acceptable(s, [z], t0) && FreshNames(s, t0, Installed(s, [z]))
    ensures n.Lower(r) == ["extensions", "localsend", "config", "settings.json"]
    ensures forall t :: Overlay(JobOf(s, t0, Installed(s, [z])), t) ==> IsDir(t, n.Canon(r))
  {
    hide Acceptable, FreshNames, Protected, Installed, ParentClosed, Overlay, GoodPayloads, Rel, NamesDir, Naming.Lower, Naming.Canon;
    r := ["extensions", "localsend", "config", "settings.json"];
    var parts := r + ["x"];
    BelowSettings(n, parts);
    s, t0, z := SmallInstall(n, parts);
    PlainPaths(n, r);
    PlainPaths(n, parts);
    assert z in [z] && r < parts;
    forall t | Overlay(JobOf(s, t0, Installed(s, [z])), t)
      ensures IsDir(t, n.Canon(r))
    {
      SettingsDirectory(s, t0, [z], t, r);
    }
  }

  lemma BelowSettings(n: Naming, parts: Path)
    requires Plainly(n) && parts == ["extensions", "localsend", "config", "settings.json", "x"]
    ensures !("." <= parts[|parts| - 1]) && !Protected(n, parts)
    ensures forall i :: 0 <= i < |parts| ==> IsComponent(parts[i]) && '\\' !in parts[i] && '\0' !in parts[i]
  {
    hide Naming.Lower, Protected;
    PlainPaths(n, parts);
    Apartness();
    Unprotected(n, parts);
  }

  lemma Apartness()
    ensures "extensions"[0] == 'e' && "config"[0] == 'c' && "x"[0] == 'x' && "state"[0] == 's' && "logs"[0] == 'l'
    ensures "a.zip"[0] == 'a' && "A.zip"[0] == 'A' && BACKUP_DIR[0] == '.' && STAGE_DIR[0] == '.'
  {
  }

  /** Neither dotted, nor "state" or "logs" in third place, nor of four components. */
  lemma Unprotected(n: Naming, rel: Path)
    requires rel != [] && !("." <= n.Lower(rel)[0]) && |rel| != 4
    requires |rel| > 2 ==> n.Lower(rel)[2] != "" && n.Lower(rel)[2][0] != 's' && n.Lower(rel)[2][0] != 'l'
    ensures !Protected(n, rel)
  {
    var l := n.Lower(rel);
    assert |l| == |rel|;
    hide Naming.Lower;
    Apartness();
    assert l[0] != BACKUP_DIR && l[0] != STAGE_DIR;
    assert |l| > 2 ==> l[2] != "state" && l[2] != "logs";
  }

  /** A file system that takes "A.zip" and "a.zip" for the same name. */
  function FoldOne(x: Name): Name {
    if x == "A.zip" then "a.zip" else x
  }

  /** There an accepted archive "a.zip" with a file "A.zip" is replaced by that file. */
  lemma SourceOverwritten() returns (s: Site, t0: Tree, z: ZipEntry)
    ensures s.naming.Valid() && ParentClosed(t0) && Acceptable(s, [z], t0) && FreshNames(s, t0, Installed(s, [z]))
    ensures s.source == Some(["a.zip"]) && ["a.zip"] in t0 && t0[["a.zip"]].File? && s.naming.Canon(["a.zip"]) == ["a.zip"]
    ensures forall t: Tree :: Overlay(JobOf(s, t0, Installed(s, [z])), t) && GoodPayloads(Installed(s, [z])) ==>
              ["a.zip"] in t && t[["a.zip"]].File? && t[["a.zip"]].data != t0[["a.zip"]].data
  {
    hide Acceptable, FreshNames, Protected, Installed, ParentClosed, Overlay, GoodPayloads, NamesDir, Naming.Lower, Naming.Canon, NormalName, Join;
    var n := Naming(FoldOne, FoldOne);
    s, t0 := Site(n, Some(["a.zip"]), "1", "tx"), map[[] := Dir, ["a.zip"] := File("old", 420, 0)];
    z := ZipEntry(Join(["A.zip"]), Regular, 0, 1, None, Payload("x", true));
    FoldedNames(n);
    PlainName(n, ["A.zip"]);
    NotDirectory(z);
    OneFile(s, t0, ["A.zip"], z);
    FreshFor(s, t0, ["A.zip"], z);
    assert ParentClosed(t0) by { OneNode(t0, "a.zip"); }
    forall t: Tree | Overlay(JobOf(s, t0, Installed(s, [z])), t) && GoodPayloads(Installed(s, [z]))
      ensures ["a.zip"] in t && t[["a.zip"]].File? && t[["a.zip"]].data != t0[["a.zip"]].data
    {
      InstalledFile(s, t0, [z], t, z);
    }
  }

  lemma FoldedNames(n: Naming)
    requires n == Naming(FoldOne, FoldOne)
    ensures n.Valid() && n.Canon(["A.zip"]) == ["a.zip"] == n.Canon(["a.zip"]) && !Protected(n, ["A.zip"])
    ensures IsComponent("A.zip") && '\\' !in "A.zip" && '\0' !in "A.zip"
    ensures (forall x :: "." <= x ==> n.canon(x) == x) && !("." <= n.canon("A.zip")) && !("." <= "a.zip")
  {
    Apartness();
    assert n.lower("A.zip") == "a.zip" && n.canon("A.zip") == "a.zip" && n.canon("a.zip") == "a.zip";
    assert n.Lower(["A.zip"])[0] == "a.zip";
    Unprotected(n, ["A.zip"]);
  }

  lemma NotDirectory(z: ZipEntry)
    requires z.kind == Regular && !EndsInSlash(z.name)
    ensures !NamesDir(z)
  {
  }

  lemma OneNode(t: Tree, x: Name)
    requires IsDir(t, []) && forall p :: p in t ==> p in {[], [x]}
    ensures ParentClosed(t)
  {
    assert Parent([x]) == [];
  }
}
