/** The outcome of an install does not depend on the order of the archive's entries. */
module InstallOrder {
  import opened Octets
  import opened FileTree
  import opened InstallNames
  import opened Preflight
  import opened InstallSteps
  import opened InstallJob
  import opened Installer
  import opened InstallSite
  import opened InstallRun

  lemma SplitAround<T>(a: seq<T>, x: T) returns (b: seq<T>, c: seq<T>)
    requires x in a
    ensures a == b + [x] + c && |b + c| == |a| - 1 && multiset(b + c) == multiset(a) - multiset{x}
  {
    var i :| 0 <= i < |a| && a[i] == x;
    b, c := a[..i], a[i + 1..];
    assert a == b + [x] + c;
  }

  /** Moving the last element of `a` to where `b` has it. */
  lemma SameWithoutLast<T>(a: seq<T>, b: seq<T>) returns (l: seq<T>, r: seq<T>)
    requires multiset(a) == multiset(b) && a != []
    ensures b == l + [a[|a| - 1]] + r && multiset(a[..|a| - 1]) == multiset(l + r) && |l + r| == |b| - 1
  {
    var x := a[|a| - 1];
    assert a == a[..|a| - 1] + [x];
    assert x in multiset(b);
    l, r := SplitAround(b, x);
  }

  lemma SameMembers<T>(a: seq<T>, b: seq<T>)
    requires multiset(a) == multiset(b)
    ensures forall x :: x in a <==> x in b
  {
    assert forall x :: x in a <==> x in multiset(a);
    assert forall x :: x in b <==> x in multiset(b);
  }

  lemma {:induction false} InstalledOrder(s: Site, a: seq<ZipEntry>, b: seq<ZipEntry>)
    requires multiset(a) == multiset(b)
    ensures multiset(Installed(s, a)) == multiset(Installed(s, b))
  {
    if a == [] {
      assert |multiset(b)| == 0;
    } else {
      var z := a[|a| - 1];
      var l, r := SameWithoutLast(a, b);
      InstalledOrder(s, a[..|a| - 1], l + r);
      InstalledConcat(s, l, r);
      InstalledConcat(s, l + [z], r);
      InstalledConcat(s, l, [z]);
      assert Installed(s, [z]) == Extended(s, [], z) by { assert [z][..0] == []; }
    }
  }

  lemma {:induction false} MaxConcat(t: Tree, a: seq<Entry>, b: seq<Entry>)
    ensures MaxExisting(t, a + b) == Max(MaxExisting(t, a), MaxExisting(t, b))
  {
    if b == [] {
      assert a + b == a;
    } else {
      assert (a + b)[..|a + b| - 1] == a + b[..|b| - 1];
      MaxConcat(t, a, b[..|b| - 1]);
    }
  }

  lemma {:induction false} SizesOrder(t: Tree, a: seq<Entry>, b: seq<Entry>)
    requires multiset(a) == multiset(b)
    ensures SumSizes(a) == SumSizes(b) && MaxExisting(t, a) == MaxExisting(t, b)
  {
    if a == [] {
      assert |multiset(b)| == 0;
    } else {
      var e := a[|a| - 1];
      var l, r := SameWithoutLast(a, b);
      SizesOrder(t, a[..|a| - 1], l + r);
      SumConcat(l, r);
      SumConcat(l + [e], r);
      SumConcat(l, [e]);
      MaxConcat(t, l, r);
      MaxConcat(t, l + [e], r);
      MaxConcat(t, l, [e]);
      assert [e][..0] == [];
    }
  }

  lemma DistinctInsert(s: Site, l: seq<Entry>, e: Entry, r: seq<Entry>)
    ensures DistinctKeys(s, l + [e] + r) <==> DistinctKeys(s, l + r) && FreshKey(s, l + r, e)
  {
    var with, without := l + [e] + r, l + r;
    var n := |l|;
    assert forall i :: 0 <= i < n ==> with[i] == without[i];
    assert forall i :: n <= i < |without| ==> with[i + 1] == without[i];
    if DistinctKeys(s, with) {
      forall i, k | 0 <= i < k < |without|
        ensures s.Key(without[i].rel) != s.Key(without[k].rel)
      {
        assert s.Key(with[if i < n then i else i + 1].rel) != s.Key(with[if k < n then k else k + 1].rel);
      }
      forall i | 0 <= i < |without|
        ensures s.Key(without[i].rel) != s.Key(e.rel)
      {
        if i < n {
          assert s.Key(with[i].rel) != s.Key(with[n].rel);
        } else {
          assert s.Key(with[n].rel) != s.Key(with[i + 1].rel);
        }
      }
    }
    if DistinctKeys(s, without) && FreshKey(s, without, e) {
      forall i, k | 0 <= i < k < |with|
        ensures s.Key(with[i].rel) != s.Key(with[k].rel)
      {
        if i == n {
          assert s.Key(without[k - 1].rel) != s.Key(e.rel);
        } else if k == n {
          assert s.Key(without[i].rel) != s.Key(e.rel);
        } else {
          assert s.Key(without[if i < n then i else i - 1].rel) != s.Key(without[if k < n then k else k - 1].rel);
        }
      }
    }
  }

  lemma FreshOrder(s: Site, a: seq<Entry>, b: seq<Entry>, e: Entry)
    requires multiset(a) == multiset(b) && FreshKey(s, a, e)
    ensures FreshKey(s, b, e)
  {
    SameMembers(a, b);
    forall i | 0 <= i < |b|
      ensures s.Key(b[i].rel) != s.Key(e.rel)
    {
      assert b[i] in a;
    }
  }

  lemma {:induction false} DistinctOrder(s: Site, a: seq<Entry>, b: seq<Entry>)
    requires multiset(a) == multiset(b) && DistinctKeys(s, a)
    ensures DistinctKeys(s, b)
    decreases |a|
  {
    if a == [] {
      assert |multiset(b)| == 0;
    } else {
      var e := a[|a| - 1];
      var l, r := SameWithoutLast(a, b);
      assert a == a[..|a| - 1] + [e] + [] && a[..|a| - 1] == a[..|a| - 1] + [];
      DistinctInsert(s, a[..|a| - 1], e, []);
      DistinctOrder(s, a[..|a| - 1], l + r);
      FreshOrder(s, a[..|a| - 1], l + r, e);
      DistinctInsert(s, l, e, r);
    }
  }

  lemma ChecksOrder(s: Site, t: Tree, a: seq<Entry>, b: seq<Entry>)
    requires multiset(a) == multiset(b)
    ensures AllFit(s, t, a) ==> AllFit(s, t, b)
    ensures NoFileAbove(s, a) ==> NoFileAbove(s, b)
  {
    SameMembers(a, b);
    hide Fits;
    if AllFit(s, t, a) {
      forall i | 0 <= i < |b|
        ensures Fits(s, t, b[i])
      {
        assert b[i] in a;
      }
    }
    if NoFileAbove(s, a) {
      forall i, k | 0 <= i < |b| && 0 <= k < |b| && !b[i].dir
        ensures !(s.Key(b[i].rel) < s.Key(b[k].rel))
      {
        assert b[i] in a && b[k] in a;
      }
    }
  }

  lemma GoodOrder(s: Site, a: seq<ZipEntry>, b: seq<ZipEntry>)
    requires multiset(a) == multiset(b) && AllGood(s, a)
    ensures AllGood(s, b) && |a| == |b|
  {
    SameMembers(a, b);
    assert |multiset(a)| == |a| && |multiset(b)| == |b|;
    hide GoodEntry;
    forall i | 0 <= i < |b|
      ensures GoodEntry(s, b[i])
    {
      assert b[i] in a;
    }
  }

  lemma AcceptableOneWay(s: Site, a: seq<ZipEntry>, b: seq<ZipEntry>, t: Tree)
    requires multiset(a) == multiset(b) && Acceptable(s, a, t)
    ensures Acceptable(s, b, t)
  {
    GoodOrder(s, a, b);
    InstalledOrder(s, a, b);
    var ea, eb := Installed(s, a), Installed(s, b);
    assert eb == [] ==> |multiset(ea)| == 0;
    hide AllGood, AllFit, NoFileAbove, DistinctKeys, Installed;
    SizesOrder(t, ea, eb);
    DistinctOrder(s, ea, eb);
    ChecksOrder(s, t, ea, eb);
  }

  /** Preflight's verdict and both its sums are the same for every order of the entries. */
  lemma PreflightOrder(s: Site, a: seq<ZipEntry>, b: seq<ZipEntry>, t: Tree)
    requires multiset(a) == multiset(b)
    ensures Acceptable(s, a, t) <==> Acceptable(s, b, t)
    ensures SumSizes(Installed(s, a)) == SumSizes(Installed(s, b))
    ensures MaxExisting(t, Installed(s, a)) == MaxExisting(t, Installed(s, b))
  {
    hide Acceptable;
    InstalledOrder(s, a, b);
    SizesOrder(t, Installed(s, a), Installed(s, b));
    if Acceptable(s, a, t) { AcceptableOneWay(s, a, b, t); }
    if Acceptable(s, b, t) { AcceptableOneWay(s, b, a, t); }
  }

  function DirTargets(es: seq<Entry>): set<Path> {
    set e | e in es && e.dir :: e.target
  }

  lemma TargetsSplit(es: seq<Entry>, e: Entry)
    ensures DirTargets(es + [e]) == DirTargets(es) + if e.dir then {e.target} else {}
    ensures FileTargets(es + [e]) == FileTargets(es) + if e.dir then {} else {e.target}
  {
    assert forall d :: d in es + [e] <==> d in es || d == e;
  }

  lemma NewTarget(es: seq<Entry>, e: Entry)
    requires DistinctPaths(es + [e])
    ensures DistinctPaths(es) && e.target !in DirTargets(es) && e.target !in FileTargets(es)
  {
    forall d | d in es
      ensures d.target != e.target
    {
      var k :| 0 <= k < |es| && es[k] == d;
      assert (es + [e])[k] == d && (es + [e])[|es|] == e;
    }
    assert forall k :: 0 <= k < |es| ==> (es + [e])[k] == es[k];
  }

  lemma Grown(a: set<Path>, p: Path, keys: set<Path>)
    requires p !in a
    ensures |a + {p}| == |a| + 1
    ensures |(a + {p}) * keys| == |a * keys| + if p in keys then 1 else 0
  {
    assert (a + {p}) * keys == if p in keys then a * keys + {p} else a * keys;
  }

  lemma CountSnoc(t0: Tree, es: seq<Entry>, e: Entry)
    ensures CountDirs(es + [e]) == CountDirs(es) + if e.dir then 1 else 0
    ensures CountFiles(es + [e]) == CountFiles(es) + if e.dir then 0 else 1
    ensures CountReplaced(t0, es + [e]) == CountReplaced(t0, es) + if !e.dir && e.target in t0 then 1 else 0
  {
    assert (es + [e])[..|es|] == es;
  }

  lemma CardSnoc(t0: Tree, es: seq<Entry>, e: Entry)
    requires DistinctPaths(es + [e])
    ensures |DirTargets(es + [e])| == |DirTargets(es)| + if e.dir then 1 else 0
    ensures |FileTargets(es + [e])| == |FileTargets(es)| + if e.dir then 0 else 1
    ensures |FileTargets(es + [e]) * t0.Keys| == |FileTargets(es) * t0.Keys| + if !e.dir && e.target in t0 then 1 else 0
  {
    NewTarget(es, e);
    TargetsSplit(es, e);
    hide DistinctPaths, FileTargets, DirTargets;
    if e.dir {
      Grown(DirTargets(es), e.target, t0.Keys);
      assert FileTargets(es) + {} == FileTargets(es);
    } else {
      Grown(FileTargets(es), e.target, t0.Keys);
      assert DirTargets(es) + {} == DirTargets(es);
    }
  }

  /** The counters count paths: directories named, files written, and files replaced. */
  lemma {:induction false} CountsMean(t0: Tree, es: seq<Entry>)
    requires DistinctPaths(es)
    ensures CountDirs(es) == |DirTargets(es)| && CountFiles(es) == |FileTargets(es)|
    ensures CountReplaced(t0, es) == |FileTargets(es) * t0.Keys|
  {
    if es == [] {
      assert FileTargets(es) * t0.Keys == {};
    } else {
      hide FileTargets, DirTargets, CountDirs, CountFiles, CountReplaced;
      var e, init := es[|es| - 1], es[..|es| - 1];
      assert es == init + [e];
      CountsMean(t0, init);
      CountSnoc(t0, init, e);
      CardSnoc(t0, init, e);
    }
  }

  /** And so are the files created. */
  lemma CreatedMean(t0: Tree, es: seq<Entry>)
    requires DistinctPaths(es)
    ensures CountCreated(t0, es) == |FileTargets(es) - t0.Keys|
  {
    hide FileTargets, DistinctPaths, CountDirs, CountFiles, CountReplaced, CountCreated, SumSizes;
    CountsMean(t0, es);
    FilesAddUp(t0, es);
    Parted(FileTargets(es), t0.Keys);
  }

  lemma Parted(a: set<Path>, keys: set<Path>)
    ensures |a| == |a * keys| + |a - keys|
  {
    assert a == a * keys + (a - keys);
  }

  lemma SameTable(s: Site, t0: Tree, a: seq<Entry>, b: seq<Entry>)
    requires (forall e :: e in a <==> e in b) && DistinctPaths(a) && DistinctPaths(b)
    ensures WantOf(a) == WantOf(b)
  {
    WantMeans(a);
    WantMeans(b);
    assert WantOf(a).Keys == WantOf(b).Keys;
  }

  lemma SameReport(t0: Tree, a: seq<Entry>, b: seq<Entry>)
    requires multiset(a) == multiset(b) && DistinctPaths(a) && DistinctPaths(b)
    ensures Report(t0, a) == Report(t0, b)
  {
    CountsMean(t0, a);
    CountsMean(t0, b);
    SizesOrder(t0, a, b);
    FilesAddUp(t0, a);
    FilesAddUp(t0, b);
    hide DistinctPaths;
    SameMembers(a, b);
    assert FileTargets(a) == FileTargets(b) && DirTargets(a) == DirTargets(b);
  }

  lemma SamePlaces(s: Site, t0: Tree, a: seq<Entry>, b: seq<Entry>)
    requires multiset(a) == multiset(b) && DistinctPaths(a) && DistinctPaths(b)
    ensures WantOf(a) == WantOf(b) && TempsOf(s, a) == TempsOf(s, b)
    ensures forall q :: Needed(JobOf(s, t0, a), q) <==> Needed(JobOf(s, t0, b), q)
  {
    SameMembers(a, b);
    SameTable(s, t0, a, b);
    hide DistinctPaths, WantOf, InstallTemp, RollbackTemp;
  }

  lemma SameOverlay(j: Job, k: Job, t: Tree)
    requires j.t0 == k.t0 && j.want == k.want && j.temps == k.temps && j.spare == k.spare && j.root == k.root
    requires forall q :: Needed(j, q) <==> Needed(k, q)
    ensures Overlay(j, t) ==> Overlay(k, t)
  {
    hide Needed;
    assert forall p :: Scratch(j, p) <==> Scratch(k, p);
  }

  /** Any two orders of the same entries are accepted or refused alike, report the same
      counters, and have the same possible final trees. */
  lemma OrderIndependence(s: Site, t0: Tree, a: seq<ZipEntry>, b: seq<ZipEntry>, t: Tree)
    requires multiset(a) == multiset(b) && s.naming.Valid() && Acceptable(s, a, t0)
    ensures Acceptable(s, b, t0)
    ensures Report(t0, Installed(s, a)) == Report(t0, Installed(s, b))
    ensures Overlay(JobOf(s, t0, Installed(s, a)), t) <==> Overlay(JobOf(s, t0, Installed(s, b)), t)
  {
    AcceptableOneWay(s, a, b, t0);
    var ea, eb := Installed(s, a), Installed(s, b);
    InstalledOrder(s, a, b);
    InstalledShape(s, a);
    InstalledShape(s, b);
    DistinctFromKeys(s, ea);
    DistinctFromKeys(s, eb);
    hide Acceptable, Needed, Overlay, WantOf, TempsOf, Installed, Report;
    SamePlaces(s, t0, ea, eb);
    SameReport(t0, ea, eb);
    SameOverlay(JobOf(s, t0, ea), JobOf(s, t0, eb), t);
    SameOverlay(JobOf(s, t0, eb), JobOf(s, t0, ea), t);
  }

  /** Paths, types and contents of the final tree are determined outside scratch space. */
  lemma OverlayUnique(j: Job, t: Tree, u: Tree, p: Path)
    requires Overlay(j, t) && Overlay(j, u) && !Scratch(j, p)
    ensures p in t <==> p in u
    ensures p in t ==> if p in j.want then t[p].File? && u[p].File? && t[p].data == u[p].data && t[p].mode == u[p].mode else t[p] == u[p]
  {
    hide Needed, Scratch;
    if p !in j.want && p in j.t0 { assert SameAt(t, j.t0, p) && SameAt(u, j.t0, p); }
  }
}
