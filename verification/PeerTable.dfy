/** The bounded table of known peers and its throttled copy on disk. */
module PeerTable {
  import opened Options

  const FIVE_MINUTES: int := 300_000_000_000

  datatype Peer = Peer(fingerprint: string, alias: string, version: string, model: string, deviceType: string,
                       port: int, protocol: string, download: bool, ip: string, lastSeen: int)

  function UpperChar(c: char): char {
    if 'a' <= c <= 'z' then c - 'a' + 'A' else c
  }

  function Upper(s: string): string {
    seq(|s|, i requires 0 <= i < |s| => UpperChar(s[i]))
  }

  lemma UpperTwice(s: string)
    ensures Upper(Upper(s)) == Upper(s)
  {
  }

  predicate EqualFold(a: string, b: string) { Upper(a) == Upper(b) }

  /** The letters of the alphabet. */
  ghost function Small(i: nat): char
    requires i < 26
  {
    "abcdefghijklmnopqrstuvwxyz"[i]
  }

  ghost function Capital(i: nat): char
    requires i < 26
  {
    "ABCDEFGHIJKLMNOPQRSTUVWXYZ"[i]
  }

  /** The same character, or the same letter in the other case. */
  ghost predicate SameLetter(c: char, d: char) {
    c == d || exists i :: 0 <= i < 26 && ((c == Small(i) && d == Capital(i)) || (d == Small(i) && c == Capital(i)))
  }

  lemma LetterCodes(i: nat)
    requires i < 26
    ensures Small(i) == ('a' as int + i) as char && Capital(i) == ('A' as int + i) as char
  {
  }

  lemma LettersFold(c: char, d: char)
    ensures UpperChar(c) == UpperChar(d) <==> SameLetter(c, d)
  {
    hide Small, Capital;
    if i :| 0 <= i < 26 && ((c == Small(i) && d == Capital(i)) || (d == Small(i) && c == Capital(i))) { LetterCodes(i); }
    if 'a' <= c <= 'z' { LetterCodes(c as int - 'a' as int); }
    if 'a' <= d <= 'z' { LetterCodes(d as int - 'a' as int); }
  }

  /** Fingerprints agree exactly when they differ at most in the case of letters. */
  lemma EqualFoldMeans(a: string, b: string)
    ensures EqualFold(a, b) <==> |a| == |b| && forall i :: 0 <= i < |a| ==> SameLetter(a[i], b[i])
  {
    hide UpperChar, SameLetter;
    if |a| == |b| {
      forall i | 0 <= i < |a|
        ensures Upper(a)[i] == Upper(b)[i] <==> SameLetter(a[i], b[i])
      {
        LettersFold(a[i], b[i]);
      }
    }
  }

  predicate MateriallyEqual(a: Peer, b: Peer) {
    && EqualFold(a.fingerprint, b.fingerprint)
    && a.alias == b.alias && a.version == b.version && a.model == b.model
    && a.deviceType == b.deviceType && a.port == b.port && a.protocol == b.protocol
    && a.download == b.download && a.ip == b.ip
  }

  /** Equal in everything but the time of the last sighting. */
  predicate SamePeer(a: Peer, b: Peer) { a.(lastSeen := b.lastSeen) == b }

  type Table = map<string, Peer>

  /** Every peer is filed under its own upper-case fingerprint. */
  ghost predicate Canonical(t: Table) {
    forall k :: k in t ==> k != "" && t[k].fingerprint == k && Upper(k) == k
  }

  /** The list holds each peer of the table once. */
  ghost predicate Lists(l: seq<Peer>, t: Table) {
    && |l| == |t|
    && (forall i :: 0 <= i < |l| ==> l[i].fingerprint in t && t[l[i].fingerprint] == l[i])
    && (forall i, j :: 0 <= i < j < |l| ==> l[i].fingerprint != l[j].fingerprint)
  }

  predicate Recent(l: seq<Peer>) {
    forall i, j :: 0 <= i < j < |l| ==> l[i].lastSeen >= l[j].lastSeen
  }

  lemma {:induction false} ListCovers(l: seq<Peer>, t: Table)
    requires Lists(l, t)
    ensures forall k :: k in t ==> exists i :: 0 <= i < |l| && l[i].fingerprint == k
    decreases |l|
  {
    if l != [] {
      var n := |l| - 1;
      var f := l[n].fingerprint;
      assert Lists(l[..n], t - {f});
      ListCovers(l[..n], t - {f});
      forall k | k in t
        ensures exists i :: 0 <= i < |l| && l[i].fingerprint == k
      {
        if k != f {
          assert k in t - {f};
          var i :| 0 <= i < n && l[..n][i].fingerprint == k;
          assert l[i].fingerprint == k;
        }
      }
    }
  }

  function Insert(p: Peer, l: seq<Peer>): seq<Peer> {
    if l == [] || l[0].lastSeen <= p.lastSeen then [p] + l else [l[0]] + Insert(p, l[1..])
  }

  /** Sorting by last sighting, most recent first. */
  function Sorted(l: seq<Peer>): seq<Peer> {
    if l == [] then [] else Insert(l[0], Sorted(l[1..]))
  }

  lemma {:induction false} InsertKeeps(p: Peer, l: seq<Peer>)
    requires Recent(l)
    ensures Recent(Insert(p, l)) && |Insert(p, l)| == |l| + 1
    ensures forall x :: x in Insert(p, l) <==> x == p || x in l
  {
    if l != [] && l[0].lastSeen > p.lastSeen {
      var rest := Insert(p, l[1..]);
      InsertKeeps(p, l[1..]);
      assert l == [l[0]] + l[1..];
      forall j | 0 <= j < |rest|
        ensures l[0].lastSeen >= rest[j].lastSeen
      {
        assert rest[j] in rest;
      }
    }
  }

  ghost predicate DistinctNames(l: seq<Peer>) {
    forall i, j :: 0 <= i < j < |l| ==> l[i].fingerprint != l[j].fingerprint
  }

  lemma {:induction false} InsertDistinct(p: Peer, l: seq<Peer>)
    requires Recent(l) && DistinctNames(l) && forall x :: x in l ==> x.fingerprint != p.fingerprint
    ensures DistinctNames(Insert(p, l))
  {
    if l != [] && l[0].lastSeen > p.lastSeen {
      var rest := Insert(p, l[1..]);
      assert l == [l[0]] + l[1..];
      InsertKeeps(p, l[1..]);
      InsertDistinct(p, l[1..]);
      forall j | 0 <= j < |rest|
        ensures l[0].fingerprint != rest[j].fingerprint
      {
        assert rest[j] in rest;
        if rest[j] in l[1..] {
          var k :| 0 <= k < |l[1..]| && l[1..][k] == rest[j];
          assert l[k + 1] == rest[j];
        } else {
          assert l[0] in l;
        }
      }
    }
  }

  lemma {:induction false} SortedKeeps(l: seq<Peer>)
    requires DistinctNames(l)
    ensures Recent(Sorted(l)) && |Sorted(l)| == |l| && DistinctNames(Sorted(l))
    ensures forall x :: x in Sorted(l) <==> x in l
  {
    if l != [] {
      SortedKeeps(l[1..]);
      assert l == [l[0]] + l[1..];
      InsertKeeps(l[0], Sorted(l[1..]));
      forall x | x in l[1..]
        ensures x.fingerprint != l[0].fingerprint
      {
        var k :| 0 <= k < |l[1..]| && l[1..][k] == x;
        assert l[k + 1] == x;
      }
      InsertDistinct(l[0], Sorted(l[1..]));
    }
  }

  lemma SortedLists(l: seq<Peer>, t: Table)
    requires Lists(l, t)
    ensures Lists(Sorted(l), t) && Recent(Sorted(l))
  {
    SortedKeeps(l);
    forall i | 0 <= i < |Sorted(l)|
      ensures Sorted(l)[i].fingerprint in t && t[Sorted(l)[i].fingerprint] == Sorted(l)[i]
    {
      assert Sorted(l)[i] in l;
    }
  }

  /** What loading a peers file makes of it: later entries win, nameless ones are dropped. */
  function Loaded(l: seq<Peer>): Table {
    if l == [] then map[]
    else
      var p := l[|l| - 1];
      var t := Loaded(l[..|l| - 1]);
      if p.fingerprint == "" then t else t[Upper(p.fingerprint) := p]
  }

  lemma {:induction false} LoadedLists(l: seq<Peer>, t: Table)
    requires Lists(l, t) && Canonical(t)
    ensures Loaded(l) == t
    decreases |l|
  {
    if l != [] {
      var n := |l| - 1;
      var f := l[n].fingerprint;
      assert Lists(l[..n], t - {f});
      LoadedLists(l[..n], t - {f});
    }
  }

  /** Of all entries with a name that are filed under `k`, the last is the one loaded. */
  lemma {:induction false} LoadedExactly(l: seq<Peer>, k: string)
    ensures k in Loaded(l) <==> exists i :: 0 <= i < |l| && l[i].fingerprint != "" && Upper(l[i].fingerprint) == k
    ensures k in Loaded(l) ==>
              exists i :: 0 <= i < |l| && Loaded(l)[k] == l[i] && l[i].fingerprint != "" && Upper(l[i].fingerprint) == k
                          && forall j :: i < j < |l| ==> l[j].fingerprint == "" || Upper(l[j].fingerprint) != k
  {
    hide Upper;
    if l != [] {
      var n := |l| - 1;
      LoadedExactly(l[..n], k);
      assert forall i :: 0 <= i < n ==> l[..n][i] == l[i];
      if l[n].fingerprint != "" && Upper(l[n].fingerprint) == k {
        assert Loaded(l)[k] == l[n];
      } else if k in Loaded(l) {
        var i :| 0 <= i < n && Loaded(l[..n])[k] == l[..n][i] && l[..n][i].fingerprint != "" && Upper(l[..n][i].fingerprint) == k
                 && forall j :: i < j < n ==> l[..n][j].fingerprint == "" || Upper(l[..n][j].fingerprint) != k;
        assert Loaded(l)[k] == l[i];
      }
    }
  }

  /** The disk copy agrees with the table up to the times of the last sightings. */
  ghost predicate Agrees(disk: seq<Peer>, t: Table) {
    && |disk| == |t|
    && (forall i :: 0 <= i < |disk| ==> disk[i].fingerprint in t && SamePeer(disk[i], t[disk[i].fingerprint]))
    && (forall i, j :: 0 <= i < j < |disk| ==> disk[i].fingerprint != disk[j].fingerprint)
  }

  /** The file is there and agrees. */
  ghost predicate InStep(disk: Option<seq<Peer>>, t: Table) { disk.Some? && Agrees(disk.value, t) }

  /** Reloading the file rebuilds the same table up to those times. */
  lemma {:induction false} Reload(disk: seq<Peer>, t: Table)
    requires Agrees(disk, t) && Canonical(t)
    ensures Loaded(disk).Keys == t.Keys && Canonical(Loaded(disk)) && Lists(disk, Loaded(disk))
    ensures forall k :: k in t ==> SamePeer(Loaded(disk)[k], t[k])
    decreases |disk|
  {
    hide Agrees, Lists, SamePeer, Canonical;
    if disk == [] {
      ReloadNothing(t);
    } else {
      var n := |disk| - 1;
      AgreesFront(disk, t);
      Reload(disk[..n], t - {disk[n].fingerprint});
      ReloadStep(disk[..n], disk[n], Loaded(disk[..n]), t);
      assert disk == disk[..n] + [disk[n]];
    }
  }

  lemma ReloadNothing(t: Table)
    requires Agrees([], t)
    ensures t == map[] && Canonical(map[]) && Lists([], map[])
  {
  }

  lemma AgreesFront(disk: seq<Peer>, t: Table)
    requires Agrees(disk, t) && Canonical(t) && disk != []
    ensures var n := |disk| - 1; var f := disk[n].fingerprint;
            && f in t && f != "" && Upper(f) == f && SamePeer(disk[n], t[f])
            && Agrees(disk[..n], t - {f}) && Canonical(t - {f})
  {
  }

  lemma ReloadStep(front: seq<Peer>, p: Peer, loaded: Table, t: Table)
    requires Lists(front, loaded) && Canonical(loaded) && Canonical(t)
    requires p.fingerprint in t && SamePeer(p, t[p.fingerprint]) && loaded.Keys == (t - {p.fingerprint}).Keys
    requires forall k :: k in loaded ==> SamePeer(loaded[k], t[k])
    ensures var all := loaded[p.fingerprint := p];
            all.Keys == t.Keys && Canonical(all) && Lists(front + [p], all) && forall k :: k in t ==> SamePeer(all[k], t[k])
  {
    hide SamePeer, Lists;
    assert t.Keys == loaded.Keys + {p.fingerprint};
    ListsSnoc(front, loaded, p);
  }

  lemma ListsSnoc(l: seq<Peer>, t: Table, p: Peer)
    requires Lists(l, t) && p.fingerprint !in t
    ensures Lists(l + [p], t[p.fingerprint := p])
  {
  }

  /** `kept` are `max` of the peers in `all`, none of them seen less recently than a dropped one. */
  ghost predicate MostRecent(kept: Table, all: Table, max: nat) {
    && (forall k :: k in kept ==> k in all && kept[k] == all[k])
    && |kept| == (if |all| <= max then |all| else max)
    && (forall k, l :: k in kept && l in all && l !in kept ==> all[k].lastSeen >= all[l].lastSeen)
  }

  lemma SubsetFull(a: Table, b: Table)
    requires (forall k :: k in a ==> k in b && a[k] == b[k]) && |a| == |b|
    ensures a == b
  {
    assert a.Keys <= b.Keys;
    CardSubset(a.Keys, b.Keys);
  }

  lemma {:induction false} CardSubset<T>(a: set<T>, b: set<T>)
    requires a <= b && |a| == |b|
    ensures a == b
  {
    assert |b - a| == |b| - |a|;
  }

  lemma Place(l: seq<Peer>, t: Table, k: string) returns (i: nat)
    requires Lists(l, t) && k in t
    ensures i < |l| && l[i] == t[k] && l[i].fingerprint == k
  {
    ListCovers(l, t);
    i :| 0 <= i < |l| && l[i].fingerprint == k;
  }

  lemma FirstOfRecent(l: seq<Peer>, all: Table, max: nat, kept: Table)
    requires Lists(l, all) && Recent(l) && max < |l| && Lists(l[..max], kept)
    requires forall k :: k in kept ==> k in all && kept[k] == all[k]
    ensures MostRecent(kept, all, max)
  {
    assert forall j :: 0 <= j < max ==> l[..max][j] == l[j] && l[j].fingerprint in kept;
    forall k, m | k in kept && m in all && m !in kept
      ensures all[k].lastSeen >= all[m].lastSeen
    {
      var i := Place(l[..max], kept, k);
      var j := Place(l, all, m);
      assert i < j && l[i].lastSeen >= l[j].lastSeen;
    }
  }

  /** The peer seen last of all is among the kept. */
  lemma NewestKept(kept: Table, all: Table, max: nat, f: string)
    requires MostRecent(kept, all, max) && max >= 1 && f in all
    requires forall k :: k in all && k != f ==> all[k].lastSeen < all[f].lastSeen
    ensures f in kept
  {
    assert |kept| >= 1;
    assert kept.Keys != {};
    var k :| k in kept.Keys;
  }

  /** A peers file as the store itself writes it: each peer once, under its upper-case name. */
  ghost predicate Wellkept(file: seq<Peer>, now: int) {
    exists t: Table :: Canonical(t) && Lists(file, t) && forall k :: k in t ==> t[k].lastSeen <= now
  }

  lemma FileAgrees(file: seq<Peer>, now: int)
    requires Wellkept(file, now)
    ensures Canonical(Loaded(file)) && Agrees(file, Loaded(file)) && PastList(file, now)
    ensures forall k :: k in Loaded(file) ==> Loaded(file)[k].lastSeen <= now
  {
    var t: Table :| Canonical(t) && Lists(file, t) && forall k :: k in t ==> t[k].lastSeen <= now;
    LoadedLists(file, t);
  }

  /** What the store wrote it can load again: the same table up to the times of the last sightings. */
  lemma RestartKeepsPeers(file: seq<Peer>, t: Table, now: int)
    requires Canonical(t) && Agrees(file, t) && PastList(file, now)
    ensures Wellkept(file, now) && Loaded(file).Keys == t.Keys && forall k :: k in t ==> SamePeer(Loaded(file)[k], t[k])
  {
    Reload(file, t);
    ListCovers(file, Loaded(file));
    forall k | k in Loaded(file)
      ensures Loaded(file)[k].lastSeen <= now
    {
      var i :| 0 <= i < |file| && file[i].fingerprint == k;
    }
  }

  /** Nobody was seen after `now`. */
  ghost predicate PastOnly(t: Table, now: int) {
    forall k :: k in t ==> t[k].lastSeen <= now
  }

  predicate PastList(l: seq<Peer>, now: int) {
    forall i :: 0 <= i < |l| ==> l[i].lastSeen <= now
  }

  /** What one sighting does to the table, and when it counts as a change: a new peer, changed
      data, or a peer dropped for lack of room. */
  ghost predicate Sighted(before: Table, after: Table, p0: Peer, max: nat, since: int, changed: bool) {
    var f := Upper(p0.fingerprint);
    && f in after && after[f].lastSeen > since
    && after[f] == p0.(fingerprint := f, lastSeen := after[f].lastSeen)
    && MostRecent(after, before[f := after[f]], max) && |after| <= max
    && (changed <==> f !in before || !MateriallyEqual(before[f], after[f]) || |before[f := after[f]]| > max)
  }

  lemma SightedIntro(before: Table, after: Table, p0: Peer, p: Peer, max: nat, since: int, news: bool, cut: bool)
    requires p == p0.(fingerprint := Upper(p0.fingerprint), lastSeen := p.lastSeen) && p.lastSeen > since
    requires p.fingerprint in after && after[p.fingerprint] == p && |after| <= max
    requires MostRecent(after, before[p.fingerprint := p], max)
    requires news == (p.fingerprint !in before || !MateriallyEqual(before[p.fingerprint], p))
    requires cut == (|before[p.fingerprint := p]| > max)
    ensures Sighted(before, after, p0, max, since, news || cut)
  {
  }

  /** Peers listed so far, and the names still to come. */
  ghost predicate Listing(l: seq<Peer>, left: set<string>, t: Table) {
    && left <= t.Keys && |l| + |left| == |t|
    && (forall i :: 0 <= i < |l| ==> l[i].fingerprint in t && t[l[i].fingerprint] == l[i] && l[i].fingerprint !in left)
    && DistinctNames(l)
  }

  lemma NothingListed(t: Table)
    ensures Listing([], t.Keys, t)
  {
  }

  lemma ListOne(l: seq<Peer>, left: set<string>, t: Table, k: string)
    requires Listing(l, left, t) && k in left && Canonical(t)
    ensures k in t && Listing(l + [t[k]], left - {k}, t)
  {
  }

  lemma AllListed(l: seq<Peer>, t: Table)
    requires Listing(l, {}, t)
    ensures Lists(l, t)
  {
  }

  /** The table holds the first `i` listed peers, as `all` has them. */
  ghost predicate Rebuilt(t: Table, l: seq<Peer>, i: nat, all: Table) {
    && |t| == i <= |l| && DistinctNames(l)
    && (forall j :: 0 <= j < |l| ==> l[j].fingerprint in all && all[l[j].fingerprint] == l[j])
    && (forall k :: k in t ==> k in all && t[k] == all[k])
    && (forall j :: 0 <= j < |l| ==> (l[j].fingerprint in t <==> j < i))
  }

  lemma NothingRebuilt(l: seq<Peer>, all: Table)
    requires DistinctNames(l) && forall j :: 0 <= j < |l| ==> l[j].fingerprint in all && all[l[j].fingerprint] == l[j]
    ensures Rebuilt(map[], l, 0, all)
  {
  }

  lemma RebuildOne(t: Table, l: seq<Peer>, i: nat, all: Table)
    requires Rebuilt(t, l, i, all) && i < |l|
    ensures Rebuilt(t[l[i].fingerprint := l[i]], l, i + 1, all)
  {
    assert |t[l[i].fingerprint := l[i]]| == |t| + 1;
  }

  lemma AllRebuilt(t: Table, l: seq<Peer>, all: Table)
    requires Rebuilt(t, l, |l|, all) && Canonical(all)
    ensures Canonical(t) && Lists(l, t) && forall k :: k in t ==> k in all && t[k] == all[k]
  {
  }

  class StateStore {
    var peers: Table
    var peerCount: nat
    var lastPeerPersist: Option<int>
    /** The contents of peers.json; None when it is missing or unreadable. */
    var disk: Option<seq<Peer>>
    /** The time of the latest clock reading. */
    var clock: int
    /** Whether the latest write reached the disk. */
    ghost var synced: bool

    /** Start from whatever file is there. `written` is its modification time, if it can be told. */
    constructor (file: Option<seq<Peer>>, written: Option<int>, now: int)
      ensures peers == if file.Some? then Loaded(file.value) else map[]
      ensures disk == file && clock == now
      ensures lastPeerPersist == if file.Some? then written else None
      ensures synced == file.Some?
      ensures (file.Some? ==> (written.Some? ==> written.value <= now) && Wellkept(file.value, now)) ==> Valid()
    {
      peers, peerCount, lastPeerPersist := map[], 0, None;
      disk, clock, synced := file, now, file.Some?;
      new;
      if file.Some? {
        for i := 0 to |file.value|
          invariant peers == Loaded(file.value[..i])
          invariant disk == file && clock == now && synced && lastPeerPersist == None
        {
          var p := file.value[i];
          assert file.value[..i + 1][..i] == file.value[..i];
          if p.fingerprint != "" { peers := peers[Upper(p.fingerprint) := p]; }
        }
        assert file.value[..|file.value|] == file.value;
        lastPeerPersist := written;
        if Wellkept(file.value, now) { FileAgrees(file.value, now); }
      }
    }

    /** The table is canonical, nobody was seen in the future, and after a successful write the
        disk agrees with memory. */
    ghost predicate Valid()
      reads this
    {
      && Canonical(peers)
      && PastOnly(peers, clock)
      && (lastPeerPersist.Some? ==> lastPeerPersist.value <= clock)
      && (synced ==> disk.Some? && Agrees(disk.value, peers) && PastList(disk.value, clock))
    }

    /** A clock that never shows the same time twice. */
    method Now() returns (t: int)
      modifies this`clock
      ensures old(clock) < t == clock
    {
      assert clock < clock + 1;
      t :| clock < t;
      clock := t;
    }

    /** Write both files; whether the peers file gets through is up to the outside. */
    method PersistPeers(list: seq<Peer>)
      modifies this
      ensures peers == old(peers) && peerCount == |list| && old(clock) < clock
      ensures lastPeerPersist == Some(clock)
      ensures disk == if synced then Some(list) else old(disk)
    {
      var ok: bool := *;
      if ok { disk := Some(list); }
      synced := ok;
      peerCount := |list|;
      var t := Now();
      lastPeerPersist := Some(t);
    }

    /** Write when something changed, nothing was ever written, or the last write is five minutes old. */
    method WriteBack(list: seq<Peer>, changed: bool)
      requires peerCount == |list| && Agrees(list, peers) && PastList(list, clock) && (lastPeerPersist.Some? ==> lastPeerPersist.value <= clock)
      requires !changed && synced ==> disk.Some? && Agrees(disk.value, peers) && PastList(disk.value, clock)
      modifies this
      ensures peers == old(peers) && peerCount == old(peerCount) && old(clock) <= clock
      ensures synced ==> disk.Some? && Agrees(disk.value, peers) && PastList(disk.value, clock)
      ensures lastPeerPersist.Some? && lastPeerPersist.value <= clock && clock - lastPeerPersist.value < 5 * 60 * 1_000_000_000
      ensures changed ==> lastPeerPersist == Some(clock)
      ensures !changed && old(lastPeerPersist).Some? && clock - old(lastPeerPersist).value < 5 * 60 * 1_000_000_000 ==>
                disk == old(disk) && lastPeerPersist == old(lastPeerPersist)
      ensures disk == old(disk) || (synced && disk == Some(list))
      ensures changed && synced ==> disk == Some(list)
      ensures changed && !synced ==> disk == old(disk)
    {
      hide Agrees;
      var due := changed || lastPeerPersist.None?;
      if !due {
        var t := Now();
        due := t - lastPeerPersist.value >= FIVE_MINUTES;
      }
      if due { PersistPeers(list); }
    }

    /** The peers, most recently seen first. */
    method Peers() returns (list: seq<Peer>)
      requires Canonical(peers)
      ensures Lists(list, peers) && Recent(list)
    {
      hide Recent, Listing, Lists;
      list := [];
      var left := peers.Keys;
      assert Listing([], peers.Keys, peers) by { NothingListed(peers); }
      while left != {}
        invariant Listing(list, left, peers)
        decreases |left|
      {
        var k :| k in left;
        ListOne(list, left, peers, k);
        list := list + [peers[k]];
        left := left - {k};
      }
      AllListed(list, peers);
      SortedLists(list, peers);
      list := Sorted(list);
    }

    /** Drop all but the listed peers. */
    method Rebuild(list: seq<Peer>, ghost all: Table)
      requires Canonical(all) && DistinctNames(list)
      requires forall i :: 0 <= i < |list| ==> list[i].fingerprint in all && all[list[i].fingerprint] == list[i]
      modifies this`peers
      ensures Canonical(peers) && Lists(list, peers)
      ensures forall k :: k in peers ==> k in all && peers[k] == all[k]
    {
      hide Rebuilt, DistinctNames, Lists;
      peers := map[];
      NothingRebuilt(list, all);
      for i := 0 to |list|
        invariant Rebuilt(peers, list, i, all)
      {
        RebuildOne(peers, list, i, all);
        peers := peers[list[i].fingerprint := list[i]];
      }
      AllRebuilt(peers, list, all);
    }

    /** List the peers and drop the least recent ones beyond `max`. */
    method Truncate(max: nat) returns (list: seq<Peer>, cut: bool)
      requires Canonical(peers)
      modifies this`peers
      ensures Canonical(peers) && Lists(list, peers) && MostRecent(peers, old(peers), max)
      ensures cut == (|old(peers)| > max) && (!cut ==> peers == old(peers))
    {
      ghost var all := peers;
      list := Peers();
      cut := |list| > max;
      if cut {
        ghost var whole := list;
        list := list[..max];
        Rebuild(list, all);
        FirstOfRecent(whole, all, max, peers);
      }
    }

    /** Record a sighting. The table afterwards holds the most recently seen peers, at most `max`,
        among them the one just seen; if the last write got through, the file agrees with the
        table; and that write is less than five minutes old. A file that agreed before agrees
        afterwards if and only if nothing changed or the write got through, and a sighting that
        changes nothing and writes nothing repairs nothing. */
    method SavePeer(p0: Peer, max: nat) returns (changed: bool)
      requires Valid() && max >= 1
      modifies this
      ensures Valid() && old(clock) <= clock
      ensures p0.fingerprint == "" || p0.ip == "" ==> !changed && peers == old(peers) && disk == old(disk) && synced == old(synced)
      ensures p0.fingerprint != "" && p0.ip != "" ==>
                && Sighted(old(peers), peers, p0, max, old(clock), changed) && peerCount == |peers|
                && lastPeerPersist.Some? && clock - lastPeerPersist.value < 5 * 60 * 1_000_000_000
      ensures changed ==> lastPeerPersist == Some(clock)
      ensures !changed && old(lastPeerPersist).Some? && clock - old(lastPeerPersist).value < 5 * 60 * 1_000_000_000 ==>
                disk == old(disk) && lastPeerPersist == old(lastPeerPersist)
      ensures p0.fingerprint != "" && p0.ip != "" && InStep(old(disk), old(peers)) ==> (InStep(disk, peers) <==> !changed || synced)
      ensures !changed && disk == old(disk) ==> (InStep(disk, peers) <==> InStep(old(disk), old(peers)))
    {
      if p0.fingerprint == "" || p0.ip == "" { return false; }
      hide InStep, Agrees, Canonical, PastOnly, Sighted, SamePeer, Lists, Upper, MateriallyEqual;
      ghost var before := peers;
      var now := Now();
      var list;
      UpperTwice(p0.fingerprint);
      list, changed := Enter(p0.(fingerprint := Upper(p0.fingerprint), lastSeen := now), max, p0, old(clock));
      ListedAgrees(list, peers, clock);
      peerCount := |list|;
      AgreementAfter(disk, before, peers, p0, max, old(clock), changed);
      if !changed && synced { Split(disk, before, peers); }
      WriteBack(list, changed);
      Split(disk, before, peers);
    }

    /** File the peer, and drop the least recent ones beyond `max`. */
    method Enter(p: Peer, max: nat, ghost p0: Peer, ghost since: int) returns (list: seq<Peer>, changed: bool)
      requires Canonical(peers) && PastOnly(peers, since) && max >= 1 && since < p.lastSeen == clock
      requires p == p0.(fingerprint := Upper(p0.fingerprint), lastSeen := p.lastSeen)
      requires p.fingerprint != "" && Upper(p.fingerprint) == p.fingerprint
      modifies this`peers
      ensures Canonical(peers) && PastOnly(peers, clock) && Lists(list, peers)
      ensures Sighted(old(peers), peers, p0, max, since, changed)
    {
      hide Lists, MostRecent, MateriallyEqual, Recent, NewestIn, Sighted, Canonical, PastOnly;
      ghost var before := peers;
      changed := p.fingerprint !in peers || !MateriallyEqual(peers[p.fingerprint], p);
      ghost var news := changed;
      Filed(before, p, since);
      peers := peers[p.fingerprint := p];
      ghost var all := peers;
      var cut;
      list, cut := Truncate(max);
      Kept(peers, all, max, p.fingerprint, clock);
      changed := changed || cut;
      SightedIntro(before, peers, p0, p, max, since, news, cut);
    }
  }

  lemma Split(disk: Option<seq<Peer>>, before: Table, after: Table)
    ensures InStep(disk, before) <==> disk.Some? && Agrees(disk.value, before)
    ensures InStep(disk, after) <==> disk.Some? && Agrees(disk.value, after)
  {
  }

  /** A file left as it is goes on agreeing, or not, after a sighting that changed nothing; after one
      that changed something it agrees no longer. */
  lemma AgreementAfter(disk: Option<seq<Peer>>, before: Table, after: Table, p0: Peer, max: nat, since: int, changed: bool)
    requires Sighted(before, after, p0, max, since, changed) && Canonical(before) && Canonical(after)
    ensures !changed ==> (InStep(disk, after) <==> InStep(disk, before))
    ensures changed && InStep(disk, before) ==> !InStep(disk, after)
  {
    if disk.Some? {
      if !changed {
        StillAgrees(disk.value, before, after, p0, max, since);
      } else if Agrees(disk.value, before) {
        NoLongerAgrees(disk.value, before, after, p0, max, since);
      }
    }
  }

  lemma StillAgrees(disk: seq<Peer>, before: Table, after: Table, p0: Peer, max: nat, since: int)
    requires Sighted(before, after, p0, max, since, false) && Canonical(before) && Canonical(after)
    ensures Agrees(disk, after) <==> Agrees(disk, before)
  {
    var f := Upper(p0.fingerprint);
    var all := before[f := after[f]];
    SubsetFull(after, all);
    Unchanged(before[f], after[f]);
    Agreement(disk, before, all, f, after[f]);
  }

  lemma {:induction false} AgreementCovers(l: seq<Peer>, t: Table)
    requires Agrees(l, t)
    ensures forall k :: k in t ==> exists i :: 0 <= i < |l| && l[i].fingerprint == k && SamePeer(l[i], t[k])
    decreases |l|
  {
    if l != [] {
      var n := |l| - 1;
      var f := l[n].fingerprint;
      assert Agrees(l[..n], t - {f});
      AgreementCovers(l[..n], t - {f});
      forall k | k in t
        ensures exists i :: 0 <= i < |l| && l[i].fingerprint == k && SamePeer(l[i], t[k])
      {
        if k != f {
          assert k in t - {f};
          var i :| 0 <= i < n && l[..n][i].fingerprint == k && SamePeer(l[..n][i], t[k]);
          assert l[i].fingerprint == k;
        }
      }
    }
  }

  lemma SamePeers(a: Peer, b: Peer, c: Peer)
    requires SamePeer(a, b) && SamePeer(a, c)
    ensures MateriallyEqual(b, c)
  {
  }

  lemma NoLongerAgrees(disk: seq<Peer>, before: Table, after: Table, p0: Peer, max: nat, since: int)
    requires Sighted(before, after, p0, max, since, true) && Canonical(before) && Canonical(after) && Agrees(disk, before)
    ensures !Agrees(disk, after)
  {
    var f := Upper(p0.fingerprint);
    hide MateriallyEqual, Canonical, Agrees;
    if Agrees(disk, after) { BothAgree(disk, before, after, f); }
  }

  lemma BothAgree(disk: seq<Peer>, before: Table, after: Table, f: string)
    requires Agrees(disk, before) && Agrees(disk, after) && f in after
    ensures f in before && MateriallyEqual(before[f], after[f])
    ensures |before[f := after[f]]| == |after|
  {
    AgreementCovers(disk, after);
    hide SamePeer, MateriallyEqual;
    var i :| 0 <= i < |disk| && disk[i].fingerprint == f && SamePeer(disk[i], after[f]);
    SamePeers(disk[i], before[f], after[f]);
    assert before[f := after[f]].Keys == before.Keys;
  }

  /** Such a sighting: the first one ever, of which nothing reaches the disk. */
  lemma StaleDisk(now: int)
    ensures var p := Peer("A", "", "", "", "", 0, "", false, "ip", now);
            var after: Table := map["A" := p];
            && InStep(Some([]), map[]) && Sighted(map[], after, p, 1, now - 1, true) && !InStep(Some([]), after)
  {
    assert Upper("A") == "A";
  }

  lemma ListedAgrees(list: seq<Peer>, t: Table, now: int)
    requires Lists(list, t) && PastOnly(t, now)
    ensures Agrees(list, t) && |list| == |t| && PastList(list, now)
  {
  }

  lemma Filed(before: Table, p: Peer, clock: int)
    requires Canonical(before) && PastOnly(before, clock)
    requires p.fingerprint != "" && Upper(p.fingerprint) == p.fingerprint && clock < p.lastSeen
    ensures Canonical(before[p.fingerprint := p])
    ensures NewestIn(before[p.fingerprint := p], p.fingerprint)
  {
  }

  ghost predicate NewestIn(t: Table, f: string) {
    f in t && forall k :: k in t && k != f ==> t[k].lastSeen < t[f].lastSeen
  }

  lemma Kept(kept: Table, all: Table, max: nat, f: string, clock: int)
    requires MostRecent(kept, all, max) && max >= 1 && NewestIn(all, f) && all[f].lastSeen <= clock
    ensures f in kept && kept[f] == all[f] && |kept| <= max && PastOnly(kept, clock)
  {
    NewestKept(kept, all, max, f);
  }

  lemma Unchanged(a: Peer, b: Peer)
    requires MateriallyEqual(a, b) && Upper(a.fingerprint) == a.fingerprint && Upper(b.fingerprint) == b.fingerprint
    ensures SamePeer(a, b)
  {
  }

  /** A repeated sighting of an unchanged peer changes nothing that agreement looks at. */
  lemma Agreement(disk: seq<Peer>, before: Table, all: Table, f: string, p: Peer)
    requires f in before && SamePeer(before[f], p) && all == before[f := p]
    ensures Agrees(disk, all) <==> Agrees(disk, before)
  {
    assert all.Keys == before.Keys;
  }

  /** After any run whose last write got through, a restart finds the same peers on disk. */
  lemma Restart(s: StateStore, now: int)
    requires s.Valid() && s.synced && s.clock <= now
    ensures s.disk.Some? && Wellkept(s.disk.value, now) && Loaded(s.disk.value).Keys == s.peers.Keys
    ensures forall k :: k in s.peers ==> SamePeer(Loaded(s.disk.value)[k], s.peers[k])
  {
    RestartKeepsPeers(s.disk.value, s.peers, now);
  }
}
