/** The upload handlers over a session and the tree that received files are written to. */
module UploadServer {
  import opened Octets
  import opened Options
  import opened FileTree
  import opened FileSystems
  import opened InstallSteps
  import opened PeerTable
  import opened SessionSteps
  import opened UploadPlaces

  /** The candidates before the `i`th at which there is no node. */
  ghost function FreeBefore(t: Tree, fold: char -> char, p: Place, i: nat): set<nat> {
    set k: nat | 0 <= k < i && Where(fold, Candidate(p, k)) !in t
  }

  /** The first place at which there is no node; one in use only when every candidate is reported so. Each
      unused candidate passed over costs an outside failure of its own. */
  method UniquePath(fs: FileSystem, fold: char -> char, place: Place) returns (dest: Place, ghost tried: nat)
    requires ParentClosed(fs.tree) && IsDir(fs.tree, Parent(Where(fold, place)))
    modifies fs`faults
    ensures fs.faults >= old(fs.faults)
    ensures tried <= 10000 && dest == if tried < 10000 then Candidate(place, tried) else Fallback(place)
    ensures tried < 10000 ==> Where(fold, dest) !in fs.tree
    ensures |FreeBefore(fs.tree, fold, place, tried)| <= fs.faults - old(fs.faults)
    ensures fs.faults == old(fs.faults) ==> dest == FreePlace(fs.tree, fold, place, 0)
    ensures Where(fold, dest) in fs.tree ==> dest == Fallback(place)
    ensures Where(fold, dest) != [] && Parent(Where(fold, dest)) == Parent(Where(fold, place))
    ensures Folding(fold) && !IsTemp(fold, Where(fold, place)) ==> !IsTemp(fold, Where(fold, dest))
  {
    hide Where, Candidate, Fallback, IsTemp, Folding, FreeBefore, FreePlace, PassedBy, ParentClosed, MissingErrno;
    var i := 0;
    ghost var passed: set<nat> := {};
    ChoiceFits(fold, place, 0);
    NonePassed(fs.tree, fold, place);
    while i < TRIES
      invariant 0 <= i <= TRIES && fs.faults >= old(fs.faults)
      invariant |passed| <= fs.faults - old(fs.faults) && PassedBy(fs.tree, fold, place, i, passed)
    {
      dest := Candidate(place, i);
      ChoiceFits(fold, place, i);
      AbsentBelowDir(fs.tree, Where(fold, dest));
      var node, err := fs.Lstat(Where(fold, dest));
      if err == NotExist {
        PassedOver(fs.tree, fold, place, i, passed);
        return dest, i;
      }
      PassedNext(fs.tree, fold, place, i, passed, err == Fault);
      if err == Fault { passed := passed + {i}; }
      i := i + 1;
    }
    PassedOver(fs.tree, fold, place, TRIES, passed);
    return Fallback(place), TRIES;
  }

  /** Each candidate before the `i`th is in use, or in `passed`. */
  ghost predicate PassedBy(t: Tree, fold: char -> char, p: Place, i: nat, passed: set<nat>) {
    forall k :: 0 <= k < i ==> k in passed || Where(fold, Candidate(p, k)) in t
  }

  lemma NonePassed(t: Tree, fold: char -> char, p: Place)
    ensures PassedBy(t, fold, p, 0, {})
  {
  }

  lemma PassedNext(t: Tree, fold: char -> char, p: Place, i: nat, passed: set<nat>, hit: bool)
    requires PassedBy(t, fold, p, i, passed) && (hit || Where(fold, Candidate(p, i)) in t)
    ensures PassedBy(t, fold, p, i + 1, if hit then passed + {i} else passed)
  {
    hide Where, Candidate;
  }

  lemma ChoiceFits(fold: char -> char, p: Place, i: nat)
    ensures Where(fold, Candidate(p, i)) != [] && Parent(Where(fold, Candidate(p, i))) == Parent(Where(fold, p))
    ensures Where(fold, Fallback(p)) != [] && Parent(Where(fold, Fallback(p))) == Parent(Where(fold, p))
    ensures Folding(fold) && !IsTemp(fold, Where(fold, p)) ==>
              !IsTemp(fold, Where(fold, Candidate(p, i))) && !IsTemp(fold, Where(fold, Fallback(p)))
  {
    hide Where, Candidate, Fallback, IsTemp, Folding;
    CandidatesBeside(fold, p, i);
    if Folding(fold) && !IsTemp(fold, Where(fold, p)) { NamesPlain(fold, p, i); }
  }

  lemma PassedOver(t: Tree, fold: char -> char, p: Place, i: nat, passed: set<nat>)
    requires i <= TRIES && PassedBy(t, fold, p, i, passed)
    ensures |FreeBefore(t, fold, p, i)| <= |passed|
    ensures passed == {} && (i < TRIES ==> Where(fold, Candidate(p, i)) !in t) ==>
              FreePlace(t, fold, p, 0) == if i < TRIES then Candidate(p, i) else Fallback(p)
  {
    hide Where, Candidate, Fallback;
    var free := FreeBefore(t, fold, p, i);
    assert passed == free + (passed - free);
    if passed == {} { FreePlaceFirst(t, fold, p, 0, i); }
  }

  /** Holds exactly when key sets and compared fields agree. Equal sizes turn the one inclusion
      that is checked into equality of the key sets. */
  method SamePrepareFiles(s: Session, files: map<string, FileInfo>) returns (same: bool)
    ensures same <==> SameFiles(s, files)
  {
    if |s.files| != |files| {
      assert s.files.Keys != files.Keys;
      return false;
    }
    var left := s.files.Keys;
    while left != {}
      invariant left <= s.files.Keys
      invariant forall id :: id in s.files && id !in left ==> id in files && Matches(s.files[id].info, Named(id, files[id]))
      decreases |left|
    {
      var id :| id in left;
      if id !in files { return false; }
      if !Matches(s.files[id].info, Named(id, files[id])) { return false; }
      left := left - {id};
    }
    CardSubset(s.files.Keys, files.Keys);
    return true;
  }

  method SessionTokens(s: Session) returns (tokens: map<string, string>)
    ensures tokens == Tokens(s)
  {
    tokens := map[];
    var left := s.files.Keys;
    while left != {}
      invariant left <= s.files.Keys && tokens.Keys == s.files.Keys - left
      invariant forall id :: id in tokens ==> tokens[id] == s.files[id].token
      decreases |left|
    {
      var id :| id in left;
      tokens := tokens[id := s.files[id].token];
      left := left - {id};
    }
  }

  method AllDone(s: Session) returns (done: bool)
    ensures done <==> AllReceived(s)
  {
    var left := s.files.Keys;
    while left != {}
      invariant left <= s.files.Keys
      invariant forall id :: id in s.files && id !in left ==> s.files[id].received
      decreases |left|
    {
      var id :| id in left;
      if !s.files[id].received { return false; }
      left := left - {id};
    }
    return true;
  }

  datatype Status = MissingParameters | Refused | AlreadyReceived | BadDestination | CannotCreate | Incomplete
                  | TooLarge | ChecksumMismatch | CannotFinalize | Saved

  /** What the server is configured with: safe file names, their destinations, the digest of a
      body, how a declared checksum is normalised, and how the file system folds names. */
  datatype Policy = Policy(safe: string -> bool, resolve: string -> Option<Place>, verify: bool,
                           digest: Bytes -> string, tidy: string -> string, fold: char -> char)

  predicate Checked(p: Policy, info: FileInfo) { p.verify && info.sha256.Some? && info.sha256.value != "" }

  predicate DigestFits(p: Policy, info: FileInfo, data: Bytes) {
    Checked(p, info) ==> p.digest(data) == p.tidy(info.sha256.value)
  }

  /** Accepted bodies, by the node they were saved at. */
  type Ledger = map<Path, Bytes>

  /** Everything ever accepted is still where it was saved. */
  ghost predicate Intact(t: Tree, ledger: Ledger, fold: char -> char) {
    forall d :: d in ledger ==> d in t && t[d].File? && t[d].data == ledger[d] && !IsTemp(fold, d)
  }

  /** Every received file of the session has a place of its own that holds an accepted body of the
      declared length, matching the declared checksum when that is checked. */
  ghost predicate Backed(s: Option<Session>, ledger: Ledger, p: Policy) {
    s.Some? ==>
      && (forall id :: id in s.value.files && s.value.files[id].received ==>
            var f := s.value.files[id];
            var d := Where(p.fold, f.savedAs);
            d in ledger && |ledger[d]| == f.info.size && DigestFits(p, f.info, ledger[d]))
      && (forall a, b :: a in s.value.files && b in s.value.files && a != b && s.value.files[a].received && s.value.files[b].received ==>
            Where(p.fold, s.value.files[a].savedAs) != Where(p.fold, s.value.files[b].savedAs))
  }

  /** No declared name resolves to one that looks like a temporary file. */
  ghost predicate PlainNames(s: Option<Session>, p: Policy) {
    s.Some? ==> forall id :: id in s.value.files ==>
                  var d := p.resolve(s.value.files[id].info.fileName);
                  d.Some? ==> !IsTemp(p.fold, Where(p.fold, d.value))
  }

  /** No other received file of the session was saved there. */
  ghost predicate OnlyThere(s: Session, fid: string, d: Path, fold: char -> char) {
    forall id :: id in s.files && id != fid && s.files[id].received ==> Where(fold, s.files[id].savedAs) != d
  }

  /** Recording one more accepted body keeps every received file accounted for if and only if no other
      one was saved at the same place. */
  lemma MarkedBacked(s: Option<Session>, ledger: Ledger, p: Policy, sid: string, fid: string, dest: Path, body: Bytes)
    requires Backed(s, ledger, p) && s.Some? && s.value.id == sid && fid in s.value.files
    requires Accepts(p, s.value.files[fid].info, body)
    ensures var d := Where(p.fold, dest);
            && (Backed(Marked(s, sid, fid, dest), ledger[d := body], p) <==> OnlyThere(s.value, fid, d, p.fold))
            && (d !in ledger ==> OnlyThere(s.value, fid, d, p.fold))
  {
    hide DigestFits, Where;
    var t, d := Marked(s, sid, fid, dest).value, Where(p.fold, dest);
    if !OnlyThere(s.value, fid, d, p.fold) {
      var id :| id in s.value.files && id != fid && s.value.files[id].received && Where(p.fold, s.value.files[id].savedAs) == d;
      assert Where(p.fold, t.files[id].savedAs) == Where(p.fold, t.files[fid].savedAs);
    }
  }

  /** What the server's user can see between two calls. */
  datatype Snap = Snap(session: Option<Session>, issued: set<string>, tree: Tree, ledger: Ledger)

  ghost predicate Sane(a: Snap, p: Policy) {
    && Intact(a.tree, a.ledger, p.fold) && Backed(a.session, a.ledger, p)
    && (a.session.Some? ==> a.session.value.id in a.issued)
  }

  /** Received files of a session that goes on stay where they are; a new session is really new. */
  ghost predicate KeepsReceived(s: Session, t: Session, issued: set<string>) {
    if t.id == s.id then
      forall id :: id in s.files && s.files[id].received ==>
        id in t.files && t.files[id].received && t.files[id].savedAs == s.files[id].savedAs && t.files[id].info == s.files[id].info
    else t.id !in issued
  }

  /** What one call after another may do: nothing accepted is lost, moved or altered. */
  ghost predicate Follows(a: Snap, b: Snap, p: Policy) {
    && Sane(b, p) && a.issued <= b.issued
    && (forall d :: d in a.ledger ==> d in b.ledger && b.ledger[d] == a.ledger[d])
    && (a.session.Some? ==> b.session.Some? && KeepsReceived(a.session.value, b.session.value, a.issued))
  }

  ghost predicate CallRun(snaps: seq<Snap>, p: Policy) {
    snaps != [] && Sane(snaps[0], p) && forall i :: 0 <= i < |snaps| - 1 ==> Follows(snaps[i], snaps[i + 1], p)
  }

  lemma CallsSane(snaps: seq<Snap>, p: Policy, i: nat)
    requires CallRun(snaps, p) && i < |snaps|
    ensures Sane(snaps[i], p)
  {
    if i > 0 { assert Follows(snaps[i - 1], snaps[i], p); }
  }

  lemma {:induction false} NothingLost(snaps: seq<Snap>, p: Policy, i: nat, j: nat)
    requires CallRun(snaps, p) && i <= j < |snaps| && snaps[i].session.Some?
    ensures snaps[i].issued <= snaps[j].issued
    ensures forall d :: d in snaps[i].ledger ==> d in snaps[j].ledger && snaps[j].ledger[d] == snaps[i].ledger[d]
    ensures snaps[j].session.Some? && KeepsReceived(snaps[i].session.value, snaps[j].session.value, snaps[i].issued)
    decreases j - i
  {
    CallsSane(snaps, p, i);
    if i < j {
      NothingLost(snaps, p, i, j - 1);
      assert Follows(snaps[j - 1], snaps[j], p);
      hide Sane;
    }
  }

  /** Over any run of calls, a file once received is at its place with the very bytes accepted: of
      declared length and digest. No later call moves it, alters it, or puts another one there. */
  lemma ReceivedFilesStay(snaps: seq<Snap>, p: Policy, i: nat, j: nat, id: string)
    requires CallRun(snaps, p) && i <= j < |snaps| && snaps[i].session.Some?
    requires id in snaps[i].session.value.files && snaps[i].session.value.files[id].received
    ensures var f := snaps[i].session.value.files[id];
            var d := Where(p.fold, f.savedAs);
            && DataAt(snaps[j].tree, d) == DataAt(snaps[i].tree, d) && d in snaps[j].tree && snaps[j].tree[d].File?
            && |DataAt(snaps[j].tree, d)| == f.info.size
            && (p.verify && f.info.sha256.Some? && f.info.sha256.value != "" ==>
                  p.digest(DataAt(snaps[j].tree, d)) == p.tidy(f.info.sha256.value))
    ensures snaps[j].session.Some?
    ensures var t := snaps[j].session.value;
            t.id == snaps[i].session.value.id ==>
              && id in t.files && t.files[id].received && t.files[id].savedAs == snaps[i].session.value.files[id].savedAs
              && OnlyThere(t, id, Where(p.fold, t.files[id].savedAs), p.fold)
  {
    NothingLost(snaps, p, i, j);
    CallsSane(snaps, p, i);
    CallsSane(snaps, p, j);
    hide IsTemp, Where;
  }

  ghost predicate Sized(s: Option<Session>) {
    s.Some? ==> forall id :: id in s.value.files ==> s.value.files[id].info.size >= 0
  }

  /** File states for the files in `done`, all acceptable, with tokens drawn since `before`. */
  ghost predicate BuiltFor(built: map<string, FileState>, tokens: map<string, string>, files: map<string, FileInfo>, done: set<string>,
                           before: set<string>, issued: set<string>, safe: string -> bool) {
    && built.Keys == done <= files.Keys && tokens.Keys == done && FreshTokens(built, before, issued)
    && forall id :: id in done ==>
         && built[id].info == Named(id, files[id]) && !built[id].received && tokens[id] == built[id].token
         && Named(id, files[id]).id == id && files[id].size >= 0 && safe(files[id].fileName)
  }

  /** What the file work of one accepted upload amounts to. */
  ghost predicate Accepts(p: Policy, info: FileInfo, body: Bytes) {
    |body| == info.size && DigestFits(p, info, body)
  }

  /** Something other than a file is where the temporary file would go. */
  predicate TempBlocked(t: Tree, p: Policy, dest: Place) {
    var tmp := Where(p.fold, TempOf(dest));
    tmp in t && !t[tmp].File?
  }

  /** How a body is answered once it is known where it goes, when nothing outside fails. */
  function Weighed(p: Policy, t: Tree, dest: Place, info: FileInfo, body: Bytes): Status {
    if |body| < info.size then Incomplete
    else if |body| > info.size then TooLarge
    else if !DigestFits(p, info, body) then ChecksumMismatch
    else if IsDir(t, Where(p.fold, dest)) then CannotFinalize
    else Saved
  }

  /** How the file work answers a body when nothing outside fails. */
  ghost function Judged(p: Policy, t: Tree, place: Place, info: FileInfo, body: Bytes): Status {
    var dest := FreePlace(t, p.fold, place, 0);
    if Obstructed(t, Parent(Where(p.fold, place))) || TempBlocked(t, p, dest) then CannotCreate
    else Weighed(p, t, dest, info, body)
  }

  /** How a whole upload is answered when nothing outside fails. */
  ghost function Answer(p: Policy, t: Tree, gate: Gate, body: Bytes): Status {
    match gate
    case Forbidden => Refused
    case AlreadyDone => AlreadyReceived
    case Pass(info) =>
      match p.resolve(info.fileName)
      case None => BadDestination
      case Some(place) => Judged(p, t, place, info, body)
  }

  /** While an upload to `d` is under way nothing old changes but the temporary file, nothing is added
      but that file and directories above `d`, and `d` itself changes only to hold the whole body. */
  ghost predicate UploadState(t: Tree, t0: Tree, d: Path, tmp: Path, body: Bytes) {
    && (forall q :: q in t0 && q != tmp && q != d ==> SameAt(t, t0, q))
    && (forall q :: q in t && q !in t0 && q != tmp && q != d ==> t[q] == Dir && q < d)
    && (SameAt(t, t0, d) || (d in t && t[d].File? && t[d].data == body))
  }

  /** Answers given before any file is touched. */
  predicate AtGate(status: Status) { status in {MissingParameters, Refused, AlreadyReceived, BadDestination} }

  /** The temporary file is gone, unless the call to remove it failed; when it could not be created, what
      stood in its place is as it was. */
  ghost predicate TempGone(t: Tree, t0: Tree, tmp: Path, status: Status, lost: bool) {
    !AtGate(status) && if status == CannotCreate then SameAt(t, t0, tmp) else lost || tmp !in t
  }

  lemma NotCreated(t: Tree, t0: Tree, tmp: Path, lost: bool)
    requires SameAt(t, t0, tmp)
    ensures TempGone(t, t0, tmp, CannotCreate, lost)
  {
  }

  lemma GoneNow(t: Tree, t0: Tree, tmp: Path, status: Status, lost: bool)
    requires !AtGate(status) && status != CannotCreate && (lost || tmp !in t)
    ensures TempGone(t, t0, tmp, status, lost)
  {
  }

  lemma TempGoneSince(t: Tree, t1: Tree, t0: Tree, tmp: Path, status: Status, lost: bool)
    requires TempGone(t, t1, tmp, status, lost) && SameAt(t1, t0, tmp)
    ensures TempGone(t, t0, tmp, status, lost) && !AtGate(status)
  {
  }

  ghost predicate UploadTrace(h: seq<Tree>, n: nat, t0: Tree, d: Path, tmp: Path, body: Bytes) {
    n <= |h| && forall i :: n <= i < |h| ==> UploadState(h[i], t0, d, tmp, body)
  }

  lemma UploadRefl(h: seq<Tree>, t: Tree, d: Path, tmp: Path, body: Bytes)
    ensures UploadState(t, t, d, tmp, body) && UploadTrace(h, |h|, t, d, tmp, body)
  {
  }

  lemma UploadSnoc(h: seq<Tree>, n: nat, t0: Tree, d: Path, tmp: Path, body: Bytes, t: Tree)
    requires UploadTrace(h, n, t0, d, tmp, body) && UploadState(t, t0, d, tmp, body)
    ensures UploadTrace(h + [t], n, t0, d, tmp, body)
  {
  }

  /** Changes of the temporary file only. */
  lemma TempOnly(t: Tree, t0: Tree, d: Path, tmp: Path, body: Bytes)
    requires tmp != d && forall q :: q != tmp ==> SameAt(t, t0, q)
    ensures UploadState(t, t0, d, tmp, body) && SameAt(t, t0, d)
  {
    forall q | q in t && q !in t0
      ensures q == tmp
    {
      assert q != tmp ==> SameAt(t, t0, q);
    }
  }

  lemma TempSteps(t0: Tree, d: Path, tmp: Path, body: Bytes, f: Node)
    requires tmp != d
    ensures UploadState(t0[tmp := f], t0, d, tmp, body) && SameAt(t0[tmp := f], t0, d)
  {
  }

  lemma WrittenUpload(h: seq<Tree>, n: nat, m: nat, h': seq<Tree>, t0: Tree, f: Node, d: Path, tmp: Path, body: Bytes, data: Bytes)
    requires UploadTrace(h, n, t0, d, tmp, body) && tmp != d && h <= h' && m == |h|
    requires WrittenTrace(h', m, t0[tmp := f], tmp, data)
    ensures UploadTrace(h', n, t0, d, tmp, body)
  {
    hide UploadState, Written;
    forall i | n <= i < |h'|
      ensures UploadState(h'[i], t0, d, tmp, body)
    {
      if i < m {
        assert h'[i] == h[i];
      } else {
        WrittenOver(h'[i], t0, f, tmp, data);
        TempSteps(t0, d, tmp, body, h'[i][tmp]);
      }
    }
  }

  lemma WrittenOver(t: Tree, t0: Tree, f: Node, tmp: Path, data: Bytes)
    requires Written(t, t0[tmp := f], tmp, data)
    ensures tmp in t && t[tmp].File? && t == t0[tmp := t[tmp]]
  {
    assert t0[tmp := f][tmp := t[tmp]] == t0[tmp := t[tmp]];
  }

  lemma SameAsBefore(t: Tree, d: Path)
    ensures SameAt(t, t, d)
  {
  }

  lemma OpenReady(t: Tree, p: Policy, dest: Place)
    requires IsDir(t, Parent(Where(p.fold, dest))) && Where(p.fold, TempOf(dest)) != []
    requires Parent(Where(p.fold, TempOf(dest))) == Parent(Where(p.fold, dest))
    ensures CanTruncate(t, Where(p.fold, TempOf(dest))) <==> !TempBlocked(t, p, dest)
  {
  }

  lemma RenameReady(t0: Tree, t: Tree, tmp: Path, d: Path)
    requires tmp != [] && d != [] && tmp != d && Parent(tmp) == Parent(d) && IsDir(t0, Parent(d))
    requires tmp in t && t[tmp].File? && t == t0[tmp := t[tmp]]
    ensures CanRename(t, tmp, d) <==> !IsDir(t0, d)
  {
    assert |Parent(d)| < |tmp|;
  }

  lemma GivenUpState(u: Tree, t: Tree, t0: Tree, d: Path, tmp: Path, body: Bytes)
    requires tmp != d && tmp in t && t == t0[tmp := t[tmp]] && (u == t || u == t - {tmp})
    ensures UploadState(u, t0, d, tmp, body) && SameAt(u, t0, d)
  {
    TempOnly(u, t0, d, tmp, body);
  }

  lemma DeliveredState(t: Tree, t0: Tree, d: Path, tmp: Path, body: Bytes, f: Node)
    requires tmp != d && f.File? && f.data == body && t == t0[tmp := f]
    ensures UploadState((t - {tmp})[d := f], t0, d, tmp, body)
  {
  }

  /** Making directories on the way first changes none of that. */
  lemma DirsFirst(t: Tree, t1: Tree, t0: Tree, d: Path, tmp: Path, body: Bytes)
    requires d != [] && DirsState(t1, t0, Parent(d)) && UploadState(t, t1, d, tmp, body)
    ensures UploadState(t, t0, d, tmp, body) && SameAt(t1, t0, d)
    ensures SameAt(t, t1, d) ==> SameAt(t, t0, d)
  {
    assert SameAt(t1, t0, d) by { assert !(d <= Parent(d)); }
    forall q | q in t && q !in t0 && q != tmp && q != d
      ensures t[q] == Dir && q < d
    {
      if q in t1 {
        assert SameAt(t, t1, q) && q <= Parent(d);
        PrefixSlice(q, d);
        PrefixSlice(q, Parent(d));
        assert d[..|q|] == Parent(d)[..|q|];
      }
    }
    forall q | q in t0 && q != tmp && q != d
      ensures SameAt(t, t0, q)
    {
      assert SameAt(t1, t0, q) && SameAt(t, t1, q);
    }
  }

  lemma DirsFirstTrace(h: seq<Tree>, n: nat, h': seq<Tree>, t0: Tree, t1: Tree, d: Path, tmp: Path, body: Bytes)
    requires d != [] && DirsTrace(h, n, t0, Parent(d)) && DirsState(t1, t0, Parent(d))
    requires h <= h' && UploadTrace(h', |h|, t1, d, tmp, body)
    ensures UploadTrace(h', n, t0, d, tmp, body)
  {
    hide DirsState, UploadState;
    forall i | n <= i < |h'|
      ensures UploadState(h'[i], t0, d, tmp, body)
    {
      if i < |h| {
        assert h'[i] == h[i];
        UploadRefl(h, h[i], d, tmp, body);
        DirsFirst(h[i], h[i], t0, d, tmp, body);
      } else {
        DirsFirst(h'[i], t1, t0, d, tmp, body);
      }
    }
  }

  /** Accepted files survive: all of them, or all but the one the body replaces. */
  lemma IntactAfter(t: Tree, t0: Tree, ledger: Ledger, fold: char -> char, d: Path, tmp: Path, body: Bytes)
    requires Intact(t0, ledger, fold) && IsTemp(fold, tmp) && !IsTemp(fold, d) && UploadState(t, t0, d, tmp, body)
    ensures SameAt(t, t0, d) ==> Intact(t, ledger, fold)
    ensures d in t && t[d].File? && t[d].data == body ==> Intact(t, ledger[d := body], fold)
    ensures Intact(t, ledger, fold) || Intact(t, ledger[d := body], fold)
  {
    hide IsTemp;
    forall q | q in ledger && q != d
      ensures SameAt(t, t0, q)
    {
    }
  }

  /** What the way to a place being clear means once it has been made. */
  lemma WayMade(t: Tree, t0: Tree, fold: char -> char, place: Place)
    requires ParentClosed(t) && DirsState(t, t0, Parent(Where(fold, place))) && IsDir(t, Parent(Where(fold, place)))
    ensures !Obstructed(t0, Parent(Where(fold, place)))
    ensures FreePlace(t, fold, place, 0) == FreePlace(t0, fold, place, 0)
    ensures forall q :: q != [] && Parent(q) == Parent(Where(fold, place)) ==> SameAt(t, t0, q)
  {
    hide Where, ParentClosed, DirsState, Obstructed, SameAt, FreePlace;
    WhereBeside(fold, place, []);
    var w := Parent(Where(fold, place));
    BesideWay(t, t0, w);
    WayWasClear(t, t0, w);
    FreePlaceSame(t, t0, fold, place);
  }

  lemma BesideWay(t: Tree, t0: Tree, w: Path)
    requires DirsState(t, t0, w)
    ensures forall q :: q != [] && Parent(q) == w ==> SameAt(t, t0, q)
  {
    forall q | q != [] && Parent(q) == w
      ensures SameAt(t, t0, q)
    {
      assert !(q <= w);
    }
  }

  lemma FreePlaceSame(t: Tree, t0: Tree, fold: char -> char, place: Place)
    requires forall q :: q != [] && Parent(q) == Parent(Where(fold, place)) ==> SameAt(t, t0, q)
    requires Where(fold, place) != []
    ensures FreePlace(t, fold, place, 0) == FreePlace(t0, fold, place, 0)
  {
    hide Where, FreePlace;
    FreePlaceFrame(t, t0, fold, place, 0);
  }

  lemma WayWasClear(t: Tree, t0: Tree, w: Path)
    requires ParentClosed(t) && DirsState(t, t0, w) && IsDir(t, w)
    ensures !Obstructed(t0, w)
  {
    hide ParentClosed;
    forall k | 0 <= k <= |w| && w[..k] in t0
      ensures t0[w[..k]].Dir?
    {
      assert SameAt(t, t0, w[..k]);
      PrefixSlice(w[..k], w);
      assert w[..|w|] == w;
      if k < |w| { AncestorsAreDirs(t, w[..k], w); }
    }
  }

  class Server {
    const policy: Policy
    const store: FileSystem
    var session: Option<Session>
    /** The latest clock reading, and the random identifiers drawn so far. */
    var clock: int
    var issued: set<string>
    /** How often no randomness was to be had. */
    ghost var starved: nat
    /** Every accepted body, by the node it was saved at. */
    ghost var ledger: Ledger

    constructor (policy: Policy, store: FileSystem)
      requires Folding(policy.fold) && ParentClosed(store.tree) && store.Recorded()
      ensures this.policy == policy && this.store == store && session == None && ledger == map[]
      ensures Valid()
    {
      this.policy, this.store := policy, store;
      session, clock, issued, starved, ledger := None, 0, {}, 0, map[];
    }

    ghost function State(): Sys
      reads this
    {
      Sys(session, issued, clock)
    }

    ghost function Seen(): Snap
      reads this, store
    {
      Snap(session, issued, store.tree, ledger)
    }

    ghost predicate Valid()
      reads this, store
    {
      && Sane(Seen(), policy) && Sized(session)
      && ParentClosed(store.tree) && store.Recorded() && Folding(policy.fold)
    }

    method Now() returns (t: int)
      modifies this`clock
      ensures old(clock) <= t == clock
    {
      assert clock <= clock;
      t :| clock <= t;
      clock := t;
    }

    /** A random identifier, or None when there is no randomness; drawing one again counts as none. */
    method RandomHex() returns (r: Option<string>)
      modifies this`issued, this`starved
      ensures r.Some? ==> r.value !in old(issued) && issued == old(issued) + {r.value} && starved == old(starved)
      ensures r.None? ==> issued == old(issued) && starved > old(starved)
    {
      var s: string := *;
      if s in issued {
        starved := starved + 1;
        return None;
      }
      issued := issued + {s};
      r := Some(s);
    }

    /** The file table of a new session. */
    method BuildFiles(files: map<string, FileInfo>) returns (built: map<string, FileState>, tokens: map<string, string>, err: Option<Reply>)
      modifies this`issued, this`starved
      ensures old(issued) <= issued && starved >= old(starved)
      ensures err == Some(InternalError) ==> starved > old(starved)
      ensures err.None? ==> ValidFiles(files, policy.safe) && BuiltFor(built, tokens, files, files.Keys, old(issued), issued, policy.safe)
      ensures err.Some? ==> err.value == InternalError || (err.value == BadRequest && !ValidFiles(files, policy.safe))
    {
      built, tokens, err := map[], map[], None;
      ghost var before := issued;
      var done := {};
      while done != files.Keys
        invariant done <= files.Keys && before <= issued && starved >= old(starved)
        invariant BuiltFor(built, tokens, files, done, before, issued, policy.safe)
        decreases files.Keys - done
      {
        hide BuiltFor, Named;
        assert files.Keys - done != {};
        var id :| id in files.Keys - done;
        ghost var issued0 := issued;
        var fi := Named(id, files[id]);
        if fi.id != id || fi.size < 0 || !policy.safe(fi.fileName) {
          NotValid(files, id, policy.safe);
          return built, tokens, Some(BadRequest);
        }
        var token := RandomHex();
        if token.None? { return built, tokens, Some(InternalError); }
        BuiltOne(built, tokens, files, done, before, issued0, id, token.value, policy.safe);
        built := built[id := FileState(fi, token.value, false, [])];
        tokens := tokens[id := token.value];
        done := done + {id};
      }
    }

    /** The locked region of prepare-upload. */
    method HandlePrepare(req: Request) returns (reply: Reply)
      requires Valid()
      modifies this
      ensures Valid() && ledger == old(ledger) && Follows(old(Seen()), Seen(), policy)
      ensures Step(old(State()), Prepare(req, reply), State(), policy.safe)
      ensures reply == InternalError ==> starved > old(starved)
    {
      hide Follows, PrepareAt, SameFiles, EqualFold, AllReceived, Tokens, Intact, Backed;
      ghost var a := State();
      if session.Some? && !session.value.cancelled {
        var done := AllDone(session.value);
        if !done {
          var now := Now();
          if now - session.value.createdAt < THIRTY_MINUTES {
            reply := Conflict;
            if session.value.senderIP == req.ip && EqualFold(session.value.senderFingerprint, req.fingerprint) {
              var same := SamePrepareFiles(session.value, req.files);
              if same {
                var tokens := SessionTokens(session.value);
                reply := Replayed(session.value.id, tokens);
              }
            }
            HeldAt(a, State(), req, reply, policy.safe, now);
            StepAt(a, State(), req, reply, policy.safe, now);
            PrepareFollows(a, State(), req, reply, store.tree, ledger, policy);
            return;
          }
        }
      }
      ghost var now := clock;
      assert !Live(a.session, now);
      reply := NewSession(req, a, now);
      StepAt(a, State(), req, reply, policy.safe, now);
      PrepareFollows(a, State(), req, reply, store.tree, ledger, policy);
    }

    /** The second half of prepare-upload, when no live session stands in the way. */
    method NewSession(req: Request, ghost a: Sys, ghost now: int) returns (reply: Reply)
      requires Valid() && a.session == session && a.issued == issued && a.clock <= now == clock && !Live(a.session, now)
      modifies this
      ensures Valid() && ledger == old(ledger)
      ensures PrepareAt(a, State(), req, reply, policy.safe, now)
      ensures reply == InternalError ==> starved > old(starved)
    {
      hide FreshTokens, BuiltFor, ValidFiles, PrepareAt, Intact;
      assert a.session == session;
      NothingPrepared(a, State(), req, policy.safe, now);
      var sid := RandomHex();
      if sid.None? {
        NothingPrepared(a, State(), req, policy.safe, now);
        return InternalError;
      }
      var files, tokens, err := BuildFiles(req.files);
      if err.Some? {
        NothingPrepared(a, State(), req, policy.safe, now);
        return err.value;
      }
      var created := Now();
      session := Some(Session(sid.value, req.ip, req.fingerprint, created, files, false));
      SessionMade(a, State(), req, tokens, policy, now, ledger);
      return Accepted(sid.value, tokens);
    }

    /** First locked region of an upload. */
    method EnterUpload(ip: string, sid: string, fid: string, token: string) returns (gate: Gate)
      ensures gate == GateOf(session, ip, sid, fid, token)
      ensures Step(State(), Enter(ip, sid, fid, token, gate), State(), policy.safe)
    {
      if session.None? || session.value.id != sid || session.value.cancelled { return Forbidden; }
      if ip != session.value.senderIP { return Forbidden; }
      if fid !in session.value.files || session.value.files[fid].token != token { return Forbidden; }
      if session.value.files[fid].received { return AlreadyDone; }
      return Pass(session.value.files[fid].info);
    }

    /** Second locked region of an upload. */
    method FinishUpload(sid: string, fid: string, dest: Path)
      modifies this`session
      ensures session == Marked(old(session), sid, fid, dest)
      ensures Step(old(State()), Mark(sid, fid, dest), State(), policy.safe)
    {
      if session.Some? && session.value.id == sid {
        if fid in session.value.files {
          var cur := session.value.files[fid].(received := true, savedAs := dest);
          session := Some(session.value.(files := session.value.files[fid := cur]));
        }
      }
    }

    method HandleCancel(sid: string)
      requires Valid()
      modifies this`session
      ensures Valid() && Follows(old(Seen()), Seen(), policy)
      ensures Step(old(State()), Cancel(sid), State(), policy.safe)
    {
      if session.Some? && session.value.id == sid {
        session := Some(session.value.(cancelled := true));
      }
    }

    /** Temporary file, length, extra bytes, checksum, rename. */
    method Deliver(info: FileInfo, dest: Place, body: Bytes) returns (status: Status)
      requires ParentClosed(store.tree) && store.Recorded() && info.size >= 0
      requires IsDir(store.tree, Parent(Where(policy.fold, dest)))
      modifies store
      ensures ParentClosed(store.tree) && store.Recorded() && store.faults >= old(store.faults)
      ensures var d, tmp := Where(policy.fold, dest), Where(policy.fold, TempOf(dest));
              && old(store.history) <= store.history
              && UploadTrace(store.history, |old(store.history)|, old(store.tree), d, tmp, body)
              && UploadState(store.tree, old(store.tree), d, tmp, body)
              && (status == Saved ==> Accepts(policy, info, body) && d in store.tree && store.tree[d].File? && store.tree[d].data == body)
              && (status != Saved ==> SameAt(store.tree, old(store.tree), d))
      ensures store.ignored >= old(store.ignored)
      ensures TempGone(store.tree, old(store.tree), Where(policy.fold, TempOf(dest)), status, store.ignored > old(store.ignored))
      ensures store.faults == old(store.faults) ==>
                status == if TempBlocked(old(store.tree), policy, dest) then CannotCreate
                          else Weighed(policy, old(store.tree), dest, info, body)
    {
      hide UploadState, UploadTrace, Where, ParentClosed, WrittenTrace, Written, Weighed, Accepts, CanTruncate, TempBlocked, SameAt;
      var d, tmp := Where(policy.fold, dest), Where(policy.fold, TempOf(dest));
      ghost var t0, h0 := store.tree, store.history;
      TempIsTemp(policy.fold, dest);
      OpenReady(t0, policy, dest);
      UploadRefl(h0, t0, d, tmp, body);
      var err := store.CreateTruncate(tmp, 420);
      ghost var t1, h1 := store.tree, store.history;
      if err != Ok {
        UploadSnoc(h0, |h0|, t0, d, tmp, body, t0);
        SameAsBefore(t0, d);
        SameAsBefore(t0, tmp);
        return CannotCreate;
      }
      TempSteps(t0, d, tmp, body, t1[tmp]);
      UploadSnoc(h0, |h0|, t0, d, tmp, body, t1);
      var n := if |body| < info.size then |body| else info.size;
      var ok := CopyStream(store, tmp, body[..n]);
      ghost var t2, h2 := store.tree, store.history;
      WrittenUpload(h1, |h0|, |h1|, h2, t0, t1[tmp], d, tmp, body, body[..n]);
      WrittenOver(t2, t0, t1[tmp], tmp, body[..n]);
      err := store.Flush();
      status := Conclude(info, dest, body, ok && err == Ok, h0, t0);
    }

    /** The rename that puts the whole body in place. */
    method Finalize(dest: Place, body: Bytes, ghost h0: seq<Tree>, ghost t0: Tree) returns (ok: bool)
      requires ParentClosed(store.tree) && store.Recorded() && IsDir(t0, Parent(Where(policy.fold, dest)))
      requires var tmp := Where(policy.fold, TempOf(dest));
               tmp in store.tree && store.tree[tmp].File? && store.tree == t0[tmp := store.tree[tmp]] && store.tree[tmp].data == body
      requires UploadTrace(store.history, |h0|, t0, Where(policy.fold, dest), Where(policy.fold, TempOf(dest)), body)
      modifies store`tree, store`history, store`faults
      ensures ParentClosed(store.tree) && store.Recorded() && store.faults >= old(store.faults)
      ensures var d, tmp := Where(policy.fold, dest), Where(policy.fold, TempOf(dest));
              && old(store.history) <= store.history
              && UploadTrace(store.history, |h0|, t0, d, tmp, body)
              && (ok ==> UploadState(store.tree, t0, d, tmp, body) && tmp !in store.tree)
              && (ok ==> d in store.tree && store.tree[d].File? && store.tree[d].data == body)
              && (!ok ==> store.tree == old(store.tree))
      ensures store.faults == old(store.faults) ==> (ok <==> !IsDir(t0, Where(policy.fold, dest)))
    {
      hide UploadState, UploadTrace, Where, TempOf, ParentClosed, SameAt, CanRename;
      var d, tmp := Where(policy.fold, dest), Where(policy.fold, TempOf(dest));
      ghost var t, h := store.tree, store.history;
      TempIsTemp(policy.fold, dest);
      TempSteps(t0, d, tmp, body, t[tmp]);
      RenameReady(t0, t, tmp, d);
      DeliveredState(t, t0, d, tmp, body, t[tmp]);
      var err := store.Rename(tmp, d);
      UploadSnoc(h, |h0|, t0, d, tmp, body, store.tree);
      ok := err == Ok;
    }

    /** After copying: length, extra bytes, digest, and the rename; on failure the copy is removed. */
    method Conclude(info: FileInfo, dest: Place, body: Bytes, copied: bool, ghost h0: seq<Tree>, ghost t0: Tree) returns (status: Status)
      requires ParentClosed(store.tree) && store.Recorded() && info.size >= 0
      requires IsDir(t0, Parent(Where(policy.fold, dest)))
      requires var tmp := Where(policy.fold, TempOf(dest));
               && tmp in store.tree && store.tree[tmp].File? && store.tree == t0[tmp := store.tree[tmp]]
               && (copied && |body| == info.size ==> store.tree[tmp].data == body)
      requires UploadTrace(store.history, |h0|, t0, Where(policy.fold, dest), Where(policy.fold, TempOf(dest)), body)
      modifies store
      ensures ParentClosed(store.tree) && store.Recorded() && store.faults >= old(store.faults)
      ensures var d, tmp := Where(policy.fold, dest), Where(policy.fold, TempOf(dest));
              && old(store.history) <= store.history
              && UploadTrace(store.history, |h0|, t0, d, tmp, body)
              && UploadState(store.tree, t0, d, tmp, body)
              && (status == Saved ==> Accepts(policy, info, body) && d in store.tree && store.tree[d].File? && store.tree[d].data == body)
              && (status != Saved ==> SameAt(store.tree, t0, d))
      ensures store.ignored >= old(store.ignored)
      ensures TempGone(store.tree, t0, Where(policy.fold, TempOf(dest)), status, store.ignored > old(store.ignored))
      ensures copied && store.faults == old(store.faults) ==> status == Weighed(policy, t0, dest, info, body)
    {
      hide UploadState, UploadTrace, Where, ParentClosed, SameAt, TempGone, TempOf;
      var d, tmp := Where(policy.fold, dest), Where(policy.fold, TempOf(dest));
      ghost var t := store.tree;
      TempIsTemp(policy.fold, dest);
      status := Incomplete;
      if copied && |body| >= info.size {
        status := TooLarge;
        if |body| == info.size {
          status := ChecksumMismatch;
          if !Checked(policy, info) || policy.digest(body) == policy.tidy(info.sha256.value) {
            var ok := Finalize(dest, body, h0, t0);
            if ok {
              GoneNow(store.tree, t0, tmp, Saved, false);
              return Saved;
            }
            status := CannotFinalize;
          }
        }
      }
      ghost var h := store.history;
      Discard(store, tmp);
      GivenUpState(store.tree, t, t0, d, tmp, body);
      UploadSnoc(h, |h0|, t0, d, tmp, body, store.tree);
      GoneNow(store.tree, t0, tmp, status, store.ignored > old(store.ignored));
    }

    /** The file work between the two regions. Until the final rename nothing old is touched but the
        temporary file, and the rename puts the whole body in place at once. When nothing outside
        fails, the answer is determined by the tree, the place, the length and the digest. */
    method Receive(info: FileInfo, place: Place, body: Bytes) returns (status: Status, dest: Place)
      requires ParentClosed(store.tree) && store.Recorded() && info.size >= 0
      requires Folding(policy.fold) && !IsTemp(policy.fold, Where(policy.fold, place))
      modifies store
      ensures ParentClosed(store.tree) && store.Recorded() && store.faults >= old(store.faults)
      ensures var d, tmp := Where(policy.fold, dest), Where(policy.fold, TempOf(dest));
              && !IsTemp(policy.fold, d)
              && old(store.history) <= store.history
              && UploadTrace(store.history, |old(store.history)|, old(store.tree), d, tmp, body)
              && UploadState(store.tree, old(store.tree), d, tmp, body)
              && (status == Saved ==> Accepts(policy, info, body) && d in store.tree && store.tree[d].File? && store.tree[d].data == body)
              && (status != Saved ==> SameAt(store.tree, old(store.tree), d))
              && (status == Saved && d in old(store.tree) ==> dest == Fallback(place))
      ensures store.ignored >= old(store.ignored)
      ensures TempGone(store.tree, old(store.tree), Where(policy.fold, TempOf(dest)), status, store.ignored > old(store.ignored))
      ensures !AtGate(status)
      ensures store.faults == old(store.faults) ==> status == Judged(policy, old(store.tree), place, info, body)
      ensures store.faults == old(store.faults) && status == Saved ==> dest == FreePlace(old(store.tree), policy.fold, place, 0)
    {
      hide UploadState, UploadTrace, Where, ParentClosed, DirsState, DirsTrace, Obstructed, IsTemp, Folding, SameAt;
      hide FreePlace, FreeBefore, Fallback, Accepts, TempOf, TempGone;
      ghost var t0, h0 := store.tree, store.history;
      dest := place;
      CandidatesBeside(policy.fold, place, 0);
      var made := MkdirAll(store, Parent(Where(policy.fold, place)));
      ghost var t1, h1 := store.tree, store.history;
      NothingDelivered(h1, |h0|, t0, t1, policy.fold, place, body);
      NotCreated(t1, t0, Where(policy.fold, TempOf(dest)), false);
      if !made { return CannotCreate, dest; }
      WayMade(t1, t0, policy.fold, place);
      ghost var tried;
      dest, tried := UniquePath(store, policy.fold, place);
      BesidePlace(t1, t0, policy, place, dest);
      status := Deliver(info, dest, body);
      DirsFirstTrace(h1, |h0|, store.history, t0, t1, Where(policy.fold, dest), Where(policy.fold, TempOf(dest)), body);
      DirsFirst(store.tree, t1, t0, Where(policy.fold, dest), Where(policy.fold, TempOf(dest)), body);
      TempGoneSince(store.tree, t1, t0, Where(policy.fold, TempOf(dest)), status, store.ignored > old(store.ignored));
    }

    /** Mark a file whose body is in place, and account for the body. */
    method RecordUpload(sid: string, fid: string, dest: Place, body: Bytes, ghost a: Snap)
      requires Sane(a, policy) && a.session == session && a.issued == issued && a.ledger == ledger && Sized(session)
      requires session.Some? && session.value.id == sid && fid in session.value.files && !session.value.files[fid].received
      requires Accepts(policy, session.value.files[fid].info, body)
      requires ParentClosed(store.tree) && store.Recorded() && Folding(policy.fold)
      requires Intact(store.tree, ledger[Where(policy.fold, dest) := body], policy.fold)
      modifies this`session, this`ledger
      ensures session == Marked(old(session), sid, fid, dest) && ledger == old(ledger)[Where(policy.fold, dest) := body]
      ensures var d := Where(policy.fold, dest);
              && (Valid() <==> OnlyThere(old(session).value, fid, d, policy.fold))
              && (d !in old(ledger) ==> Valid())
              && (Follows(a, Seen(), policy) <==>
                    OnlyThere(old(session).value, fid, d, policy.fold) && (d in old(ledger) ==> old(ledger)[d] == body))
    {
      hide Intact, Backed, Accepts, OnlyThere, KeepsReceived, Sized, Follows, Where, ParentClosed, Folding;
      FinishUpload(sid, fid, dest);
      MarkedBacked(old(session), ledger, policy, sid, fid, dest, body);
      StillSized(old(session), sid, fid, dest);
      UploadFollows(a, session, store.tree, policy, sid, fid, dest, body);
      ledger := ledger[Where(policy.fold, dest) := body];
    }

    /** An upload as one sequence of steps: gate, file work, mark. In every state on the way all
        accepted files are intact, or all with the new body in place. Afterwards an accepted body is
        where the session says it is; otherwise nothing changes. The one accepted file it may
        disturb is the one at the chosen place: every received file keeps a place of its own exactly
        when no other one was saved there, and nothing accepted is lost exactly when besides there
        was none there or one with the same bytes. */
    method HandleUpload(ip: string, sid: string, fid: string, token: string, body: Bytes) returns (status: Status, ghost dest: Place)
      requires Valid() && PlainNames(session, policy)
      modifies this`session, this`ledger, store
      ensures status != Saved ==> session == old(session) && ledger == old(ledger) && Valid()
      ensures status != Saved ==> Follows(old(Seen()), Seen(), policy)
      ensures old(store.history) <= store.history
      ensures AtGate(status) ==> store.history == old(store.history)
      ensures UploadTrace(store.history, |old(store.history)|, old(store.tree), Where(policy.fold, dest), Where(policy.fold, TempOf(dest)), body)
      ensures AtGate(status) || TempGone(store.tree, old(store.tree), Where(policy.fold, TempOf(dest)), status, store.ignored > old(store.ignored))
      ensures AcceptedThroughout(store.history, |old(store.history)|, old(ledger), policy.fold, Where(policy.fold, dest), body)
      ensures status == Saved ==>
                var d := Where(policy.fold, dest);
                && GateOf(old(session), ip, sid, fid, token).Pass?
                && Accepts(policy, GateOf(old(session), ip, sid, fid, token).info, body)
                && session == Marked(old(session), sid, fid, dest)
                && d in store.tree && store.tree[d].File? && store.tree[d].data == body
                && Intact(store.tree, ledger, policy.fold) && ledger == old(ledger)[d := body]
                && (Valid() <==> OnlyThere(old(session).value, fid, d, policy.fold))
                && (d !in old(store.tree) ==> d !in old(ledger) && Valid())
                && (Follows(old(Seen()), Seen(), policy) <==>
                      OnlyThere(old(session).value, fid, d, policy.fold) && (d in old(ledger) ==> old(ledger)[d] == body))
      ensures status == Saved ==>
                var place := policy.resolve(GateOf(old(session), ip, sid, fid, token).info.fileName);
                && place.Some? && (Where(policy.fold, dest) in old(store.tree) ==> dest == Fallback(place.value))
                && (store.faults == old(store.faults) ==> dest == FreePlace(old(store.tree), policy.fold, place.value, 0))
      ensures sid == "" || fid == "" || token == "" ==> status == MissingParameters
      ensures store.faults == old(store.faults) && sid != "" && fid != "" && token != "" ==>
                status == Answer(policy, old(store.tree), GateOf(old(session), ip, sid, fid, token), body)
    {
      hide Intact, Backed, Accepts, IsTemp, OnlyThere, KeepsReceived, Sized, Follows, Where, UploadState, UploadTrace, ParentClosed;
      hide Folding, AcceptedThroughout, Judged, FreePlace, Fallback, SameAt, TempOf, DigestFits, PlainNames, TempGone, Marked;
      ghost var a, h0 := Seen(), store.history;
      dest := ["a"];
      NothingHappened(a, a, policy);
      NoStates(h0, ledger, policy.fold, Where(policy.fold, dest), body);
      UploadRefl(h0, a.tree, Where(policy.fold, dest), Where(policy.fold, TempOf(dest)), body);
      if sid == "" || fid == "" || token == "" { return MissingParameters, dest; }
      var gate := EnterUpload(ip, sid, fid, token);
      if gate == Forbidden { return Refused, dest; }
      if gate == AlreadyDone { return AlreadyReceived, dest; }
      var place := policy.resolve(gate.info.fileName);
      if place.None? { return BadDestination, dest; }
      UploadReady(session, gate.info, ip, sid, fid, token, policy);
      var path;
      status, path := Receive(gate.info, place.value, body);
      dest := path;
      TempIsTemp(policy.fold, path);
      IntactThroughout(store.history, |h0|, a.tree, ledger, policy.fold, path, body);
      IntactAfter(store.tree, a.tree, ledger, policy.fold, Where(policy.fold, path), Where(policy.fold, TempOf(path)), body);
      if status == Saved {
        NotYetAccepted(a.tree, ledger, policy.fold, Where(policy.fold, path));
        RecordUpload(sid, fid, path, body, a);
      } else {
        NothingHappened(a, Seen(), policy);
      }
    }
  }

  lemma NothingDelivered(h: seq<Tree>, n: nat, t0: Tree, t1: Tree, fold: char -> char, place: Place, body: Bytes)
    requires Where(fold, place) != [] && DirsState(t1, t0, Parent(Where(fold, place))) && DirsTrace(h, n, t0, Parent(Where(fold, place)))
    ensures var d, tmp := Where(fold, place), Where(fold, TempOf(place));
            UploadTrace(h, n, t0, d, tmp, body) && UploadState(t1, t0, d, tmp, body) && SameAt(t1, t0, d) && SameAt(t1, t0, tmp)
  {
    hide Where, UploadState, DirsState, SameAt;
    TempIsTemp(fold, place);
    BesideDirs(t1, t0, Where(fold, place), Where(fold, TempOf(place)));
    var d, tmp := Where(fold, place), Where(fold, TempOf(place));
    UploadRefl(h, t1, d, tmp, body);
    DirsFirst(t1, t1, t0, d, tmp, body);
    DirsFirstTrace(h, n, h, t0, t1, d, tmp, body);
  }

  lemma BesideDirs(t: Tree, t0: Tree, d: Path, tmp: Path)
    requires d != [] && tmp != [] && Parent(tmp) == Parent(d) && DirsState(t, t0, Parent(d))
    ensures SameAt(t, t0, tmp)
  {
    assert !(tmp <= Parent(d));
  }

  lemma BesidePlace(t: Tree, t0: Tree, p: Policy, place: Place, dest: Place)
    requires forall q :: q != [] && Parent(q) == Parent(Where(p.fold, place)) ==> SameAt(t, t0, q)
    requires Where(p.fold, dest) != [] && Parent(Where(p.fold, dest)) == Parent(Where(p.fold, place))
    ensures TempBlocked(t, p, dest) == TempBlocked(t0, p, dest)
    ensures SameAt(t, t0, Where(p.fold, dest)) && IsDir(t, Where(p.fold, dest)) == IsDir(t0, Where(p.fold, dest))
    ensures Where(p.fold, dest) in t <==> Where(p.fold, dest) in t0
    ensures SameAt(t, t0, Where(p.fold, TempOf(dest)))
  {
    TempIsTemp(p.fold, dest);
    hide Where;
  }

  lemma NotValid(files: map<string, FileInfo>, id: string, safe: string -> bool)
    requires id in files
    requires Named(id, files[id]).id != id || Named(id, files[id]).size < 0 || !safe(Named(id, files[id]).fileName)
    ensures !ValidFiles(files, safe)
  {
  }

  lemma BuiltOne(built: map<string, FileState>, tokens: map<string, string>, files: map<string, FileInfo>, done: set<string>,
                 before: set<string>, issued: set<string>, id: string, token: string, safe: string -> bool)
    requires BuiltFor(built, tokens, files, done, before, issued, safe)
    requires id in files && id !in done && token !in issued && before <= issued
    requires Named(id, files[id]).id == id && Named(id, files[id]).size >= 0 && safe(Named(id, files[id]).fileName)
    ensures BuiltFor(built[id := FileState(Named(id, files[id]), token, false, [])], tokens[id := token], files, done + {id},
                     before, issued + {token}, safe)
  {
    assert Named(id, files[id]).size == files[id].size && Named(id, files[id]).fileName == files[id].fileName;
    hide Named;
  }

  lemma StepAt(a: Sys, b: Sys, req: Request, reply: Reply, safe: string -> bool, now: int)
    requires PrepareAt(a, b, req, reply, safe, now)
    ensures Step(a, Prepare(req, reply), b, safe)
  {
  }

  lemma HeldAt(a: Sys, b: Sys, req: Request, reply: Reply, safe: string -> bool, now: int)
    requires Live(a.session, now) && b.session == a.session && a.issued <= b.issued && a.clock <= now <= b.clock
    requires reply == if FromSender(a.session.value, req) then Replayed(a.session.value.id, Tokens(a.session.value)) else Conflict
    ensures PrepareAt(a, b, req, reply, safe, now)
  {
  }

  lemma NothingPrepared(a: Sys, b: Sys, req: Request, safe: string -> bool, now: int)
    requires a.issued <= b.issued && a.clock <= now <= b.clock && b.session == a.session && !Live(a.session, now)
    ensures PrepareAt(a, b, req, InternalError, safe, now)
    ensures !ValidFiles(req.files, safe) ==> PrepareAt(a, b, req, BadRequest, safe, now)
  {
    hide Live, ValidFiles;
  }

  lemma SessionMade(a: Sys, b: Sys, req: Request, tokens: map<string, string>, p: Policy, now: int, ledger: Ledger)
    requires a.issued <= b.issued && a.clock <= now <= b.clock && !Live(a.session, now) && b.session.Some?
    requires var s := b.session.value;
             && s.id !in a.issued && s.id in b.issued && now <= s.createdAt <= b.clock && !s.cancelled
             && s.senderIP == req.ip && s.senderFingerprint == req.fingerprint
             && BuiltFor(s.files, tokens, req.files, req.files.Keys, a.issued + {s.id}, b.issued, p.safe)
    requires ValidFiles(req.files, p.safe)
    ensures PrepareAt(a, b, req, Accepted(b.session.value.id, tokens), p.safe, now)
    ensures Backed(b.session, ledger, p) && Sized(b.session)
  {
    hide Live;
    var s := b.session.value;
    FreshLater(s.files, a.issued, b.issued, s.id);
    hide FreshTokens, Named;
    assert tokens == Tokens(s);
  }

  lemma FreshLater(files: map<string, FileState>, before: set<string>, after: set<string>, sid: string)
    requires FreshTokens(files, before + {sid}, after)
    ensures FreshTokens(files, before, after)
  {
  }

  /** In every state all accepted files are intact, or all with the new body in place. */
  ghost predicate AcceptedThroughout(h: seq<Tree>, n: nat, ledger: Ledger, fold: char -> char, d: Path, body: Bytes) {
    n <= |h| && forall i :: n <= i < |h| ==> Intact(h[i], ledger, fold) || Intact(h[i], ledger[d := body], fold)
  }

  lemma NoStates(h: seq<Tree>, ledger: Ledger, fold: char -> char, d: Path, body: Bytes)
    ensures AcceptedThroughout(h, |h|, ledger, fold, d, body)
  {
  }

  lemma IntactThroughout(h: seq<Tree>, n: nat, t0: Tree, ledger: Ledger, fold: char -> char, dest: Place, body: Bytes)
    requires Intact(t0, ledger, fold) && !IsTemp(fold, Where(fold, dest))
    requires UploadTrace(h, n, t0, Where(fold, dest), Where(fold, TempOf(dest)), body)
    ensures AcceptedThroughout(h, n, ledger, fold, Where(fold, dest), body)
  {
    TempIsTemp(fold, dest);
    hide Intact, UploadState, Where, IsTemp;
    forall i | n <= i < |h|
      ensures Intact(h[i], ledger, fold) || Intact(h[i], ledger[Where(fold, dest) := body], fold)
    {
      IntactAfter(h[i], t0, ledger, fold, Where(fold, dest), Where(fold, TempOf(dest)), body);
    }
  }

  lemma UploadReady(s: Option<Session>, info: FileInfo, ip: string, sid: string, fid: string, token: string, p: Policy)
    requires GateOf(s, ip, sid, fid, token) == Pass(info) && Sized(s) && PlainNames(s, p)
    ensures s.Some? && s.value.id == sid && fid in s.value.files && s.value.files[fid].info == info && info.size >= 0
    ensures !s.value.files[fid].received
    ensures p.resolve(info.fileName).Some? ==> !IsTemp(p.fold, Where(p.fold, p.resolve(info.fileName).value))
  {
    hide IsTemp, Where;
  }

  lemma StillSized(s: Option<Session>, sid: string, fid: string, dest: Path)
    requires Sized(s)
    ensures Sized(Marked(s, sid, fid, dest))
  {
  }

  lemma NothingHappened(a: Snap, b: Snap, p: Policy)
    requires Sane(a, p) && b.session == a.session && b.issued == a.issued && b.ledger == a.ledger && Intact(b.tree, b.ledger, p.fold)
    ensures Follows(a, b, p)
  {
    hide Intact, Backed;
  }

  lemma UploadFollows(a: Snap, s: Option<Session>, t: Tree, p: Policy, sid: string, fid: string, dest: Path, body: Bytes)
    requires Sane(a, p) && a.session.Some? && a.session.value.id == sid && fid in a.session.value.files
    requires !a.session.value.files[fid].received && s == Marked(a.session, sid, fid, dest)
    requires Accepts(p, a.session.value.files[fid].info, body) && Intact(t, a.ledger[Where(p.fold, dest) := body], p.fold)
    ensures var d := Where(p.fold, dest);
            Follows(a, Snap(s, a.issued, t, a.ledger[d := body]), p) <==>
              OnlyThere(a.session.value, fid, d, p.fold) && (d in a.ledger ==> a.ledger[d] == body)
  {
    hide Intact, Backed, Accepts, Where;
    MarkedBacked(a.session, a.ledger, p, sid, fid, dest, body);
    var d, b := Where(p.fold, dest), Snap(s, a.issued, t, a.ledger[Where(p.fold, dest) := body]);
    assert KeepsReceived(a.session.value, s.value, a.issued);
    assert d in b.ledger && b.ledger[d] == body;
  }

  lemma NotYetAccepted(t: Tree, ledger: Ledger, fold: char -> char, d: Path)
    requires Intact(t, ledger, fold)
    ensures d !in t ==> d !in ledger
  {
  }

  lemma PrepareFollows(a: Sys, b: Sys, req: Request, reply: Reply, t: Tree, ledger: Ledger, p: Policy)
    requires Sane(Snap(a.session, a.issued, t, ledger), p) && Backed(b.session, ledger, p)
    requires Step(a, Prepare(req, reply), b, p.safe)
    requires b.session.Some? ==> b.session.value.id in b.issued
    ensures Follows(Snap(a.session, a.issued, t, ledger), Snap(b.session, b.issued, t, ledger), p)
  {
    hide Intact, Backed;
    var now :| a.clock <= now <= b.clock && PrepareAt(a, b, req, reply, p.safe, now);
  }

  /** When nothing outside fails, a place is refused if and only if something other than a directory is
      above it, or something other than a file where the temporary file would go. */
  lemma RefusedPlaces(p: Policy, t: Tree, place: Place, info: FileInfo, body: Bytes)
    ensures Judged(p, t, place, info, body) == CannotCreate <==>
              || (exists d :: d in t && !t[d].Dir? && d < Where(p.fold, place))
              || TempBlocked(t, p, FreePlace(t, p.fold, place, 0))
  {
    CandidatesBeside(p.fold, place, 0);
    hide Where, FreePlace, TempBlocked;
    var w := Where(p.fold, place);
    forall d | d in t && !t[d].Dir? && d < w
      ensures Obstructed(t, Parent(w))
    {
      PrefixSlice(d, w);
      assert Parent(w)[..|d|] == w[..|d|];
    }
    forall k | 0 <= k <= |Parent(w)| && Parent(w)[..k] in t && !t[Parent(w)[..k]].Dir?
      ensures exists d :: d in t && !t[d].Dir? && d < w
    {
      var d := Parent(w)[..k];
      assert d == w[..k];
      PrefixSlice(d, w);
    }
  }

  /** When nothing outside fails, an upload is saved exactly if the gate lets it pass, its name resolves, only
      directories are above its place, neither a directory is at the place chosen nor anything but a file at
      the temporary name, and the body has the declared length and, where digests are verified and one is
      declared, that digest. */
  lemma SavedExactly(p: Policy, t: Tree, gate: Gate, body: Bytes)
    ensures Answer(p, t, gate, body) == Saved <==>
              && gate.Pass? && p.resolve(gate.info.fileName).Some?
              && var place := p.resolve(gate.info.fileName).value;
                 var dest := FreePlace(t, p.fold, place, 0);
                 && (forall d :: d in t && d < Where(p.fold, place) ==> t[d].Dir?)
                 && (Where(p.fold, dest) in t ==> !t[Where(p.fold, dest)].Dir?)
                 && (Where(p.fold, TempOf(dest)) in t ==> t[Where(p.fold, TempOf(dest))].File?)
                 && |body| == gate.info.size
                 && (p.verify && gate.info.sha256.Some? && gate.info.sha256.value != "" ==>
                       p.digest(body) == p.tidy(gate.info.sha256.value))
  {
    hide Where, FreePlace, TempOf;
    if gate.Pass? && p.resolve(gate.info.fileName).Some? {
      RefusedPlaces(p, t, p.resolve(gate.info.fileName).value, gate.info, body);
      hide Obstructed;
    }
  }

  /** And the reason given for not saving it is the true one. */
  lemma ReasonExactly(p: Policy, t: Tree, gate: Gate, body: Bytes)
    ensures Answer(p, t, gate, body) == Refused <==> gate.Forbidden?
    ensures Answer(p, t, gate, body) == AlreadyReceived <==> gate.AlreadyDone?
    ensures Answer(p, t, gate, body) == BadDestination <==> gate.Pass? && p.resolve(gate.info.fileName).None?
    ensures Answer(p, t, gate, body) == Incomplete ==> gate.Pass? && |body| < gate.info.size
    ensures Answer(p, t, gate, body) == TooLarge ==> gate.Pass? && |body| > gate.info.size
    ensures Answer(p, t, gate, body) == ChecksumMismatch ==>
              && gate.Pass? && |body| == gate.info.size && p.verify && gate.info.sha256.Some? && gate.info.sha256.value != ""
              && p.digest(body) != p.tidy(gate.info.sha256.value)
  {
    hide Where, FreePlace, TempBlocked, Obstructed;
  }

  /** A directory in the way: an upload to it goes beside it. */
  lemma FolderIsSkipped(t: Tree, fold: char -> char, place: Place)
    requires IsDir(t, Where(fold, place))
    ensures Where(fold, FreePlace(t, fold, place, 0)) != Where(fold, place)
  {
    FreePlaceUnused(t, fold, place, 0);
    var dest, n := FreePlace(t, fold, place, 0), Last(place);
    if Where(fold, dest) in t {
      assert dest == Fallback(place) by { FreePlaceLast(t, fold, place, 0); }
      ExtFits(n);
      assert |Last(dest)| == |n| + 9;
      assert Where(fold, dest)[|dest| - 1] == FoldName(fold, Last(dest)) && Where(fold, place)[|place| - 1] == FoldName(fold, n);
    }
  }

  lemma {:induction false} FreePlaceLast(t: Tree, fold: char -> char, p: Place, i: nat)
    requires i <= TRIES
    ensures Where(fold, FreePlace(t, fold, p, i)) in t ==> FreePlace(t, fold, p, i) == Fallback(p)
    ensures (forall k :: i <= k < TRIES ==> Where(fold, Candidate(p, k)) in t) ==> FreePlace(t, fold, p, i) == Fallback(p)
    decreases TRIES - i
  {
    hide Where, Candidate, Fallback;
    if i < TRIES { FreePlaceLast(t, fold, p, i + 1); }
  }

  /** Such a case: with `a` saved, nothing can be received as `a/b`. */
  lemma SavedFileBlocks(p: Policy, info: FileInfo, body: Bytes) returns (t: Tree, ledger: Ledger, place: Place)
    requires Folding(p.fold) && p.fold('a') == 'a'
    ensures ParentClosed(t) && Intact(t, ledger, p.fold) && Judged(p, t, place, info, body) == CannotCreate
    ensures !IsTemp(p.fold, Where(p.fold, place))
  {
    hide Judged, FreePlace, TempBlocked;
    var d: Path := ["a"];
    place := ["a", "b"];
    t := map[[] := Dir, d := File([], 0, 0)];
    ledger := map[d := []];
    TwoNames(p.fold);
    hide Where, Folding, IsTemp;
    RefusedPlaces(p, t, place, info, body);
    assert d in t && !t[d].Dir?;
  }

  lemma TwoNames(fold: char -> char)
    requires fold('a') == 'a'
    ensures ["a"] < Where(fold, ["a", "b"]) && !IsTemp(fold, ["a"]) && !IsTemp(fold, Where(fold, ["a", "b"]))
  {
    var w := Where(fold, ["a", "b"]);
    assert w[0] == FoldName(fold, "a") == "a" && |w[1]| == 1;
    assert w[..1] == ["a"];
    PrefixSlice(["a"], w);
  }

  /** A directory in which every candidate and the last resort hold accepted files: the next upload to
      that name is accepted and replaces one of them. */
  lemma NoNameLeft(p: Policy, name: Name, info: FileInfo, body: Bytes) returns (t: Tree, ledger: Ledger)
    requires Folding(p.fold) && !IsTemp(p.fold, Where(p.fold, [name])) && Accepts(p, info, body)
    ensures ParentClosed(t) && Intact(t, ledger, p.fold) && Judged(p, t, [name], info, body) == Saved
    ensures Where(p.fold, FreePlace(t, p.fold, [name], 0)) in ledger
  {
    hide Where, Candidate, Fallback, IsTemp, Folding, Accepts, Judged, Variant, ParentClosed, Intact, FreePlace;
    var place: Place := [name];
    var taken := (set i | 0 <= i < TRIES :: Where(p.fold, Candidate(place, i))) + {Where(p.fold, Fallback(place))};
    t := map q | q in taken + {[]} :: if q == [] then Dir else File([], 0, 0);
    ledger := map q | q in taken :: [];
    TopPlace(p, place);
    TopPlain(p, place, taken);
    TakenTree(t, ledger, taken, p.fold);
    FullAnswer(p, t, place, info, body);
  }

  lemma TakenTree(t: Tree, ledger: Ledger, taken: set<Path>, fold: char -> char)
    requires t.Keys == taken + {[]} && ledger.Keys == taken && t[[]] == Dir
    requires forall q :: q in taken ==> q != [] && Parent(q) == [] && !IsTemp(fold, q) && t[q] == File([], 0, 0) && ledger[q] == []
    ensures ParentClosed(t) && Intact(t, ledger, fold)
  {
    hide IsTemp;
  }

  lemma TopPlace(p: Policy, place: Place)
    requires |place| == 1
    ensures Parent(Where(p.fold, place)) == []
  {
  }

  lemma TopPlain(p: Policy, place: Place, taken: set<Path>)
    requires Folding(p.fold) && !IsTemp(p.fold, Where(p.fold, place)) && Parent(Where(p.fold, place)) == []
    requires forall q :: q in taken ==> q == Where(p.fold, Fallback(place)) || exists i :: 0 <= i < TRIES && q == Where(p.fold, Candidate(place, i))
    ensures forall q :: q in taken ==> q != [] && Parent(q) == [] && !IsTemp(p.fold, q)
  {
    hide Where, Candidate, Fallback, IsTemp, Folding;
    forall q | q in taken
      ensures q != [] && Parent(q) == [] && !IsTemp(p.fold, q)
    {
      var i := 0;
      if q != Where(p.fold, Fallback(place)) { i :| 0 <= i < TRIES && q == Where(p.fold, Candidate(place, i)); }
      CandidatesBeside(p.fold, place, i);
      NamesPlain(p.fold, place, i);
    }
  }

  lemma FullAnswer(p: Policy, t: Tree, place: Place, info: FileInfo, body: Bytes)
    requires Accepts(p, info, body) && Parent(Where(p.fold, place)) == [] && IsDir(t, [])
    requires forall q :: q in t && q != [] ==> t[q].File? && !IsTemp(p.fold, q)
    requires forall k :: 0 <= k < TRIES ==> Where(p.fold, Candidate(place, k)) in t
    ensures Judged(p, t, place, info, body) == Saved && FreePlace(t, p.fold, place, 0) == Fallback(place)
  {
    hide Where, Candidate, Fallback, IsTemp;
    FreePlaceLast(t, p.fold, place, 0);
    FreePlaceBeside(t, p.fold, place, 0);
    TempIsTemp(p.fold, FreePlace(t, p.fold, place, 0));
  }
}
