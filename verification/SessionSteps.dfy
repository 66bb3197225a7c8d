/** The receive session as a state machine: one step per region under the server's lock. */
module SessionSteps {
  import opened Options
  import opened FileTree
  import opened PeerTable

  const THIRTY_MINUTES: int := 1_800_000_000_000

  /** `extras` are the parts of the metadata that are stored but never compared. */
  datatype FileInfo = FileInfo(id: string, fileName: string, size: int, fileType: string, sha256: Option<string>, extras: string)

  datatype FileState = FileState(info: FileInfo, token: string, received: bool, savedAs: Path)

  datatype Session = Session(id: string, senderIP: string, senderFingerprint: string, createdAt: int,
                             files: map<string, FileState>, cancelled: bool)

  datatype Request = Request(ip: string, fingerprint: string, files: map<string, FileInfo>)

  datatype Reply = Accepted(id: string, tokens: map<string, string>) | Replayed(id: string, tokens: map<string, string>)
                 | Conflict | BadRequest | InternalError

  function Named(id: string, fi: FileInfo): FileInfo {
    if fi.id == "" then fi.(id := id) else fi
  }

  predicate Matches(e: FileInfo, incoming: FileInfo) {
    && incoming.id == e.id && incoming.fileName == e.fileName && incoming.size == e.size
    && incoming.fileType == e.fileType && incoming.sha256 == e.sha256
  }

  /** The same files under the same names, with the same compared fields. */
  predicate SameFiles(s: Session, files: map<string, FileInfo>) {
    && s.files.Keys == files.Keys
    && forall id :: id in files ==> Matches(s.files[id].info, Named(id, files[id]))
  }

  predicate AllReceived(s: Session) {
    forall id :: id in s.files ==> s.files[id].received
  }

  /** A session that still blocks other senders. */
  predicate Live(s: Option<Session>, now: int) {
    s.Some? && !s.value.cancelled && !AllReceived(s.value) && now - s.value.createdAt < THIRTY_MINUTES
  }

  predicate FromSender(s: Session, req: Request) {
    && s.senderIP == req.ip && EqualFold(s.senderFingerprint, req.fingerprint) && SameFiles(s, req.files)
  }

  function Tokens(s: Session): map<string, string> {
    map id | id in s.files :: s.files[id].token
  }

  predicate ValidFiles(files: map<string, FileInfo>, safe: string -> bool) {
    forall id :: id in files ==> Named(id, files[id]).id == id && files[id].size >= 0 && safe(files[id].fileName)
  }

  /** A session just created for a request. */
  ghost predicate CreatedFor(s: Session, req: Request) {
    && s.senderIP == req.ip && s.senderFingerprint == req.fingerprint && !s.cancelled
    && s.files.Keys == req.files.Keys
    && forall id :: id in s.files ==> s.files[id].info == Named(id, req.files[id]) && !s.files[id].received
  }

  /** The whole state under the lock; `issued` are the random identifiers handed out so far. */
  datatype Sys = Sys(session: Option<Session>, issued: set<string>, clock: int)

  ghost predicate PrepareStep(a: Sys, b: Sys, req: Request, reply: Reply, safe: string -> bool) {
    exists now :: a.clock <= now <= b.clock && PrepareAt(a, b, req, reply, safe, now)
  }

  /** Tokens are new, and no two files share one. */
  ghost predicate FreshTokens(files: map<string, FileState>, before: set<string>, after: set<string>) {
    && (forall id :: id in files ==> files[id].token !in before && files[id].token in after)
    && (forall id, id' :: id in files && id' in files && id != id' ==> files[id].token != files[id'].token)
  }

  /** `now` is the clock reading the age of the old session is judged by. */
  ghost predicate PrepareAt(a: Sys, b: Sys, req: Request, reply: Reply, safe: string -> bool, now: int) {
    && a.issued <= b.issued && a.clock <= now <= b.clock
    && if Live(a.session, now) then
         && b.session == a.session
         && reply == if FromSender(a.session.value, req) then Replayed(a.session.value.id, Tokens(a.session.value)) else Conflict
       else if reply.Accepted? then
         && ValidFiles(req.files, safe)
         && b.session.Some? && CreatedFor(b.session.value, req)
         && b.session.value.id !in a.issued && b.session.value.id in b.issued
         && FreshTokens(b.session.value.files, a.issued, b.issued)
         && now <= b.session.value.createdAt <= b.clock
         && reply == Accepted(b.session.value.id, Tokens(b.session.value))
       else
         && b.session == a.session
         && (reply == BadRequest || reply == InternalError)
         && (reply == BadRequest ==> !ValidFiles(req.files, safe))
  }

  datatype Gate = Pass(info: FileInfo) | AlreadyDone | Forbidden

  /** The first locked region of an upload. */
  function GateOf(s: Option<Session>, ip: string, sid: string, fid: string, token: string): Gate {
    if s.None? || s.value.id != sid || s.value.cancelled || ip != s.value.senderIP then Forbidden
    else if fid !in s.value.files || s.value.files[fid].token != token then Forbidden
    else if s.value.files[fid].received then AlreadyDone
    else Pass(s.value.files[fid].info)
  }

  /** The second one. */
  function Marked(s: Option<Session>, sid: string, fid: string, dest: Path): Option<Session> {
    if s.Some? && s.value.id == sid && fid in s.value.files then
      Some(s.value.(files := s.value.files[fid := s.value.files[fid].(received := true, savedAs := dest)]))
    else s
  }

  function Cancelled(s: Option<Session>, sid: string): Option<Session> {
    if s.Some? && s.value.id == sid then Some(s.value.(cancelled := true)) else s
  }

  datatype Action =
    | Prepare(req: Request, reply: Reply)
    | Enter(ip: string, sid: string, fid: string, token: string, gate: Gate)
    | Mark(sid: string, fid: string, dest: Path)
    | Cancel(sid: string)

  /** One locked region of any request, at any time. Marks are not tied to a gate that let them
      pass, so the steps cover every interleaving of uploads. */
  ghost predicate Step(a: Sys, act: Action, b: Sys, safe: string -> bool) {
    && a.clock <= b.clock
    && match act
       case Prepare(req, reply) => PrepareStep(a, b, req, reply, safe)
       case Enter(ip, sid, fid, token, gate) => b.session == a.session && b.issued == a.issued && gate == GateOf(a.session, ip, sid, fid, token)
       case Mark(sid, fid, dest) => b.session == Marked(a.session, sid, fid, dest) && b.issued == a.issued
       case Cancel(sid) => b.session == Cancelled(a.session, sid) && b.issued == a.issued
  }

  /** A run: the states, and the action between each two. */
  ghost predicate Run(states: seq<Sys>, acts: seq<Action>, safe: string -> bool) {
    && |states| == |acts| + 1
    && (states[0].session.Some? ==> states[0].session.value.id in states[0].issued)
    && forall i :: 0 <= i < |acts| ==> Step(states[i], acts[i], states[i + 1], safe)
  }

  /** `s` has grown into `t` without being replaced. */
  ghost predicate Grown(s: Session, t: Session) {
    && t.id == s.id && t.senderIP == s.senderIP && t.senderFingerprint == s.senderFingerprint && t.createdAt == s.createdAt
    && t.files.Keys == s.files.Keys && (s.cancelled ==> t.cancelled)
    && forall id :: id in s.files ==>
         && t.files[id].info == s.files[id].info && t.files[id].token == s.files[id].token
         && (s.files[id].received ==> t.files[id].received)
  }

  /** One step either lets the session grow or replaces it by a new one with a new identifier, and
      it is replaced only if it was cancelled, complete, or at least thirty minutes old. */
  lemma StepSafety(a: Sys, act: Action, b: Sys, safe: string -> bool)
    requires Step(a, act, b, safe) && a.session.Some? && a.session.value.id in a.issued
    ensures b.session.Some? && b.session.value.id in b.issued && a.issued <= b.issued
    ensures Grown(a.session.value, b.session.value) ||
            (&& b.session.value.id !in a.issued && act.Prepare? && act.reply.Accepted?
             && (a.session.value.cancelled || AllReceived(a.session.value) || b.clock - a.session.value.createdAt >= THIRTY_MINUTES))
  {
    if act.Prepare? {
      var now :| a.clock <= now <= b.clock && PrepareAt(a, b, act.req, act.reply, safe, now);
    }
  }

  lemma GrownTrans(s: Session, t: Session, u: Session)
    requires Grown(s, t) && Grown(t, u)
    ensures Grown(s, u)
  {
  }

  /** The initial session is known, so are all later ones. */
  lemma {:induction false} RunKnown(states: seq<Sys>, acts: seq<Action>, safe: string -> bool, i: nat, j: nat)
    requires Run(states, acts, safe) && i <= j < |states|
    ensures states[j].session.Some? ==> states[j].session.value.id in states[j].issued
    ensures states[i].issued <= states[j].issued && states[i].clock <= states[j].clock
    ensures states[i].session.Some? ==> states[j].session.Some?
    decreases j
  {
    if j > 0 {
      RunKnown(states, acts, safe, if i < j then i else i - 1, j - 1);
      assert Step(states[j - 1], acts[j - 1], states[j], safe);
      if states[j - 1].session.Some? {
        hide Step;
        StepSafety(states[j - 1], acts[j - 1], states[j], safe);
      } else {
        FirstSession(states[j - 1], acts[j - 1], states[j], safe);
      }
    }
  }

  lemma FirstSession(a: Sys, act: Action, b: Sys, safe: string -> bool)
    requires Step(a, act, b, safe) && a.session.None?
    ensures b.session.Some? ==> b.session.value.id in b.issued
    ensures a.issued <= b.issued && a.clock <= b.clock
  {
  }

  /** Between two states of a run the session has either grown or been replaced for good: an
      identifier once given up never comes back. So over any interleaving tokens and metadata of a
      session never change, received files stay received, and a cancelled session stays cancelled. */
  lemma {:induction false} SessionSafety(states: seq<Sys>, acts: seq<Action>, safe: string -> bool, i: nat, j: nat)
    requires Run(states, acts, safe) && i <= j < |states| && states[i].session.Some?
    ensures states[j].session.Some?
    ensures Grown(states[i].session.value, states[j].session.value) || states[j].session.value.id !in states[i].issued
    decreases j - i
  {
    RunKnown(states, acts, safe, i, j);
    if i < j {
      RunKnown(states, acts, safe, i, i + 1);
      RunKnown(states, acts, safe, 0, i);
      SessionSafety(states, acts, safe, i + 1, j);
      assert Step(states[i], acts[i], states[i + 1], safe);
      hide Step;
      StepSafety(states[i], acts[i], states[i + 1], safe);
      if Grown(states[i].session.value, states[i + 1].session.value) && Grown(states[i + 1].session.value, states[j].session.value) {
        GrownTrans(states[i].session.value, states[i + 1].session.value, states[j].session.value);
      }
    }
  }

  /** No upload passes the gate of a session after it was cancelled. */
  lemma NoPassAfterCancel(states: seq<Sys>, acts: seq<Action>, safe: string -> bool, i: nat, j: nat,
                          sid: string, ip: string, fid: string, token: string)
    requires Run(states, acts, safe) && i <= j < |states|
    requires states[i].session.Some? && states[i].session.value.id == sid && states[i].session.value.cancelled
    ensures GateOf(states[j].session, ip, sid, fid, token) == Forbidden
  {
    SessionSafety(states, acts, safe, i, j);
    RunKnown(states, acts, safe, i, i);
  }

  /** A mark with the identifier of a replaced session changes nothing. */
  lemma LateMarkHarmless(states: seq<Sys>, acts: seq<Action>, safe: string -> bool, i: nat, j: nat, fid: string, dest: Path)
    requires Run(states, acts, safe) && i <= j < |states| && states[i].session.Some?
    requires states[j].session.Some? ==> !Grown(states[i].session.value, states[j].session.value)
    ensures Marked(states[j].session, states[i].session.value.id, fid, dest) == states[j].session
    ensures Cancelled(states[j].session, states[i].session.value.id) == states[j].session
  {
    SessionSafety(states, acts, safe, i, j);
    RunKnown(states, acts, safe, i, i);
  }

  /** A live session is not replaced by any step that happens while it is live. */
  lemma LiveStays(states: seq<Sys>, acts: seq<Action>, safe: string -> bool, i: nat)
    requires Run(states, acts, safe) && i < |acts| && Live(states[i].session, states[i + 1].clock)
    ensures states[i + 1].session.Some? && Grown(states[i].session.value, states[i + 1].session.value)
  {
    RunKnown(states, acts, safe, i, i);
    assert Step(states[i], acts[i], states[i + 1], safe);
    StepSafety(states[i], acts[i], states[i + 1], safe);
  }

  /** So a session that is live all the time is still there at the end. */
  lemma {:induction false} LiveRun(states: seq<Sys>, acts: seq<Action>, safe: string -> bool, i: nat, j: nat)
    requires Run(states, acts, safe) && i <= j < |states| && states[i].session.Some?
    requires forall k :: i <= k < j ==> Live(states[k].session, states[k + 1].clock)
    ensures states[j].session.Some? && Grown(states[i].session.value, states[j].session.value)
    decreases j - i
  {
    if i < j {
      LiveStays(states, acts, safe, i);
      LiveRun(states, acts, safe, i + 1, j);
      GrownTrans(states[i].session.value, states[i + 1].session.value, states[j].session.value);
    }
  }

  lemma SameRequest(s: Session, t: Session, req: Request)
    requires CreatedFor(s, req) && Grown(s, t)
    ensures FromSender(t, req) && Tokens(t) == Tokens(s)
  {
  }

  /** Repeating the creating request: while its session is live, any number of repeats, with any
      uploads in between, is answered with the same identifier and tokens and changes nothing. */
  lemma ReplayIdempotent(states: seq<Sys>, acts: seq<Action>, safe: string -> bool, i: nat, j: nat, req: Request, b: Sys, reply: Reply)
    requires Run(states, acts, safe) && i < |acts| && i + 1 <= j < |states|
    requires acts[i].Prepare? && acts[i].req == req && acts[i].reply.Accepted?
    requires Step(states[j], Prepare(req, reply), b, safe)
    requires Live(states[j].session, b.clock) && states[j].session.value.id == acts[i].reply.id
    ensures reply == Replayed(acts[i].reply.id, acts[i].reply.tokens) && b.session == states[j].session
  {
    assert Step(states[i], acts[i], states[i + 1], safe);
    var now :| states[i].clock <= now <= states[i + 1].clock && PrepareAt(states[i], states[i + 1], req, acts[i].reply, safe, now);
    var s, t := states[i + 1].session.value, states[j].session.value;
    SessionSafety(states, acts, safe, i + 1, j);
    RunKnown(states, acts, safe, i + 1, i + 1);
    assert Grown(s, t);
    SameRequest(s, t, req);
    var later :| states[j].clock <= later <= b.clock && PrepareAt(states[j], b, req, reply, safe, later);
  }

  /** The file `fid` of session `sid`, and whether it has been received. */
  ghost predicate Holds(a: Sys, sid: string, fid: string) {
    a.session.Some? && a.session.value.id == sid && fid in a.session.value.files
  }

  ghost predicate HasIt(a: Sys, sid: string, fid: string) {
    Holds(a, sid, fid) && a.session.value.files[fid].received
  }

  ghost function PlaceOf(a: Sys, fid: string): Option<Path> {
    if a.session.Some? && fid in a.session.value.files then Some(a.session.value.files[fid].savedAs) else None
  }

  predicate Marks(act: Action, sid: string, fid: string) { act.Mark? && act.sid == sid && act.fid == fid }

  /** The gate let an upload of this file pass. */
  predicate Passed(act: Action, sid: string, fid: string) {
    act.Enter? && act.sid == sid && act.fid == fid && act.gate.Pass?
  }

  /** A run in which every mark ends an upload of its own: `from` names the step at which the gate
      let that upload pass. */
  ghost predicate UploadRun(states: seq<Sys>, acts: seq<Action>, from: seq<nat>, safe: string -> bool) {
    && Run(states, acts, safe) && |from| == |acts|
    && (forall i :: 0 <= i < |acts| && acts[i].Mark? ==> from[i] < i && Passed(acts[from[i]], acts[i].sid, acts[i].fid))
    && (forall i, k :: 0 <= i < k < |acts| && acts[i].Mark? && acts[k].Mark? ==> from[i] != from[k])
  }

  /** A received file's gate is closed for good. */
  lemma NoPassOnceReceived(states: seq<Sys>, acts: seq<Action>, safe: string -> bool, i: nat, k: nat, sid: string, fid: string)
    requires Run(states, acts, safe) && i <= k < |acts| && HasIt(states[i], sid, fid)
    ensures !Passed(acts[k], sid, fid)
  {
    SessionSafety(states, acts, safe, i, k);
    RunKnown(states, acts, safe, i, i);
    assert Step(states[k], acts[k], states[k + 1], safe);
  }

  /** So every upload that is ever marked passed before the first mark. */
  lemma TicketsAreOld(states: seq<Sys>, acts: seq<Action>, from: seq<nat>, safe: string -> bool, m: nat, k: nat, sid: string, fid: string)
    requires UploadRun(states, acts, from, safe) && m < k < |acts| && HasIt(states[m + 1], sid, fid) && Marks(acts[m], sid, fid)
    requires Marks(acts[k], sid, fid)
    ensures from[k] < m && from[k] != from[m] && Passed(acts[from[k]], sid, fid)
  {
    if from[k] > m { NoPassOnceReceived(states, acts, safe, m + 1, from[k], sid, fid); }
  }

  /** One step moves the place only by a mark. */
  lemma PlaceStep(a: Sys, act: Action, b: Sys, safe: string -> bool, sid: string, fid: string)
    requires Step(a, act, b, safe) && HasIt(a, sid, fid) && Holds(b, sid, fid) && sid in a.issued
    ensures HasIt(b, sid, fid)
    ensures PlaceOf(b, fid) == if Marks(act, sid, fid) then Some(act.dest) else PlaceOf(a, fid)
  {
    if act.Prepare? {
      var now :| a.clock <= now <= b.clock && PrepareAt(a, b, act.req, act.reply, safe, now);
    }
  }

  lemma StillHolds(states: seq<Sys>, acts: seq<Action>, safe: string -> bool, i: nat, k: nat, j: nat, sid: string, fid: string)
    requires Run(states, acts, safe) && i <= k <= j < |states| && HasIt(states[i], sid, fid) && Holds(states[j], sid, fid)
    ensures HasIt(states[k], sid, fid) && sid in states[k].issued
  {
    RunKnown(states, acts, safe, i, i);
    RunKnown(states, acts, safe, i, k);
    RunKnown(states, acts, safe, k, k);
    SessionSafety(states, acts, safe, i, k);
    SessionSafety(states, acts, safe, k, j);
  }

  /** A second upload of the file, let through the gate before the first was marked at step `m`, and
      marked at step `k` with another destination. */
  ghost predicate SecondUpload(acts: seq<Action>, from: seq<nat>, m: nat, k: nat, sid: string, fid: string)
    requires |from| == |acts| && m < |acts| && k < |acts|
  {
    && acts[m].Mark? && Marks(acts[k], sid, fid) && acts[k].dest != acts[m].dest
    && from[k] < m && from[k] != from[m] && Passed(acts[from[k]], sid, fid)
  }

  /** Between its (first) mark at step `m` and state `j`, the recorded place of a received file ever
      differs from where the first upload put it if and only if a second upload of it passed the
      gate before that mark and is marked with another destination. */
  lemma SavedAsMoves(states: seq<Sys>, acts: seq<Action>, from: seq<nat>, safe: string -> bool, m: nat, j: nat, sid: string, fid: string)
    requires UploadRun(states, acts, from, safe) && m < j < |states|
    requires Marks(acts[m], sid, fid) && Holds(states[m], sid, fid) && Holds(states[j], sid, fid)
    ensures forall k :: m < k <= j ==> HasIt(states[k], sid, fid)
    ensures (exists k :: m < k <= j && PlaceOf(states[k], fid) != Some(acts[m].dest)) <==>
            (exists k :: m < k < j && SecondUpload(acts, from, m, k, sid, fid))
  {
    assert Step(states[m], acts[m], states[m + 1], safe);
    var d := acts[m].dest;
    assert HasIt(states[m + 1], sid, fid) && PlaceOf(states[m + 1], fid) == Some(d);
    forall k | m < k <= j
      ensures HasIt(states[k], sid, fid) && sid in states[k].issued
    {
      StillHolds(states, acts, safe, m + 1, k, j, sid, fid);
    }
    forall k | m < k < j && Marks(acts[k], sid, fid)
      ensures PlaceOf(states[k + 1], fid) == Some(acts[k].dest)
      ensures acts[k].dest != d ==> SecondUpload(acts, from, m, k, sid, fid)
    {
      assert Step(states[k], acts[k], states[k + 1], safe);
      PlaceStep(states[k], acts[k], states[k + 1], safe, sid, fid);
      TicketsAreOld(states, acts, from, safe, m, k, sid, fid);
    }
    if forall k :: m < k < j ==> !SecondUpload(acts, from, m, k, sid, fid) {
      PlaceStays(states, acts, from, safe, m, j, sid, fid);
    }
  }

  lemma {:induction false} PlaceStays(states: seq<Sys>, acts: seq<Action>, from: seq<nat>, safe: string -> bool, m: nat, j: nat, sid: string, fid: string)
    requires Run(states, acts, safe) && m < j < |states| && acts[m].Mark?
    requires forall k :: m < k <= j ==> HasIt(states[k], sid, fid) && sid in states[k].issued
    requires PlaceOf(states[m + 1], fid) == Some(acts[m].dest)
    requires forall k :: m < k < j && Marks(acts[k], sid, fid) ==> acts[k].dest == acts[m].dest
    ensures forall k :: m < k <= j ==> PlaceOf(states[k], fid) == Some(acts[m].dest)
    decreases j
  {
    if m + 1 < j {
      PlaceStays(states, acts, from, safe, m, j - 1, sid, fid);
      assert Step(states[j - 1], acts[j - 1], states[j], safe);
      PlaceStep(states[j - 1], acts[j - 1], states[j], safe, sid, fid);
    }
  }

  /** Such a run exists, from the empty server on: one prepared file, two uploads of it pass the gate,
      then both are marked. */
  lemma SavedAsCanChange(safe: string -> bool, name: string) returns (states: seq<Sys>, acts: seq<Action>, from: seq<nat>)
    requires safe(name)
    ensures UploadRun(states, acts, from, safe) && |acts| == 5
    ensures states[0] == Sys(None, {}, 0) && acts[0].Prepare? && acts[0].reply.Accepted?
    ensures Marks(acts[3], "s", "f") && Holds(states[3], "s", "f") && Holds(states[5], "s", "f")
    ensures SecondUpload(acts, from, 3, 4, "s", "f") && PlaceOf(states[5], "f") != PlaceOf(states[4], "f")
  {
    var s0, s1, s4, s5 := Sys(None, {}, 0), Prepared(name), MarkedAt(Prepared(name), ["a"]), MarkedAt(MarkedAt(Prepared(name), ["a"]), ["b"]);
    var prepare := Prepare(PreparedFor(name), Accepted("s", Tokens(s1.session.value)));
    var enter := Enter("ip", "s", "f", "t", Pass(s1.session.value.files["f"].info));
    SampleSteps(safe, name);
    PassedWith("s", "f", s1.session.value.files["f"].info);
    hide Step, Prepared, MarkedAt, Holds, PlaceOf, Tokens, Run, UploadRun, Passed, SecondUpload;
    states, acts, from := [s0, s1, s1, s1, s4, s5], [prepare, enter, enter, Mark("s", "f", ["a"]), Mark("s", "f", ["b"])], [0, 0, 0, 1, 2];
    RunOfFive(states, acts, safe);
    TwoUploads(states, acts, from, safe, "s", "f");
  }

  lemma PassedWith(sid: string, fid: string, info: FileInfo)
    ensures Passed(Enter("ip", sid, fid, "t", Pass(info)), sid, fid)
  {
  }

  lemma TwoUploads(states: seq<Sys>, acts: seq<Action>, from: seq<nat>, safe: string -> bool, sid: string, fid: string)
    requires Run(states, acts, safe) && |acts| == 5 && |from| == 5 && from[3] == 1 && from[4] == 2
    requires !acts[0].Mark? && Passed(acts[1], sid, fid) && Passed(acts[2], sid, fid)
    requires Marks(acts[3], sid, fid) && Marks(acts[4], sid, fid) && acts[3].dest != acts[4].dest
    ensures UploadRun(states, acts, from, safe) && SecondUpload(acts, from, 3, 4, sid, fid)
  {
    hide Run;
  }

  lemma RunOfFive(states: seq<Sys>, acts: seq<Action>, safe: string -> bool)
    requires |acts| == 5 && |states| == 6 && states[0].session == None
    requires Step(states[0], acts[0], states[1], safe) && Step(states[1], acts[1], states[2], safe)
    requires Step(states[2], acts[2], states[3], safe) && Step(states[3], acts[3], states[4], safe)
    requires Step(states[4], acts[4], states[5], safe)
    ensures Run(states, acts, safe)
  {
    hide Step;
  }

  function PreparedFor(name: string): Request {
    Request("ip", "", map["f" := FileInfo("f", name, 1, "", None, "")])
  }

  function Prepared(name: string): Sys {
    var files := map["f" := FileState(FileInfo("f", name, 1, "", None, ""), "t", false, [])];
    Sys(Some(Session("s", "ip", "", 0, files, false)), {"s", "t"}, 0)
  }

  function MarkedAt(a: Sys, dest: Path): Sys { a.(session := Marked(a.session, "s", "f", dest)) }

  lemma SampleSteps(safe: string -> bool, name: string)
    requires safe(name)
    ensures var s0, s1 := Sys(None, {}, 0), Prepared(name);
            var s4 := MarkedAt(s1, ["a"]);
            var s5 := MarkedAt(s4, ["b"]);
            && Holds(s1, "s", "f") && Holds(s4, "s", "f") && Holds(s5, "s", "f")
            && PlaceOf(s4, "f") == Some(["a"]) && PlaceOf(s5, "f") == Some(["b"])
            && Step(s0, Prepare(PreparedFor(name), Accepted("s", Tokens(s1.session.value))), s1, safe)
            && Step(s1, Enter("ip", "s", "f", "t", Pass(s1.session.value.files["f"].info)), s1, safe)
            && Step(s1, Mark("s", "f", ["a"]), s4, safe) && Step(s4, Mark("s", "f", ["b"]), s5, safe)
  {
    var s1 := Prepared(name);
    assert PrepareAt(Sys(None, {}, 0), s1, PreparedFor(name), Accepted("s", Tokens(s1.session.value)), safe, 0);
    hide PrepareAt;
  }
}
