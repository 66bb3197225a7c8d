/** What senders rely on, said of the requests and replies of a run alone. */
module SessionLaws {
  import opened Options
  import opened FileTree
  import opened PeerTable
  import opened SessionSteps

  ghost predicate Opens(act: Action) { act.Prepare? && act.reply.Accepted? }

  /** Step `i` opened a session, and no step since has opened another before step `k`. */
  ghost predicate Opened(acts: seq<Action>, i: nat, k: nat) {
    i < k <= |acts| && Opens(acts[i]) && forall m :: i < m < k ==> !Opens(acts[m])
  }

  ghost predicate CancelledSince(acts: seq<Action>, i: nat, k: nat, sid: string)
    requires k <= |acts|
  {
    exists m :: i < m < k && acts[m] == Cancel(sid)
  }

  ghost predicate MarkedSince(acts: seq<Action>, i: nat, k: nat, sid: string, fid: string)
    requires k <= |acts|
  {
    exists m :: i < m < k && Marks(acts[m], sid, fid)
  }

  /** The session as the opening request and reply have it, but for what happened since. */
  ghost predicate AsOpened(s: Session, open: Action)
    requires Opens(open)
  {
    && s.id == open.reply.id && s.senderIP == open.req.ip && s.senderFingerprint == open.req.fingerprint
    && s.files.Keys == open.req.files.Keys == open.reply.tokens.Keys
    && forall fid :: fid in s.files ==>
         && s.files[fid].token == open.reply.tokens[fid]
         && open.req.files[fid].id in {"", fid} && s.files[fid].info == open.req.files[fid].(id := fid)
  }

  ghost predicate Told(acts: seq<Action>, i: nat, k: nat, s: Session)
    requires Opened(acts, i, k)
  {
    && AsOpened(s, acts[i]) && (s.cancelled <==> CancelledSince(acts, i, k, s.id))
    && forall fid :: fid in s.files ==> (s.files[fid].received <==> MarkedSince(acts, i, k, s.id, fid))
  }

  lemma OpenStep(a: Sys, act: Action, b: Sys, safe: string -> bool)
    requires Step(a, act, b, safe) && Opens(act)
    ensures b.session.Some? && AsOpened(b.session.value, act)
    ensures !b.session.value.cancelled && forall fid :: fid in b.session.value.files ==> !b.session.value.files[fid].received
    ensures a.clock <= b.session.value.createdAt <= b.clock
    ensures b.session.value.id !in a.issued && forall fid :: fid in act.reply.tokens ==> act.reply.tokens[fid] !in a.issued
  {
    var now :| a.clock <= now <= b.clock && PrepareAt(a, b, act.req, act.reply, safe, now);
  }

  /** What a step does to the session, when it opens no other. */
  lemma OtherStep(a: Sys, act: Action, b: Sys, safe: string -> bool)
    requires Step(a, act, b, safe) && !Opens(act)
    ensures b.session == match act
                         case Mark(sid, fid, dest) => Marked(a.session, sid, fid, dest)
                         case Cancel(sid) => Cancelled(a.session, sid)
                         case _ => a.session
  {
    if act.Prepare? {
      var now :| a.clock <= now <= b.clock && PrepareAt(a, b, act.req, act.reply, safe, now);
    }
  }

  lemma SinceStep(acts: seq<Action>, i: nat, k: nat, sid: string)
    requires i < k < |acts|
    ensures CancelledSince(acts, i, k + 1, sid) <==> CancelledSince(acts, i, k, sid) || acts[k] == Cancel(sid)
    ensures forall fid :: MarkedSince(acts, i, k + 1, sid, fid) <==> MarkedSince(acts, i, k, sid, fid) || Marks(acts[k], sid, fid)
  {
  }

  /** The session in force is told by the run: it is the one last opened, with the identifier and tokens
      of the reply and the files of the request; it is cancelled exactly if it has been cancelled since,
      and a file is received exactly if it has been marked since. */
  lemma {:induction false} SessionTold(states: seq<Sys>, acts: seq<Action>, safe: string -> bool, i: nat, k: nat)
    requires Run(states, acts, safe) && Opened(acts, i, k)
    ensures states[k].session.Some? && Told(acts, i, k, states[k].session.value)
    ensures states[i].clock <= states[k].session.value.createdAt <= states[i + 1].clock
    decreases k
  {
    hide Step, AsOpened, Told, Opens;
    assert Step(states[k - 1], acts[k - 1], states[k], safe);
    if k == i + 1 {
      OpenStep(states[i], acts[i], states[k], safe);
      ToldStart(acts, i, states[k].session.value);
    } else {
      SessionTold(states, acts, safe, i, k - 1);
      OtherStep(states[k - 1], acts[k - 1], states[k], safe);
      ToldStep(acts, i, k - 1, states[k - 1].session, states[k].session);
    }
  }

  lemma ToldStart(acts: seq<Action>, i: nat, s: Session)
    requires Opened(acts, i, i + 1) && AsOpened(s, acts[i]) && !s.cancelled && forall fid :: fid in s.files ==> !s.files[fid].received
    ensures Told(acts, i, i + 1, s)
  {
    hide AsOpened;
  }

  lemma ToldStep(acts: seq<Action>, i: nat, k: nat, s: Option<Session>, t: Option<Session>)
    requires Opened(acts, i, k) && Opened(acts, i, k + 1) && s.Some? && Told(acts, i, k, s.value)
    requires t == match acts[k]
                  case Mark(sid, fid, dest) => Marked(s, sid, fid, dest)
                  case Cancel(sid) => Cancelled(s, sid)
                  case _ => s
    ensures t.Some? && Told(acts, i, k + 1, t.value) && t.value.createdAt == s.value.createdAt
  {
    hide AsOpened, CancelledSince, MarkedSince, Marked, Cancelled;
    SinceStep(acts, i, k, s.value.id);
    StillAsOpened(s, acts[k], t, acts[i]);
  }

  lemma StillAsOpened(s: Option<Session>, act: Action, t: Option<Session>, open: Action)
    requires s.Some? && Opens(open) && AsOpened(s.value, open)
    requires t == match act
                  case Mark(sid, fid, dest) => Marked(s, sid, fid, dest)
                  case Cancel(sid) => Cancelled(s, sid)
                  case _ => s
    ensures t.Some? && AsOpened(t.value, open) && t.value.createdAt == s.value.createdAt
    ensures t.value.id == s.value.id && t.value.files.Keys == s.value.files.Keys
    ensures t.value.cancelled <==> s.value.cancelled || act == Cancel(s.value.id)
    ensures forall fid :: fid in s.value.files ==> (t.value.files[fid].received <==> s.value.files[fid].received || Marks(act, s.value.id, fid))
  {
    hide AsOpened;
    SameButState(s, act, t);
    assert AsOpened(t.value, open) by { StillSame(s.value, t.value, open); }
  }

  /** The two sessions differ in what has been received and whether they are cancelled, at most. */
  ghost predicate SameTerms(s: Session, t: Session) {
    && t.id == s.id && t.senderIP == s.senderIP && t.senderFingerprint == s.senderFingerprint && t.createdAt == s.createdAt
    && t.files.Keys == s.files.Keys
    && forall fid :: fid in s.files ==> t.files[fid].token == s.files[fid].token && t.files[fid].info == s.files[fid].info
  }

  lemma SameButState(s: Option<Session>, act: Action, t: Option<Session>)
    requires s.Some?
    requires t == match act
                  case Mark(sid, fid, dest) => Marked(s, sid, fid, dest)
                  case Cancel(sid) => Cancelled(s, sid)
                  case _ => s
    ensures t.Some? && SameTerms(s.value, t.value)
    ensures t.value.cancelled <==> s.value.cancelled || act == Cancel(s.value.id)
    ensures forall fid :: fid in s.value.files ==> (t.value.files[fid].received <==> s.value.files[fid].received || Marks(act, s.value.id, fid))
  {
  }

  lemma StillSame(s: Session, t: Session, open: Action)
    requires Opens(open) && AsOpened(s, open) && SameTerms(s, t)
    ensures AsOpened(t, open)
  {
  }

  /** Before any is opened there is none. */
  lemma {:induction false} NoneOpened(states: seq<Sys>, acts: seq<Action>, safe: string -> bool, k: nat)
    requires Run(states, acts, safe) && k < |states| && states[0].session.None? && forall m :: 0 <= m < k ==> !Opens(acts[m])
    ensures states[k].session.None?
  {
    if k > 0 {
      NoneOpened(states, acts, safe, k - 1);
      assert Step(states[k - 1], acts[k - 1], states[k], safe);
      hide Step;
      OtherStep(states[k - 1], acts[k - 1], states[k], safe);
    }
  }

  /** The credentials of an upload are those handed out for the file. */
  ghost predicate Credentials(open: Action, enter: Action)
    requires Opens(open) && enter.Enter?
  {
    && enter.sid == open.reply.id && enter.ip == open.req.ip
    && enter.fid in open.reply.tokens && enter.token == open.reply.tokens[enter.fid]
  }

  /** Who passes the gate: exactly who comes from the address of the sender of the session last opened,
      with its identifier and the token of a file, while neither is the session cancelled nor the file
      received. An upload with the same credentials is told that the file is there once it is received;
      every other one is refused. What passes is the file as requested. */
  lemma GateTold(states: seq<Sys>, acts: seq<Action>, safe: string -> bool, i: nat, k: nat)
    requires Run(states, acts, safe) && Opened(acts, i, k) && k < |acts| && acts[k].Enter?
    ensures var open, enter := acts[i], acts[k];
            && (enter.gate.Pass? <==>
                  Credentials(open, enter) && !CancelledSince(acts, i, k, enter.sid) && !MarkedSince(acts, i, k, enter.sid, enter.fid))
            && (enter.gate.AlreadyDone? <==>
                  Credentials(open, enter) && !CancelledSince(acts, i, k, enter.sid) && MarkedSince(acts, i, k, enter.sid, enter.fid))
            && (enter.gate.Pass? ==> enter.fid in open.req.files && enter.gate.info == open.req.files[enter.fid].(id := enter.fid))
  {
    SessionTold(states, acts, safe, i, k);
    assert Step(states[k], acts[k], states[k + 1], safe);
    hide CancelledSince, MarkedSince, Run, Opened;
  }

  /** While none has been opened, every upload is refused and no request to send is held. */
  lemma NobodyYet(states: seq<Sys>, acts: seq<Action>, safe: string -> bool, k: nat)
    requires Run(states, acts, safe) && k < |acts| && states[0].session.None? && forall m :: 0 <= m < k ==> !Opens(acts[m])
    ensures acts[k].Enter? ==> acts[k].gate == Forbidden
    ensures acts[k].Prepare? ==> !Held(acts[k].reply)
  {
    NoneOpened(states, acts, safe, k);
    StepOf(states, acts, safe, k);
  }

  /** A received file is where the last upload of it put it. */
  lemma {:induction false} PlaceTold(states: seq<Sys>, acts: seq<Action>, safe: string -> bool, i: nat, m: nat, k: nat, fid: string)
    requires Run(states, acts, safe) && Opened(acts, i, k) && i < m < k && fid in acts[i].reply.tokens
    requires Marks(acts[m], acts[i].reply.id, fid) && !MarkedSince(acts, m, k, acts[i].reply.id, fid)
    ensures HasIt(states[k], acts[i].reply.id, fid) && PlaceOf(states[k], fid) == Some(acts[m].dest)
    decreases k
  {
    hide Step, Told;
    OpenedBefore(acts, i, k);
    StepOf(states, acts, safe, k - 1);
    HoldsOpened(states, acts, safe, i, k - 1, fid);
    HoldsOpened(states, acts, safe, i, k, fid);
    if k == m + 1 {
      MarkedNow(states[m], acts[m], states[k], safe, acts[i].reply.id, fid);
    } else {
      PlaceTold(states, acts, safe, i, m, k - 1, fid);
      RunKnown(states, acts, safe, k - 1, k - 1);
      PlaceStep(states[k - 1], acts[k - 1], states[k], safe, acts[i].reply.id, fid);
    }
  }

  lemma OpenedBefore(acts: seq<Action>, i: nat, k: nat)
    requires Opened(acts, i, k)
    ensures forall m :: i < m <= k ==> Opened(acts, i, m)
  {
  }

  lemma StepOf(states: seq<Sys>, acts: seq<Action>, safe: string -> bool, k: nat)
    requires Run(states, acts, safe) && k < |acts|
    ensures Step(states[k], acts[k], states[k + 1], safe)
  {
  }

  lemma HoldsOpened(states: seq<Sys>, acts: seq<Action>, safe: string -> bool, i: nat, k: nat, fid: string)
    requires Run(states, acts, safe) && Opened(acts, i, k) && fid in acts[i].reply.tokens
    ensures Holds(states[k], acts[i].reply.id, fid)
  {
    SessionTold(states, acts, safe, i, k);
  }

  lemma MarkedNow(a: Sys, act: Action, b: Sys, safe: string -> bool, sid: string, fid: string)
    requires Step(a, act, b, safe) && Marks(act, sid, fid) && Holds(a, sid, fid)
    ensures HasIt(b, sid, fid) && PlaceOf(b, fid) == Some(act.dest)
  {
  }

  /** The same files were asked for: as many, under the same identifiers, with the same name, size, type
      and digest; an identifier may be left out of the metadata. */
  ghost predicate SameAsked(first: Request, req: Request) {
    && req.files.Keys == first.files.Keys
    && forall fid :: fid in req.files ==>
         && req.files[fid].id in {"", fid} && req.files[fid].fileName == first.files[fid].fileName
         && req.files[fid].size == first.files[fid].size && req.files[fid].fileType == first.files[fid].fileType
         && req.files[fid].sha256 == first.files[fid].sha256
  }

  /** A file is still to come, and nobody has cancelled. */
  ghost predicate Unfinished(acts: seq<Action>, i: nat, k: nat)
    requires Opened(acts, i, k)
  {
    !CancelledSince(acts, i, k, acts[i].reply.id) &&
    exists fid :: fid in acts[i].reply.tokens && !MarkedSince(acts, i, k, acts[i].reply.id, fid)
  }

  ghost predicate Proper(fi: FileInfo, fid: string, safe: string -> bool) {
    fi.id in {"", fid} && fi.size >= 0 && safe(fi.fileName)
  }

  /** Turned away, or given the old session again. */
  predicate Held(reply: Reply) { reply.Conflict? || reply.Replayed? }

  lemma MatchesMeans(s: Session, open: Action, req: Request)
    requires Opens(open) && AsOpened(s, open)
    ensures SameFiles(s, req.files) <==> SameAsked(open.req, req)
    ensures Tokens(s) == open.reply.tokens
    ensures AllReceived(s) <==> forall fid :: fid in open.reply.tokens ==> s.files[fid].received
  {
    if SameFiles(s, req.files) {
      forall fid | fid in req.files
        ensures Matches(s.files[fid].info, Named(fid, req.files[fid]))
      {
      }
    }
  }

  lemma ProperMeans(files: map<string, FileInfo>, safe: string -> bool)
    ensures ValidFiles(files, safe) <==> forall fid :: fid in files ==> Proper(files[fid], fid, safe)
  {
    forall fid | fid in files
      ensures (Named(fid, files[fid]).id == fid && files[fid].size >= 0 && safe(files[fid].fileName)) <==> Proper(files[fid], fid, safe)
    {
    }
  }

  /** How a request to send is answered while a session has been opened. It is held exactly while a file is
      still to come, nobody has cancelled, and the session is less than thirty minutes old, up to the
      moments at which the two clocks are read. Held, it is given the old session again exactly if it comes
      from the same address and, but for case, the same fingerprint and asks for the same files; otherwise
      it is turned away. Not held, it opens a session only if its files are proper, and is bad only if not. */
  lemma PrepareTold(states: seq<Sys>, acts: seq<Action>, safe: string -> bool, i: nat, k: nat)
    requires Run(states, acts, safe) && Opened(acts, i, k) && k < |acts| && acts[k].Prepare?
    ensures Held(acts[k].reply) ==> Unfinished(acts, i, k) && states[k].clock - states[i + 1].clock < 30 * 60 * 1_000_000_000
    ensures Unfinished(acts, i, k) && states[k + 1].clock - states[i].clock < 30 * 60 * 1_000_000_000 ==> Held(acts[k].reply)
    ensures Held(acts[k].reply) ==>
              (acts[k].reply.Replayed? <==>
                 && acts[k].req.ip == acts[i].req.ip && EqualFold(acts[i].req.fingerprint, acts[k].req.fingerprint)
                 && SameAsked(acts[i].req, acts[k].req))
    ensures acts[k].reply.Replayed? ==> acts[k].reply.id == acts[i].reply.id && acts[k].reply.tokens == acts[i].reply.tokens
    ensures acts[k].reply.Accepted? ==> forall fid :: fid in acts[k].req.files ==> Proper(acts[k].req.files[fid], fid, safe)
    ensures acts[k].reply.BadRequest? ==> exists fid :: fid in acts[k].req.files && !Proper(acts[k].req.files[fid], fid, safe)
  {
    hide SameAsked, Proper, ValidFiles, SameFiles, AsOpened, CancelledSince, MarkedSince, AllReceived, EqualFold, Tokens;
    SessionTold(states, acts, safe, i, k);
    StepOf(states, acts, safe, k);
    var s := states[k].session.value;
    MatchesMeans(s, acts[i], acts[k].req);
    ProperMeans(acts[k].req.files, safe);
    IdOf(s, acts[i]);
    hide Run, Opened;
  }

  lemma IdOf(s: Session, open: Action)
    requires Opens(open) && AsOpened(s, open)
    ensures s.id == open.reply.id && s.files.Keys == open.reply.tokens.Keys
    ensures s.senderIP == open.req.ip && s.senderFingerprint == open.req.fingerprint
  {
  }

  /** Cancelling, or the last file, frees the server: the next request to send is not held, from anyone. */
  lemma SenderFreed(states: seq<Sys>, acts: seq<Action>, safe: string -> bool, i: nat, k: nat)
    requires Run(states, acts, safe) && Opened(acts, i, k) && k < |acts| && acts[k].Prepare?
    requires || (exists m :: i < m < k && acts[m] == Cancel(acts[i].reply.id))
             || forall fid :: fid in acts[i].reply.tokens ==> exists m :: i < m < k && Marks(acts[m], acts[i].reply.id, fid)
    requires forall fid :: fid in acts[k].req.files ==> Proper(acts[k].req.files[fid], fid, safe)
    ensures acts[k].reply.Accepted? || acts[k].reply.InternalError?
  {
    PrepareTold(states, acts, safe, i, k);
    hide Run, Proper, SameAsked, EqualFold;
  }

  /** No upload to a session that was cancelled passes the gate ever after. */
  lemma CancelTold(states: seq<Sys>, acts: seq<Action>, safe: string -> bool, h: nat, i: nat, k: nat, fid: string)
    requires Run(states, acts, safe) && h < i < k < |acts| && Opens(acts[h]) && acts[i] == Cancel(acts[h].reply.id)
    ensures !Passed(acts[k], acts[h].reply.id, fid)
  {
    var sid := acts[h].reply.id;
    SessionTold(states, acts, safe, h, h + 1);
    RunKnown(states, acts, safe, h + 1, h + 1);
    RunKnown(states, acts, safe, h + 1, i);
    SessionSafety(states, acts, safe, h + 1, i);
    StepOf(states, acts, safe, i);
    StepOf(states, acts, safe, k);
    assert states[h + 1].session.value.id == sid;
    if states[i].session.value.id == sid {
      assert states[i + 1].session.value.cancelled;
      if acts[k].Enter? { NoPassAfterCancel(states, acts, safe, i + 1, k, sid, acts[k].ip, fid, acts[k].token); }
    } else {
      SessionSafety(states, acts, safe, i, k);
    }
  }

  /** Identifiers and tokens are new each time, and no two files of a session share a token. */
  lemma CredentialsFresh(states: seq<Sys>, acts: seq<Action>, safe: string -> bool, i: nat, k: nat)
    requires Run(states, acts, safe) && i <= k < |acts| && Opens(acts[i]) && Opens(acts[k])
    ensures i < k ==> acts[k].reply.id != acts[i].reply.id
    ensures i < k ==> acts[k].reply.tokens.Values !! acts[i].reply.tokens.Values
    ensures forall f, g :: f in acts[k].reply.tokens && g in acts[k].reply.tokens && f != g ==> acts[k].reply.tokens[f] != acts[k].reply.tokens[g]
  {
    StepOf(states, acts, safe, i);
    StepOf(states, acts, safe, k);
    RunKnown(states, acts, safe, if i < k then i + 1 else k, k);
    hide Run;
    IssuedBy(states[i], acts[i], states[i + 1], safe);
    IssuedBy(states[k], acts[k], states[k + 1], safe);
  }

  lemma IssuedBy(a: Sys, act: Action, b: Sys, safe: string -> bool)
    requires Step(a, act, b, safe) && Opens(act)
    ensures act.reply.id !in a.issued && act.reply.id in b.issued
    ensures forall t :: t in act.reply.tokens.Values ==> t !in a.issued && t in b.issued
    ensures forall f, g :: f in act.reply.tokens && g in act.reply.tokens && f != g ==> act.reply.tokens[f] != act.reply.tokens[g]
  {
    var now :| a.clock <= now <= b.clock && PrepareAt(a, b, act.req, act.reply, safe, now);
  }
}
