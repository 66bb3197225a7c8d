/** The connection wrapper that repairs upload framing below the HTTP parser. */
module UploadCompat {
  import opened Octets
  import opened Options
  import opened HttpText
  import opened FramingHeaders
  import opened HeaderNormalForm
  import opened BodyClassify
  import opened ChunkedCoding
  import opened Decimals

  const MAX_HEADER := 64 * 1024
  const TMP := 4096
  const EXPECT: Bytes := "Expect"
  const POST: Bytes := "POST "
  const CONTINUE: Bytes := "100-continue"

  datatype NetError = Timeout | Broken
  datatype Failure = Network(cause: NetError) | HeaderTooLarge

  /** The peer's byte stream, handed out in pieces of the network's choosing; a read may bring
      bytes and an error together. */
  class Wire {
    var rest: Bytes
    /** Reads that timed out, and reads that failed in another way. */
    ghost var timeouts: nat
    ghost var breaks: nat

    constructor (stream: Bytes)
      ensures rest == stream && timeouts == 0 && breaks == 0
    {
      rest := stream;
      timeouts, breaks := 0, 0;
    }

    method Read(max: nat) returns (data: Bytes, err: Option<NetError>)
      modifies this
      ensures old(rest) == data + rest && |data| <= max
      ensures err.None? && max > 0 ==> data != []
      ensures timeouts == old(timeouts) + (if err == Some(Timeout) then 1 else 0)
      ensures breaks == old(breaks) + (if err == Some(Broken) then 1 else 0)
    {
      assert 0 <= max && 0 <= |rest|;
      var n: nat :| n <= max && n <= |rest|;
      err := *;
      if n == 0 && err.None? { err := Some(Broken); }
      if err == Some(Timeout) { timeouts := timeouts + 1; }
      if err == Some(Broken) { breaks := breaks + 1; }
      data, rest := rest[..n], rest[n..];
    }
  }

  function HeaderField(head: Bytes, name: Bytes): Bytes {
    Lookup(Scanned(head), LowerAscii(name), 1)
  }

  predicate StartsWith(s: Bytes, p: Bytes) { |p| <= |s| && s[..|p|] == p }

  /** The declared size, when the upload is one whose framing needs repair. `route` stands for
      parsing the request line and looking up the session: the file's size if it is positive
      and the request may be repaired. */
  function CandidateSize(head: Bytes, route: Bytes -> Option<nat>): Option<nat> {
    var first := Lines(head)[0];
    if !StartsWith(first, POST) || Trim(HeaderField(head, CL)) !in {"", "0"} || HeaderField(head, TE) != [] then None
    else
      match route(first)
      case None => None
      case Some(n) => if n == 0 then None else Some(n)
  }

  method StreamUploadCompatCandidate(head: Bytes, route: Bytes -> Option<nat>) returns (r: Option<nat>)
    ensures r == CandidateSize(head, route)
  {
    var first := Lines(head)[0];
    if !StartsWith(first, POST) { return None; }
    var cl := HeaderValue(head, CL);
    if Trim(cl) != [] && Trim(cl) != "0" { return None; }
    var te := HeaderValue(head, TE);
    if te != [] { return None; }
    var size := route(first);
    if size.None? || size.value == 0 { return None; }
    return size;
  }

  predicate Expects(head: Bytes) {
    Find(LowerAscii(HeaderField(head, EXPECT)), CONTINUE).Some?
  }

  /** The head sent on, given the head received and the part of the body seen so far. */
  ghost predicate Repaired(sent: Bytes, head: Bytes, prefix: Bytes, route: Bytes -> Option<nat>) {
    match CandidateSize(head, route)
    case None => sent == head
    case Some(n) =>
      if Expects(head) || Mode(prefix) == Raw then Reframed(sent, head, CL, Decimal(n)) else AsChunked(sent, head)
  }

  /** `head` is the head of the stream, `prefix` what was seen of the body when the repair was
      chosen; without a timeout enough was seen to tell. */
  ghost predicate Chosen(input: Bytes, head: Bytes, prefix: Bytes, sent: Bytes, route: Bytes -> Option<nat>, timedOut: bool) {
    && |head| >= 4 && Find(head, MARK) == Some(|head| - 4)
    && StartsWith(input, head + prefix)
    && Repaired(sent, head, prefix, route)
    && (CandidateSize(head, route).Some? && !Expects(head) ==> timedOut || Settled(prefix))
  }

  lemma HeadCut(b: Bytes, end: nat)
    requires Find(b, MARK) == Some(end)
    ensures Find(b[..end + 4], MARK) == Some(end) && b == b[..end + 4] + b[end + 4..]
  {
    var h := b[..end + 4];
    assert h[end..end + 4] == b[end..end + 4];
    forall k: nat | k < end
      ensures !At(h, MARK, k)
    {
      assert !At(b, MARK, k);
      assert k + 4 <= |h| ==> h[k..k + 4] == b[k..k + 4];
    }
    FindIs(h, MARK, end);
  }

  /** The first 65536 bytes hold no end of a head. */
  ghost predicate Headless(input: Bytes) {
    |input| >= 65536 && forall k: nat :: k <= 65532 ==> !At(input, MARK, k)
  }

  ghost predicate Balanced(delivered: Bytes, tail: Bytes, rest: Bytes, sent: Bytes, head: Bytes, input: Bytes) {
    && |head| <= |input| && input[..|head|] == head
    && delivered + tail + rest == sent + input[|head|..]
  }

  lemma FromBuffer(delivered: Bytes, tail: Bytes, n: nat, rest: Bytes, sent: Bytes, head: Bytes, input: Bytes)
    requires n <= |tail| && Balanced(delivered, tail, rest, sent, head, input)
    ensures Balanced(delivered + tail[..n], tail[n..], rest, sent, head, input)
  {
    assert tail == tail[..n] + tail[n..];
    assert delivered + tail == delivered + tail[..n] + tail[n..];
  }

  lemma FromWire(delivered: Bytes, data: Bytes, rest: Bytes, sent: Bytes, head: Bytes, input: Bytes)
    requires Balanced(delivered, [], data + rest, sent, head, input)
    ensures Balanced(delivered + data, [], rest, sent, head, input)
  {
    assert delivered + [] + (data + rest) == delivered + data + [] + rest;
  }

  lemma ChosenIntro(input: Bytes, head: Bytes, prefix: Bytes, sent: Bytes, route: Bytes -> Option<nat>, timedOut: bool)
    requires |head| >= 4 && Find(head, MARK) == Some(|head| - 4) && StartsWith(input, head + prefix)
    requires Repaired(sent, head, prefix, route)
    requires CandidateSize(head, route).Some? && !Expects(head) ==> timedOut || Settled(prefix)
    ensures Chosen(input, head, prefix, sent, route, timedOut)
  {
  }

  class UploadCompatConn {
    const wire: Wire
    const route: Bytes -> Option<nat>
    var started: bool
    var initErr: Option<Failure>
    var buf: Bytes
    var off: nat
    /** The whole stream, what has been handed out, and how initialisation went. */
    ghost const input: Bytes
    ghost var delivered: Bytes
    ghost var head: Bytes
    ghost var prefix: Bytes
    ghost var sent: Bytes
    ghost var timedOut: bool

    constructor (wire: Wire, route: Bytes -> Option<nat>)
      ensures this.wire == wire && this.route == route && input == wire.rest
      ensures !started && delivered == [] && Valid()
    {
      this.wire, this.route, input := wire, route, wire.rest;
      started, initErr, buf, off := false, None, [], 0;
      delivered, head, prefix, sent, timedOut := [], [], [], [], false;
    }

    /** Conservation: what was delivered, what is buffered and what is still on the wire make up
        the repaired head and exactly the bytes after the original head. */
    ghost predicate Conserved()
      reads this, wire
    {
      if !started then delivered == [] && wire.rest == input && initErr.None?
      else if initErr.Some? then delivered == []
      else
        off <= |buf| && Balanced(delivered, buf[off..], wire.rest, sent, head, input)
    }

    /** How the repair was chosen. */
    ghost predicate Shaped()
      reads this
    {
      started && initErr.None? ==> Chosen(input, head, prefix, sent, route, timedOut)
    }

    /** Time was up only when a read timed out, and the connection gives up only when a read failed or
        there is no head. */
    ghost predicate Blamed()
      reads this, wire
    {
      && (timedOut ==> wire.timeouts > 0)
      && match initErr
         case None => true
         case Some(Network(Timeout)) => wire.timeouts > 0
         case Some(Network(Broken)) => wire.breaks > 0
         case Some(HeaderTooLarge) => Headless(input)
    }

    ghost predicate Valid()
      reads this, wire
    {
      Conserved() && Shaped() && Blamed()
    }

    /** Read until the end mark, an error, or too much. */
    method ReadHead() returns (h: Bytes, seen: Bytes, err: Option<Failure>)
      requires wire.rest == input
      modifies wire
      ensures err.None? ==> |h| >= 4 && Find(h, MARK) == Some(|h| - 4) && h + seen + wire.rest == input
      ensures err.None? ==> |h| + |seen| < 65536 + 4096
      ensures err == Some(HeaderTooLarge) ==> Headless(input)
      ensures err == Some(Network(Timeout)) ==> wire.timeouts > old(wire.timeouts)
      ensures err == Some(Network(Broken)) ==> wire.breaks > old(wire.breaks)
      ensures wire.timeouts >= old(wire.timeouts) && wire.breaks >= old(wire.breaks)
    {
      var b: Bytes := [];
      h, seen := [], [];
      while |b| < MAX_HEADER
        invariant b + wire.rest == input && Find(b, MARK).None?
        invariant wire.timeouts >= old(wire.timeouts) && wire.breaks >= old(wire.breaks)
        decreases |wire.rest|
      {
        ghost var before := b;
        var data, e := wire.Read(TMP);
        b := b + data;
        assert before + (data + wire.rest) == b + wire.rest;
        if data != [] {
          var i := Find(b, MARK);
          if i.Some? {
            HeadCut(b, i.value);
            return b[..i.value + 4], b[i.value + 4..], None;
          }
        }
        if e.Some? { return [], [], Some(Network(e.value)); }
      }
      err := Some(HeaderTooLarge);
      NoMark(b);
    }

    lemma NoMark(b: Bytes)
      requires |b| >= 65536 && b <= input && Find(b, MARK).None?
      ensures Headless(input)
    {
      forall k: nat | k <= 65532
        ensures !At(input, MARK, k)
      {
        assert input[k..k + 4] == b[k..k + 4] && !At(b, MARK, k);
      }
    }

    /** Read on until the framing of the body can be told, 64 bytes are there, or time is up. */
    method ReadPrefix(seen: Bytes) returns (p: Bytes, mode: Verdict, late: bool, err: Option<Failure>)
      modifies wire
      ensures seen <= p && p + wire.rest == seen + old(wire.rest)
      ensures mode == Classified(p) && (err.None? ==> late || Settled(p))
      ensures if late then wire.timeouts > old(wire.timeouts) else wire.timeouts == old(wire.timeouts)
      ensures err.Some? ==> err == Some(Network(Broken)) && wire.breaks > old(wire.breaks)
      ensures wire.breaks >= old(wire.breaks)
    {
      p, late, err := seen, false, None;
      mode := ClassifyCompatBody(p);
      while |p| < LOOK && mode == Unknown
        invariant seen <= p && p + wire.rest == seen + old(wire.rest)
        invariant mode == Classified(p)
        invariant wire.timeouts == old(wire.timeouts) && wire.breaks >= old(wire.breaks)
        decreases |wire.rest|
      {
        ghost var before := p;
        var data, e := wire.Read(TMP);
        p := p + data;
        assert before + (data + wire.rest) == p + wire.rest;
        if data != [] { mode := ClassifyCompatBody(p); }
        if e.Some? {
          if e.value == Timeout { return p, mode, true, None; }
          return p, mode, false, Some(Network(e.value));
        }
      }
    }

    /** Choose and apply the repair. */
    method Reshape(h: Bytes, seen: Bytes) returns (h': Bytes, p: Bytes, late: bool, err: Option<Failure>)
      modifies wire
      ensures seen <= p && p + wire.rest == seen + old(wire.rest)
      ensures err.None? ==> Repaired(h', h, p, route)
      ensures err.None? && CandidateSize(h, route).Some? && !Expects(h) ==> late || Settled(p)
      ensures if late then wire.timeouts > old(wire.timeouts) else wire.timeouts == old(wire.timeouts)
      ensures err.Some? ==> err == Some(Network(Broken)) && wire.breaks > old(wire.breaks)
      ensures wire.breaks >= old(wire.breaks)
    {
      p, late, err, h' := seen, false, None, h;
      var size := StreamUploadCompatCandidate(h, route);
      if size.None? { return; }
      var wanted := HeaderValue(h, EXPECT);
      if Find(LowerAscii(wanted), CONTINUE).Some? {
        h' := RewriteFramingHeader(h, CL, Decimal(size.value));
        return;
      }
      var mode;
      p, mode, late, err := ReadPrefix(seen);
      if err.Some? { return; }
      if mode == Unknown { mode := Chunked; }
      if mode == Chunked {
        h' := RewriteAsChunked(h);
      } else {
        h' := RewriteFramingHeader(h, CL, Decimal(size.value));
      }
    }

    method Init()
      requires !started && Valid()
      modifies this`started, this`initErr, this`buf, this`off, this`head, this`prefix, this`sent, this`timedOut, wire
      ensures started && Valid() && delivered == []
    {
      hide Repaired, CandidateSize, Expects, Settled, Chosen, Find, FindFrom, At, StartsWith, Balanced, Headless, Valid, Conserved, Shaped, Blamed;
      NotStarted();
      started := true;
      var h, seen, err := ReadHead();
      if err.Some? {
        initErr := err;
        GivenUp();
        return;
      }
      ghost var rest := wire.rest;
      var h', p, late;
      h', p, late, err := Reshape(h, seen);
      if err.Some? {
        initErr := err;
        GivenUp();
        return;
      }
      buf, off := h' + p, 0;
      head, prefix, sent, timedOut := h, p, h', late;
      Restored(h, seen, rest, h', p, wire.rest);
      ChosenIntro(input, h, p, h', route, late);
      Ready();
    }

    lemma NotStarted()
      requires !started && Valid()
      ensures delivered == [] && wire.rest == input && initErr.None?
      ensures timedOut ==> wire.timeouts > 0
    {
    }

    lemma GivenUp()
      requires started && initErr.Some? && delivered == [] && Blamed()
      ensures Valid()
    {
    }

    lemma Ready()
      requires started && initErr.None? && off == 0 && delivered == []
      requires Balanced([], buf, wire.rest, sent, head, input) && Chosen(input, head, prefix, sent, route, timedOut)
      requires timedOut ==> wire.timeouts > 0
      ensures Valid()
    {
      hide Chosen, Balanced;
      assert buf[off..] == buf;
    }

    lemma Restored(h: Bytes, seen: Bytes, rest: Bytes, h': Bytes, p: Bytes, rest': Bytes)
      requires h + seen + rest == input && p + rest' == seen + rest
      ensures StartsWith(input, h + p) && Balanced([], h' + p, rest', h', h, input)
    {
      assert input == h + (seen + rest) == (h + p) + rest';
      assert input[|h|..] == p + rest';
      assert [] + (h' + p) + rest' == h' + (p + rest');
    }

    /** Any sequence of calls with buffers of any size delivers the repaired stream in order. */
    method Read(max: nat) returns (data: Bytes, err: Option<Failure>)
      requires Valid()
      modifies this, wire
      ensures Valid() && started && delivered == old(delivered) + data && |data| <= max
      ensures initErr.Some? ==> err == initErr && data == []
      ensures old(started) ==> initErr == old(initErr) && head == old(head) && sent == old(sent) && prefix == old(prefix)
      ensures err.None? && max > 0 ==> data != []
    {
      hide Chosen, Balanced, Headless;
      if !started { Init(); }
      if initErr.Some? { return [], initErr; }
      if off < |buf| {
        var n := if max < |buf| - off then max else |buf| - off;
        FromBuffer(delivered, buf[off..], n, wire.rest, sent, head, input);
        data, err := buf[off..off + n], None;
        assert buf[off..][..n] == data && buf[off..][n..] == buf[off + n..];
        off := off + n;
        delivered := delivered + data;
        return;
      }
      assert buf[off..] == [];
      var e;
      data, e := wire.Read(max);
      err := if e.Some? then Some(Network(e.value)) else None;
      FromWire(delivered, data, wire.rest, sent, head, input);
      delivered := delivered + data;
    }
  }
}
