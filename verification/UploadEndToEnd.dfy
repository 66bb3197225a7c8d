/** What a standard HTTP/1.1 recipient behind the connection wrapper makes of an upload. */
module UploadEndToEnd {
  import opened Octets
  import opened Options
  import opened HttpText
  import opened FramingHeaders
  import opened HeaderNormalForm
  import opened BodyClassify
  import opened ChunkedCoding
  import opened Decimals
  import opened UploadCompat

  lemma {:induction false} ValuesConcat(a: seq<Bytes>, b: seq<Bytes>, want: Bytes)
    ensures Values(a + b, want) == Values(a, want) + Values(b, want)
  {
    hide FieldName, FieldValue;
    if b == [] {
      assert a + b == a;
    } else {
      assert (a + b)[..|a + b| - 1] == a + b[..|b| - 1];
      ValuesConcat(a, b[..|b| - 1], want);
    }
  }

  lemma {:induction false} ValuesAbsent(ls: seq<Bytes>, want: Bytes)
    ensures Values(ls, want) == [] <==> Absent(ls, want)
  {
    hide FieldName, FieldValue;
    if ls != [] {
      var init, l := ls[..|ls| - 1], ls[|ls| - 1];
      assert ls == init + [l];
      ValuesAbsent(init, want);
      AbsentSnoc(init, l, want);
    }
  }

  lemma {:induction false} ValuesWithout(ls: seq<Bytes>, want: Bytes, other: Bytes)
    requires want != other
    ensures Values(Without(ls, want), other) == Values(ls, other)
  {
    hide FieldName, FieldValue;
    if ls != [] {
      var init, l := ls[..|ls| - 1], ls[|ls| - 1];
      ValuesWithout(init, want, other);
      var w := Without(init, want);
      assert (w + [l])[..|w|] == w;
      assert w + [] == w;
    }
  }

  lemma ValuesSingle(l: Bytes, want: Bytes)
    ensures Values([l], want) == if FieldName(l) == want then [FieldValue(l)] else []
  {
    var one: seq<Bytes> := [l];
    assert one[..0] == [];
  }

  lemma ValuesOne(ls: seq<Bytes>, want: Bytes, line: Bytes)
    requires OneField(ls, want, line)
    ensures Values(ls, want) == [FieldValue(line)]
  {
    hide FieldName, FieldValue, Absent, Values;
    var k :| 0 <= k < |ls| && ls[k] == line && FieldName(line) == want && Absent(ls[..k], want) && Absent(ls[k + 1..], want);
    assert ls == ls[..k] + ([line] + ls[k + 1..]);
    ValuesConcat(ls[..k], [line] + ls[k + 1..], want);
    ValuesConcat([line], ls[k + 1..], want);
    ValuesAbsent(ls[..k], want);
    ValuesAbsent(ls[k + 1..], want);
    ValuesSingle(line, want);
  }

  lemma ValuesOfFields(ls: seq<Bytes>, want: Bytes)
    requires ls != [] && FieldName(ls[0]) != want
    ensures Values(ls[1..], want) == Values(ls, want)
  {
    hide FieldName, FieldValue, Values;
    assert ls == [ls[0]] + ls[1..];
    ValuesConcat([ls[0]], ls[1..], want);
    ValuesSingle(ls[0], want);
  }

  /** The recipient sees the head the wrapper sent, and then the body. */
  lemma HeadRecognised(sent: Bytes, body: Bytes)
    requires |sent| >= 4 && Find(sent, MARK) == Some(|sent| - 4)
    ensures DecodeMessage(sent + body) == DecodeBody(BodyFraming(HeadLines(sent)[1..]), body)
  {
    FindMore(sent, body, MARK);
    hide BodyFraming, DecodeBody;
    assert (sent + body)[..|sent| - 4] == sent[..|sent| - 4];
    assert (sent + body)[|sent|..] == body;
  }

  lemma {:induction false} DecimalPlain(n: nat)
    ensures Trimmed(Decimal(n)) && Plain(Decimal(n)) && forall i :: 0 <= i < |Decimal(n)| ==> '0' <= Decimal(n)[i] <= '9'
  {
    if n >= 10 { DecimalPlain(n / 10); }
  }

  /** With the Content-Length rewritten the recipient takes exactly that many bytes, unless the
      head carries a Transfer-Encoding field, which then decides as before. */
  lemma LengthFraming(sent: Bytes, head: Bytes, n: nat)
    requires IsHead(head) && Reframed(sent, head, CL, Decimal(n))
    requires HeadLines(head)[0] != [] && HeadLines(head)[0][0] == 'P'
    ensures |sent| >= 4 && Find(sent, MARK) == Some(|sent| - 4)
    ensures BodyFraming(HeadLines(sent)[1..]) ==
            if Absent(HeadLines(head), TE_KEY) then ByLength(n) else BodyFraming(HeadLines(head)[1..])
  {
    hide FieldName, FieldValue, Absent, Without, Values, OneField, Block, Render, Lookup, Scanned, Find, Decimal, Lines;
    hide BodyFraming, Reframed, ParseDecimal, IsHead;
    FieldKeys();
    DecimalPlain(n);
    HeadShape(head);
    PostIsNoField(HeadLines(head)[0]);
    RewriteNormalForm(sent, head, CL, Decimal(n));
    HeadNotEmpty(sent);
    var out, ls := HeadLines(sent), HeadLines(head);
    ValuesWithout(out, CL_KEY, TE_KEY);
    ValuesWithout(ls, CL_KEY, TE_KEY);
    LengthFields(out, ls, n);
  }

  lemma HeadNotEmpty(head: Bytes)
    requires Block(HeadLines(head))
    ensures HeadLines(head) != []
  {
  }

  lemma LengthFields(out: seq<Bytes>, ls: seq<Bytes>, n: nat)
    requires out != [] && ls != [] && ls[0] == out[0] && FieldName(out[0]) != CL_KEY && FieldName(out[0]) != TE_KEY
    requires OneField(out, CL_KEY, Field(CL, Decimal(n))) && Values(out, TE_KEY) == Values(ls, TE_KEY)
    ensures BodyFraming(out[1..]) == if Absent(ls, TE_KEY) then ByLength(n) else BodyFraming(ls[1..])
  {
    hide FieldName, FieldValue, Absent, Values, OneField, Decimal, ParseDecimal, IsFieldName, LowerAscii, FinalCoding;
    FieldKeys();
    DecimalPlain(n);
    DecimalRoundTrip(n);
    FieldParts(CL, Decimal(n));
    ValuesOne(out, CL_KEY, Field(CL, Decimal(n)));
    ValuesAbsent(ls, TE_KEY);
    ValuesOfFields(out, CL_KEY);
    ValuesOfFields(out, TE_KEY);
    ValuesOfFields(ls, TE_KEY);
  }

  lemma ChunkedItem()
    ensures LowerAscii(LastItem("chunked")) == "chunked"
  {
    var v: Bytes := "chunked";
    forall k: nat
      ensures !At(v, ",", k)
    {
      assert k < |v| ==> v[k..k + 1] == [v[k]];
    }
    TrimmedStays(v);
    assert LowerAscii(v) == v;
  }

  /** With the Transfer-Encoding line added the recipient decodes chunks, whatever such fields the
      head had before. */
  lemma ChunkFraming(sent: Bytes, head: Bytes)
    requires IsHead(head) && AsChunked(sent, head) && HeadLines(head)[0] != [] && HeadLines(head)[0][0] == 'P'
    ensures |sent| >= 4 && Find(sent, MARK) == Some(|sent| - 4)
    ensures BodyFraming(HeadLines(sent)[1..]) == ByChunks
  {
    TeField();
    PostIsNoField(HeadLines(head)[0]);
    ChunkedNormalForm(sent, head);
    HeadNotEmpty(sent);
    hide FieldName, FieldValue, Absent, Without, Values, HeadLines, OneField, Block, Render, Find;
    var out, w := HeadLines(sent), Without(HeadLines(head), CL_KEY);
    ValuesConcat(w, [TE_LINE], TE_KEY);
    ValuesSingle(TE_LINE, TE_KEY);
    ValuesOfFields(out, TE_KEY);
    ChunkedItem();
  }

  /** A chunked body shrinks when decoded, so it is never its own payload. */
  lemma {:induction false} DecodingShrinks(s: Bytes)
    requires DecodeChunks(s).Some?
    ensures |DecodeChunks(s).value.0| + |DecodeChunks(s).value.1| < |s|
    decreases |s|
  {
    hide ParseHex, HexPart;
    var i := Find(s, CRLF).value;
    var n := ParseHex(HexPart(s[..i])).value;
    if n == 0 { TrailersShrink(s[i + 2..]); } else { DecodingShrinks(s[i + n + 4..]); }
  }

  lemma {:induction false} TrailersShrink(s: Bytes)
    requires SkipTrailers(s).Some?
    ensures |SkipTrailers(s).value| < |s|
    decreases |s|
  {
    var i := Find(s, CRLF).value;
    if i != 0 { TrailersShrink(s[i + 2..]); }
  }

  function FirstOf(vs: seq<Bytes>): Bytes { if vs == [] then [] else vs[0] }

  lemma {:induction false} LookupFirst(ls: seq<Bytes>, want: Bytes, k: nat)
    requires k <= |ls| && forall i :: k <= i < |ls| ==> ls[i] != []
    ensures Lookup(ls + [[]], want, k) == FirstOf(Values(ls[k..], want))
    decreases |ls| - k
  {
    hide FieldName, FieldValue;
    if k < |ls| {
      assert (ls + [[]])[k] == ls[k];
      assert ls[k..] == [ls[k]] + ls[k + 1..];
      ValuesConcat([ls[k]], ls[k + 1..], want);
      ValuesSingle(ls[k], want);
      LookupFirst(ls, want, k + 1);
    }
  }

  lemma LinesOfHead(ls: seq<Bytes>)
    requires Block(ls)
    ensures Lines(Render(ls)) == ls + [[], []]
  {
    JoinSnoc(ls, []);
    JoinSnoc(ls + [[]], []);
    var all := ls + [[]] + [[]];
    assert all == ls + [[], []];
    assert Join(all) == Join(ls) + CRLF + CRLF == Render(ls);
    LinesJoin(all);
  }

  /** A candidate's head starts with a POST line. If no line is too long for the header scanner, its
      first Transfer-Encoding field is empty or absent: further ones may have a value. */
  lemma CandidateHead(head: Bytes, route: Bytes -> Option<nat>)
    requires IsHead(head) && CandidateSize(head, route).Some?
    ensures HeadLines(head)[0] != [] && HeadLines(head)[0][0] == 'P'
    ensures Scannable(HeadLines(head)) ==> FirstOf(Values(HeadLines(head)[1..], TE_KEY)) == []
  {
    var ls := HeadLines(head);
    HeadShape(head);
    LinesOfHead(ls);
    assert Lines(head)[0] == ls[0] && POST[0] == 'P';
    assert ls[0][..5][0] == ls[0][0];
    hide FieldName, FieldValue, Lookup, Scanned, Lines, Render, Values, Find;
    if Scannable(ls) {
      ScannedRendered(ls);
      LookupFirst(ls, TE_KEY, 1);
    }
  }

  function FirstSize(b: ChunkedBody): Bytes { if b.chunks == [] then b.last else b.chunks[0].size }

  function FirstExt(b: ChunkedBody): Bytes { if b.chunks == [] then b.lastExt else b.chunks[0].ext }

  lemma FirstLine(b: ChunkedBody, extra: Bytes) returns (rest: Bytes)
    requires GoodBody(b)
    ensures Encode(b) + extra == FirstSize(b) + FirstExt(b) + CRLF + rest
    ensures FirstSize(b) + FirstExt(b) != [] && Plain(FirstSize(b) + FirstExt(b)) && ParseHex(HexPart(FirstSize(b) + FirstExt(b))).Some?
  {
    hide HexValue, HexPart, ParseHex, Plain, GoodSize, GoodExt;
    var tail := b.last + b.lastExt + CRLF + EncodeTrailers(b.trailers);
    if b.chunks == [] {
      rest := EncodeTrailers(b.trailers) + extra;
      SizeLine(b.last, b.lastExt, 0);
      NotNothing(b.last, 0);
    } else {
      var c := b.chunks[0];
      rest := c.data + CRLF + EncodeChunks(b.chunks[1..], tail) + extra;
      assert GoodChunk(c);
      SizeLine(c.size, c.ext, |c.data|);
      NotNothing(c.size, |c.data|);
    }
  }

  lemma NotNothing(size: Bytes, n: nat)
    requires GoodSize(size, n)
    ensures size != []
  {
  }

  /** A size line of which the classifier can see the end, in characters it knows. */
  predicate ShortLine(line: Bytes) { |line| < LOOK && SizeRun(line, |line|) }

  /** Only the first line of a body can make it a size line. */
  lemma OnlyFirstLine(line: Bytes, rest: Bytes, i: nat)
    requires Plain(line) && SizeLineAt(line + CRLF + rest, i)
    ensures i == |line| && ShortLine(line)
  {
    var q, n := line + CRLF + rest, |line|;
    assert q[n] == '\r' && forall k :: 0 <= k < n ==> q[k] == line[k] && line[k] in line;
  }

  lemma FirstLineEnds(line: Bytes, rest: Bytes)
    requires line != [] && ShortLine(line) && ParseHex(HexPart(line)).Some?
    ensures SizeLineAt(line + CRLF + rest, |line|)
  {
    hide HexPart, ParseHex;
    var q, n := line + CRLF + rest, |line|;
    assert q[..n] == line && q[n] == '\r' && q[n + 1] == '\n';
    assert forall k :: 0 <= k < n ==> q[k] == line[k];
  }

  /** What is seen of a body that starts with a good size line is taken for chunks if and only if the
      line is short and free of other characters, or the bytes seen leave the matter open. */
  lemma FirstLineMode(line: Bytes, rest: Bytes, p: Bytes)
    requires line != [] && Plain(line) && ParseHex(HexPart(line)).Some? && p <= line + CRLF + rest
    ensures Mode(p) == Chunked <==> ShortLine(line) || Undecided(p)
  {
    hide HexPart, ParseHex, Plain, SizeLineAt, Undecided, ShortLine;
    var q := line + CRLF + rest;
    if ShortLine(line) {
      FirstLineEnds(line, rest);
      if |p| < |line| + 2 {
        LineStart(q, |line|, p);
        UndecidedIsUnknown(p);
      } else {
        SizeLineMore(p, q, |line|);
        assert IsSizeLine(p);
      }
    } else if IsSizeLine(p) {
      var i :| 0 <= i < |p| && SizeLineAt(p, i);
      SizeLineInside(p, i);
      SizeLineMore(p, q, i);
      OnlyFirstLine(line, rest, i);
    } else if Undecided(p) {
      UndecidedIsUnknown(p);
    }
  }

  lemma SizeLineInside(p: Bytes, i: nat)
    requires SizeLineAt(p, i)
    ensures i + 2 <= |p|
  {
  }

  /** Without a timeout that is: the line is short and plain, or exactly the first 64 bytes of a torn
      body were seen. */
  lemma SettledFirstLine(line: Bytes, rest: Bytes, p: Bytes)
    requires line != [] && Plain(line) && ParseHex(HexPart(line)).Some? && p <= line + CRLF + rest && Settled(p)
    ensures Mode(p) == Chunked <==> ShortLine(line) || (Torn(line + CRLF + rest) && |p| == LOOK)
  {
    hide HexPart, ParseHex;
    FirstLineMode(line, rest, p);
    SettledWhere(line + CRLF + rest, p);
    FirstLineMode(line, rest, line + CRLF + rest);
    WholeIsDecided(line, rest);
  }

  lemma WholeIsDecided(line: Bytes, rest: Bytes)
    requires line != [] && Plain(line)
    ensures !Undecided(line + CRLF + rest)
  {
    var q, n := line + CRLF + rest, |line|;
    assert q[n] == '\r' && q[n + 1] == '\n';
  }

  lemma PrefixOfBody(input: Bytes, head: Bytes, prefix: Bytes)
    requires StartsWith(input, head + prefix)
    ensures |head| <= |input| && prefix <= input[|head|..]
  {
    var hp := head + prefix;
    assert input[|head|..][..|prefix|] == input[..|hp|][|head|..] == hp[|head|..] == prefix;
  }

  /** How a recipient frames the message that the wrapper sends on. */
  lemma SentFraming(input: Bytes, head: Bytes, prefix: Bytes, sent: Bytes, route: Bytes -> Option<nat>, timedOut: bool)
    requires Chosen(input, head, prefix, sent, route, timedOut) && NoBareLF(head) && CandidateSize(head, route).Some?
    ensures |sent| >= 4 && Find(sent, MARK) == Some(|sent| - 4)
    ensures BodyFraming(HeadLines(sent)[1..]) ==
            if !Expects(head) && Mode(prefix) == Chunked then ByChunks
            else if Absent(HeadLines(head), TE_KEY) then ByLength(CandidateSize(head, route).value)
            else BodyFraming(HeadLines(head)[1..])
  {
    hide Reframed, AsChunked, CandidateSize, Expects, Find, BodyFraming, Absent, HeadLines, StartsWith, Classified;
    assert IsHead(head) && Repaired(sent, head, prefix, route);
    CandidateHead(head, route);
    if !Expects(head) && Mode(prefix) == Chunked {
      ChunkFraming(sent, head);
    } else {
      LengthFraming(sent, head, CandidateSize(head, route).value);
    }
  }

  /** A Transfer-Encoding field means chunks or nothing. */
  lemma OwnFraming(ls: seq<Bytes>)
    requires ls != [] && ls[0] != [] && ls[0][0] == 'P'
    ensures Absent(ls, TE_KEY) ==> BodyFraming(ls[1..]) != ByChunks
    ensures !Absent(ls, TE_KEY) ==> !BodyFraming(ls[1..]).ByLength?
  {
    PostIsNoField(ls[0]);
    hide FieldName, FieldValue, Absent, Values, ParseDecimal, FinalCoding;
    ValuesAbsent(ls, TE_KEY);
    ValuesOfFields(ls, TE_KEY);
  }

  lemma RawRead(f: Framing, payload: Bytes, extra: Bytes)
    ensures DecodeBody(f, payload + extra) == Some((payload, extra)) <==> f == ByLength(|payload|)
  {
    hide DecodeChunks;
    var body := payload + extra;
    assert body[..|payload|] == payload && body[|payload|..] == extra;
    if f == ByChunks && DecodeChunks(body).Some? { DecodingShrinks(body); }
  }

  lemma ChunkedRead(f: Framing, b: ChunkedBody, extra: Bytes)
    requires GoodBody(b)
    ensures DecodeBody(f, Encode(b) + extra) == Some((Payload(b.chunks), extra)) <==> f == ByChunks
  {
    ChunkedRoundTrip(b.chunks, b, extra);
    hide DecodeChunks, GoodBody, Encode, Payload;
    DecodingShrinks(Encode(b) + extra);
  }

  /** A chunked upload is read as exactly its payload if and only if the client does not wait for
      100-continue and the bytes seen were taken for chunks, or the head says chunked on its own. */
  lemma ChunkedUpload(input: Bytes, head: Bytes, prefix: Bytes, sent: Bytes, route: Bytes -> Option<nat>, timedOut: bool, b: ChunkedBody, extra: Bytes)
    requires Chosen(input, head, prefix, sent, route, timedOut) && input == head + (Encode(b) + extra)
    requires NoBareLF(head) && CandidateSize(head, route).Some? && GoodBody(b)
    ensures DecodeMessage(sent + input[|head|..]) == Some((Payload(b.chunks), extra)) <==>
            (!Expects(head) && Mode(prefix) == Chunked) || BodyFraming(HeadLines(head)[1..]) == ByChunks
  {
    assert input[|head|..] == Encode(b) + extra;
    assert IsHead(head);
    hide Chosen, Expects, CandidateSize, GoodBody, Encode, BodyFraming, Find, Mode, DecodeMessage, DecodeBody, Absent, HeadLines;
    SentFraming(input, head, prefix, sent, route, timedOut);
    HeadRecognised(sent, Encode(b) + extra);
    ChunkedRead(BodyFraming(HeadLines(sent)[1..]), b, extra);
    CandidateHead(head, route);
    HeadShape(head);
    OwnFraming(HeadLines(head));
  }

  /** When that is, said of the body: the first size line, with its extension, has at most 63
      characters and only hex digits and semicolons; or time ran out on bytes that leave the matter
      open; or exactly the first 64 bytes of a torn body were seen. */
  lemma ChunkedInTime(input: Bytes, head: Bytes, prefix: Bytes, sent: Bytes, route: Bytes -> Option<nat>, timedOut: bool, b: ChunkedBody, extra: Bytes)
    requires Chosen(input, head, prefix, sent, route, timedOut) && input == head + (Encode(b) + extra)
    requires CandidateSize(head, route).Some? && !Expects(head) && GoodBody(b)
    ensures Mode(prefix) == Chunked <==>
              || ShortLine(FirstSize(b) + FirstExt(b))
              || (timedOut && Undecided(prefix))
              || (Torn(Encode(b) + extra) && |prefix| == LOOK)
  {
    assert input[|head|..] == Encode(b) + extra;
    PrefixOfBody(input, head, prefix);
    var rest := FirstLine(b, extra);
    var line := FirstSize(b) + FirstExt(b);
    hide HexPart, ParseHex, Encode, FirstSize, FirstExt, GoodBody, Plain, ShortLine;
    assert timedOut || Settled(prefix);
    FirstLineMode(line, rest, prefix);
    SettledFirstLineOrNot(line, rest, prefix);
  }

  lemma SettledFirstLineOrNot(line: Bytes, rest: Bytes, p: Bytes)
    requires line != [] && Plain(line) && ParseHex(HexPart(line)).Some? && p <= line + CRLF + rest
    ensures Settled(p) ==> (Mode(p) == Chunked <==> ShortLine(line) || (Torn(line + CRLF + rest) && |p| == LOOK))
    ensures Torn(line + CRLF + rest) && |p| == LOOK ==> Undecided(p)
  {
    var q := line + CRLF + rest;
    if Settled(p) { SettledFirstLine(line, rest, p); }
    if Torn(q) && |p| == LOOK {
      TornMeans(q);
      assert q[..LOOK] == p;
    }
  }

  /** For an extension-free line: at most 63 digits. */
  lemma DigitsOnly(b: ChunkedBody)
    requires GoodBody(b) && FirstExt(b) == []
    ensures ShortLine(FirstSize(b) + FirstExt(b)) <==> |FirstSize(b)| <= 63
  {
    assert FirstSize(b) + [] == FirstSize(b);
    if b.chunks != [] { assert GoodChunk(b.chunks[0]); }
  }

  /** A raw upload of the declared size is read as exactly that payload if and only if the head has no
      Transfer-Encoding field, and the client waits for 100-continue or the bytes seen were recognised
      as raw. */
  lemma RawUpload(input: Bytes, head: Bytes, prefix: Bytes, sent: Bytes, route: Bytes -> Option<nat>, timedOut: bool, payload: Bytes, extra: Bytes)
    requires Chosen(input, head, prefix, sent, route, timedOut) && input == head + (payload + extra)
    requires NoBareLF(head) && CandidateSize(head, route) == Some(|payload|)
    ensures DecodeMessage(sent + input[|head|..]) == Some((payload, extra)) <==>
            Absent(HeadLines(head), TE_KEY) && (Expects(head) || Mode(prefix) == Raw)
  {
    assert input[|head|..] == payload + extra;
    assert IsHead(head);
    assert Mode(prefix) != Unknown;
    hide Chosen, Expects, CandidateSize, BodyFraming, Find, Mode, DecodeMessage, DecodeBody, Absent, HeadLines;
    SentFraming(input, head, prefix, sent, route, timedOut);
    HeadRecognised(sent, payload + extra);
    RawRead(BodyFraming(HeadLines(sent)[1..]), payload, extra);
    CandidateHead(head, route);
    HeadShape(head);
    OwnFraming(HeadLines(head));
  }

  /** When the bytes seen are recognised as raw without a timeout: exactly when the whole body reads
      as raw, except that exactly 64 bytes of a torn size line were seen. */
  lemma RawRecognised(input: Bytes, head: Bytes, prefix: Bytes, sent: Bytes, route: Bytes -> Option<nat>, payload: Bytes, extra: Bytes)
    requires Chosen(input, head, prefix, sent, route, false) && input == head + (payload + extra)
    requires CandidateSize(head, route).Some? && !Expects(head)
    ensures Mode(prefix) == Raw <==> Classified(payload + extra) == Raw && !(Torn(payload + extra) && |prefix| == LOOK)
  {
    var body := payload + extra;
    PrefixOfBody(input, head, prefix);
    assert input[|head|..] == body;
    SettledWhere(body, prefix);
  }

  /** A request that is no candidate passes byte for byte. */
  lemma PassThrough(c: UploadCompatConn)
    requires c.Valid() && c.started && c.initErr.None? && CandidateSize(c.head, c.route).None?
    ensures c.off <= |c.buf| && c.delivered + c.buf[c.off..] + c.wire.rest == c.input
  {
    hide Find, Lines, HeaderField, StartsWith;
    assert c.head + c.input[|c.head|..] == c.input;
  }

  /** The bytes delivered so far are always the beginning of the repaired stream. */
  lemma DeliveredPrefix(c: UploadCompatConn)
    requires c.Valid() && c.started && c.initErr.None?
    ensures |c.head| <= |c.input| && c.delivered <= c.sent + c.input[|c.head|..]
  {
    hide Chosen;
    var whole := c.delivered + c.buf[c.off..] + c.wire.rest;
    assert whole[..|c.delivered|] == c.delivered;
  }

  /** Every candidate can be repaired, whatever its body. */
  lemma SomeChoice(head: Bytes, prefix: Bytes, rest: Bytes, route: Bytes -> Option<nat>, timedOut: bool) returns (sent: Bytes)
    requires |head| >= 4 && Find(head, MARK) == Some(|head| - 4) && (timedOut || Settled(prefix))
    ensures Chosen(head + (prefix + rest), head, prefix, sent, route, timedOut)
  {
    assert StartsWith(head + (prefix + rest), head + prefix) by {
      assert head + (prefix + rest) == head + prefix + rest;
    }
    sent := head;
    if CandidateSize(head, route).Some? {
      var n := CandidateSize(head, route).value;
      if Expects(head) || Mode(prefix) == Raw {
        sent := SomeRewriting(head, CL, Decimal(n));
      } else {
        var out := SomeRewriting(head, CL, []);
        sent := match Find(out, MARK) case None => out case Some(i) => out[..i + 2] + TE_LINE + CRLF + out[i + 2..];
        assert WithTeLine(sent, out);
      }
    }
  }

  /** A bare POST line, and one followed by an empty Transfer-Encoding field. */
  const POST_LINES: seq<Bytes> := [POST]
  const EMPTY_TE: Bytes := "Transfer-Encoding:"
  const EMPTY_TE_LINES: seq<Bytes> := [POST, EMPTY_TE]

  lemma NothingExpected()
    ensures Find(LowerAscii([]), CONTINUE) == None
  {
  }

  /** A POST line and fields without values. */
  ghost predicate Sample(ls: seq<Bytes>) {
    && ls != [] && ls[0] == POST && NoBareLF(Render(ls))
    && (forall i :: 0 <= i < |ls| ==> Plain(ls[i]) && ls[i] != [] && |ls[i]| < 100)
    && forall i :: 1 <= i < |ls| ==> FieldValue(ls[i]) == []
  }

  /** Both are candidates of whatever declared size; the second has a Transfer-Encoding field. */
  lemma SampleHeads(route: Bytes -> Option<nat>, n: nat)
    requires n > 0 && route(POST) == Some(n)
    ensures forall ls :: ls in {POST_LINES, EMPTY_TE_LINES} ==>
              && IsHead(Render(ls)) && HeadLines(Render(ls)) == ls
              && CandidateSize(Render(ls), route) == Some(n) && !Expects(Render(ls))
    ensures Absent(POST_LINES, TE_KEY) && Count(EMPTY_TE_LINES, TE_KEY) == 1
  {
    hide IsHead, HeadLines, CandidateSize, Expects, Render, FieldName, FieldValue, Count, Absent, Sample;
    SampleLines();
    SampleHead(POST_LINES, route, n);
    SampleHead(EMPTY_TE_LINES, route, n);
  }

  lemma SampleLines()
    ensures Sample(POST_LINES) && Sample(EMPTY_TE_LINES)
    ensures Absent(POST_LINES, TE_KEY) && Count(EMPTY_TE_LINES, TE_KEY) == 1
  {
    assert Plain(POST) && Plain(EMPTY_TE);
    assert EMPTY_TE == TE + ":";
    FieldKeys();
    NoLF(POST_LINES);
    NoLF(EMPTY_TE_LINES);
    hide NoBareLF, Render, Plain, LowerAscii, Find, IsFieldName;
    EmptyField(TE);
    PostIsNoField(POST);
    hide FieldName, FieldValue;
    CountAbsent(POST_LINES, TE_KEY);
    assert EMPTY_TE_LINES[..1] == POST_LINES && POST_LINES[..0] == [];
  }

  lemma NoLF(ls: seq<Bytes>)
    requires ls == POST_LINES || ls == EMPTY_TE_LINES
    ensures NoBareLF(Render(ls))
  {
    assert Join(POST_LINES) == POST;
    assert EMPTY_TE_LINES[1..] == [EMPTY_TE];
    assert Join(EMPTY_TE_LINES) == POST + CRLF + EMPTY_TE;
  }

  lemma SampleHead(ls: seq<Bytes>, route: Bytes -> Option<nat>, n: nat)
    requires Sample(ls) && n > 0 && route(POST) == Some(n)
    ensures IsHead(Render(ls)) && HeadLines(Render(ls)) == ls
    ensures CandidateSize(Render(ls), route) == Some(n) && !Expects(Render(ls))
  {
    var head := Render(ls);
    RenderedLines(ls);
    LinesOfHead(ls);
    ScannedRendered(ls);
    hide FieldName, FieldValue, Lookup, Render, Scanned, Lines, Find;
    EmptyLookup(ls, LowerAscii(CL), 1);
    EmptyLookup(ls, LowerAscii(TE), 1);
    EmptyLookup(ls, LowerAscii(EXPECT), 1);
    NothingExpected();
    assert Lines(head)[0] == POST && StartsWith(POST, POST);
  }

  lemma {:induction false} EmptyLookup(ls: seq<Bytes>, want: Bytes, k: nat)
    requires 1 <= k <= |ls| && forall i :: 1 <= i < |ls| ==> FieldValue(ls[i]) == []
    ensures Lookup(ls + [[]], want, k) == []
    decreases |ls| - k
  {
    hide FieldName, FieldValue;
    if k < |ls| { EmptyLookup(ls, want, k + 1); }
  }

  /** What a recipient makes of an upload with one of the sample heads. */
  ghost predicate Misread(ls: seq<Bytes>, prefix: Bytes, timedOut: bool, body: Bytes, payload: Bytes) {
    exists sent: Bytes, route: Bytes -> Option<nat> ::
      && Chosen(Render(ls) + body, Render(ls), prefix, sent, route, timedOut)
      && CandidateSize(Render(ls), route) == Some(|payload|)
      && DecodeMessage(sent + body) != Some((payload, []))
  }

  lemma RawMisread(ls: seq<Bytes>, prefix: Bytes, timedOut: bool, payload: Bytes)
    requires ls in {POST_LINES, EMPTY_TE_LINES} && payload != [] && prefix <= payload && (timedOut || Settled(prefix))
    requires ls == EMPTY_TE_LINES || Mode(prefix) == Chunked
    ensures Misread(ls, prefix, timedOut, payload, payload)
  {
    hide CandidateSize, Mode, Absent, Expects, Chosen, DecodeMessage, Find, IsHead, HeadLines, Render, Count, Settled;
    var head, rest := Render(ls), payload[|prefix|..];
    var route: Bytes -> Option<nat> := _ => Some(|payload|);
    SampleHeads(route, |payload|);
    CountAbsent(ls, TE_KEY);
    assert IsHead(head) && prefix + rest == payload;
    HeadMarked(head);
    var sent := SomeChoice(head, prefix, rest, route, timedOut);
    assert payload + [] == payload;
    RawUpload(head + payload, head, prefix, sent, route, timedOut, payload, []);
    assert (head + payload)[|head|..] == payload;
  }

  lemma HeadMarked(head: Bytes)
    requires IsHead(head)
    ensures |head| >= 4 && Find(head, MARK) == Some(|head| - 4) && NoBareLF(head)
  {
  }

  /** A raw file that starts like a chunk-size line is misread without any timeout. */
  lemma LookalikeMisread()
    ensures Misread(POST_LINES, "A\r\n", false, "A\r\n", "A\r\n")
  {
    var size: Bytes := "A";
    assert HexValue(size) == 10 by { assert size[..0] == []; }
    var p: Bytes := "A\r\n";
    assert size + CRLF + [] == p;
    SizeLineMode(size, [], p);
    hide Misread;
    RawMisread(POST_LINES, p, false, p);
  }

  /** So is any raw file of which nothing arrives in time. */
  lemma SlowMisread(payload: Bytes)
    requires payload != []
    ensures Misread(POST_LINES, [], true, payload, payload)
  {
    assert Undecided([]);
    UndecidedIsUnknown([]);
    hide Misread;
    RawMisread(POST_LINES, [], true, payload);
  }

  /** And any raw file after an empty Transfer-Encoding field, whatever is seen of it. */
  lemma EmptyFieldMisread(payload: Bytes)
    requires payload != []
    ensures Misread(EMPTY_TE_LINES, payload, true, payload, payload)
    ensures Settled(payload) ==> Misread(EMPTY_TE_LINES, payload, false, payload, payload)
  {
    hide Misread;
    RawMisread(EMPTY_TE_LINES, payload, true, payload);
    if Settled(payload) { RawMisread(EMPTY_TE_LINES, payload, false, payload); }
  }

  /** Rewriting that head as chunked leaves two Transfer-Encoding lines. */
  lemma TwoTransferEncodings(route: Bytes -> Option<nat>, n: nat) returns (sent: Bytes)
    requires n > 0 && route(POST) == Some(n)
    ensures var head := Render(EMPTY_TE_LINES);
            && CandidateSize(head, route) == Some(n) && AsChunked(sent, head)
            && Count(HeadLines(sent), TE_KEY) == 2
  {
    var head := Render(EMPTY_TE_LINES);
    SampleHeads(route, n);
    PostIsNoField(POST);
    hide CandidateSize, Render, IsHead, Find, FieldName, Count, Absent, OneField, Without, Expects;
    var out := SomeRewriting(head, CL, []);
    sent := match Find(out, MARK) case None => out case Some(i) => out[..i + 2] + TE_LINE + CRLF + out[i + 2..];
    assert WithTeLine(sent, out);
    ChunkedNormalForm(sent, head);
  }

  function Zeros(n: nat): Bytes { seq(n, _ => '0') }

  lemma {:induction false} ZerosAreNothing(n: nat)
    ensures AllHex(Zeros(n)) && HexValue(Zeros(n)) == 0
  {
    if n > 0 {
      ZerosAreNothing(n - 1);
      assert Zeros(n)[..n - 1] == Zeros(n - 1);
    }
  }

  /** A legal chunked body: one octet, announced by a size line with `n` leading zeros. */
  function PaddedBody(n: nat): ChunkedBody {
    ChunkedBody([Chunk(Zeros(n) + "1", [], "x")], "0", [], [])
  }

  lemma PaddedIsGood(n: nat)
    ensures var b := PaddedBody(n); GoodBody(b) && FirstExt(b) == [] && |FirstSize(b)| == n + 1 && Payload(b.chunks) == "x"
  {
    ZerosAreNothing(n);
    ZerosAreNothing(1);
    var size, last: Bytes := Zeros(n) + "1", "0";
    assert size[..n] == Zeros(n) && last == Zeros(1);
    assert Payload(PaddedBody(n).chunks[1..]) == [];
  }

  /** A chunked body whose first size line has 64 digits or more is misread without any timeout. */
  lemma LongSizeMisread(n: nat)
    requires n >= 63
    ensures GoodBody(PaddedBody(n)) && Misread(POST_LINES, Encode(PaddedBody(n)), false, Encode(PaddedBody(n)), "x")
  {
    var b, body := PaddedBody(n), Encode(PaddedBody(n));
    PaddedIsGood(n);
    DigitsOnly(b);
    hide GoodBody, PaddedBody, Misread;
    NotTorn(b);
    hide ShortLine;
    LineMisread(b, body);
  }

  lemma NotTorn(b: ChunkedBody)
    requires GoodBody(b) && FirstExt(b) == [] && |FirstSize(b)| >= LOOK
    ensures !Torn(Encode(b)) && Settled(Encode(b))
  {
    var rest := FirstLine(b, []);
    assert Encode(b) + [] == Encode(b) && FirstSize(b) + [] == FirstSize(b);
    if b.chunks != [] { assert GoodChunk(b.chunks[0]); }
    assert Encode(b)[LOOK - 1] == FirstSize(b)[LOOK - 1];
  }

  /** A legal chunked body with a chunk extension: one octet, announced by "1;a=b". */
  function ExtendedBody(): ChunkedBody {
    ChunkedBody([Chunk("1", ";a=b", "x")], "0", [], [])
  }

  /** It is misread without any timeout: "=" is no character of a size line as the shim knows it. */
  lemma ExtensionMisread()
    ensures GoodBody(ExtendedBody())
    ensures Misread(POST_LINES, Encode(ExtendedBody()), false, Encode(ExtendedBody()), "x")
  {
    var b, body := ExtendedBody(), Encode(ExtendedBody());
    ExtendedIsGood();
    ExtendedStart();
    hide GoodBody, ExtendedBody, Misread, ShortLine, Torn, Settled;
    LineMisread(b, body);
  }

  lemma ExtendedIsGood()
    ensures var b := ExtendedBody(); GoodBody(b) && Payload(b.chunks) == "x" && FirstSize(b) + FirstExt(b) == "1;a=b"
  {
    ZerosAreNothing(1);
    ZerosAreNothing(0);
    var size, last: Bytes := "1", "0";
    assert last == Zeros(1) && size[..0] == Zeros(0);
    assert Payload(ExtendedBody().chunks[1..]) == [];
  }

  lemma ExtendedStart()
    ensures var b := ExtendedBody();
            !ShortLine(FirstSize(b) + FirstExt(b)) && !Torn(Encode(b)) && Settled(Encode(b))
  {
    ExtendedIsGood();
    var rest := FirstLine(ExtendedBody(), []);
    var body, line: Bytes := Encode(ExtendedBody()), "1;a=b";
    assert body + [] == body == line + CRLF + rest;
    assert line[3] == '=' && body[3] == '=';
    assert body[0] == '1' && body[1] == ';' && body[2] == 'a';
    hide Encode, GoodBody, ExtendedBody;
    EndDecides(body, 3);
  }

  lemma LineMisread(b: ChunkedBody, body: Bytes)
    requires GoodBody(b) && body == Encode(b) && !ShortLine(FirstSize(b) + FirstExt(b)) && !Torn(body) && Settled(body)
    requires Payload(b.chunks) == "x"
    ensures Misread(POST_LINES, body, false, body, "x")
  {
    hide CandidateSize, Mode, Absent, Expects, Chosen, DecodeMessage, Find, IsHead, HeadLines, Render, Count, Settled, Torn, ShortLine, Undecided;
    hide GoodBody, Encode, Payload, BodyFraming, FirstSize, FirstExt;
    var head := Render(POST_LINES);
    var route: Bytes -> Option<nat> := _ => Some(1);
    SampleHeads(route, 1);
    OwnFraming(POST_LINES);
    assert body + [] == body;
    HeadMarked(head);
    var sent := SomeChoice(head, body, [], route, false);
    ChunkedInTime(head + body, head, body, sent, route, false, b, []);
    ChunkedUpload(head + body, head, body, sent, route, false, b, []);
    assert (head + body)[|head|..] == body;
  }

  /** The two stream theorems, said of a connection in any state: what it has delivered, holds and
      has still to read is a message whose body a recipient decodes as the payload. */
  lemma ChunkedConnection(c: UploadCompatConn, b: ChunkedBody, extra: Bytes)
    requires c.Valid() && c.started && c.initErr.None? && c.input == c.head + (Encode(b) + extra)
    requires NoBareLF(c.head) && CandidateSize(c.head, c.route).Some? && GoodBody(b)
    ensures c.off <= |c.buf|
    ensures DecodeMessage(c.delivered + c.buf[c.off..] + c.wire.rest) == Some((Payload(b.chunks), extra)) <==>
            (!Expects(c.head) && Mode(c.prefix) == Chunked) || BodyFraming(HeadLines(c.head)[1..]) == ByChunks
  {
    hide Chosen, BodyFraming, Mode, HeadLines, CandidateSize, Expects, GoodBody, Encode, DecodeMessage;
    ChunkedUpload(c.input, c.head, c.prefix, c.sent, c.route, c.timedOut, b, extra);
  }

  lemma RawConnection(c: UploadCompatConn, payload: Bytes, extra: Bytes)
    requires c.Valid() && c.started && c.initErr.None? && c.input == c.head + (payload + extra)
    requires NoBareLF(c.head) && CandidateSize(c.head, c.route) == Some(|payload|)
    ensures c.off <= |c.buf|
    ensures DecodeMessage(c.delivered + c.buf[c.off..] + c.wire.rest) == Some((payload, extra)) <==>
            Absent(HeadLines(c.head), TE_KEY) && (Expects(c.head) || Mode(c.prefix) == Raw)
  {
    hide Chosen, Absent, HeadLines, CandidateSize, Expects, DecodeMessage, Mode;
    RawUpload(c.input, c.head, c.prefix, c.sent, c.route, c.timedOut, payload, extra);
  }
}
