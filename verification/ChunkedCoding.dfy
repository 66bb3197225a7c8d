/** How an HTTP/1.1 recipient finds the body of a message: the chunked transfer coding (section 4.1
    of RFC 7230) and the body-length rules (section 3.3.3 of RFC 7230). Field names, field values and
    hexadecimal sizes are read with the definitions the wrapper itself is modelled with. */
module ChunkedCoding {
  import opened Octets
  import opened Options
  import opened HttpText
  import opened FramingHeaders
  import opened HeaderNormalForm
  import opened BodyClassify
  import opened Decimals

  /** A chunk: its size line, split at the extension, and its data. */
  datatype Chunk = Chunk(size: Bytes, ext: Bytes, data: Bytes)

  /** A whole chunked body: chunks, the zero-size line, and trailer lines. */
  datatype ChunkedBody = ChunkedBody(chunks: seq<Chunk>, last: Bytes, lastExt: Bytes, trailers: seq<Bytes>)

  predicate GoodExt(ext: Bytes) { ext == [] || (ext[0] == ';' && Plain(ext)) }

  predicate GoodSize(size: Bytes, n: nat) {
    size != [] && AllHex(size) && HexValue(size) == n <= MAX_UINT64
  }

  predicate GoodChunk(c: Chunk) {
    c.data != [] && GoodSize(c.size, |c.data|) && GoodExt(c.ext)
  }

  predicate GoodBody(b: ChunkedBody) {
    && (forall i :: 0 <= i < |b.chunks| ==> GoodChunk(b.chunks[i]))
    && GoodSize(b.last, 0) && GoodExt(b.lastExt)
    && forall i :: 0 <= i < |b.trailers| ==> Plain(b.trailers[i]) && b.trailers[i] != []
  }

  function Payload(cs: seq<Chunk>): Bytes {
    if cs == [] then [] else cs[0].data + Payload(cs[1..])
  }

  function EncodeTrailers(ts: seq<Bytes>): Bytes {
    if ts == [] then CRLF else ts[0] + CRLF + EncodeTrailers(ts[1..])
  }

  function EncodeChunks(cs: seq<Chunk>, tail: Bytes): Bytes {
    if cs == [] then tail
    else cs[0].size + cs[0].ext + CRLF + (cs[0].data + CRLF + EncodeChunks(cs[1..], tail))
  }

  function Encode(b: ChunkedBody): Bytes {
    EncodeChunks(b.chunks, b.last + b.lastExt + CRLF + EncodeTrailers(b.trailers))
  }

  function SkipTrailers(s: Bytes): Option<Bytes>
    decreases |s|
  {
    match Find(s, CRLF)
    case None => None
    case Some(i) => if i == 0 then Some(s[2..]) else SkipTrailers(s[i + 2..])
  }

  /** The payload of a chunked body and what follows the body. */
  function DecodeChunks(s: Bytes): Option<(Bytes, Bytes)>
    decreases |s|
  {
    match Find(s, CRLF)
    case None => None
    case Some(i) =>
      match ParseHex(HexPart(s[..i]))
      case None => None
      case Some(n) =>
        if n == 0 then
          match SkipTrailers(s[i + 2..])
          case None => None
          case Some(rest) => Some(([], rest))
        else if i + n + 4 > |s| || s[i + 2 + n..i + n + 4] != CRLF then None
        else
          match DecodeChunks(s[i + n + 4..])
          case None => None
          case Some((payload, rest)) => Some((s[i + 2..i + 2 + n] + payload, rest))
  }

  lemma {:induction false} TrailersSkipped(ts: seq<Bytes>, extra: Bytes)
    requires forall i :: 0 <= i < |ts| ==> Plain(ts[i]) && ts[i] != []
    ensures SkipTrailers(EncodeTrailers(ts) + extra) == Some(extra)
  {
    if ts == [] {
      assert CRLF + extra == [] + CRLF + extra;
      FirstCut([], extra);
    } else {
      var s := EncodeTrailers(ts) + extra;
      assert s == ts[0] + CRLF + (EncodeTrailers(ts[1..]) + extra);
      FirstCut(ts[0], EncodeTrailers(ts[1..]) + extra);
      TrailersSkipped(ts[1..], extra);
    }
  }

  lemma SizeLine(size: Bytes, ext: Bytes, n: nat)
    requires GoodSize(size, n) && GoodExt(ext)
    ensures Plain(size + ext) && ParseHex(HexPart(size + ext)) == Some(n)
  {
    hide HexValue;
    var line := size + ext;
    assert forall c :: c in size ==> c != '\n';
    if ext == [] {
      assert line == size;
      NoSemicolon(size);
    } else {
      var k := |size|;
      assert line[k..k + 1] == ";";
      forall m: nat | m < k
        ensures !At(line, ";", m)
      {
        assert line[m..m + 1] == [size[m]];
      }
      FindIs(line, ";", k);
      assert line[..k] == size;
    }
  }

  lemma LastChunk(last: Bytes, ext: Bytes, ts: seq<Bytes>, extra: Bytes)
    requires GoodSize(last, 0) && GoodExt(ext) && forall i :: 0 <= i < |ts| ==> Plain(ts[i]) && ts[i] != []
    ensures DecodeChunks(last + ext + CRLF + (EncodeTrailers(ts) + extra)) == Some(([], extra))
  {
    SizeLine(last, ext, 0);
    FirstCut(last + ext, EncodeTrailers(ts) + extra);
    TrailersSkipped(ts, extra);
  }

  lemma OneChunk(c: Chunk, t: Bytes)
    requires GoodChunk(c)
    ensures DecodeChunks(c.size + c.ext + CRLF + (c.data + CRLF + t)) ==
            match DecodeChunks(t)
            case None => None
            case Some((payload, rest)) => Some((c.data + payload, rest))
  {
    hide HexValue, ParseHex, HexPart, DecodeChunks, Find, Plain, GoodSize, GoodExt;
    var line, n := c.size + c.ext, |c.data|;
    SizeLine(c.size, c.ext, n);
    FirstCut(line, c.data + CRLF + t);
    DataCut(line, c.data, t);
    DecodeOne(line + CRLF + (c.data + CRLF + t), |line|, n);
  }

  lemma DataCut(line: Bytes, data: Bytes, t: Bytes)
    ensures var s, i, n := line + CRLF + (data + CRLF + t), |line|, |data|;
            && i + n + 4 <= |s| && s[..i] == line
            && s[i + 2..i + 2 + n] == data && s[i + 2 + n..i + n + 4] == CRLF && s[i + n + 4..] == t
  {
  }

  lemma DecodeOne(s: Bytes, i: nat, n: nat)
    requires Find(s, CRLF) == Some(i) && ParseHex(HexPart(s[..i])) == Some(n) && n > 0
    requires i + n + 4 <= |s| && s[i + 2 + n..i + n + 4] == CRLF
    ensures DecodeChunks(s) ==
            match DecodeChunks(s[i + n + 4..])
            case None => None
            case Some((payload, rest)) => Some((s[i + 2..i + 2 + n] + payload, rest))
  {
    hide ParseHex, HexPart, HexValue, SkipTrailers, Find, FindFrom, At, AllHex;
  }

  /** Decoding undoes encoding and stops exactly where the body ends. */
  lemma {:induction false} ChunkedRoundTrip(cs: seq<Chunk>, b: ChunkedBody, extra: Bytes)
    requires GoodBody(b) && forall i :: 0 <= i < |cs| ==> GoodChunk(cs[i])
    ensures var tail := b.last + b.lastExt + CRLF + EncodeTrailers(b.trailers);
            DecodeChunks(EncodeChunks(cs, tail) + extra) == Some((Payload(cs), extra))
  {
    var tail := b.last + b.lastExt + CRLF + EncodeTrailers(b.trailers);
    if cs == [] {
      assert tail + extra == b.last + b.lastExt + CRLF + (EncodeTrailers(b.trailers) + extra);
      LastChunk(b.last, b.lastExt, b.trailers, extra);
    } else {
      var c, more := cs[0], EncodeChunks(cs[1..], tail) + extra;
      assert EncodeChunks(cs, tail) + extra == c.size + c.ext + CRLF + (c.data + CRLF + more);
      ChunkedRoundTrip(cs[1..], b, extra);
      OneChunk(c, more);
    }
  }

  /** The values of all fields of that name, in order. */
  function Values(ls: seq<Bytes>, want: Bytes): seq<Bytes> {
    if ls == [] then []
    else
      var n := |ls| - 1;
      Values(ls[..n], want) + if FieldName(ls[n]) == want then [FieldValue(ls[n])] else []
  }

  /** The last element of a comma-separated list that is not empty; empty when there is none. */
  function LastItem(v: Bytes): Bytes {
    match Find(v, ",")
    case None => Trim(v)
    case Some(i) => if LastItem(v[i + 1..]) != [] then LastItem(v[i + 1..]) else Trim(v[..i])
  }

  /** The last coding named by all the fields together, empty list elements ignored (section 7 of
      RFC 7230). */
  function FinalCoding(te: seq<Bytes>): Bytes {
    if te == [] then []
    else if LastItem(te[|te| - 1]) != [] then LastItem(te[|te| - 1])
    else FinalCoding(te[..|te| - 1])
  }

  datatype Framing = ByChunks | ByLength(length: nat) | BadFraming

  /** Transfer-Encoding wins over Content-Length and must end in "chunked"; repeated
      Content-Length fields must agree; a request with neither has no body. */
  function BodyFraming(fields: seq<Bytes>): Framing {
    var te, cl := Values(fields, TE_KEY), Values(fields, CL_KEY);
    if te != [] then
      if LowerAscii(FinalCoding(te)) == "chunked" then ByChunks else BadFraming
    else if cl == [] then ByLength(0)
    else if ParseDecimal(cl[0]).Some? && forall i :: 0 <= i < |cl| ==> cl[i] == cl[0] then ByLength(ParseDecimal(cl[0]).value)
    else BadFraming
  }

  /** The body that starts a stream framed like this, and what follows it. */
  function DecodeBody(f: Framing, body: Bytes): Option<(Bytes, Bytes)> {
    match f
    case BadFraming => None
    case ByLength(n) => if n <= |body| then Some((body[..n], body[n..])) else None
    case ByChunks => DecodeChunks(body)
  }

  /** The body of the first message in a stream, and what follows it. */
  function DecodeMessage(stream: Bytes): Option<(Bytes, Bytes)> {
    match Find(stream, MARK)
    case None => None
    case Some(i) => DecodeBody(BodyFraming(Lines(stream[..i])[1..]), stream[i + 4..])
  }
}
