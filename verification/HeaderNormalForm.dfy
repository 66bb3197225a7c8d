/** Rewriting the framing fields brings a message head into a normal form. */
module HeaderNormalForm {
  import opened Octets
  import opened Options
  import opened HttpText
  import opened FramingHeaders

  const CL: Bytes := "Content-Length"
  const TE: Bytes := "Transfer-Encoding"
  const CL_KEY: Bytes := LowerAscii(CL)
  const TE_KEY: Bytes := LowerAscii(TE)
  const TE_LINE: Bytes := "Transfer-Encoding: chunked"

  lemma FieldKeys()
    ensures CL_KEY != [] && CL_KEY[0] == 'c' && TE_KEY != [] && TE_KEY[0] == 't'
    ensures IsFieldName(CL) && IsFieldName(TE)
    ensures TE_LINE == Field(TE, "chunked")
  {
  }

  lemma {:induction false} TrimKeepsFirst(s: Bytes)
    requires s != [] && !IsSpace(s[0])
    ensures Trim(s) != [] && Trim(s)[0] == s[0]
  {
    if IsSpace(s[|s| - 1]) { TrimKeepsFirst(s[..|s| - 1]); }
  }

  /** The request line of a POST is never taken for a framing field. */
  lemma PostIsNoField(l: Bytes)
    requires l != [] && l[0] == 'P'
    ensures FieldName(l) != CL_KEY && FieldName(l) != TE_KEY
  {
    FieldKeys();
    if Find(l, ":").Some? && Find(l, ":").value > 0 {
      TrimKeepsFirst(l[..Find(l, ":").value]);
      assert FieldName(l)[0] == 'p';
    } else {
      assert FieldName(l) == [];
    }
  }

  /** Exactly one field of that name, and it is this line. */
  ghost predicate OneField(ls: seq<Bytes>, want: Bytes, line: Bytes) {
    exists k :: 0 <= k < |ls| && ls[k] == line && FieldName(line) == want && Absent(ls[..k], want) && Absent(ls[k + 1..], want)
  }

  lemma {:induction false} LookupSkips(ls: seq<Bytes>, want: Bytes, from: nat, k: nat)
    requires from <= k < |ls| && (forall i :: from <= i < k ==> FieldName(ls[i]) != want && ls[i] != [])
    requires ls[k] != [] && FieldName(ls[k]) == want
    ensures Lookup(ls, want, from) == FieldValue(ls[k])
    decreases k - from
  {
    if from < k { LookupSkips(ls, want, from + 1, k); }
  }

  lemma LookupOne(ls: seq<Bytes>, want: Bytes, line: Bytes)
    requires Block(ls) && OneField(ls, want, line) && FieldName(ls[0]) != want && line != []
    ensures Lookup(ls + [[]], want, 1) == FieldValue(line)
  {
    var k :| 0 <= k < |ls| && ls[k] == line && FieldName(line) == want && Absent(ls[..k], want) && Absent(ls[k + 1..], want);
    var all := ls + [[]];
    forall i | 1 <= i < k
      ensures FieldName(all[i]) != want && all[i] != []
    {
      assert all[i] == ls[..k][i] == ls[i];
    }
    LookupSkips(all, want, 1, k);
  }

  lemma {:induction false} WithoutBlock(ls: seq<Bytes>, want: Bytes)
    requires forall i :: 0 <= i < |ls| ==> Plain(ls[i]) && ls[i] != []
    ensures forall i :: 0 <= i < |Without(ls, want)| ==> Plain(Without(ls, want)[i]) && Without(ls, want)[i] != []
  {
    if ls != [] { WithoutBlock(ls[..|ls| - 1], want); }
  }

  lemma WithoutSingle(l: Bytes, want: Bytes)
    ensures Without([l], want) == if FieldName(l) == want then [] else [l]
  {
    var one: seq<Bytes> := [l];
    assert one[..0] == [];
  }

  /** Dropping fields keeps the request line and the shape of a block. */
  lemma WithoutHead(ls: seq<Bytes>, want: Bytes)
    requires Block(ls) && FieldName(ls[0]) != want
    ensures Without(ls, want) == [ls[0]] + Without(ls[1..], want)
    ensures Block(Without(ls, want)) && Without(ls, want)[0] == ls[0]
  {
    assert ls == [ls[0]] + ls[1..];
    WithoutConcat([ls[0]], ls[1..], want);
    WithoutSingle(ls[0], want);
    forall i | 0 <= i < |ls[1..]|
      ensures Plain(ls[1..][i]) && ls[1..][i] != []
    {
      assert ls[1..][i] == ls[i + 1];
    }
    WithoutBlock(ls[1..], want);
  }

  lemma BlockSnoc(ls: seq<Bytes>, l: Bytes)
    requires Block(ls) && Plain(l) && l != []
    ensures Block(ls + [l])
  {
  }

  lemma WithoutAt(ls: seq<Bytes>, want: Bytes, k: nat)
    requires k < |ls| && Absent(ls[..k], want) && FieldName(ls[k]) == want
    ensures Without(ls, want) == ls[..k] + Without(ls[k + 1..], want)
  {
    hide FieldName, Absent, Without;
    var l, rest := ls[k], ls[k + 1..];
    WithoutAbsent(ls[..k], want);
    WithoutConcat(ls[..k], [l] + rest, want);
    WithoutConcat([l], rest, want);
    WithoutSingle(l, want);
    assert ls == ls[..k] + ([l] + rest);
    assert [] + Without(rest, want) == Without(rest, want);
  }

  /** What follows the replaced field, without further such fields. */
  function Tail(ls: seq<Bytes>, want: Bytes, k: nat): seq<Bytes> {
    if k < |ls| then Without(ls[k + 1..], want) else []
  }

  /** What replacement yields, in one shape: a part without such fields, the line, another such part. */
  lemma ReplacedShape(out: seq<Bytes>, ls: seq<Bytes>, want: Bytes, line: Bytes) returns (k: nat)
    requires Block(ls) && FieldName(ls[0]) != want && Replaced(out, ls, want, line)
    ensures 0 < k <= |ls| && Absent(ls[..k], want) && Absent(Tail(ls, want, k), want)
    ensures out == ls[..k] + [line] + Tail(ls, want, k) && Without(ls, want) == ls[..k] + Tail(ls, want, k)
  {
    hide FieldName, Without;
    assert ls != [];
    hide Block;
    if Absent(ls, want) {
      k := |ls|;
      assert ls[..k] == ls && ls + [line] == ls[..k] + [line] + [];
      WithoutAbsent(ls, want);
    } else {
      k :| 0 <= k < |ls| && ReplacedAt(out, ls, want, line, k);
      WithoutAt(ls, want, k);
      WithoutAbsent(ls[k + 1..], want);
    }
  }

  predicate Solid(ls: seq<Bytes>) {
    forall i :: 0 <= i < |ls| ==> Plain(ls[i]) && ls[i] != []
  }

  lemma SolidTail(ls: seq<Bytes>, want: Bytes, k: nat)
    requires Block(ls) && 0 < k
    ensures Solid(Tail(ls, want, k))
  {
    if k < |ls| {
      var rest := ls[k + 1..];
      assert forall i :: 0 <= i < |rest| ==> rest[i] == ls[i + k + 1];
      WithoutBlock(rest, want);
    }
  }

  lemma BlockAround(ls: seq<Bytes>, k: nat, line: Bytes, tail: seq<Bytes>)
    requires Block(ls) && 0 < k <= |ls| && Plain(line) && line != [] && Solid(tail)
    ensures Block(ls[..k] + [line] + tail)
  {
    hide Plain;
  }

  /** The normal form of a head with one such field of a given value. */
  lemma ReplacedNormalForm(out: seq<Bytes>, ls: seq<Bytes>, want: Bytes, line: Bytes)
    requires Block(ls) && FieldName(ls[0]) != want && Replaced(out, ls, want, line)
    requires FieldName(line) == want && Plain(line) && line != []
    ensures Block(out) && out[0] == ls[0]
    ensures OneField(out, want, line)
    ensures Without(out, want) == Without(ls, want)
    ensures Lookup(out + [[]], want, 1) == FieldValue(line)
  {
    hide FieldName, FieldValue, Plain, Absent, Without, Replaced, Tail, Solid, Lookup;
    var k := ReplacedShape(out, ls, want, line);
    var tail := Tail(ls, want, k);
    SolidTail(ls, want, k);
    BlockAround(ls, k, line, tail);
    WithoutAround(ls[..k], line, tail, want);
    assert out[..k] == ls[..k] && out[k] == line && out[k + 1..] == tail;
    assert OneField(out, want, line);
    hide Block;
    LookupOne(out, want, line);
  }

  lemma WithoutAround(a: seq<Bytes>, line: Bytes, b: seq<Bytes>, want: Bytes)
    requires Absent(a, want) && Absent(b, want) && FieldName(line) == want
    ensures Without(a + [line] + b, want) == a + b
  {
    hide FieldName, Absent;
    WithoutConcat(a + [line], b, want);
    WithoutConcat(a, [line], want);
    WithoutAbsent(a, want);
    WithoutAbsent(b, want);
    WithoutSingle(line, want);
    hide Without;
    assert a + [] == a;
  }

  /** Rewriting a head that already has the one field changes nothing. */
  lemma ReplacedAgain(again: seq<Bytes>, out: seq<Bytes>, want: Bytes, line: Bytes)
    requires OneField(out, want, line) && Replaced(again, out, want, line)
    ensures again == out
  {
    hide FieldName, Without;
    var k :| 0 <= k < |out| && out[k] == line && FieldName(line) == want && Absent(out[..k], want) && Absent(out[k + 1..], want);
    assert !Absent(out, want);
    forall i | 0 <= i < k
      ensures FieldName(out[i]) != want
    {
      assert out[..k][i] == out[i];
    }
    forall i | k < i < |out|
      ensures !Absent(out[..i], want)
    {
      assert out[..i][k] == out[k];
    }
    var m :| 0 <= m < |out| && ReplacedAt(again, out, want, line, m);
    assert m == k;
    WithoutAbsent(out[k + 1..], want);
    assert out == out[..k] + [out[k]] + out[k + 1..];
  }

  /** A head as the shim reads it: it ends at its first end mark, and has no bare line feed. */
  predicate IsHead(head: Bytes) {
    |head| >= 4 && NoBareLF(head) && Find(head, MARK) == Some(|head| - 4)
  }

  function HeadLines(head: Bytes): seq<Bytes> {
    match Find(head, MARK)
    case Some(end) => Lines(head[..end])
    case None => []
  }

  lemma HeadShape(head: Bytes)
    requires IsHead(head)
    ensures Block(HeadLines(head)) && head == Render(HeadLines(head))
  {
    HeadIsBlock(head);
  }

  lemma RenderedLines(ls: seq<Bytes>)
    requires Block(ls)
    ensures HeadLines(Render(ls)) == ls
    ensures Find(Render(ls), MARK) == Some(|Render(ls)| - 4)
  {
    RenderEnd(ls);
    LinesJoin(ls);
    assert Render(ls)[..|Join(ls)|] == Join(ls);
  }

  /** Rewriting a framing field to a value: the head still ends at its first end mark, has exactly
      one field of that name, every other line as it was and in its place; the field reads back as
      the value, and rewriting once more changes nothing. */
  lemma RewriteNormalForm(r: Bytes, head: Bytes, name: Bytes, value: Bytes)
    requires IsHead(head) && Reframed(r, head, name, value)
    requires IsFieldName(name) && value != [] && Trimmed(value) && Plain(value)
    requires FieldName(HeadLines(head)[0]) != LowerAscii(name)
    ensures Find(r, MARK) == Some(|r| - 4) && Block(HeadLines(r)) && r == Render(HeadLines(r))
    ensures HeadLines(r)[0] == HeadLines(head)[0]
    ensures OneField(HeadLines(r), LowerAscii(name), Field(name, value))
    ensures Without(HeadLines(r), LowerAscii(name)) == Without(HeadLines(head), LowerAscii(name))
    ensures Scannable(HeadLines(r)) ==> Lookup(Scanned(r), LowerAscii(name), 1) == value
    ensures forall again :: Reframed(again, r, name, value) ==> again == r
  {
    HeadShape(head);
    var want, line := LowerAscii(name), Field(name, value);
    var out :| r == Render(out) && RewrittenLines(out, HeadLines(head), name, value);
    FieldParts(name, value);
    PlainField(name, value);
    hide FieldName, FieldValue, Plain, Lookup, Without, Block, Join, OneField, Field;
    ReplacedNormalForm(out, HeadLines(head), want, line);
    RenderedLines(out);
    if Scannable(out) { ScannedRendered(out); }
    forall again | Reframed(again, r, name, value)
      ensures again == r
    {
      var out' :| again == Render(out') && RewrittenLines(out', HeadLines(r), name, value);
      ReplacedAgain(out', out, want, line);
    }
  }

  lemma ScannedRendered(ls: seq<Bytes>)
    requires Block(ls) && Scannable(ls)
    ensures Scanned(Render(ls)) == ls + [[]]
  {
    ScannedBlock(ls);
  }

  /** Content-Length dropped, and the new line put before the end mark. */
  ghost predicate AsChunked(r: Bytes, header: Bytes) {
    exists out :: Reframed(out, header, CL, []) && WithTeLine(r, out)
  }

  predicate WithTeLine(r: Bytes, out: Bytes) {
    match Find(out, MARK)
    case None => r == out
    case Some(i) => r == out[..i + 2] + TE_LINE + CRLF + out[i + 2..]
  }

  method RewriteAsChunked(header: Bytes) returns (r: Bytes)
    ensures AsChunked(r, header)
  {
    var out := RewriteFramingHeader(header, CL, []);
    var i := Find(out, MARK);
    r := if i.None? then out else out[..i.value + 2] + TE_LINE + CRLF + out[i.value + 2..];
    assert WithTeLine(r, out);
  }

  /** The lines that rewriting as chunked leads to. */
  function ChunkedLines(ls: seq<Bytes>): seq<Bytes> { Without(ls, CL_KEY) + [TE_LINE] }

  ghost predicate ChunkedHead(r: Bytes, head: Bytes) {
    r == Render(ChunkedLines(HeadLines(head)))
  }

  lemma InsertedLine(ls: seq<Bytes>)
    requires Block(ls)
    ensures Render(ls)[..|Join(ls)| + 2] + TE_LINE + CRLF + Render(ls)[|Join(ls)| + 2..] == Render(ls + [TE_LINE])
  {
    JoinSnoc(ls, TE_LINE);
    var s, n := Render(ls), |Join(ls)|;
    assert s[..n + 2] == Join(ls) + CRLF && s[n + 2..] == CRLF;
  }

  /** The byte-level insertion lands on the line level as one more line. */
  lemma AsChunkedLines(r: Bytes, head: Bytes)
    requires IsHead(head) && FieldName(HeadLines(head)[0]) != CL_KEY && AsChunked(r, head)
    ensures ChunkedHead(r, head)
  {
    HeadShape(head);
    FieldKeys();
    var out :| Reframed(out, head, CL, []) && WithTeLine(r, out);
    var ls := HeadLines(head);
    WithoutHead(ls, CL_KEY);
    RenderEnd(Without(ls, CL_KEY));
    InsertedLine(Without(ls, CL_KEY));
  }

  function Count(ls: seq<Bytes>, want: Bytes): nat {
    if ls == [] then 0 else Count(ls[..|ls| - 1], want) + if FieldName(ls[|ls| - 1]) == want then 1 else 0
  }

  lemma {:induction false} CountAbsent(ls: seq<Bytes>, want: Bytes)
    ensures Count(ls, want) == 0 <==> Absent(ls, want)
  {
    if ls != [] {
      CountAbsent(ls[..|ls| - 1], want);
      AbsentSnoc(ls[..|ls| - 1], ls[|ls| - 1], want);
      assert ls == ls[..|ls| - 1] + [ls[|ls| - 1]];
    }
  }

  lemma CountSnoc(ls: seq<Bytes>, l: Bytes, want: Bytes)
    ensures Count(ls + [l], want) == Count(ls, want) + if FieldName(l) == want then 1 else 0
  {
    hide FieldName;
    assert (ls + [l])[..|ls|] == ls;
  }

  lemma {:induction false} CountWithout(ls: seq<Bytes>, want: Bytes, other: Bytes)
    requires want != other
    ensures Count(Without(ls, want), other) == Count(ls, other)
  {
    hide FieldName;
    if ls != [] {
      var n := |ls| - 1;
      CountWithout(ls[..n], want, other);
      var w := Without(ls[..n], want);
      CountSnoc(w, ls[n], other);
      assert w + [] == w;
    }
  }

  /** Rewriting as chunked: no Content-Length line is left, the Transfer-Encoding line is added
      inside the head, exactly one such line remains if and only if there was none before, and
      every other line is as it was. */
  lemma ChunkedNormalForm(r: Bytes, head: Bytes)
    requires IsHead(head) && FieldName(HeadLines(head)[0]) != CL_KEY && AsChunked(r, head)
    ensures Find(r, MARK) == Some(|r| - 4) && Block(HeadLines(r)) && r == Render(HeadLines(r))
    ensures HeadLines(r)[0] == HeadLines(head)[0] && Absent(HeadLines(r), CL_KEY)
    ensures HeadLines(r) == Without(HeadLines(head), CL_KEY) + [TE_LINE]
    ensures Count(HeadLines(r), TE_KEY) == Count(HeadLines(head), TE_KEY) + 1
    ensures OneField(HeadLines(r), TE_KEY, TE_LINE) <==> Absent(HeadLines(head), TE_KEY)
  {
    HeadShape(head);
    TeField();
    AsChunkedLines(r, head);
    hide FieldName, Without, Absent, Block, OneField, HeadLines, Join, AsChunked;
    ChunkedBlock(HeadLines(head));
    RenderedLines(ChunkedLines(HeadLines(head)));
  }

  lemma TeField()
    ensures FieldName(TE_LINE) == TE_KEY && FieldValue(TE_LINE) == "chunked" && Plain(TE_LINE) && TE_KEY != CL_KEY
  {
    FieldKeys();
    var v: Bytes := "chunked";
    assert Trimmed(v) && Plain(v);
    FieldParts(TE, v);
    PlainField(TE, v);
  }

  lemma PlainField(name: Bytes, value: Bytes)
    requires IsFieldName(name) && Plain(value)
    ensures Plain(Field(name, value)) && Field(name, value) != []
  {
  }

  lemma ChunkedBlock(ls: seq<Bytes>)
    requires Block(ls) && FieldName(ls[0]) != CL_KEY
    ensures var r := ChunkedLines(ls);
            && Block(r) && r[0] == ls[0] && Absent(r, CL_KEY)
            && Count(r, TE_KEY) == Count(ls, TE_KEY) + 1
            && (OneField(r, TE_KEY, TE_LINE) <==> Absent(ls, TE_KEY))
  {
    TeField();
    hide FieldName;
    var w := Without(ls, CL_KEY);
    WithoutHead(ls, CL_KEY);
    BlockSnoc(w, TE_LINE);
    hide Block, Plain, Absent;
    WithoutAbsent(ls, CL_KEY);
    AbsentSnoc(w, TE_LINE, CL_KEY);
    CountWithout(ls, CL_KEY, TE_KEY);
    CountAbsent(ls, TE_KEY);
    CountAbsent(w, TE_KEY);
    CountSnoc(w, TE_LINE, TE_KEY);
    LastIsOnly(w);
  }

  lemma LastIsOnly(w: seq<Bytes>)
    requires FieldName(TE_LINE) == TE_KEY
    ensures OneField(w + [TE_LINE], TE_KEY, TE_LINE) <==> Absent(w, TE_KEY)
  {
    hide FieldName;
    var all := w + [TE_LINE];
    if Absent(w, TE_KEY) {
      assert all[..|w|] == w && all[|w|] == TE_LINE && all[|w| + 1..] == [];
    }
    forall k | 0 <= k < |all| && Absent(all[..k], TE_KEY) && Absent(all[k + 1..], TE_KEY)
      ensures Absent(w, TE_KEY)
    {
      assert k < |w| ==> all[k + 1..][|w| - k - 1] == TE_LINE;
      assert all[..|w|] == w;
    }
  }
}
