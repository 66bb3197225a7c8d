/** Which requests the connection wrapper repairs, and what it makes of them, said of the request alone. */
module UploadRepair {
  import opened Octets
  import opened Options
  import opened HttpText
  import opened FramingHeaders
  import opened HeaderNormalForm
  import opened BodyClassify
  import opened ChunkedCoding
  import opened Decimals
  import opened UploadCompat
  import opened UploadEndToEnd

  /** The field lines the header scanner gets to see. */
  ghost function SeenFields(ls: seq<Bytes>): seq<Bytes> {
    if Visible(ls) == [] then [] else Visible(ls)[1..]
  }

  lemma {:induction false} LookupOpen(ls: seq<Bytes>, want: Bytes, k: nat)
    requires k <= |ls| && forall i :: k <= i < |ls| ==> ls[i] != []
    ensures Lookup(ls, want, k) == FirstOf(Values(ls[k..], want))
    decreases |ls| - k
  {
    hide FieldName, FieldValue;
    if k < |ls| {
      assert ls[k..] == [ls[k]] + ls[k + 1..];
      ValuesConcat([ls[k]], ls[k + 1..], want);
      ValuesSingle(ls[k], want);
      LookupOpen(ls, want, k + 1);
    }
  }

  lemma SeenLines(head: Bytes) returns (v: seq<Bytes>)
    requires IsHead(head)
    ensures v == Visible(HeadLines(head)) && Scanned(head) in {v, v + [[]]} && (Scanned(head) == v + [[]] ==> v != [])
    ensures forall i :: 1 <= i < |v| ==> v[i] != []
  {
    hide Render, Scanned, Visible, HeadLines;
    HeadShape(head);
    var ls := HeadLines(head);
    LongLineStops(ls);
    v := Visible(ls);
    assert v + [] == v && forall i :: 1 <= i < |v| ==> v[i] == ls[i];
  }

  /** The header scan finds the first field of a name among those it gets to see. */
  lemma HeaderFieldMeans(head: Bytes, name: Bytes)
    requires IsHead(head)
    ensures HeaderField(head, name) == FirstOf(Values(SeenFields(HeadLines(head)), LowerAscii(name)))
  {
    hide FieldName, FieldValue, Scanned, Visible, Values, HeadLines, IsHead, LowerAscii, FirstOf;
    var v := SeenLines(head);
    NoFirst(LowerAscii(name));
    if v != [] {
      LookupFirst(v, LowerAscii(name), 1);
      LookupOpen(v, LowerAscii(name), 1);
    }
  }

  lemma NoFirst(want: Bytes)
    ensures FirstOf(Values([], want)) == []
  {
  }

  lemma Keys()
    ensures LowerAscii(CL) == "content-length" && LowerAscii(TE) == "transfer-encoding" && LowerAscii(EXPECT) == "expect"
  {
  }

  lemma {:induction false} FirstTrimmed(ls: seq<Bytes>, want: Bytes)
    ensures Trimmed(FirstOf(Values(ls, want)))
  {
    hide FieldName;
    if ls != [] {
      FirstTrimmed(ls[..|ls| - 1], want);
      var line := ls[|ls| - 1];
      if i :| Find(line, ":") == Some(i) { var a, b := TrimExactly(line[i + 1..]); }
    }
  }

  /** The size the route knows for the file of a request; zero when it knows none. */
  ghost function FileSize(ls: seq<Bytes>, route: Bytes -> Option<nat>): nat
    requires ls != []
  {
    if route(ls[0]).Some? then route(ls[0]).value else 0
  }

  /** No field, or the first of that name, gives the body a length. */
  ghost predicate Unsized(fields: seq<Bytes>) {
    FirstOf(Values(fields, "content-length")) in {"", "0"}
  }

  ghost predicate Coded(fields: seq<Bytes>) {
    !Absent(fields, "transfer-encoding")
  }

  /** A request is repaired exactly when it is a POST with an absent, empty or zero Content-Length and an
      absent or empty Transfer-Encoding, each the first of its name, and the route knows the file's size. */
  ghost predicate Repairable(ls: seq<Bytes>, route: Bytes -> Option<nat>)
    requires ls != []
  {
    && "POST " <= ls[0]
    && Unsized(SeenFields(ls))
    && FirstOf(Values(SeenFields(ls), "transfer-encoding")) == ""
    && FileSize(ls, route) > 0
  }

  /** The client waits for leave to send the body. */
  ghost predicate Waits(ls: seq<Bytes>) {
    Find(LowerAscii(FirstOf(Values(SeenFields(ls), "expect"))), "100-continue").Some?
  }

  lemma CandidateExactly(head: Bytes, route: Bytes -> Option<nat>)
    requires IsHead(head)
    ensures HeadLines(head) != []
    ensures CandidateSize(head, route) == if Repairable(HeadLines(head), route) then Some(FileSize(HeadLines(head), route)) else None
    ensures Expects(head) <==> Waits(HeadLines(head))
  {
    hide IsHead, HeadLines, Lines, Values, SeenFields, LowerAscii, HeaderField, Find;
    HeadFacts(head);
    Keys();
    var ls := HeadLines(head);
    HeaderFieldMeans(head, CL);
    HeaderFieldMeans(head, TE);
    HeaderFieldMeans(head, EXPECT);
    FirstTrimmed(SeenFields(ls), "content-length");
    TrimmedStays(FirstOf(Values(SeenFields(ls), "content-length")));
    assert StartsWith(ls[0], POST) <==> "POST " <= ls[0];
  }

  lemma HeadFacts(head: Bytes)
    requires IsHead(head)
    ensures HeadLines(head) != [] && Lines(head)[0] == HeadLines(head)[0]
  {
    HeadShape(head);
    LinesOfHead(HeadLines(head));
  }

  lemma DecimalPositive(n: nat)
    requires n > 0
    ensures Decimal(n) != [] && Decimal(n) != "0"
  {
    var d: Bytes := Decimal(n);
    assert d[|d| - 1] == ('0' as int + n % 10) as char;
    assert n >= 10 ==> |d| > 1;
  }

  lemma {:induction false} AllVisible(ls: seq<Bytes>)
    requires Scannable(ls)
    ensures Visible(ls) == ls
  {
    if ls != [] { AllVisible(ls[1..]); }
  }

  /** The rewritten field is new, or has a new value. */
  lemma LengthDiffers(sent: Bytes, head: Bytes, n: nat)
    requires IsHead(head) && Reframed(sent, head, CL, Decimal(n)) && n > 0
    requires HeadLines(head)[0] != [] && HeadLines(head)[0][0] == 'P'
    requires FirstOf(Values(HeadLines(head)[1..], CL_KEY)) in {"", "0"}
    ensures sent != head
  {
    hide FieldName, FieldValue, Values, OneField, Block, Render, Lookup, Scanned, Find, Decimal, Lines, Without, Reframed, IsHead, LowerAscii;
    FieldKeys();
    DecimalPlain(n);
    DecimalPositive(n);
    HeadNotEmptyLines(head);
    PostIsNoField(HeadLines(head)[0]);
    RewriteNormalForm(sent, head, CL, Decimal(n));
    if sent == head {
      FieldParts(CL, Decimal(n));
      ValuesOne(HeadLines(head), CL_KEY, Field(CL, Decimal(n)));
      ValuesOfFields(HeadLines(head), CL_KEY);
      assert false;
    }
  }

  lemma HeadNotEmptyLines(head: Bytes)
    requires IsHead(head)
    ensures HeadLines(head) != []
  {
    HeadShape(head);
  }

  /** Exactly the repairable requests are changed. A repaired one is framed by chunks when the client does
      not wait and the bytes seen were taken for chunks; otherwise by the file's size, unless the head has
      a Transfer-Encoding field, which then decides as before. Any other request is sent on as it came. */
  lemma RepairedExactly(input: Bytes, head: Bytes, prefix: Bytes, sent: Bytes, route: Bytes -> Option<nat>, timedOut: bool)
    requires Chosen(input, head, prefix, sent, route, timedOut) && NoBareLF(head)
    ensures HeadLines(head) != []
    ensures !Repairable(HeadLines(head), route) ==> sent == head
    ensures Repairable(HeadLines(head), route) ==>
              && |sent| >= 4 && Find(sent, MARK) == Some(|sent| - 4)
              && BodyFraming(HeadLines(sent)[1..]) ==
                 if !Waits(HeadLines(head)) && Mode(prefix) == Chunked then ByChunks
                 else if !Coded(HeadLines(head)) then ByLength(FileSize(HeadLines(head), route))
                 else BodyFraming(HeadLines(head)[1..])
    ensures Scannable(HeadLines(head)) ==> (sent != head <==> Repairable(HeadLines(head), route))
  {
    hide CandidateSize, Expects, Repairable, FileSize, Waits, Reframed, AsChunked, Mode, BodyFraming, Absent, HeadLines, Find, StartsWith, Settled;
    assert IsHead(head);
    CandidateExactly(head, route);
    Keys();
    if Repairable(HeadLines(head), route) {
      SentFraming(input, head, prefix, sent, route, timedOut);
      CandidateHead(head, route);
      Declared(HeadLines(head), route);
      if Scannable(HeadLines(head)) { RepairShows(head, prefix, sent, route); }
    }
  }

  lemma Declared(ls: seq<Bytes>, route: Bytes -> Option<nat>)
    requires ls != [] && Repairable(ls, route)
    ensures FileSize(ls, route) > 0
    ensures Scannable(ls) ==> Unsized(ls[1..])
  {
    if Scannable(ls) { AllVisible(ls); }
  }

  lemma RepairShows(head: Bytes, prefix: Bytes, sent: Bytes, route: Bytes -> Option<nat>)
    requires IsHead(head) && Repaired(sent, head, prefix, route) && CandidateSize(head, route).Some? && CandidateSize(head, route).value > 0
    requires HeadLines(head) != [] && HeadLines(head)[0] != [] && HeadLines(head)[0][0] == 'P'
    requires Unsized(HeadLines(head)[1..])
    ensures sent != head
  {
    hide CandidateSize, Expects, Reframed, AsChunked, Mode, HeadLines, IsHead, Values, Count, Without, LowerAscii, FieldName;
    Keys();
    PostIsNoField(HeadLines(head)[0]);
    if Expects(head) || Mode(prefix) == Raw {
      LengthDiffers(sent, head, CandidateSize(head, route).value);
    } else {
      ChunkedNormalForm(sent, head);
    }
  }

  /** In particular a fixed-length upload passes untouched. */
  lemma FixedLengthUntouched(input: Bytes, head: Bytes, prefix: Bytes, sent: Bytes, route: Bytes -> Option<nat>, timedOut: bool)
    requires Chosen(input, head, prefix, sent, route, timedOut) && NoBareLF(head) && Scannable(HeadLines(head))
    requires !Unsized(HeadLines(head)[1..])
    ensures sent == head
  {
    RepairedExactly(input, head, prefix, sent, route, timedOut);
    hide Chosen, Scannable, HeadLines, Values;
    AllVisible(HeadLines(head));
  }
}
