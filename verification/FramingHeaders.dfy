/** Header fields, and the rewriting of the fields that frame a message body. */
module FramingHeaders {
  import opened Octets
  import opened Options
  import opened HttpText

  /** The longest line, with its line feed, that the header scanner accepts. */
  const MAX_TOKEN := 65536

  function LowerChar(c: Octet): Octet {
    if 'A' <= c <= 'Z' then c - 'A' + 'a' else c
  }

  function LowerAscii(s: Bytes): Bytes {
    seq(|s|, i requires 0 <= i < |s| => LowerChar(s[i]))
  }

  predicate IsSpace(c: Octet) { c == ' ' || 9 <= c as int <= 13 }

  function TrimLeft(s: Bytes): Bytes {
    if s != [] && IsSpace(s[0]) then TrimLeft(s[1..]) else s
  }

  function TrimRight(s: Bytes): Bytes {
    if s != [] && IsSpace(s[|s| - 1]) then TrimRight(s[..|s| - 1]) else s
  }

  function Trim(s: Bytes): Bytes { TrimLeft(TrimRight(s)) }

  /** No blank at either end. */
  predicate Trimmed(s: Bytes) {
    s != [] ==> !IsSpace(s[0]) && !IsSpace(s[|s| - 1])
  }

  /** The lower-cased name of a field line; empty when the line is not a field. */
  function FieldName(line: Bytes): Bytes {
    match Find(line, ":")
    case Some(i) => LowerAscii(Trim(line[..i]))
    case None => []
  }

  function FieldValue(line: Bytes): Bytes {
    match Find(line, ":")
    case Some(i) => Trim(line[i + 1..])
    case None => []
  }

  function Field(name: Bytes, value: Bytes): Bytes { name + ": " + value }

  predicate IsFieldName(name: Bytes) {
    name != [] && forall c :: c in name ==> c != ':' && c != '\n' && !IsSpace(c)
  }

  lemma TrimmedStays(s: Bytes)
    requires Trimmed(s)
    ensures Trim(s) == s
  {
  }

  lemma FieldParts(name: Bytes, value: Bytes)
    requires IsFieldName(name) && Trimmed(value)
    ensures FieldName(Field(name, value)) == LowerAscii(name) && FieldValue(Field(name, value)) == value
  {
    var line, n := Field(name, value), |name|;
    assert line[n..n + 1] == ":";
    forall k: nat | k < n
      ensures !At(line, ":", k)
    {
      assert line[k..k + 1] == [name[k]] && name[k] in name;
    }
    FindIs(line, ":", n);
    assert line[..n] == name && line[n + 1..] == " " + value;
    assert name[0] in name && name[n - 1] in name;
    TrimmedStays(name);
    assert (" " + value)[1..] == value;
    TrimBlankThen(value);
  }

  lemma EmptyField(name: Bytes)
    requires IsFieldName(name)
    ensures FieldName(name + ":") == LowerAscii(name) && FieldValue(name + ":") == []
  {
    var line, n := name + ":", |name|;
    assert line[n..n + 1] == ":";
    forall k: nat | k < n
      ensures !At(line, ":", k)
    {
      assert line[k..k + 1] == [name[k]] && name[k] in name;
    }
    FindIs(line, ":", n);
    assert line[..n] == name && line[n + 1..] == [];
    assert name[0] in name && name[n - 1] in name;
    TrimmedStays(name);
  }

  lemma TrimBlankThen(value: Bytes)
    requires Trimmed(value)
    ensures Trim(" " + value) == value
  {
    var s := " " + value;
    if value == [] {
      assert s == " " && s[..0] == [];
      assert TrimRight(s) == TrimRight([]);
    } else {
      assert TrimRight(s) == s && s[1..] == value;
      assert TrimLeft(s) == TrimLeft(value);
    }
  }

  function DropCR(s: Bytes): Bytes {
    if s != [] && s[|s| - 1] == '\r' then s[..|s| - 1] else s
  }

  /** The lines a scanner yields: cut at line feeds, one carriage return dropped from each,
      stopping at a line that is too long. */
  function Scanned(s: Bytes): seq<Bytes>
    decreases |s|
  {
    if s == [] then []
    else
      match Find(s, "\n")
      case None => if |s| >= MAX_TOKEN then [] else [DropCR(s)]
      case Some(i) => if i + 1 > MAX_TOKEN then [] else [DropCR(s[..i])] + Scanned(s[i + 1..])
  }

  /** The value of the first field of that name after line `k`, up to an empty line. */
  function Lookup(ls: seq<Bytes>, want: Bytes, k: nat): Bytes
    decreases |ls| - k
  {
    if k >= |ls| || ls[k] == [] then []
    else if FieldName(ls[k]) == want then FieldValue(ls[k])
    else Lookup(ls, want, k + 1)
  }

  method HeaderValue(header: Bytes, name: Bytes) returns (v: Bytes)
    requires name != []
    ensures v == Lookup(Scanned(header), LowerAscii(name), 1)
  {
    hide LowerAscii, Trim, Scanned, FieldName;
    var want := LowerAscii(name);
    var ls := Scanned(header);
    var k := 1;
    while k < |ls|
      invariant 1 <= k
      invariant Lookup(ls, want, 1) == Lookup(ls, want, k)
    {
      var line := ls[k];
      if line == [] { break; }
      var i := Find(line, ":");
      NotAField(line, name);
      if i.Some? && i.value > 0 && LowerAscii(Trim(line[..i.value])) == want { return Trim(line[i.value + 1..]); }
      k := k + 1;
    }
    return [];
  }

  /** Every line fits the scanner. */
  predicate Scannable(ls: seq<Bytes>) {
    forall i :: 0 <= i < |ls| ==> |ls[i]| + 2 <= MAX_TOKEN
  }

  lemma ScanOne(l: Bytes, t: Bytes)
    requires Plain(l) && |l| + 2 <= MAX_TOKEN
    ensures Scanned(l + CRLF + t) == [l] + Scanned(t)
  {
    var s, n := l + CRLF + t, |l| + 1;
    assert s[n..n + 1] == "\n";
    forall k: nat | k < n
      ensures !At(s, "\n", k)
    {
      assert s[k..k + 1] == [s[k]];
      assert s[k] == if k < |l| then l[k] else '\r';
    }
    FindIs(s, "\n", n);
    assert s[..n] == l + "\r" && s[n + 1..] == t;
    assert DropCR(l + "\r") == l;
  }

  /** The scanner reads a rendered block line by line, then one empty line. */
  lemma {:induction false} ScannedBlock(ls: seq<Bytes>)
    requires ls != [] && Scannable(ls) && forall i :: 0 <= i < |ls| ==> Plain(ls[i])
    ensures Scanned(Render(ls)) == ls + [[]]
  {
    hide Scanned, Plain;
    if |ls| == 1 {
      assert Render(ls) == ls[0] + CRLF + CRLF;
      ScanOne(ls[0], CRLF);
      ScanEnd();
    } else {
      var t := Render(ls[1..]);
      assert Render(ls) == ls[0] + CRLF + t;
      ScanOne(ls[0], t);
      ScannedBlock(ls[1..]);
      assert ls + [[]] == [ls[0]] + (ls[1..] + [[]]);
    }
  }

  lemma ScanEnd()
    ensures Scanned(CRLF) == [[]]
  {
    assert CRLF == [] + CRLF + [];
    ScanOne([], []);
  }

  /** The lines that are not fields of that name, in order. */
  function Without(ls: seq<Bytes>, want: Bytes): seq<Bytes> {
    if ls == [] then []
    else
      var n := |ls| - 1;
      Without(ls[..n], want) + if FieldName(ls[n]) == want then [] else [ls[n]]
  }

  predicate Absent(ls: seq<Bytes>, want: Bytes) {
    forall i :: 0 <= i < |ls| ==> FieldName(ls[i]) != want
  }

  /** Fields of that name replaced by one line where the first of them stood, or dropped. */
  ghost predicate Replaced(out: seq<Bytes>, ls: seq<Bytes>, want: Bytes, line: Bytes) {
    if Absent(ls, want) then out == ls + [line]
    else exists k :: 0 <= k < |ls| && ReplacedAt(out, ls, want, line, k)
  }

  ghost predicate ReplacedAt(out: seq<Bytes>, ls: seq<Bytes>, want: Bytes, line: Bytes, k: nat)
    requires k < |ls|
  {
    FieldName(ls[k]) == want && Absent(ls[..k], want) && out == ls[..k] + [line] + Without(ls[k + 1..], want)
  }

  lemma {:induction false} WithoutConcat(a: seq<Bytes>, b: seq<Bytes>, want: Bytes)
    ensures Without(a + b, want) == Without(a, want) + Without(b, want)
  {
    if b == [] {
      assert a + b == a;
    } else {
      assert (a + b)[..|a + b| - 1] == a + b[..|b| - 1];
      WithoutConcat(a, b[..|b| - 1], want);
    }
  }

  lemma {:induction false} WithoutAbsent(ls: seq<Bytes>, want: Bytes)
    ensures Absent(Without(ls, want), want)
    ensures Absent(ls, want) ==> Without(ls, want) == ls
  {
    hide FieldName;
    if ls != [] {
      var init, l := ls[..|ls| - 1], ls[|ls| - 1];
      assert ls == init + [l];
      WithoutAbsent(init, want);
      AbsentSnoc(init, l, want);
      AbsentSnoc(Without(init, want), l, want);
      hide Absent;
      assert Without(init, want) + [] == Without(init, want);
    }
  }

  ghost predicate Rewriting(out: seq<Bytes>, ls: seq<Bytes>, want: Bytes, line: Bytes, keep: bool, replaced: bool) {
    if replaced then keep && !Absent(ls, want) && Replaced(out, ls, want, line)
    else out == Without(ls, want) && (keep ==> Absent(ls, want))
  }

  lemma AbsentSnoc(ls: seq<Bytes>, l: Bytes, want: Bytes)
    ensures Absent(ls + [l], want) <==> Absent(ls, want) && FieldName(l) != want
  {
    assert (ls + [l])[|ls|] == l;
    assert forall i :: 0 <= i < |ls| ==> (ls + [l])[i] == ls[i];
  }

  lemma ReplacedAtSnoc(out: seq<Bytes>, ls: seq<Bytes>, l: Bytes, want: Bytes, line: Bytes, k: nat)
    requires k < |ls| && ReplacedAt(out, ls, want, line, k)
    ensures ReplacedAt(if FieldName(l) == want then out else out + [l], ls + [l], want, line, k)
  {
    hide FieldName, Absent;
    var all, rest := ls + [l], ls[k + 1..];
    assert all[..k] == ls[..k] && all[k] == ls[k] && all[k + 1..] == rest + [l];
    assert (rest + [l])[..|rest|] == rest;
    assert Without(rest + [l], want) == Without(rest, want) + if FieldName(l) == want then [] else [l];
    hide Without;
  }

  lemma ReplacedSnoc(out: seq<Bytes>, ls: seq<Bytes>, l: Bytes, want: Bytes, line: Bytes)
    requires !Absent(ls, want) && Replaced(out, ls, want, line)
    ensures !Absent(ls + [l], want) && Replaced(if FieldName(l) == want then out else out + [l], ls + [l], want, line)
  {
    AbsentSnoc(ls, l, want);
    var k :| 0 <= k < |ls| && ReplacedAt(out, ls, want, line, k);
    hide Absent, ReplacedAt;
    ReplacedAtSnoc(out, ls, l, want, line, k);
  }

  lemma ReplacedFirst(ls: seq<Bytes>, l: Bytes, want: Bytes, line: Bytes)
    requires Absent(ls, want) && FieldName(l) == want
    ensures !Absent(ls + [l], want) && Replaced(ls + [line], ls + [l], want, line)
  {
    AbsentSnoc(ls, l, want);
    var all := ls + [l];
    assert all[..|ls|] == ls && all[|ls| + 1..] == [];
    hide Absent;
    assert ReplacedAt(ls + [line], all, want, line, |ls|);
  }

  lemma RewritingStep(out: seq<Bytes>, ls: seq<Bytes>, l: Bytes, want: Bytes, line: Bytes, keep: bool, replaced: bool)
    requires Rewriting(out, ls, want, line, keep, replaced)
    ensures FieldName(l) != want ==> Rewriting(out + [l], ls + [l], want, line, keep, replaced)
    ensures FieldName(l) == want && (!keep || replaced) ==> Rewriting(out, ls + [l], want, line, keep, replaced)
    ensures FieldName(l) == want && keep && !replaced ==> Rewriting(out + [line], ls + [l], want, line, keep, true)
  {
    AbsentSnoc(ls, l, want);
    WithoutAbsent(ls, want);
    assert (ls + [l])[..|ls|] == ls;
    hide Replaced, Absent;
    if replaced {
      ReplacedSnoc(out, ls, l, want, line);
    } else if keep && FieldName(l) == want {
      ReplacedFirst(ls, l, want, line);
    }
  }

  /** The rewriting loop over the lines of a head. */
  method RewriteLines(ls: seq<Bytes>, name: Bytes, value: Bytes) returns (out: seq<Bytes>)
    requires name != []
    ensures value == [] ==> out == Without(ls, LowerAscii(name))
    ensures value != [] ==> Replaced(out, ls, LowerAscii(name), Field(name, value))
  {
    hide Rewriting, LowerAscii, Trim, FieldName;
    var want := LowerAscii(name);
    out := [];
    var replaced := false;
    RewritingEnds(out, [], want, Field(name, value), value != [], replaced);
    for k := 0 to |ls|
      invariant Rewriting(out, ls[..k], want, Field(name, value), value != [], replaced)
    {
      var line := ls[k];
      RewritingStep(out, ls[..k], line, want, Field(name, value), value != [], replaced);
      assert ls[..k + 1] == ls[..k] + [line];
      var i := Find(line, ":");
      NotAField(line, name);
      if i.Some? && i.value > 0 && LowerAscii(Trim(line[..i.value])) == want {
        if value != [] && !replaced {
          out := out + [Field(name, value)];
          replaced := true;
        }
        continue;
      }
      out := out + [line];
    }
    assert ls[..|ls|] == ls;
    RewritingEnds(out, ls, want, Field(name, value), value != [], replaced);
    if value != [] && !replaced { out := out + [Field(name, value)]; }
  }

  lemma NotAField(line: Bytes, name: Bytes)
    requires name != []
    ensures match Find(line, ":")
            case Some(i) => if i == 0 then FieldName(line) != LowerAscii(name) else FieldName(line) == LowerAscii(Trim(line[..i]))
            case None => FieldName(line) != LowerAscii(name)
  {
    assert line[..0] == [];
  }

  lemma RewritingEnds(out: seq<Bytes>, ls: seq<Bytes>, want: Bytes, line: Bytes, keep: bool, replaced: bool)
    ensures Rewriting([], [], want, line, keep, false)
    ensures Rewriting(out, ls, want, line, keep, replaced) && !keep ==> out == Without(ls, want)
    ensures Rewriting(out, ls, want, line, keep, replaced) && keep ==>
              Replaced(if replaced then out else out + [line], ls, want, line)
  {
    hide FieldName;
    WithoutAbsent(ls, want);
  }

  ghost predicate RewrittenLines(out: seq<Bytes>, ls: seq<Bytes>, name: Bytes, value: Bytes) {
    if value == [] then out == Without(ls, LowerAscii(name))
    else Replaced(out, ls, LowerAscii(name), Field(name, value))
  }

  /** What rewriting makes of a whole head: nothing when no end mark is found. */
  ghost predicate Reframed(out: Bytes, header: Bytes, name: Bytes, value: Bytes) {
    match Find(header, MARK)
    case None => out == header
    case Some(end) => exists ls :: out == Render(ls) && RewrittenLines(ls, Lines(header[..end]), name, value)
  }

  method RewriteFramingHeader(header: Bytes, name: Bytes, value: Bytes) returns (r: Bytes)
    requires name != []
    ensures Reframed(r, header, name, value)
  {
    var end := Find(header, MARK);
    if end.None? { return header; }
    var ls := RewriteLines(Lines(header[..end.value]), name, value);
    assert RewrittenLines(ls, Lines(header[..end.value]), name, value);
    return Join(ls) + MARK;
  }

  lemma {:induction false} FirstField(ls: seq<Bytes>, want: Bytes) returns (k: nat)
    requires !Absent(ls, want)
    ensures k < |ls| && FieldName(ls[k]) == want && Absent(ls[..k], want)
  {
    hide FieldName;
    var init, l := ls[..|ls| - 1], ls[|ls| - 1];
    assert ls == init + [l];
    if Absent(init, want) {
      k := |init|;
    } else {
      k := FirstField(init, want);
      assert ls[..k] == init[..k];
    }
  }

  lemma SomeLines(ls: seq<Bytes>, name: Bytes, value: Bytes) returns (out: seq<Bytes>)
    ensures RewrittenLines(out, ls, name, value)
  {
    hide FieldName, Absent, Without;
    var want, line := LowerAscii(name), Field(name, value);
    if value == [] {
      out := Without(ls, want);
    } else if Absent(ls, want) {
      out := ls + [line];
    } else {
      var k := FirstField(ls, want);
      out := ls[..k] + [line] + Without(ls[k + 1..], want);
      assert ReplacedAt(out, ls, want, line, k);
    }
  }

  /** Every head can be rewritten. */
  lemma SomeRewriting(header: Bytes, name: Bytes, value: Bytes) returns (out: Bytes)
    ensures Reframed(out, header, name, value)
  {
    hide RewrittenLines, Render;
    match Find(header, MARK) {
      case None => out := header;
      case Some(end) =>
        var ls := SomeLines(Lines(header[..end]), name, value);
        out := Render(ls);
    }
  }

  lemma {:induction false} TrimRightCuts(s: Bytes) returns (b: Bytes)
    ensures s == TrimRight(s) + b && forall c :: c in b ==> IsSpace(c)
    ensures TrimRight(s) != [] ==> !IsSpace(TrimRight(s)[|TrimRight(s)| - 1])
  {
    b := [];
    if s != [] && IsSpace(s[|s| - 1]) {
      b := TrimRightCuts(s[..|s| - 1]);
      assert s == s[..|s| - 1] + [s[|s| - 1]];
      b := b + [s[|s| - 1]];
    }
  }

  lemma {:induction false} TrimLeftCuts(s: Bytes) returns (a: Bytes)
    ensures s == a + TrimLeft(s) && forall c :: c in a ==> IsSpace(c)
    ensures TrimLeft(s) != [] ==> !IsSpace(TrimLeft(s)[0]) && TrimLeft(s)[|TrimLeft(s)| - 1] == s[|s| - 1]
  {
    a := [];
    if s != [] && IsSpace(s[0]) {
      a := TrimLeftCuts(s[1..]);
      assert s == [s[0]] + s[1..];
      a := [s[0]] + a;
    }
  }

  lemma BlanksSpelled(c: Octet)
    ensures IsSpace(c) <==> c in " \t\n\r" || c as int in {11, 12}
  {
  }

  /** Trimming takes the blanks, and nothing else, from both ends. */
  lemma TrimExactly(s: Bytes) returns (a: Bytes, b: Bytes)
    ensures s == a + Trim(s) + b && Trimmed(Trim(s))
    ensures forall c :: c in a + b ==> c in " \t\n\r" || c as int in {11, 12}
    ensures Trim(s) != [] ==> forall c :: c in {Trim(s)[0], Trim(s)[|Trim(s)| - 1]} ==> c !in " \t\n\r" && c as int !in {11, 12}
  {
    hide IsSpace, TrimLeft, TrimRight;
    b := TrimRightCuts(s);
    a := TrimLeftCuts(TrimRight(s));
    forall c: Octet
      ensures IsSpace(c) <==> c in " \t\n\r" || c as int in {11, 12}
    {
      BlanksSpelled(c);
    }
  }

  /** A field line is cut at its first colon; case and outer blanks of the name, and outer blanks of the
      value, do not matter. */
  lemma FieldLine(name: Bytes, value: Bytes)
    requires ':' !in name
    ensures FieldName(name + ":" + value) == LowerAscii(Trim(name)) && FieldValue(name + ":" + value) == Trim(value)
  {
    var line, n := name + ":" + value, |name|;
    assert line[n..n + 1] == ":";
    forall k: nat | k < n
      ensures !At(line, ":", k)
    {
      assert line[k..k + 1] == [name[k]] && name[k] in name;
    }
    FindIs(line, ":", n);
    assert line[..n] == name && line[n + 1..] == value;
  }

  ghost function SmallLetter(i: nat): Octet
    requires i < 26
  {
    "abcdefghijklmnopqrstuvwxyz"[i]
  }

  ghost function CapitalLetter(i: nat): Octet
    requires i < 26
  {
    "ABCDEFGHIJKLMNOPQRSTUVWXYZ"[i]
  }

  lemma LetterCodes(i: nat)
    requires i < 26
    ensures SmallLetter(i) == ('a' as int + i) as char && CapitalLetter(i) == ('A' as int + i) as char
  {
  }

  /** Capital letters, and no other characters, are made small. */
  lemma LowerLetters(c: Octet)
    ensures forall i :: 0 <= i < 26 && c == CapitalLetter(i) ==> LowerChar(c) == SmallLetter(i)
    ensures (forall i :: 0 <= i < 26 ==> c != CapitalLetter(i)) ==> LowerChar(c) == c
  {
    hide SmallLetter, CapitalLetter;
    forall i: nat | i < 26
      ensures SmallLetter(i) == ('a' as int + i) as char && CapitalLetter(i) == ('A' as int + i) as char
    {
      LetterCodes(i);
    }
    if 'A' <= c <= 'Z' { LetterCodes(c as int - 'A' as int); }
  }

  /** The lines before the first that is longer, with its end, than 65536 bytes. */
  function Visible(ls: seq<Bytes>): seq<Bytes> {
    if ls == [] || |ls[0]| + 2 > 65536 then [] else [ls[0]] + Visible(ls[1..])
  }

  lemma ScanLong(l: Bytes, t: Bytes)
    requires Plain(l) && |l| + 2 > 65536
    ensures Scanned(l + CRLF + t) == []
  {
    var s, n := l + CRLF + t, |l| + 1;
    assert s[n..n + 1] == "\n";
    forall k: nat | k < n
      ensures !At(s, "\n", k)
    {
      assert s[k..k + 1] == [s[k]];
      assert s[k] == if k < |l| then l[k] else '\r';
    }
    FindIs(s, "\n", n);
  }

  /** Nothing from the first overlong line on is looked at. */
  lemma {:induction false} LongLineStops(ls: seq<Bytes>)
    requires ls != [] && forall i :: 0 <= i < |ls| ==> Plain(ls[i])
    ensures Scanned(Render(ls)) == Visible(ls) + if Visible(ls) == ls then [[]] else []
    ensures Visible(ls) <= ls
  {
    hide Scanned, Plain;
    var t := if |ls| == 1 then CRLF else Render(ls[1..]);
    assert Render(ls) == ls[0] + CRLF + t;
    if |ls[0]| + 2 > 65536 {
      ScanLong(ls[0], t);
    } else {
      ScanOne(ls[0], t);
      if |ls| == 1 {
        ScanEnd();
        assert ls[1..] == [] && Visible(ls) == ls;
      } else {
        LongLineStops(ls[1..]);
        assert ls == [ls[0]] + ls[1..];
      }
    }
  }
}
