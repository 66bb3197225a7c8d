/** Byte strings as an HTTP/1.1 message head uses them: searching, lines, fields, numbers. */
module HttpText {
  import opened Octets
  import opened Options

  const CRLF: Bytes := "\r\n"
  const MARK: Bytes := "\r\n\r\n"

  predicate At(s: Bytes, pat: Bytes, i: nat) {
    i + |pat| <= |s| && s[i..i + |pat|] == pat
  }

  /** bytes.Index: the first place where `pat` occurs. */
  function Find(s: Bytes, pat: Bytes): (r: Option<nat>)
    ensures r.Some? ==> At(s, pat, r.value) && forall k: nat :: k < r.value ==> !At(s, pat, k)
    ensures r.None? ==> forall k: nat :: !At(s, pat, k)
  {
    FindFrom(s, pat, 0)
  }

  function FindFrom(s: Bytes, pat: Bytes, i: nat): (r: Option<nat>)
    ensures r.Some? ==> i <= r.value && At(s, pat, r.value) && forall k: nat :: i <= k < r.value ==> !At(s, pat, k)
    ensures r.None? ==> forall k: nat :: i <= k ==> !At(s, pat, k)
    decreases |s| - i
  {
    if i + |pat| > |s| then None
    else if s[i..i + |pat|] == pat then Some(i)
    else FindFrom(s, pat, i + 1)
  }

  lemma FindIs(s: Bytes, pat: Bytes, i: nat)
    requires At(s, pat, i) && forall k: nat :: k < i ==> !At(s, pat, k)
    ensures Find(s, pat) == Some(i)
  {
  }

  /** More bytes after a string do not move the first occurrence. */
  lemma FindMore(s: Bytes, t: Bytes, pat: Bytes)
    requires Find(s, pat).Some?
    ensures Find(s + t, pat) == Find(s, pat)
  {
    var i := Find(s, pat).value;
    assert (s + t)[i..i + |pat|] == s[i..i + |pat|];
    forall k: nat | k < i
      ensures !At(s + t, pat, k)
    {
      assert !At(s, pat, k);
      assert (s + t)[k..k + |pat|] == s[k..k + |pat|];
    }
    FindIs(s + t, pat, i);
  }

  /** strings.Split at CRLF. */
  function Lines(s: Bytes): (ls: seq<Bytes>)
    ensures |ls| >= 1
    decreases |s|
  {
    match Find(s, CRLF)
    case None => [s]
    case Some(i) => [s[..i]] + Lines(s[i + 2..])
  }

  /** strings.Join with CRLF. */
  function Join(ls: seq<Bytes>): Bytes {
    if ls == [] then [] else if |ls| == 1 then ls[0] else ls[0] + CRLF + Join(ls[1..])
  }

  lemma {:induction false} JoinLines(s: Bytes)
    ensures Join(Lines(s)) == s
    decreases |s|
  {
    match Find(s, CRLF)
    case None =>
    case Some(i) =>
      JoinLines(s[i + 2..]);
      assert s == s[..i] + CRLF + s[i + 2..];
      assert Lines(s)[1..] == Lines(s[i + 2..]);
  }

  lemma {:induction false} JoinSnoc(ls: seq<Bytes>, l: Bytes)
    requires ls != []
    ensures Join(ls + [l]) == Join(ls) + CRLF + l
  {
    if |ls| == 1 {
      assert (ls + [l])[1..] == [l];
    } else {
      JoinSnoc(ls[1..], l);
      assert (ls + [l])[1..] == ls[1..] + [l];
    }
  }

  predicate Plain(l: Bytes) { '\n' !in l }

  /** A block of lines: no bare line feed, and no empty line but possibly the first. */
  predicate Block(ls: seq<Bytes>) {
    ls != [] && (forall i :: 0 <= i < |ls| ==> Plain(ls[i])) && forall i :: 1 <= i < |ls| ==> ls[i] != []
  }

  lemma PlainCut(l: Bytes, t: Bytes, k: nat)
    requires Plain(l) && k < |l|
    ensures !At(l + CRLF + t, CRLF, k)
  {
    var s := l + CRLF + t;
    assert s[k..k + 2][1] == s[k + 1];
    assert k + 1 < |l| ==> s[k + 1] == l[k + 1];
  }

  lemma FirstCut(l: Bytes, t: Bytes)
    requires Plain(l)
    ensures Find(l + CRLF + t, CRLF) == Some(|l|)
    ensures (l + CRLF + t)[..|l|] == l && (l + CRLF + t)[|l| + 2..] == t
  {
    var s := l + CRLF + t;
    assert s[|l|..|l| + 2] == CRLF;
    forall k: nat | k < |l|
      ensures !At(s, CRLF, k)
    {
      PlainCut(l, t, k);
    }
    FindIs(s, CRLF, |l|);
  }

  lemma NoCut(l: Bytes)
    requires Plain(l)
    ensures Find(l, CRLF) == None
  {
    forall k: nat
      ensures !At(l, CRLF, k)
    {
      assert k + 2 <= |l| ==> l[k..k + 2] == [l[k], l[k + 1]] && l[k + 1] in l;
    }
  }

  /** Splitting undoes joining for lines without line feeds. */
  lemma {:induction false} LinesJoin(ls: seq<Bytes>)
    requires ls != [] && forall i :: 0 <= i < |ls| ==> Plain(ls[i])
    ensures Lines(Join(ls)) == ls
  {
    if |ls| == 1 {
      NoCut(ls[0]);
    } else {
      FirstCut(ls[0], Join(ls[1..]));
      LinesJoin(ls[1..]);
    }
  }

  /** The bytes of a message head made of these lines. */
  function Render(ls: seq<Bytes>): Bytes { Join(ls) + MARK }

  lemma MarkAt(s: Bytes, k: nat)
    ensures At(s, MARK, k) <==> k + 4 <= |s| && s[k] == '\r' && s[k + 1] == '\n' && s[k + 2] == '\r' && s[k + 3] == '\n'
  {
    if k + 4 <= |s| { assert s[k..k + 4] == [s[k], s[k + 1], s[k + 2], s[k + 3]]; }
  }

  /** An end mark lies in a rendered tail only if it does so in the whole. */
  lemma MarkShift(l: Bytes, t: Bytes, k: nat)
    requires Plain(l) && At(l + CRLF + t, MARK, k) && !(CRLF <= t)
    ensures k >= |l| + 2 && At(t, MARK, k - |l| - 2)
  {
    var s := l + CRLF + t;
    assert s[|l|] == '\r' && s[|l| + 1] == '\n';
    assert forall m :: 0 <= m < |l| ==> s[m] == l[m];
    assert forall m :: 0 <= m < |t| ==> s[|l| + 2 + m] == t[m];
    assert |t| >= 2 ==> t[..2] == [t[0], t[1]];
    MarkAt(s, k);
    MarkAt(t, if k >= |l| + 2 then k - |l| - 2 else 0);
  }

  /** The end mark of a rendered block comes only at its very end. */
  lemma {:induction false} RenderEnd(ls: seq<Bytes>)
    requires Block(ls)
    ensures Find(Render(ls), MARK) == Some(|Join(ls)|)
  {
    var s, n := Render(ls), |Join(ls)|;
    assert s[n..n + 4] == MARK;
    forall k: nat | k < n
      ensures !At(s, MARK, k)
    {
      RenderNoEarlier(ls, k);
    }
    FindIs(s, MARK, n);
  }

  lemma RenderHead(ls: seq<Bytes>)
    requires ls != [] && ls[0] != [] && Plain(ls[0])
    ensures !(CRLF <= Render(ls))
  {
    var s := Render(ls);
    assert s[0] == ls[0][0] && s[1] == if |ls[0]| > 1 then ls[0][1] else '\r' by {
      if |ls| > 1 { assert Join(ls) == ls[0] + CRLF + Join(ls[1..]); }
    }
    if |ls[0]| > 1 { assert ls[0][1] in ls[0]; }
  }

  lemma {:induction false} RenderNoEarlier(ls: seq<Bytes>, k: nat)
    requires Block(ls) && k < |Join(ls)|
    ensures !At(Render(ls), MARK, k)
    decreases |ls|
  {
    var s := Render(ls);
    if |ls| == 1 {
      MarkAt(s, k);
      assert k + 1 < |s| && (k + 1 < |ls[0]| ==> s[k + 1] == ls[0][k + 1]);
    } else {
      var t := Render(ls[1..]);
      assert s == ls[0] + CRLF + t;
      RenderHead(ls[1..]);
      if k >= |ls[0]| + 2 { RenderNoEarlier(ls[1..], k - |ls[0]| - 2); }
      if At(s, MARK, k) { MarkShift(ls[0], t, k); }
    }
  }

  /** Every line feed follows a carriage return. */
  predicate NoBareLF(s: Bytes) {
    forall i :: 0 <= i < |s| && s[i] == '\n' ==> i > 0 && s[i - 1] == '\r'
  }

  /** A head that ends at its first end mark is the rendering of a block of lines. */
  lemma HeadIsBlock(head: Bytes)
    requires NoBareLF(head) && Find(head, MARK) == Some(|head| - 4)
    ensures var ls := Lines(head[..|head| - 4]); Block(ls) && head == Render(ls)
  {
    var n := |head| - 4;
    assert head == head[..n] + MARK;
    JoinLines(head[..n]);
    LinesBlock(head[..n], head);
  }

  lemma {:induction false} LinesBlock(s: Bytes, head: Bytes)
    requires NoBareLF(s) && head == s + MARK && forall k: nat :: k < |s| ==> !At(head, MARK, k)
    ensures Block(Lines(s))
    decreases |s|
  {
    match Find(s, CRLF)
    case None =>
      forall i | 0 <= i < |s|
        ensures s[i] != '\n'
      {
        if s[i] == '\n' {
          assert s[i - 1..i + 1] == CRLF;
          assert At(s, CRLF, i - 1);
        }
      }
    case Some(i) =>
      var t := s[i + 2..];
      assert s[i..i + 2] == CRLF;
      forall k | 0 <= k < i
        ensures s[k] != '\n'
      {
        assert k > 0 ==> !At(s, CRLF, k - 1) && s[k - 1..k + 1] == [s[k - 1], s[k]];
      }
      NoBareTail(s, i);
      TailMark(s, t, i, head);
      LinesBlock(t, t + MARK);
      assert !(CRLF <= t + MARK) by { AfterCut(s, i, head); }
      assert Lines(s) == [s[..i]] + Lines(t);
      FirstLineOf(t);
  }

  lemma NoBareTail(s: Bytes, i: nat)
    requires NoBareLF(s) && At(s, CRLF, i)
    ensures NoBareLF(s[i + 2..])
  {
    assert s[i..i + 2][1] == s[i + 1];
    var t := s[i + 2..];
    forall k | 0 <= k < |t| && t[k] == '\n'
      ensures k > 0 && t[k - 1] == '\r'
    {
      assert s[k + i + 2] == '\n' && s[k + i + 1] == '\r';
    }
  }

  lemma TailMark(s: Bytes, t: Bytes, i: nat, head: Bytes)
    requires head == s + MARK && At(s, CRLF, i) && t == s[i + 2..] && forall k: nat :: k < |s| ==> !At(head, MARK, k)
    ensures forall k: nat :: k < |t| ==> !At(t + MARK, MARK, k)
  {
    forall k: nat | k < |t|
      ensures !At(t + MARK, MARK, k)
    {
      var u := t + MARK;
      assert !At(head, MARK, k + i + 2) && |head| == |u| + i + 2;
      assert forall m :: 0 <= m < |u| ==> u[m] == head[m + i + 2];
      MarkAt(head, k + i + 2);
      MarkAt(u, k);
    }
  }

  lemma AfterCut(s: Bytes, i: nat, head: Bytes)
    requires head == s + MARK && At(s, CRLF, i) && !At(head, MARK, i)
    ensures !(CRLF <= s[i + 2..] + MARK)
  {
    var u := s[i + 2..] + MARK;
    assert head[i..] == CRLF + u;
    assert |u| >= 2 ==> head[i..i + 4] == CRLF + u[..2];
    assert CRLF <= u <==> |u| >= 2 && u[..2] == CRLF;
  }

  lemma FirstLineOf(t: Bytes)
    requires !(CRLF <= t + MARK)
    ensures Lines(t)[0] != []
  {
    if Find(t, CRLF).Some? {
      assert |t| >= 2 && (t + MARK)[..2] == t[..2] == t[0..2];
    }
    assert t == [] ==> t + MARK == MARK;
  }
}
