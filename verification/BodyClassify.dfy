/** Telling chunk framing from raw file bytes by the first bytes of a body. */
module BodyClassify {
  import opened Octets
  import opened Options
  import opened HttpText

  datatype Verdict = Unknown | Raw | Chunked

  const LOOK := 64
  const MAX_UINT64: int := 0xffff_ffff_ffff_ffff

  predicate IsHex(c: Octet) { '0' <= c <= '9' || 'a' <= c <= 'f' || 'A' <= c <= 'F' }

  function HexDigit(c: Octet): nat
    requires IsHex(c)
  {
    if '0' <= c <= '9' then (c - '0') as nat
    else if 'a' <= c <= 'f' then (c - 'a') as nat + 10
    else (c - 'A') as nat + 10
  }

  predicate AllHex(s: Bytes) { forall i :: 0 <= i < |s| ==> IsHex(s[i]) }

  function HexValue(s: Bytes): nat
    requires AllHex(s)
  {
    if s == [] then 0 else HexValue(s[..|s| - 1]) * 16 + HexDigit(s[|s| - 1])
  }

  /** strconv.ParseUint in base 16 with 64 bits. */
  function ParseHex(s: Bytes): Option<nat> {
    if s != [] && AllHex(s) && HexValue(s) <= MAX_UINT64 then Some(HexValue(s)) else None
  }

  /** The first `n` bytes could be part of a chunk-size line. */
  predicate SizeRun(p: Bytes, n: nat) {
    n <= |p| && forall i :: 0 <= i < n ==> IsHex(p[i]) || p[i] == ';'
  }

  /** What precedes the first semicolon. */
  function HexPart(line: Bytes): Bytes {
    match Find(line, ";")
    case Some(i) => line[..i]
    case None => line
  }

  /** `p` starts with a chunk-size line of `i` characters whose size is a 64-bit number. */
  predicate SizeLineAt(p: Bytes, i: nat) {
    && 0 < i < LOOK && i + 2 <= |p|
    && SizeRun(p, i) && p[i] == '\r' && p[i + 1] == '\n' && ParseHex(HexPart(p[..i])).Some?
  }

  predicate IsSizeLine(p: Bytes) { exists i :: 0 <= i < |p| && SizeLineAt(p, i) }

  /** More bytes could still make it a chunk-size line of fewer than 64 characters, or it is one
      whose carriage return is the last byte seen. */
  predicate Undecided(p: Bytes) {
    || (|p| < LOOK && SizeRun(p, |p|))
    || (0 < |p| <= LOOK && SizeRun(p, |p| - 1) && p[|p| - 1] == '\r')
  }

  function Classified(p: Bytes): Verdict {
    if IsSizeLine(p) then Chunked else if Undecided(p) then Unknown else Raw
  }

  lemma LongIsDecided(p: Bytes)
    requires |p| >= LOOK && SizeRun(p, LOOK)
    ensures Classified(p) == Raw
  {
    assert forall k: nat :: k < LOOK ==> p[k] != '\r';
  }

  /** The size part holds digits only, so trimming blanks before parsing it has no effect. */
  lemma HexPartPlain(line: Bytes)
    requires SizeRun(line, |line|)
    ensures AllHex(HexPart(line))
  {
    var h := HexPart(line);
    forall k | 0 <= k < |h|
      ensures IsHex(h[k])
    {
      assert h[k] == line[k];
      assert !At(line, ";", k);
      assert line[k..k + 1] == [line[k]];
    }
  }

  method ClassifyCompatBody(prefix: Bytes) returns (v: Verdict)
    ensures v == Classified(prefix)
  {
    if |prefix| == 0 { return Unknown; }
    var limit := if |prefix| > LOOK then LOOK else |prefix|;
    for i := 0 to limit
      invariant SizeRun(prefix, i)
    {
      var b := prefix[i];
      EndDecides(prefix, i);
      if b == '\r' {
        if i + 1 >= |prefix| { return Unknown; }
        if prefix[i + 1] != '\n' || i == 0 { return Raw; }
        var line := HexPart(prefix[..i]);
        if line == [] { return Raw; }
        if ParseHex(line).Some? { return Chunked; }
        return Raw;
      }
      if b == ';' { continue; }
      if !IsHex(b) { return Raw; }
    }
    if |prefix| >= LOOK {
      LongIsDecided(prefix);
      return Raw;
    }
    UndecidedIsUnknown(prefix);
    return Unknown;
  }

  /** The first character that is not of a size line decides. */
  lemma EndDecides(p: Bytes, i: nat)
    requires i < |p| && SizeRun(p, i)
    ensures !IsHex(p[i]) && p[i] != ';' ==> (IsSizeLine(p) <==> SizeLineAt(p, i))
    ensures !IsHex(p[i]) && p[i] != ';' && (p[i] != '\r' || i + 1 < |p|) ==> !Undecided(p)
  {
    if !IsHex(p[i]) && p[i] != ';' && IsSizeLine(p) {
      var k :| 0 <= k < |p| && SizeLineAt(p, k);
      assert k == i;
    }
  }

  lemma SizeLineMore(p: Bytes, q: Bytes, i: nat)
    requires p <= q && i + 2 <= |p|
    ensures SizeLineAt(p, i) <==> SizeLineAt(q, i)
  {
    assert p[..i] == q[..i] && p[i] == q[i] && p[i + 1] == q[i + 1];
  }

  /** Every prefix of an undecided string is undecided. */
  lemma UndecidedPrefix(p: Bytes, q: Bytes)
    requires p <= q && Undecided(q)
    ensures Undecided(p)
  {
    assert forall k :: 0 <= k < |p| ==> p[k] == q[k];
  }

  /** The proper prefixes of a size line are undecided. */
  lemma LineStart(q: Bytes, i: nat, p: Bytes)
    requires SizeLineAt(q, i) && p <= q && |p| < i + 2
    ensures Undecided(p) && !IsSizeLine(p)
  {
    assert forall k :: 0 <= k < |p| ==> p[k] == q[k];
  }

  /** Once a verdict is reached, no further bytes change it. */
  lemma VerdictStable(p: Bytes, q: Bytes)
    requires p <= q && Classified(p) != Unknown
    ensures Classified(q) == Classified(p)
  {
    if IsSizeLine(p) {
      var i :| 0 <= i < |p| && SizeLineAt(p, i);
      SizeLineMore(p, q, i);
    } else {
      if IsSizeLine(q) {
        var i :| 0 <= i < |q| && SizeLineAt(q, i);
        if |p| < i + 2 { LineStart(q, i, p); } else { SizeLineMore(p, q, i); }
      }
      if Undecided(q) { UndecidedPrefix(p, q); }
    }
  }

  /** The classifying loop may stop here without a timeout. */
  predicate Settled(p: Bytes) { Classified(p) != Unknown || |p| >= LOOK }

  /** The framing chosen for a body of which this prefix has been seen; unknown counts as chunked. */
  function Mode(p: Bytes): Verdict {
    if Classified(p) == Unknown then Chunked else Classified(p)
  }

  /** A carriage return at index 63, after 63 bytes of a would-be size line, that does not end one:
      the byte after it or the number denies it. */
  predicate Torn(body: Bytes) {
    |body| > LOOK && SizeRun(body, LOOK - 1) && body[LOOK - 1] == '\r' && !SizeLineAt(body, LOOK - 1)
  }

  /** In the classifier's terms: the first 64 bytes alone leave the matter open, all of them do not. */
  lemma TornMeans(body: Bytes)
    ensures Torn(body) <==> |body| > LOOK && Undecided(body[..LOOK]) && Classified(body) == Raw
  {
    if |body| > LOOK {
      var p := body[..LOOK];
      assert forall k :: 0 <= k < LOOK ==> p[k] == body[k];
      if SizeRun(body, LOOK - 1) { EndDecides(body, LOOK - 1); }
    }
  }

  /** How the network cuts the body into reads makes no difference, except at one place: a
      carriage return at index 63 that turns out not to end a size line. */
  lemma SplitIndependence(body: Bytes)
    ensures (forall p, q :: p <= body && q <= body && Settled(p) && Settled(q) ==> Mode(p) == Mode(q)) <==> !Torn(body)
  {
    TornMeans(body);
    if Torn(body) {
      var p := body[..LOOK];
      UndecidedIsUnknown(p);
      assert p <= body && body <= body && Mode(p) == Chunked && Mode(body) == Raw;
    } else {
      forall p, q | p <= body && q <= body && Settled(p) && Settled(q)
        ensures Mode(p) == Mode(q)
      {
        SettledMode(body, p);
        SettledMode(body, q);
      }
    }
  }

  lemma UndecidedIsUnknown(p: Bytes)
    requires Undecided(p)
    ensures Classified(p) == Unknown
  {
    assert forall k: nat :: k + 1 < |p| ==> p[k] != '\r';
  }

  lemma SettledMode(body: Bytes, p: Bytes)
    requires !Torn(body) && p <= body && Settled(p)
    ensures Mode(p) == Mode(body)
  {
    TornMeans(body);
    if Classified(p) != Unknown {
      VerdictStable(p, body);
    } else {
      assert |p| >= LOOK;
      assert |p| == LOOK && body[..LOOK] == p;
      assert |body| == LOOK ==> body == p;
    }
  }

  /** On a torn body the mode of a settled prefix depends on whether it ends at the tear. */
  lemma SettledWhere(body: Bytes, p: Bytes)
    requires p <= body && Settled(p)
    ensures Mode(p) == if Torn(body) && |p| == LOOK then Chunked else Mode(body)
  {
    if Torn(body) {
      TornMeans(body);
      assert |p| >= LOOK ==> body[..LOOK] == p[..LOOK];
      if |p| == LOOK {
        UndecidedIsUnknown(p);
      } else {
        TornSeen(body, p);
        VerdictStable(p, body);
      }
    } else {
      SettledMode(body, p);
    }
  }

  lemma TornSeen(body: Bytes, p: Bytes)
    requires Torn(body) && p <= body && Settled(p) && |p| != LOOK
    ensures Classified(p) != Unknown
  {
    assert forall k :: 0 <= k < |p| ==> p[k] == body[k];
    if |p| < LOOK { UndecidedIsUnknown(p); } else { EndDecides(p, LOOK - 1); }
  }

  /** Such a body: 63 digits, a carriage return, and then a letter. */
  lemma TornExample()
    ensures exists body :: Torn(body)
  {
    var digits: Bytes := seq(63, i => '0');
    var body := digits + "\rx";
    assert body[LOOK - 1] == '\r' && body[LOOK] == 'x' && SizeRun(body, LOOK - 1);
    assert Torn(body);
  }

  /** A body that starts with an extension-free size line is taken for chunked from whatever part
      of it has been seen if and only if the line has at most 63 digits, or fewer than 64 bytes have
      been seen: too little is unknown, never raw. */
  lemma SizeLineMode(size: Bytes, rest: Bytes, p: Bytes)
    requires size != [] && AllHex(size) && HexValue(size) <= MAX_UINT64 && p <= size + CRLF + rest
    ensures Mode(p) == Chunked <==> |size| < LOOK || |p| < LOOK
    ensures Settled(p) ==> (Mode(p) == Chunked <==> |size| < LOOK)
    ensures |size| < LOOK ==> Classified(p) == if |p| < |size| + 2 then Unknown else Chunked
  {
    if |size| < LOOK { ShortSizeLine(size, rest, p); } else { LongSizeLine(size, rest, p); }
  }

  lemma ShortSizeLine(size: Bytes, rest: Bytes, p: Bytes)
    requires 0 < |size| < LOOK && AllHex(size) && HexValue(size) <= MAX_UINT64 && p <= size + CRLF + rest
    ensures Classified(p) == if |p| < |size| + 2 then Unknown else Chunked
  {
    var q, n := size + CRLF + rest, |size|;
    SizeLineStarts(size, rest);
    hide SizeLineAt, HexValue;
    if |p| < n + 2 {
      LineStart(q, n, p);
      UndecidedIsUnknown(p);
    } else {
      SizeLineMore(p, q, n);
      assert IsSizeLine(p);
    }
  }

  lemma LongSizeLine(size: Bytes, rest: Bytes, p: Bytes)
    requires |size| >= LOOK && AllHex(size) && p <= size + CRLF + rest
    ensures Classified(p) == if |p| < LOOK then Unknown else Raw
  {
    assert forall k :: 0 <= k < |p| && k < |size| ==> p[k] == (size + CRLF + rest)[k] == size[k];
    if |p| < LOOK { UndecidedIsUnknown(p); } else { LongIsDecided(p); }
  }

  lemma SizeLineStarts(size: Bytes, rest: Bytes)
    requires 0 < |size| < LOOK && AllHex(size) && HexValue(size) <= MAX_UINT64
    ensures SizeLineAt(size + CRLF + rest, |size|)
  {
    hide HexValue, SizeLineAt, AllHex;
    var q, n := size + CRLF + rest, |size|;
    assert q[..n] == size;
    assert q[n..n + 2] == CRLF;
    LineAt(q, size);
  }

  lemma LineAt(q: Bytes, size: Bytes)
    requires 0 < |size| < LOOK && AllHex(size) && HexValue(size) <= MAX_UINT64
    requires |size| + 2 <= |q| && q[..|size|] == size && q[|size|..|size| + 2] == CRLF
    ensures SizeLineAt(q, |size|)
  {
    hide HexValue;
    NoSemicolon(size);
    var n := |size|;
    assert q[n] == q[n..n + 2][0] && q[n + 1] == q[n..n + 2][1];
    assert forall k :: 0 <= k < n ==> q[k] == size[k];
  }

  lemma NoSemicolon(s: Bytes)
    requires AllHex(s)
    ensures HexPart(s) == s
  {
    forall k: nat
      ensures !At(s, ";", k)
    {
      assert k < |s| ==> s[k..k + 1] == [s[k]];
    }
  }

  const SMALL: Bytes := "0123456789abcdef"
  const CAPITAL: Bytes := "0123456789ABCDEF"

  /** The hexadecimal numeral of `n`, in these digits. */
  function Hex(n: nat, digits: Bytes): Bytes
    requires |digits| == 16
  {
    (if n < 16 then [] else Hex(n / 16, digits)) + [digits[n % 16]]
  }

  lemma {:induction false} HexReads(n: nat, digits: Bytes)
    requires digits == SMALL || digits == CAPITAL
    ensures Hex(n, digits) != [] && AllHex(Hex(n, digits)) && HexValue(Hex(n, digits)) == n
  {
    hide AllHex, HexValue, HexDigit, IsHex;
    HexAppended([], digits[n % 16]);
    DigitReads(n % 16, digits);
    if n >= 16 {
      HexReads(n / 16, digits);
      HexAppended(Hex(n / 16, digits), digits[n % 16]);
    } else {
      assert Hex(n, digits) == [digits[n % 16]] == [] + [digits[n % 16]];
    }
  }

  lemma HexAppended(s: Bytes, c: Octet)
    ensures AllHex([]) && HexValue([]) == 0
    ensures AllHex(s) && IsHex(c) ==> AllHex(s + [c]) && HexValue(s + [c]) == HexValue(s) * 16 + HexDigit(c)
  {
    hide IsHex, HexDigit;
    assert (s + [c])[..|s|] == s;
  }

  lemma DigitReads(d: nat, digits: Bytes)
    requires d < 16 && (digits == SMALL || digits == CAPITAL)
    ensures IsHex(digits[d]) && HexDigit(digits[d]) == d
  {
    assert SMALL[d] == (if d < 10 then '0' as int + d else 'a' as int + d - 10) as char;
    assert CAPITAL[d] == (if d < 10 then '0' as int + d else 'A' as int + d - 10) as char;
  }

  /** A hexadecimal numeral in digits of either case is read as its number, unless that has more than 64 bits. */
  lemma HexRoundTrip(n: nat, digits: Bytes)
    requires digits == SMALL || digits == CAPITAL
    ensures ParseHex(Hex(n, digits)) == if n <= 18_446_744_073_709_551_615 then Some(n) else None
  {
    HexReads(n, digits);
  }

  lemma HexDigits(c: Octet)
    ensures IsHex(c) <==> c in SMALL || c in CAPITAL
  {
    if IsHex(c) {
      var d := HexDigit(c);
      assert c == SMALL[d] || c == CAPITAL[d];
    }
  }

  /** A body with any other character than a hex digit, a semicolon or a carriage return among its first 64,
      and only hex digits and semicolons before that one, is raw from whatever part of it reaches that far. */
  lemma RawStart(p: Bytes, i: nat)
    requires i < 64 && i < |p| && forall k :: 0 <= k < i ==> p[k] in SMALL || p[k] in CAPITAL || p[k] == ';'
    requires p[i] !in SMALL && p[i] !in CAPITAL && p[i] !in {';', '\r'}
    ensures Classified(p) == Raw
  {
    forall k | 0 <= k <= i
      ensures IsHex(p[k]) <==> p[k] in SMALL || p[k] in CAPITAL
    {
      HexDigits(p[k]);
    }
    EndDecides(p, i);
  }
}
