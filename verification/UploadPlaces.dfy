/** Where an upload goes: destinations, the names tried when one is in use, and temporary names. */
module UploadPlaces {
  import opened Octets
  import opened Decimals
  import opened FileTree

  const TEMP: Name := ".localsend-part"
  const TRIES := 10000

  /** An absolute path below the root. */
  type Place = p: Path | p != [] witness ["a"]

  function Last(p: Place): Name { p[|p| - 1] }

  function Sibling(p: Place, n: Name): Place { Parent(p) + [n] }

  /** The file system's own idea of a name: the identity when it is case-sensitive, a folding of
      characters when it is FAT-like. A dot is only a dot, and "t" is neither ")" nor "d". */
  ghost predicate Folding(fold: char -> char) {
    && (forall c :: fold(c) == '.' <==> c == '.')
    && fold(')') != fold('t') && fold('d') != fold('t')
  }

  function FoldName(fold: char -> char, n: Name): Name {
    seq(|n|, i requires 0 <= i < |n| => fold(n[i]))
  }

  /** The node a path names. */
  function Where(fold: char -> char, p: Path): Path {
    seq(|p|, i requires 0 <= i < |p| => FoldName(fold, p[i]))
  }

  lemma WhereBeside(fold: char -> char, p: Place, n: Name)
    ensures Where(fold, p) != [] && Parent(Where(fold, p)) == Where(fold, Parent(p))
    ensures Where(fold, Sibling(p, n)) == Parent(Where(fold, p)) + [FoldName(fold, n)]
    ensures Parent(Where(fold, Sibling(p, n))) == Parent(Where(fold, p))
  {
  }

  /** The extension of a name, from its last dot. */
  function Ext(n: Name): Name {
    if n == [] then []
    else if n[|n| - 1] == '.' then "."
    else
      var init := Ext(n[..|n| - 1]);
      if init == [] then [] else init + [n[|n| - 1]]
  }

  lemma {:induction false} ExtFits(n: Name)
    ensures |Ext(n)| <= |n| && n[|n| - |Ext(n)|..] == Ext(n)
    ensures Ext(n) != [] ==> Ext(n)[0] == '.' && '.' !in Ext(n)[1..]
  {
    if n != [] && n[|n| - 1] != '.' {
      var init := n[..|n| - 1];
      ExtFits(init);
      if Ext(init) != [] {
        assert n[|n| - |Ext(n)|..] == init[|init| - |Ext(init)|..] + [n[|n| - 1]];
        assert Ext(n)[1..] == Ext(init)[1..] + [n[|n| - 1]];
      }
    }
  }

  function Stem(n: Name): Name {
    ExtFits(n);
    n[..|n| - |Ext(n)|]
  }

  function Variant(n: Name, middle: string): Name { Stem(n) + middle + Ext(n) }

  /** The places tried in turn, and the one taken when all are in use. */
  function Candidate(p: Place, i: nat): Place {
    if i == 0 then p else Sibling(p, Variant(Last(p), " (" + Decimal(i) + ")"))
  }

  function Fallback(p: Place): Place { Sibling(p, Variant(Last(p), "-received")) }

  /** Where an upload to `p` is written before it is complete. */
  function TempOf(p: Place): Place { Sibling(p, Last(p) + TEMP) }

  predicate EndsWith(s: string, t: string) { |t| <= |s| && s[|s| - |t|..] == t }

  /** The node could be some upload's temporary file. */
  predicate IsTemp(fold: char -> char, d: Path) {
    d != [] && EndsWith(d[|d| - 1], FoldName(fold, TEMP))
  }

  lemma TempIsTemp(fold: char -> char, p: Place)
    ensures IsTemp(fold, Where(fold, TempOf(p))) && Where(fold, TempOf(p)) != Where(fold, p)
    ensures Where(fold, p) != [] && Where(fold, TempOf(p)) != [] && Parent(Where(fold, TempOf(p))) == Parent(Where(fold, p))
  {
    var n := Last(p);
    WhereBeside(fold, p, n + TEMP);
    assert FoldName(fold, n + TEMP) == FoldName(fold, n) + FoldName(fold, TEMP);
    assert Where(fold, p)[|p| - 1] == FoldName(fold, n);
  }

  lemma {:induction false} ExtAppended(stem: Name, tail: string)
    requires '.' !in tail
    ensures Ext(stem + "." + tail) == "." + tail
  {
    var n := stem + "." + tail;
    if tail == [] {
      assert n[|n| - 1] == '.';
    } else {
      ExtAppended(stem, tail[..|tail| - 1]);
      assert n[..|n| - 1] == stem + "." + tail[..|tail| - 1];
      assert n[|n| - 1] == tail[|tail| - 1] && tail[|tail| - 1] in tail;
    }
  }

  /** A suffix with one dot, at its start, is the extension. */
  lemma ExtIs(n: Name, ext: Name)
    requires EndsWith(n, ext) && ext != [] && ext[0] == '.' && '.' !in ext[1..]
    ensures Ext(n) == ext
  {
    var stem := n[..|n| - |ext|];
    ExtAppended(stem, ext[1..]);
    assert stem + "." + ext[1..] == n;
  }

  /** A name that folds to one with the temporary suffix has an extension that folds to the suffix. */
  lemma FoldedTemp(fold: char -> char, n: Name)
    requires Folding(fold)
    ensures EndsWith(FoldName(fold, n), FoldName(fold, TEMP)) <==> FoldName(fold, Ext(n)) == FoldName(fold, TEMP)
  {
    ExtFits(n);
    var f, ft := FoldName(fold, n), FoldName(fold, TEMP);
    if |TEMP| <= |n| {
      var suf := n[|n| - |TEMP|..];
      assert f[|f| - |ft|..] == FoldName(fold, suf);
      if FoldName(fold, suf) == ft {
        forall k | 0 <= k < |TEMP|
          ensures suf[k] == '.' <==> TEMP[k] == '.'
        {
          assert FoldName(fold, suf)[k] == ft[k];
        }
        TempShape();
        assert '.' !in suf[1..];
        ExtIs(n, suf);
      }
    }
    if FoldName(fold, Ext(n)) == ft { assert |Ext(n)| == |TEMP|; }
  }

  lemma TempShape()
    ensures TEMP[0] == '.' && forall k :: 1 <= k < |TEMP| ==> TEMP[k] != '.'
    ensures TEMP[|TEMP| - 1] == 't'
  {
  }

  /** A variant has the extension of the name, or, if that has none, does not end like the suffix. */
  lemma VariantPlain(fold: char -> char, n: Name, middle: string)
    requires Folding(fold) && middle != [] && fold(middle[|middle| - 1]) != fold('t')
    requires !EndsWith(FoldName(fold, n), FoldName(fold, TEMP))
    ensures !EndsWith(FoldName(fold, Variant(n, middle)), FoldName(fold, TEMP))
  {
    var v := Variant(n, middle);
    var f, ft := FoldName(fold, v), FoldName(fold, TEMP);
    ExtFits(n);
    FoldedTemp(fold, n);
    FoldedTemp(fold, v);
    TempShape();
    if Ext(n) != [] {
      assert v[|v| - |Ext(n)|..] == Ext(n);
      ExtIs(v, Ext(n));
    } else {
      assert f[|f| - 1] == fold(middle[|middle| - 1]);
      assert ft[|ft| - 1] == fold('t');
      assert |ft| <= |f| ==> f[|f| - |ft|..][|ft| - 1] == f[|f| - 1];
    }
  }

  /** None of the places tried looks like a temporary file unless the first one does. */
  lemma NamesPlain(fold: char -> char, p: Place, i: nat)
    requires Folding(fold) && !IsTemp(fold, Where(fold, p))
    ensures !IsTemp(fold, Where(fold, Candidate(p, i))) && !IsTemp(fold, Where(fold, Fallback(p)))
  {
    hide EndsWith, Variant, Decimal, Folding;
    assert Where(fold, p)[|p| - 1] == FoldName(fold, Last(p));
    SiblingPlain(fold, p, " (" + Decimal(i) + ")");
    SiblingPlain(fold, p, "-received");
  }

  lemma SiblingPlain(fold: char -> char, p: Place, middle: string)
    requires Folding(fold) && middle != [] && middle[|middle| - 1] in {')', 'd'}
    requires !EndsWith(FoldName(fold, Last(p)), FoldName(fold, TEMP))
    ensures !IsTemp(fold, Where(fold, Sibling(p, Variant(Last(p), middle))))
  {
    VariantPlain(fold, Last(p), middle);
    WhereBeside(fold, p, Variant(Last(p), middle));
    hide EndsWith, Variant;
  }

  /** The first candidate from `i` on at which there is no node. */
  function FreePlace(t: Tree, fold: char -> char, p: Place, i: nat): Place
    decreases TRIES - i
  {
    if i >= TRIES then Fallback(p)
    else if Where(fold, Candidate(p, i)) !in t then Candidate(p, i)
    else FreePlace(t, fold, p, i + 1)
  }

  /** It is unused exactly when a candidate or the last resort is. */
  lemma {:induction false} FreePlaceUnused(t: Tree, fold: char -> char, p: Place, i: nat)
    requires i <= TRIES
    ensures Where(fold, FreePlace(t, fold, p, i)) !in t <==>
            Where(fold, Fallback(p)) !in t || exists k :: i <= k < TRIES && Where(fold, Candidate(p, k)) !in t
    ensures FreePlace(t, fold, p, i) == Fallback(p) || exists k :: i <= k < TRIES && FreePlace(t, fold, p, i) == Candidate(p, k)
    decreases TRIES - i
  {
    hide Where, Candidate, Fallback;
    if i < TRIES && Where(fold, Candidate(p, i)) in t {
      FreePlaceUnused(t, fold, p, i + 1);
    }
  }

  /** Every candidate lies beside the place asked for. */
  lemma CandidatesBeside(fold: char -> char, p: Place, i: nat)
    ensures Where(fold, Candidate(p, i)) != [] && Parent(Where(fold, Candidate(p, i))) == Parent(Where(fold, p))
    ensures Where(fold, Fallback(p)) != [] && Parent(Where(fold, Fallback(p))) == Parent(Where(fold, p))
    ensures Parent(Where(fold, p)) == Where(fold, Parent(p))
  {
    hide Variant, Decimal;
    WhereBeside(fold, p, Variant(Last(p), " (" + Decimal(i) + ")"));
    WhereBeside(fold, p, Variant(Last(p), "-received"));
  }

  /** The same names are tried whether or not directories above them have just been made. */
  lemma {:induction false} FreePlaceFrame(t: Tree, u: Tree, fold: char -> char, p: Place, i: nat)
    requires i <= TRIES && forall q :: q != [] && Parent(q) == Parent(Where(fold, p)) ==> (q in t <==> q in u)
    ensures FreePlace(t, fold, p, i) == FreePlace(u, fold, p, i)
    decreases TRIES - i
  {
    hide Where, Candidate, Fallback;
    if i < TRIES {
      CandidatesBeside(fold, p, i);
      FreePlaceFrame(t, u, fold, p, i + 1);
    }
  }

  lemma {:induction false} FreePlaceBeside(t: Tree, fold: char -> char, p: Place, i: nat)
    requires i <= TRIES
    ensures Where(fold, FreePlace(t, fold, p, i)) != []
    ensures Parent(Where(fold, FreePlace(t, fold, p, i))) == Parent(Where(fold, p))
    decreases TRIES - i
  {
    hide Where, Candidate, Fallback;
    CandidatesBeside(fold, p, i);
    if i < TRIES { FreePlaceBeside(t, fold, p, i + 1); }
  }

  lemma {:induction false} NoExt(n: Name)
    requires '.' !in n
    ensures Ext(n) == []
  {
    if n != [] {
      assert n[|n| - 1] in n;
      NoExt(n[..|n| - 1]);
    }
  }

  /** The names of a file with an extension: "a.jpg", "a (1).jpg", "a (2).jpg", and so on, "a-received.jpg" last. */
  lemma NamesTried(dir: Path, stem: Name, tail: string, i: nat)
    requires '.' !in tail
    ensures var p := dir + [stem + "." + tail];
            && Candidate(p, i) == (if i == 0 then p else dir + [stem + " (" + Decimal(i) + ")." + tail])
            && Fallback(p) == dir + [stem + "-received." + tail]
            && TempOf(p) == dir + [stem + "." + tail + ".localsend-part"]
  {
    hide Decimal;
    var n := stem + "." + tail;
    ExtAppended(stem, tail);
    assert Ext(n) == "." + tail && Stem(n) == stem && Parent(dir + [n]) == dir && Last(dir + [n]) == n;
    assert stem + (" (" + Decimal(i) + ")") + ("." + tail) == stem + " (" + Decimal(i) + ")." + tail;
    assert stem + "-received" + ("." + tail) == stem + "-received." + tail;
    assert n + TEMP == stem + "." + tail + ".localsend-part";
  }

  /** And of a file without one. */
  lemma PlainNamesTried(dir: Path, n: Name, i: nat)
    requires '.' !in n
    ensures var p := dir + [n];
            && Candidate(p, i) == (if i == 0 then p else dir + [n + " (" + Decimal(i) + ")"])
            && Fallback(p) == dir + [n + "-received"] && TempOf(p) == dir + [n + ".localsend-part"]
  {
    hide Decimal;
    NoExt(n);
    assert Stem(n) == n && Parent(dir + [n]) == dir && Last(dir + [n]) == n;
    assert n + (" (" + Decimal(i) + ")") + [] == n + " (" + Decimal(i) + ")";
    assert n + "-received" + [] == n + "-received";
  }

  /** The place chosen is the first of 10000 candidates at which there is no node, the place asked for being
      the first of them; the last resort when there is none. */
  lemma {:induction false} FreePlaceFirst(t: Tree, fold: char -> char, p: Place, i: nat, k: nat)
    requires i <= k <= 10000 && forall m :: i <= m < k ==> Where(fold, Candidate(p, m)) in t
    ensures k == 10000 ==> FreePlace(t, fold, p, i) == Fallback(p)
    ensures k < 10000 && Where(fold, Candidate(p, k)) !in t ==> FreePlace(t, fold, p, i) == Candidate(p, k)
    ensures Candidate(p, 0) == p
    decreases k - i
  {
    hide Where, Fallback, Variant;
    if i < k { FreePlaceFirst(t, fold, p, i + 1, k); }
  }
}
