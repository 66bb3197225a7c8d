/** Entry names of an install archive: splitting, cleaning, protection and case folding. */
module InstallNames {
  import opened Options
  import opened FileTree

  const BACKUP_DIR: Name := ".localsend-install-backup"
  const STAGE_DIR: Name := ".localsend-install-stage"

  /** `lower` is the case folding of the duplicate check. `canon` is the file system's own
      idea of when two spellings are the same name: the identity on a case-sensitive file
      system, a folding on a FAT-like one. */
  datatype Naming = Naming(lower: Name -> Name, canon: Name -> Name) {
    /** `lower` keeps a leading dot, and `canon` identifies no two names that `lower` tells apart. */
    ghost predicate Valid() {
      && lower(BACKUP_DIR) == BACKUP_DIR
      && (forall a :: "." <= a ==> "." <= lower(a))
      && forall a, b :: canon(a) == canon(b) ==> lower(a) == lower(b)
    }

    function Lower(p: Path): Path {
      seq(|p|, i requires 0 <= i < |p| => lower(p[i]))
    }

    function Canon(p: Path): Path {
      seq(|p|, i requires 0 <= i < |p| => canon(p[i]))
    }

    lemma CanonPrefix(p: Path, k: nat)
      requires k <= |p|
      ensures Canon(p[..k]) == Canon(p)[..k] && Lower(p[..k]) == Lower(p)[..k]
    {
    }

    /** Paths the file system cannot tell apart have the same folded key. */
    lemma CanonNoCoarser(p: Path, q: Path)
      requires Valid() && Canon(p) == Canon(q)
      ensures Lower(p) == Lower(q)
    {
      forall i | 0 <= i < |p|
        ensures lower(p[i]) == lower(q[i])
      {
        assert Canon(p)[i] == Canon(q)[i];
      }
    }
  }

  /** Paths that hold the installer's own scratch data or LocalSend's private state. */
  predicate Protected(n: Naming, rel: Path) {
    var l := n.Lower(rel);
    || [BACKUP_DIR] <= l
    || [STAGE_DIR] <= l
    || ["extensions", "localsend", "state"] <= l
    || ["extensions", "localsend", "logs"] <= l
    || ["extensions", "localsend", "config", "settings.json"] == l
  }

  function Split(s: string): (parts: seq<string>)
    ensures |parts| >= 1
    decreases |s|
  {
    if s == [] then [[]]
    else if s[0] == '/' then [[]] + Split(s[1..])
    else
      var rest := Split(s[1..]);
      [[s[0]] + rest[0]] + rest[1..]
  }

  function Join(parts: seq<string>): string {
    if parts == [] then [] else if |parts| == 1 then parts[0] else parts[0] + "/" + Join(parts[1..])
  }

  /** The components that survive cleaning: neither empty nor ".". */
  function Cleaned(parts: seq<string>): Path {
    if parts == [] then []
    else
      var init := Cleaned(parts[..|parts| - 1]);
      var p := parts[|parts| - 1];
      if p == "" || p == "." then init else init + [p]
  }

  predicate EndsInSlash(s: string) {
    s != [] && s[|s| - 1] == '/'
  }

  function TrimSlash(s: string): string {
    if EndsInSlash(s) then s[..|s| - 1] else s
  }

  predicate Refused(name: string) {
    name == "" || '\0' in name || '\\' in name || name[0] == '/'
  }

  /** The relative path an archive name stands for; None when the name is not accepted. */
  function NormalName(n: Naming, name: string): Option<Path> {
    if Refused(name) || ".." in Split(TrimSlash(name)) then None else
    var rel := Cleaned(Split(TrimSlash(name)));
    if Protected(n, rel) then None else Some(rel)
  }

  method NormalizeInstallName(n: Naming, name: string) returns (r: Option<Path>)
    ensures r == NormalName(n, name)
  {
    if Refused(name) { return None; }
    var raw := Split(TrimSlash(name));
    var parts: Path := [];
    for i := 0 to |raw|
      invariant parts == Cleaned(raw[..i])
      invariant ".." !in raw[..i]
    {
      assert raw[..i + 1][..i] == raw[..i];
      if raw[i] == "" || raw[i] == "." { continue; }
      if raw[i] == ".." { return None; }
      parts := parts + [raw[i]];
    }
    assert raw[..|raw|] == raw;
    if Protected(n, parts) { return None; }
    return Some(parts);
  }

  predicate IsComponent(p: string) {
    p !in {"", ".", ".."} && '/' !in p
  }

  lemma {:induction false} SplitComponents(s: string)
    ensures forall p :: p in Split(s) ==> '/' !in p
    ensures forall p, c :: p in Split(s) && c in p ==> c in s
    decreases |s|
  {
    if s != [] { SplitComponents(s[1..]); }
  }

  lemma {:induction false} CleanedSubset(parts: seq<string>)
    ensures forall p :: p in Cleaned(parts) <==> p in parts && p !in {"", "."}
  {
    if parts != [] {
      var n := |parts| - 1;
      CleanedSubset(parts[..n]);
      assert parts == parts[..n] + [parts[n]];
    }
  }

  /** An accepted name has only genuine components, so it stays below the root. */
  lemma AcceptedNameStaysInside(n: Naming, name: string)
    requires NormalName(n, name).Some?
    ensures forall p :: p in NormalName(n, name).value ==> IsComponent(p) && '\\' !in p && '\0' !in p
  {
    var raw := TrimSlash(name);
    SplitComponents(raw);
    CleanedSubset(Split(raw));
    assert forall c :: c in raw ==> c in name;
  }

  lemma {:induction false} SplitOne(p: string, s: string)
    requires '/' !in p
    ensures Split(p) == [p]
    ensures Split(p + "/" + s) == [p] + Split(s)
    decreases |p|
  {
    if p == [] {
      assert p + "/" + s == "/" + s && ("/" + s)[1..] == s;
    } else {
      SplitOne(p[1..], s);
      assert (p + "/" + s)[1..] == p[1..] + "/" + s;
      assert [p[0]] + p[1..] == p;
    }
  }

  lemma {:induction false} SplitJoin(parts: seq<string>)
    requires parts != [] && forall i :: 0 <= i < |parts| ==> '/' !in parts[i]
    ensures Split(Join(parts)) == parts
  {
    hide Split;
    if |parts| == 1 {
      SplitOne(parts[0], "");
    } else {
      SplitOne(parts[0], Join(parts[1..]));
      SplitJoin(parts[1..]);
    }
  }

  lemma {:induction false} CleanedFixed(parts: seq<string>)
    requires forall i :: 0 <= i < |parts| ==> IsComponent(parts[i])
    ensures Cleaned(parts) == parts
  {
    if parts != [] {
      assert IsComponent(parts[|parts| - 1]);
      CleanedFixed(parts[..|parts| - 1]);
    }
  }

  lemma {:induction false} JoinShape(parts: seq<string>)
    requires parts != [] && forall i :: 0 <= i < |parts| ==> IsComponent(parts[i])
    ensures Join(parts) != [] && Join(parts)[0] != '/' && !EndsInSlash(Join(parts))
    ensures forall c :: c in Join(parts) ==> c == '/' || exists i :: 0 <= i < |parts| && c in parts[i]
  {
    assert IsComponent(parts[0]);
    if |parts| > 1 {
      JoinShape(parts[1..]);
      var rest := Join(parts[1..]);
      assert Join(parts)[|Join(parts)| - 1] == rest[|rest| - 1];
      forall c | c in Join(parts) && c != '/'
        ensures exists i :: 0 <= i < |parts| && c in parts[i]
      {
        if c in rest {
          var i :| 0 <= i < |parts[1..]| && c in parts[1..][i];
          assert c in parts[i + 1];
        } else {
          assert c in parts[0];
        }
      }
    }
  }

  /** Normalising is a round trip: the slash form of an accepted path is accepted as itself. */
  lemma NormalNameRoundTrip(n: Naming, name: string)
    requires NormalName(n, name).Some? && NormalName(n, name).value != []
    ensures NormalName(n, Join(NormalName(n, name).value)) == NormalName(n, name)
  {
    hide NormalName, Join;
    var rel := NormalName(n, name).value;
    AcceptedNameStaysInside(n, name);
    AcceptedIsPublic(n, name);
    forall i | 0 <= i < |rel|
      ensures IsComponent(rel[i]) && '\\' !in rel[i] && '\0' !in rel[i]
    {
      assert rel[i] in rel;
    }
    PlainName(n, rel);
  }

  lemma AcceptedIsPublic(n: Naming, name: string)
    requires NormalName(n, name).Some?
    ensures !Protected(n, NormalName(n, name).value)
  {
    hide Protected;
  }

  /** The genuine components among the pieces of a name, in order. */
  ghost function Genuine(parts: seq<string>): Path {
    if parts == [] then []
    else if parts[0] == "" || parts[0] == "." then Genuine(parts[1..])
    else [parts[0]] + Genuine(parts[1..])
  }

  lemma {:induction false} GenuineSnoc(parts: seq<string>, p: string)
    ensures Genuine(parts + [p]) == Genuine(parts) + if p == "" || p == "." then [] else [p]
  {
    if parts == [] {
      assert [p][1..] == [];
    } else {
      GenuineSnoc(parts[1..], p);
      assert (parts + [p])[1..] == parts[1..] + [p];
    }
  }

  lemma {:induction false} CleanedIsGenuine(parts: seq<string>)
    ensures Cleaned(parts) == Genuine(parts)
  {
    if parts != [] {
      var n := |parts| - 1;
      CleanedIsGenuine(parts[..n]);
      GenuineSnoc(parts[..n], parts[n]);
      assert parts[..n] + [parts[n]] == parts;
    }
  }

  lemma {:induction false} SplitSlash(s: string)
    ensures Split(s + "/") == Split(s) + [""]
    decreases |s|
  {
    if s == [] {
      assert "/"[1..] == "";
    } else {
      SplitSlash(s[1..]);
      assert (s + "/")[1..] == s[1..] + "/";
    }
  }

  lemma {:induction false} JoinSplit(s: string)
    ensures Join(Split(s)) == s
    decreases |s|
  {
    if s != [] {
      var rest := Split(s[1..]);
      JoinSplit(s[1..]);
      if s[0] == '/' {
        assert ([[]] + rest)[1..] == rest;
      } else {
        assert ([[s[0]] + rest[0]] + rest[1..])[1..] == rest[1..];
      }
    }
  }

  /** Every name is made of pieces with slashes between them. */
  lemma NamePieces(name: string) returns (parts: seq<string>)
    ensures parts != [] && name == Join(parts) && forall i :: 0 <= i < |parts| ==> '/' !in parts[i]
  {
    parts := Split(name);
    JoinSplit(name);
    SplitComponents(name);
  }

  /** Exactly these names are refused: the empty, the absolute, those with a NUL or a backslash, those
      that climb, and those that lead, in any case of letters, to scratch space or private data. Any
      other name stands for its genuine components. */
  lemma RefusedNames(n: Naming, name: string, parts: seq<string>)
    requires parts != [] && name == Join(parts) && forall i :: 0 <= i < |parts| ==> '/' !in parts[i]
    ensures NormalName(n, name) == None <==>
              || name == "" || name[0] == '/' || '\0' in name || '\\' in name || ".." in parts
              || [".localsend-install-backup"] <= n.Lower(Genuine(parts))
              || [".localsend-install-stage"] <= n.Lower(Genuine(parts))
              || ["extensions", "localsend", "state"] <= n.Lower(Genuine(parts))
              || ["extensions", "localsend", "logs"] <= n.Lower(Genuine(parts))
              || ["extensions", "localsend", "config", "settings.json"] == n.Lower(Genuine(parts))
    ensures NormalName(n, name) in {None, Some(Genuine(parts))}
  {
    hide Genuine, Join, NormalName, Protected, Naming.Lower;
    NormalOfPieces(n, name, parts);
    PrivateNames(n, Genuine(parts));
  }

  lemma PrivateNames(n: Naming, rel: Path)
    ensures Protected(n, rel) <==>
              || [".localsend-install-backup"] <= n.Lower(rel)
              || [".localsend-install-stage"] <= n.Lower(rel)
              || ["extensions", "localsend", "state"] <= n.Lower(rel)
              || ["extensions", "localsend", "logs"] <= n.Lower(rel)
              || ["extensions", "localsend", "config", "settings.json"] == n.Lower(rel)
  {
    hide Naming.Lower;
  }

  lemma NormalOfPieces(n: Naming, name: string, parts: seq<string>)
    requires parts != [] && name == Join(parts) && forall i :: 0 <= i < |parts| ==> '/' !in parts[i]
    ensures NormalName(n, name) ==
            if Refused(name) || ".." in parts || Protected(n, Genuine(parts)) then None else Some(Genuine(parts))
  {
    hide Refused, Protected, Genuine, Cleaned, Split, Join, Naming.Lower;
    PiecesAgain(name, parts);
  }

  lemma PiecesAgain(name: string, parts: seq<string>)
    requires parts != [] && name == Join(parts) && forall i :: 0 <= i < |parts| ==> '/' !in parts[i]
    ensures Cleaned(Split(TrimSlash(name))) == Genuine(parts)
    ensures ".." in Split(TrimSlash(name)) <==> ".." in parts
  {
    hide Genuine, Cleaned, Split, Join;
    SplitJoin(parts);
    if EndsInSlash(name) {
      SplitSlash(TrimSlash(name));
      assert TrimSlash(name) + "/" == name;
      GenuineSnoc(Split(TrimSlash(name)), "");
    }
    CleanedIsGenuine(Split(TrimSlash(name)));
  }

  lemma PlainName(n: Naming, parts: seq<string>)
    requires parts != [] && forall i :: 0 <= i < |parts| ==> IsComponent(parts[i]) && '\\' !in parts[i] && '\0' !in parts[i]
    requires !Protected(n, parts)
    ensures NormalName(n, Join(parts)) == Some(parts) && !EndsInSlash(Join(parts))
  {
    hide Protected, Join, Cleaned, Genuine, NormalName, Naming.Lower;
    JoinShape(parts);
    CleanedFixed(parts);
    CleanedIsGenuine(parts);
    NormalOfPieces(n, Join(parts), parts);
    assert forall p :: p in parts ==> IsComponent(p);
  }
}
