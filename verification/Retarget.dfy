/**
 A rename's rewrite of symbol identity. The pair rewrites whole symbols by prefix and an evidence row's package and
 local halves by projection; the halves still spell the symbol, or the rewrite refuses, and the swapped pair undoes it.
 */
module Retarget {
  import opened Wrappers
  import opened Records

  // ---- strings ----

  function LastSlash(s: string): (i: int)
    ensures -1 <= i < |s| && (i >= 0 ==> s[i] == '/') && forall j :: i < j < |s| ==> s[j] != '/'
  {
    if s == "" then -1 else if s[|s| - 1] == '/' then |s| - 1 else LastSlash(s[..|s| - 1])
  }

  function FirstDot(s: string): (i: int)
    ensures -1 <= i < |s| && (i >= 0 ==> s[i] == '.') && (forall j :: 0 <= j < (if i < 0 then |s| else i) ==> s[j] != '.')
  {
    if s == "" then -1 else if s[0] == '.' then 0 else var i := FirstDot(s[1..]); if i < 0 then -1 else i + 1
  }

  function CountDots(s: string): nat { if s == "" then 0 else CountDots(s[1..]) + if s[0] == '.' then 1 else 0 }

  predicate EndsWith(s: string, c: char) { s != "" && s[|s| - 1] == c }

  // ---- one symbol ----

  datatype Edge = Boundary | AmbiguousDot | Within

  /** Where a prefix match ends: at a segment boundary, at a '.' it cannot judge, or inside a segment. */
  function BoundaryAfter(s: string, prefix: string): Edge
    requires prefix <= s
  {
    if |s| == |prefix| then Boundary
    else if EndsWith(prefix, '.') || EndsWith(prefix, '/') then Boundary
    else if s[|prefix|] == '/' then Boundary
    else if s[|prefix|] == '.' then AmbiguousDot
    else Within
  }

  datatype RetargetError = AmbiguousMatch | CrossesPackage | OtherPackage

  datatype Rewrite = Same | Moved(symbol: string)

  function RetargetSymbol(symbol: string, from: string, to: string): Result<Rewrite, RetargetError> {
    if !(from <= symbol) then Ok(Same)
    else match BoundaryAfter(symbol, from)
      case Boundary => Ok(Moved(to + symbol[|from|..]))
      case AmbiguousDot => Err(AmbiguousMatch)
      case Within => Ok(Same)
  }

  function Renamed(symbol: string, r: Rewrite): string { match r case Same => symbol case Moved(s) => s }

  // ---- the pair ----

  /** A prefix's package path and local name. */
  function PrefixParts(p: string): (string, string) {
    if EndsWith(p, '.') then (p[..|p| - 1], "")
    else
      var slash := LastSlash(p);
      var dot := FirstDot(p[slash + 1..]);
      if dot < 0 then (if EndsWith(p, '/') then p[..|p| - 1] else p, "") else (p[..slash + 1 + dot], p[slash + 1 + dot + 1..])
  }

  function Terminator(p: string): Option<char> {
    if EndsWith(p, '.') then Some('.') else if EndsWith(p, '/') then Some('/') else None
  }

  datatype PairError = EmptyPrefix | SamePrefix | UnlikeShapes | OtherPackages | Restructured | UnlikeTerminated

  function ValidateRetargetPair(from: string, to: string): Option<PairError> {
    var (fromPkg, fromLocal) := PrefixParts(from);
    var (toPkg, toLocal) := PrefixParts(to);
    if from == "" || to == "" then Some(EmptyPrefix)
    else if from == to then Some(SamePrefix)
    else if (fromLocal == "") != (toLocal == "") then Some(UnlikeShapes)
    else if fromLocal != "" && fromPkg != toPkg then Some(OtherPackages)
    else if fromLocal != "" && CountDots(fromLocal) != CountDots(toLocal) then Some(Restructured)
    else if Terminator(from) != Terminator(to) then Some(UnlikeTerminated)
    else None
  }

  predicate ValidPair(from: string, to: string) { ValidateRetargetPair(from, to).None? }

  lemma {:induction false} SwappedPairIsValid(from: string, to: string)
    ensures ValidPair(from, to) <==> ValidPair(to, from)
  {
  }

  /** The three forms a prefix projects under. */
  lemma {:induction false} PartsForm(p: string)
    requires p != ""
    ensures var (pkg, local) := PrefixParts(p);
            && (EndsWith(p, '.') ==> local == "" && p == pkg + ".")
            && (!EndsWith(p, '.') && local == "" ==> if EndsWith(p, '/') then p == pkg + "/" else p == pkg)
            && (local != "" ==> p == pkg + "." + local && !EndsWith(p, '.') && !EndsWith(p, '/'))
            && (!EndsWith(p, '.') && FirstDot(p[LastSlash(p) + 1..]) >= 0 ==> local != "")
  {
    if EndsWith(p, '.') {
      SplitEnd(p);
    } else if FirstDot(p[LastSlash(p) + 1..]) >= 0 {
      LocalForm(p);
    } else {
      SplitEnd(p);
    }
  }

  lemma {:induction false} LocalForm(p: string)
    requires p != "" && !EndsWith(p, '.') && FirstDot(p[LastSlash(p) + 1..]) >= 0
    ensures var (pkg, local) := PrefixParts(p); local != "" && p == pkg + "." + local && !EndsWith(p, '/')
  {
    var k := DotPlace(p);
    SplitAtDot(p, k);
  }

  /** Past the last slash a dot that does not end the prefix has a local name behind it, and no slash. */
  lemma {:induction false} DotPlace(p: string) returns (k: nat)
    requires p != "" && !EndsWith(p, '.') && FirstDot(p[LastSlash(p) + 1..]) >= 0
    ensures k + 1 < |p| && p[k] == '.' && !EndsWith(p, '/') && PrefixParts(p) == (p[..k], p[k + 1..])
  {
    var slash := LastSlash(p);
    var dot := FirstDot(p[slash + 1..]);
    k := slash + 1 + dot;
    assert p[slash + 1..][dot] == p[k];
  }

  lemma {:induction false} SplitEnd(p: string)
    requires p != ""
    ensures EndsWith(p, '.') ==> p == p[..|p| - 1] + "."
    ensures EndsWith(p, '/') ==> p == p[..|p| - 1] + "/"
  {
  }

  lemma {:induction false} SplitAtDot(p: string, k: nat)
    requires k < |p| && p[k] == '.'
    ensures p == p[..k] + "." + p[k + 1..]
    ensures p[k + 1..] == "" <==> k == |p| - 1
  {
  }

  lemma {:induction false} Joined(head: string, rest: string)
    ensures head <= head + rest && (head + rest)[|head|..] == rest
    ensures rest != "" ==> (head + rest)[|head|] == rest[0]
  {
  }

  lemma {:induction false} Parted(s: string, head: string)
    requires head <= s
    ensures s == head + s[|head|..]
    ensures s[|head|..] == "" <==> |s| == |head|
    ensures |head| < |s| ==> s[|head|..][0] == s[|head|]
  {
  }

  /** Two prefixes terminated alike end alike before the same rest. */
  lemma {:induction false} SameEdge(x: string, y: string, rest: string)
    requires Terminator(x) == Terminator(y)
    ensures x <= x + rest && y <= y + rest && BoundaryAfter(x + rest, x) == BoundaryAfter(y + rest, y)
  {
    Joined(x, rest);
    Joined(y, rest);
  }

  /** Rewriting back under the swapped pair restores every moved symbol. */
  lemma {:induction false} SwapRestores(symbol: string, from: string, to: string)
    requires ValidPair(from, to) && RetargetSymbol(symbol, from, to).Ok? && RetargetSymbol(symbol, from, to).value.Moved?
    ensures RetargetSymbol(RetargetSymbol(symbol, from, to).value.symbol, to, from) == Ok(Moved(symbol))
  {
    var rest := symbol[|from|..];
    Parted(symbol, from);
    Joined(to, rest);
    SameEdge(from, to, rest);
  }

  // ---- an evidence row's halves ----

  function RetargetPackagePath(path: string, fromPkg: string, toPkg: string): string {
    if path == fromPkg then toPkg else if fromPkg + "/" <= path then toPkg + path[|fromPkg|..] else path
  }

  /** In the local half a '.' edge is a true boundary: identifiers hold none. */
  function RetargetLocal(local: string, from: string, to: string): string {
    if from != "" && from <= local && BoundaryAfter(local, from) != Within then to + local[|from|..] else local
  }

  /** The rewritten halves of a row whose symbol moved; refused where the match crosses the recorded package. */
  function RetargetHalves(pkg: string, local: string, from: string,
          to: string): Result<(string, string), RetargetError> {
    var (fromPkg, fromLocal) := PrefixParts(from);
    var (toPkg, toLocal) := PrefixParts(to);
    if pkg == "" || pkg == fromPkg || fromPkg + "/" <= pkg then
      Ok((RetargetPackagePath(pkg, fromPkg, toPkg), RetargetLocal(local, fromLocal, toLocal)))
    else if pkg + "." <= from then
      if !(pkg + "." <= to) then Err(CrossesPackage)
      else Ok((pkg, RetargetLocal(local, from[|pkg| + 1..], to[|pkg| + 1..])))
    else Err(OtherPackage)
  }

  /** A moved match continues at the matched offset. */
  lemma {:induction false} MovedEdge(symbol: string, from: string, to: string)
    requires RetargetSymbol(symbol, from, to).Ok? && RetargetSymbol(symbol, from, to).value.Moved?
    ensures from <= symbol && BoundaryAfter(symbol, from) == Boundary
    ensures RetargetSymbol(symbol, from, to).value.symbol == to + symbol[|from|..]
  {
  }

  lemma {:induction false} PrefixAt(p: string, s: string, i: nat)
    requires p <= s && i < |p|
    ensures p[i] == s[i]
  {
  }

  /** A prefix of the row's package alone must be '.'-terminated to move it. */
  lemma {:induction false} OwnForm(pkg: string, local: string, from: string)
    requires from != "" && PrefixParts(from).0 == pkg && from <= pkg + "." + local && BoundaryAfter(pkg + "." + local, from) == Boundary
    ensures EndsWith(from, '.') || PrefixParts(from).1 != ""
  {
    var s := pkg + "." + local;
    PartsForm(from);
    assert s[|pkg|] == '.' && forall i :: 0 <= i < |from| ==> from[i] == s[i];
    assert EndsWith(from, '/') && PrefixParts(from).1 == "" ==> from[|pkg|] == '/';
  }

  /** The pair names exactly the row's package, or a local of it. */
  lemma {:induction false} OwnPackage(pkg: string, local: string, from: string, to: string)
    requires ValidPair(from, to) && PrefixParts(from).0 == pkg
    requires from <= pkg + "." + local && BoundaryAfter(pkg + "." + local, from) == Boundary
    ensures to + (pkg + "." + local)[|from|..] == PrefixParts(to).0 + "." + RetargetLocal(local, PrefixParts(from).1, PrefixParts(to).1)
  {
    OwnForm(pkg, local, from);
    PartsForm(from);
    PartsForm(to);
    if EndsWith(from, '.') {
      DottedTail(pkg, local, from, PrefixParts(to).0, to);
    } else {
      OwnLocal(pkg, local, PrefixParts(from).1, PrefixParts(to).1, from, to);
    }
  }

  lemma {:induction false} DottedTail(pkg: string, local: string, from: string, toPkg: string, to: string)
    requires from == pkg + "." && to == toPkg + "."
    ensures to + (pkg + "." + local)[|from|..] == toPkg + "." + local
  {
    assert (pkg + "." + local)[|from|..] == local;
  }

  lemma {:induction false} OwnLocal(pkg: string, local: string, fromLocal: string, toLocal: string, from: string,
          to: string)
    requires from == pkg + "." + fromLocal && to == pkg + "." + toLocal && fromLocal != ""
    requires from <= pkg + "." + local && BoundaryAfter(pkg + "." + local, from) == Boundary
    ensures fromLocal <= local
    ensures to + (pkg + "." + local)[|from|..] == pkg + "." + RetargetLocal(local, fromLocal, toLocal)
  {
    var head := pkg + ".";
    CancelPrefix(head, fromLocal, local);
    CancelEdge(head, fromLocal, local);
    assert to + local[|fromLocal|..] == pkg + "." + (toLocal + local[|fromLocal|..]);
  }

  lemma {:induction false} CancelPrefix(head: string, x: string, y: string)
    requires head + x <= head + y
    ensures x <= y && (head + y)[|head + x|..] == y[|x|..]
  {
    assert forall i :: 0 <= i < |x| ==> x[i] == (head + x)[|head| + i] == (head + y)[|head| + i] == y[i];
  }

  lemma {:induction false} CancelEdge(head: string, x: string, y: string)
    requires x != "" && x <= y && head + x <= head + y
    ensures BoundaryAfter(head + y, head + x) == BoundaryAfter(y, x)
  {
    assert (head + x)[|head + x| - 1] == x[|x| - 1];
    if |y| > |x| {
      assert (head + y)[|head + x|] == y[|x|];
    }
  }

  /** A prefix of a parent path of the row's package names no local, and is not '.'-terminated. */
  lemma {:induction false} ParentForm(pkg: string, local: string, from: string)
    requires from != "" && PrefixParts(from).0 + "/" <= pkg && from <= pkg + "." + local
    ensures !EndsWith(from, '.') && PrefixParts(from).1 == ""
  {
    var s, fromPkg := pkg + "." + local, PrefixParts(from).0;
    PartsForm(from);
    PrefixAt(fromPkg + "/", pkg, |fromPkg|);
    assert s[|fromPkg|] == pkg[|fromPkg|] == '/' && forall i :: 0 <= i < |from| ==> from[i] == s[i];
    assert |fromPkg| < |from| ==> from[|fromPkg|] == '/';
  }

  /** A pair of whole paths: neither names a local, and both end alike. */
  lemma {:induction false} PathPair(from: string, to: string)
    requires ValidPair(from, to) && !EndsWith(from, '.') && PrefixParts(from).1 == ""
    ensures PrefixParts(to).1 == ""
    ensures if EndsWith(from, '/') then from == PrefixParts(from).0 + "/" && to == PrefixParts(to).0 + "/"
            else from == PrefixParts(from).0 && to == PrefixParts(to).0
  {
    PartsForm(from);
    PartsForm(to);
  }

  lemma {:induction false} ParentTail(pkg: string, local: string, fromPkg: string, toPkg: string, from: string,
          to: string)
    requires fromPkg + "/" <= pkg
    requires (from == fromPkg + "/" && to == toPkg + "/") || (from == fromPkg && to == toPkg)
    ensures from <= pkg && to + (pkg + "." + local)[|from|..] == toPkg + pkg[|fromPkg|..] + "." + local
  {
    assert fromPkg <= fromPkg + "/";
    if from == fromPkg {
      BareTail(pkg, local, from, to);
    } else {
      SlashTail(pkg, local, fromPkg, from, toPkg, to);
    }
  }

  /** The pair names a parent path of the row's package. */
  lemma {:induction false} ParentPackage(pkg: string, local: string, from: string, to: string)
    requires ValidPair(from, to) && PrefixParts(from).0 + "/" <= pkg && from <= pkg + "." + local
    ensures to + (pkg + "." + local)[|from|..] == PrefixParts(to).0 + pkg[|PrefixParts(from).0|..] + "." + local
    ensures RetargetLocal(local, PrefixParts(from).1, PrefixParts(to).1) == local
  {
    ParentForm(pkg, local, from);
    PathPair(from, to);
    ParentTail(pkg, local, PrefixParts(from).0, PrefixParts(to).0, from, to);
  }

  lemma {:induction false} BareTail(pkg: string, local: string, from: string, to: string)
    requires from <= pkg
    ensures to + (pkg + "." + local)[|from|..] == to + pkg[|from|..] + "." + local
  {
  }

  lemma {:induction false} SlashTail(pkg: string, local: string, fromPkg: string, from: string, toPkg: string,
          to: string)
    requires from == fromPkg + "/" && to == toPkg + "/" && from <= pkg
    ensures to + (pkg + "." + local)[|from|..] == toPkg + pkg[|fromPkg|..] + "." + local
  {
    assert (pkg + "." + local)[|from|..] == pkg[|from|..] + "." + local;
    PrefixAt(from, pkg, |fromPkg|);
    assert pkg[|fromPkg|..] == "/" + pkg[|from|..];
  }

  /** The pair crosses into the local half of the row's own, dotted, package. */
  lemma {:induction false} DottedPackage(pkg: string, local: string, from: string, to: string)
    requires pkg + "." <= from && pkg + "." <= to && from != pkg + "."
    requires var r := RetargetSymbol(pkg + "." + local, from, to); r.Ok? && r.value.Moved?
    ensures RetargetSymbol(pkg + "." + local, from, to).value.symbol
         == pkg + "." + RetargetLocal(local, from[|pkg| + 1..], to[|pkg| + 1..])
  {
    MovedEdge(pkg + "." + local, from, to);
    assert from == pkg + "." + from[|pkg| + 1..];
    assert to == pkg + "." + to[|pkg| + 1..];
    OwnLocal(pkg, local, from[|pkg| + 1..], to[|pkg| + 1..], from, to);
  }

  lemma {:induction false} LocalHasNoSlash(p: string)
    requires p != ""
    ensures '/' !in PrefixParts(p).1
  {
    if !EndsWith(p, '.') && FirstDot(p[LastSlash(p) + 1..]) >= 0 {
      var slash := LastSlash(p);
      var from := slash + 1 + FirstDot(p[slash + 1..]) + 1;
      assert forall i :: 0 <= i < |p[from..]| ==> p[from..][i] == p[from + i];
    }
  }

  /** A symbol prefix that opens with '.' and names a package holds a slash inside the package. */
  lemma {:induction false} DottedPackageHasSlash(from: string) returns (q: nat)
    requires from != "" && from[0] == '.' && PrefixParts(from).1 != "" && PrefixParts(from).0 != ""
    ensures 0 < q < |PrefixParts(from).0| && from[q] == '/' && forall j :: 0 <= j < q ==> from[j] != '/'
  {
    var slash := LastSlash(from);
    assert from[0..] == from;
    assert FirstDot(from) == 0;
    var dot := FirstDot(from[slash + 1..]);
    assert dot >= 0 && |PrefixParts(from).0| == slash + 1 + dot;
    assert slash >= 0;
    q := FirstSlash(from, slash);
  }

  lemma {:induction false} FirstSlash(s: string, i: nat) returns (q: nat)
    requires i < |s| && s[i] == '/'
    ensures q <= i && s[q] == '/' && forall j :: 0 <= j < q ==> s[j] != '/'
  {
    q := 0;
    while s[q] != '/'
      invariant q <= i && forall j :: 0 <= j < q ==> s[j] != '/'
      decreases i - q
    {
      q := q + 1;
    }
  }

  /** A row without a recorded package, moved by a prefix that names one: its halves no longer spell its symbol. */
  lemma {:induction false} NoPackage(local: string, from: string, to: string)
    requires ValidPair(from, to) && PrefixParts(from).0 != ""
    requires var r := RetargetSymbol("." + local, from, to); r.Ok? && r.value.Moved?
    ensures RetargetPackagePath("", PrefixParts(from).0, PrefixParts(to).0) == ""
    ensures RetargetSymbol("." + local, from, to).value.symbol != "." + RetargetLocal(local, PrefixParts(from).1, PrefixParts(to).1)
  {
    var s := "." + local;
    var (fromPkg, fromLocal) := PrefixParts(from);
    PartsForm(from);
    MovedEdge(s, from, to);
    assert from[0] == s[0] == '.';
    if RetargetLocal(local, fromLocal, PrefixParts(to).1) == local {
      StaysBehind(s, from, to);
    } else {
      MovesAside(local, from, to);
    }
  }

  lemma {:induction false} StaysBehind(s: string, from: string, to: string)
    requires from <= s && from != to
    ensures to + s[|from|..] != s
  {
    var rest := s[|from|..];
    assert |s| == |from| + |rest| && s[..|from|] == from;
    assert |to + rest| == |to| + |rest| && (to + rest)[..|to|] == to;
  }

  /** The local half moved while the package it was matched in stays in the text: the first slash gives it away. */
  lemma {:induction false} MovesAside(local: string, from: string, to: string)
    requires ValidPair(from, to) && from[0] == '.' && PrefixParts(from).0 != "" && PrefixParts(from).1 != ""
    requires from <= "." + local && PrefixParts(from).1 <= local
    ensures to + ("." + local)[|from|..] != "." + (PrefixParts(to).1 + local[|PrefixParts(from).1|..])
  {
    PartsForm(from);
    PartsForm(to);
    LocalHasNoSlash(from);
    LocalHasNoSlash(to);
    var q := DottedPackageHasSlash(from);
    var (pkg, fromLocal) := PrefixParts(from);
    var toLocal := PrefixParts(to).1;
    if to + ("." + local)[|from|..] == "." + (toLocal + local[|fromLocal|..]) {
      SameLocal(local, pkg, fromLocal, toLocal, from, to, q);
    }
  }

  lemma {:induction false} SameLocal(local: string, pkg: string, fromLocal: string, toLocal: string, from: string,
          to: string, q: nat)
    requires from == pkg + "." + fromLocal && to == pkg + "." + toLocal && '/' !in fromLocal && '/' !in toLocal
    requires 0 < q < |pkg| && from[q] == '/' && forall j :: 0 <= j < q ==> from[j] != '/'
    requires from <= "." + local && fromLocal <= local
    requires to + ("." + local)[|from|..] == "." + (toLocal + local[|fromLocal|..])
    ensures fromLocal == toLocal
  {
    var s := "." + local;
    var next, mine := to + s[|from|..], "." + (toLocal + local[|fromLocal|..]);
    var m := |toLocal| + q - |fromLocal|;
    OpensAlike(local, from, q);
    LocalEndsBefore(local, fromLocal, q);
    FirstSlashOf(local, fromLocal, toLocal, q, m);
    PackageOpens(pkg, fromLocal, toLocal, from, to, s[|from|..], q);
    assert m == q;
    forall i | 0 <= i < |fromLocal| ensures fromLocal[i] == toLocal[i] {
      assert mine[i + 1] == toLocal[i];
      PrefixAt(fromLocal, local, i);
    }
  }

  /** The matched prefix and the text agree up to the prefix's first slash, one place on in the local half. */
  lemma {:induction false} OpensAlike(local: string, from: string, q: nat)
    requires from <= "." + local && 0 < q < |from| && from[q] == '/' && forall j :: 0 <= j < q ==> from[j] != '/'
    ensures q - 1 < |local| && local[q - 1] == '/' && forall j :: 0 <= j < q - 1 ==> local[j] == from[j + 1] && local[j] != '/'
  {
    forall j | 0 <= j < |from| ensures from[j] == ("." + local)[j] {
      PrefixAt(from, "." + local, j);
    }
    forall j | 0 <= j < q ensures local[j] == from[j + 1] {
      assert ("." + local)[j + 1] == local[j];
    }
  }

  lemma {:induction false} LocalEndsBefore(local: string, fromLocal: string, q: nat)
    requires 0 < q <= |local| && local[q - 1] == '/' && '/' !in fromLocal && fromLocal <= local
    ensures |fromLocal| <= q - 1
  {
    assert forall j :: 0 <= j < |fromLocal| ==> fromLocal[j] == local[j] && fromLocal[j] != '/';
  }

  lemma {:induction false} PackageOpens(pkg: string, fromLocal: string, toLocal: string, from: string, to: string,
          rest: string, q: nat)
    requires from == pkg + "." + fromLocal && to == pkg + "." + toLocal && q < |pkg|
    ensures forall j :: 0 <= j <= q ==> (to + rest)[j] == from[j]
  {
    forall j | 0 <= j <= q ensures (to + rest)[j] == from[j] {
      assert (to + rest)[j] == to[j] == pkg[j] == from[j];
    }
  }

  lemma {:induction false} FirstSlashOf(local: string, fromLocal: string, toLocal: string, q: nat, m: nat)
    requires '/' !in toLocal && |fromLocal| <= q - 1 < |local| && m == |toLocal| + q - |fromLocal|
    requires forall j :: 0 <= j < q - 1 ==> local[j] != '/'
    ensures var mine := "." + (toLocal + local[|fromLocal|..]);
            m < |mine| && mine[m] == local[q - 1] && forall j :: 0 <= j < m ==> mine[j] != '/'
  {
    var mine := "." + (toLocal + local[|fromLocal|..]);
    assert mine[m] == local[|fromLocal|..][m - 1 - |toLocal|];
    forall j | 0 <= j < m ensures mine[j] != '/' {
      if j > |toLocal| {
        assert mine[j] == local[|fromLocal|..][j - 1 - |toLocal|];
      } else if j > 0 {
        assert mine[j] == toLocal[j - 1];
      }
    }
  }

  // ---- coherence ----

  /** The row's halves spell its symbol. */
  predicate Coherent(e: SubjectEvidence) { e.symbol == e.fingerprint.proof.subjectPackage + "." + e.fingerprint.proof.subjectSymbol }

  function RetargetRow(e: SubjectEvidence, from: string, to: string): Result<SubjectEvidence, RetargetError> {
    match RetargetSymbol(e.symbol, from, to)
    case Err(err) => Err(err)
    case Ok(Same) => Ok(e)
    case Ok(Moved(next)) =>
      match RetargetHalves(e.fingerprint.proof.subjectPackage, e.fingerprint.proof.subjectSymbol, from, to)
      case Err(err) => Err(err)
      case Ok((pkg, local)) =>
        Ok(e.(symbol := next, fingerprint := e.fingerprint.(proof := e.fingerprint.proof.(subjectPackage := pkg, subjectSymbol := local))))
  }

  /** The rewritten halves spell the rewritten symbol. */
  predicate Spells(pkg: string, local: string, from: string, to: string)
    requires var r := RetargetSymbol(pkg + "." + local, from, to); r.Ok? && r.value.Moved?
    requires RetargetHalves(pkg, local, from, to).Ok?
  {
    var (pkg', local') := RetargetHalves(pkg, local, from, to).value;
    RetargetSymbol(pkg + "." + local, from, to).value.symbol == pkg' + "." + local'
  }

  lemma {:induction false} OwnSpells(pkg: string, local: string, from: string, to: string)
    requires ValidPair(from, to) && pkg == PrefixParts(from).0
    requires var r := RetargetSymbol(pkg + "." + local, from, to); r.Ok? && r.value.Moved?
    ensures RetargetHalves(pkg, local, from, to).Ok? && Spells(pkg, local, from, to)
  {
    MovedEdge(pkg + "." + local, from, to);
    OwnPackage(pkg, local, from, to);
  }

  lemma {:induction false} ParentSpells(pkg: string, local: string, from: string, to: string)
    requires ValidPair(from, to) && pkg != "" && pkg != PrefixParts(from).0 && PrefixParts(from).0 + "/" <= pkg
    requires var r := RetargetSymbol(pkg + "." + local, from, to); r.Ok? && r.value.Moved?
    ensures RetargetHalves(pkg, local, from, to).Ok? && Spells(pkg, local, from, to)
  {
    MovedEdge(pkg + "." + local, from, to);
    ParentPackage(pkg, local, from, to);
  }

  lemma {:induction false} DottedSpells(pkg: string, local: string, from: string, to: string)
    requires ValidPair(from, to) && pkg != "" && pkg != PrefixParts(from).0 && !(PrefixParts(from).0 + "/" <= pkg)
    requires var r := RetargetSymbol(pkg + "." + local, from, to); r.Ok? && r.value.Moved?
    requires RetargetHalves(pkg, local, from, to).Ok?
    ensures Spells(pkg, local, from, to)
  {
    PartsForm(from);
    NotJustPackage(pkg, from);
    DottedPackage(pkg, local, from, to);
  }

  lemma {:induction false} PackagelessSpells(local: string, from: string, to: string)
    requires ValidPair(from, to) && PrefixParts(from).0 != ""
    requires var r := RetargetSymbol("" + "." + local, from, to); r.Ok? && r.value.Moved?
    ensures RetargetHalves("", local, from, to).Ok? && !Spells("", local, from, to)
  {
    SameText(local);
    NoPackage(local, from, to);
  }

  lemma {:induction false} SameText(local: string)
    ensures "" + "." + local == "." + local && forall name: string :: "" + "." + name == "." + name
  {
    assert "" + "." == ".";
  }

  lemma {:induction false} HalvesSpell(pkg: string, local: string, from: string, to: string)
    requires ValidPair(from, to)
    requires var r := RetargetSymbol(pkg + "." + local, from, to); r.Ok? && r.value.Moved?
    requires RetargetHalves(pkg, local, from, to).Ok?
    ensures Spells(pkg, local, from, to) <==> pkg != "" || PrefixParts(from).0 == ""
  {
    var fromPkg := PrefixParts(from).0;
    if pkg == fromPkg {
      OwnSpells(pkg, local, from, to);
    } else if pkg == "" {
      PackagelessSpells(local, from, to);
    } else if fromPkg + "/" <= pkg {
      ParentSpells(pkg, local, from, to);
    } else {
      DottedSpells(pkg, local, from, to);
    }
  }

  lemma {:induction false} NotJustPackage(pkg: string, from: string)
    requires from != "" && PrefixParts(from).0 != pkg
    ensures from != pkg + "."
  {
    assert (pkg + ".")[..|pkg|] == pkg;
  }

  /**
   A rename keeps identity coherent: under an accepted pair a coherent row it does not refuse stays coherent exactly
   when the row did not move, records a package, or the pair's own package half is empty.
   */
  lemma {:induction false} RenameKeepsCoherent(e: SubjectEvidence, from: string, to: string)
    requires ValidPair(from, to) && Coherent(e) && RetargetRow(e, from, to).Ok?
    ensures Coherent(RetargetRow(e, from, to).value) <==>
              RetargetSymbol(e.symbol, from, to).value.Same? || e.fingerprint.proof.subjectPackage != "" || PrefixParts(from).0 == ""
  {
    if RetargetSymbol(e.symbol, from, to).value.Moved? {
      HalvesSpell(e.fingerprint.proof.subjectPackage, e.fingerprint.proof.subjectSymbol, from, to);
    }
  }

  /** A row without a package that a rename leaves spelling two names. */
  lemma {:induction false} PackagelessRowBreaks()
    ensures ValidPair("./x", "./y")
    ensures RetargetSymbol("./x", "./x", "./y") == Ok(Moved("./y"))
    ensures RetargetHalves("", "/x", "./x", "./y") == Ok(("", "/x")) && "./y" != "" + "." + "/x"
  {
    assert "./x"[2..] == "x" && "./y"[2..] == "y" && "./x"[3..] == "";
    assert "./y" + "./x"[3..] == "./y";
    assert LastSlash("./x") == 1 && LastSlash("./y") == 1;
    assert FirstDot("x") == -1 && FirstDot("y") == -1;
  }

  // ---- undoing a rename ----

  /** The terminator of a prefix is that of any non-empty end of it. */
  lemma {:induction false} EndOf(head: string, x: string)
    requires x != ""
    ensures Terminator(head + x) == Terminator(x)
  {
    assert (head + x)[|head + x| - 1] == x[|x| - 1];
  }

  lemma {:induction false} LocalRestores(local: string, x: string, y: string)
    requires x != "" && y != "" && x <= local && BoundaryAfter(local, x) != Within && Terminator(x) == Terminator(y)
    ensures RetargetLocal(RetargetLocal(local, x, y), y, x) == local
  {
    var rest := local[|x|..];
    Parted(local, x);
    Joined(y, rest);
    SameEdge(x, y, rest);
  }

  /** The local half of a match behind the row's own package restores under the swapped ends. */
  lemma {:induction false} BehindRestores(pkg: string, local: string, x: string, y: string)
    requires x != "" && y != "" && Terminator(x) == Terminator(y)
    requires pkg + "." + x <= pkg + "." + local && BoundaryAfter(pkg + "." + local, pkg + "." + x) == Boundary
    ensures RetargetLocal(RetargetLocal(local, x, y), y, x) == local
  {
    CancelPrefix(pkg + ".", x, local);
    CancelEdge(pkg + ".", x, local);
    LocalRestores(local, x, y);
  }

  /** The row's halves come back under the swapped pair. */
  predicate Restores(pkg: string, local: string, from: string, to: string)
    requires RetargetHalves(pkg, local, from, to).Ok?
  {
    var (pkg', local') := RetargetHalves(pkg, local, from, to).value;
    RetargetHalves(pkg', local', to, from) == Ok((pkg, local))
  }

  lemma {:induction false} OwnRestores(pkg: string, local: string, from: string, to: string)
    requires ValidPair(from, to) && pkg == PrefixParts(from).0
    requires from <= pkg + "." + local && BoundaryAfter(pkg + "." + local, from) == Boundary
    ensures RetargetHalves(pkg, local, from, to).Ok? && Restores(pkg, local, from, to) && to != pkg + "."
  {
    OwnForm(pkg, local, from);
    PartsForm(from);
    PartsForm(to);
    if PrefixParts(from).1 != "" {
      OwnLocalRestores(pkg, local, PrefixParts(from).1, PrefixParts(to).1, from, to);
    }
  }

  lemma {:induction false} OwnLocalRestores(pkg: string, local: string, fromLocal: string, toLocal: string,
          from: string, to: string)
    requires from == pkg + "." + fromLocal && to == pkg + "." + toLocal && fromLocal != "" && toLocal != ""
    requires Terminator(from) == Terminator(to) && from <= pkg + "." + local && BoundaryAfter(pkg + "." + local, from) == Boundary
    ensures RetargetLocal(RetargetLocal(local, fromLocal, toLocal), toLocal, fromLocal) == local
  {
    EndOf(pkg + ".", fromLocal);
    EndOf(pkg + ".", toLocal);
    BehindRestores(pkg, local, fromLocal, toLocal);
  }

  lemma {:induction false} PathRestores(path: string, fromPkg: string, toPkg: string)
    requires fromPkg + "/" <= path
    ensures var moved := RetargetPackagePath(path, fromPkg, toPkg);
            toPkg + "/" <= moved && RetargetPackagePath(moved, toPkg, fromPkg) == path
  {
    PrefixAt(fromPkg + "/", path, |fromPkg|);
    var rest := path[|fromPkg|..];
    assert path == fromPkg + rest && rest[0] == '/';
    var moved := toPkg + rest;
    assert moved[|toPkg|..] == rest && moved[|toPkg|] == '/';
    assert moved[..|toPkg| + 1] == toPkg + "/";
  }

  lemma {:induction false} ParentRestores(pkg: string, local: string, from: string, to: string)
    requires ValidPair(from, to) && pkg != "" && pkg != PrefixParts(from).0 && PrefixParts(from).0 + "/" <= pkg
    requires from <= pkg + "." + local
    ensures RetargetHalves(pkg, local, from, to).Ok? && Restores(pkg, local, from, to) && to != pkg + "."
  {
    ParentForm(pkg, local, from);
    PathRestores(pkg, PrefixParts(from).0, PrefixParts(to).0);
    assert EndsWith(pkg + ".", '.');
  }

  /** A match crossing into the local half, as the projection reads it. */
  lemma {:induction false} DottedHalves(pkg: string, local: string, from: string, to: string)
    requires pkg != "" && pkg != PrefixParts(from).0 && !(PrefixParts(from).0 + "/" <= pkg) && pkg + "." <= from && pkg + "." <= to
    ensures RetargetHalves(pkg, local, from, to) == Ok((pkg, RetargetLocal(local, from[|pkg| + 1..], to[|pkg| + 1..])))
  {
  }

  lemma {:induction false} OwnHalves(pkg: string, local: string, from: string, to: string)
    requires pkg == PrefixParts(from).0
    ensures RetargetHalves(pkg, local, from, to) == Ok((PrefixParts(to).0, RetargetLocal(local, PrefixParts(from).1, PrefixParts(to).1)))
  {
  }

  lemma {:induction false} DottedDrops(pkg: string, local: string, from: string, to: string)
    requires pkg != "" && pkg != PrefixParts(from).0 && pkg == PrefixParts(to).0
    requires RetargetHalves(pkg, local, from, to).Ok? && RetargetHalves(pkg, local, from, to).value.0 == pkg
    ensures !Restores(pkg, local, from, to)
  {
    OwnHalves(pkg, RetargetHalves(pkg, local, from, to).value.1, to, from);
  }

  lemma {:induction false} DottedKeeps(pkg: string, local: string, from: string, to: string)
    requires pkg != "" && pkg + "." <= from && pkg + "." <= to
    requires pkg != PrefixParts(from).0 && !(PrefixParts(from).0 + "/" <= pkg)
    requires pkg != PrefixParts(to).0 && !(PrefixParts(to).0 + "/" <= pkg)
    requires var x, y := from[|pkg| + 1..], to[|pkg| + 1..]; RetargetLocal(RetargetLocal(local, x, y), y, x) == local
    ensures RetargetHalves(pkg, local, from, to).Ok? && Restores(pkg, local, from, to)
  {
    DottedHalves(pkg, local, from, to);
    DottedHalves(pkg, RetargetLocal(local, from[|pkg| + 1..], to[|pkg| + 1..]), to, from);
  }

  lemma {:induction false} DottedCase(pkg: string, local: string, from: string, to: string)
    requires pkg != "" && pkg + "." <= from && pkg + "." <= to && from != pkg + "." && Terminator(from) == Terminator(to)
    requires pkg != PrefixParts(from).0 && !(PrefixParts(from).0 + "/" <= pkg) && !(PrefixParts(to).0 + "/" <= pkg)
    requires PrefixParts(to).0 == pkg <==> to == pkg + "."
    requires from <= pkg + "." + local && BoundaryAfter(pkg + "." + local, from) == Boundary
    ensures RetargetHalves(pkg, local, from, to).Ok?
    ensures Restores(pkg, local, from, to) <==> PrefixParts(to).0 != pkg
  {
    if PrefixParts(to).0 == pkg {
      DottedHalves(pkg, local, from, to);
      DottedDrops(pkg, local, from, to);
    } else {
      BehindDotRestores(pkg, local, from[|pkg| + 1..], to[|pkg| + 1..], from, to);
      DottedKeeps(pkg, local, from, to);
    }
  }

  lemma {:induction false} BehindDotRestores(pkg: string, local: string, x: string, y: string, from: string, to: string)
    requires pkg + "." <= from && pkg + "." <= to && from != pkg + "." && to != pkg + "." && Terminator(from) == Terminator(to)
    requires x == from[|pkg| + 1..] && y == to[|pkg| + 1..]
    requires from <= pkg + "." + local && BoundaryAfter(pkg + "." + local, from) == Boundary
    ensures RetargetLocal(RetargetLocal(local, x, y), y, x) == local
  {
    Parted(from, pkg + ".");
    Parted(to, pkg + ".");
    EndOf(pkg + ".", x);
    EndOf(pkg + ".", y);
    BehindRestores(pkg, local, x, y);
  }

  /** Past the row's package, the other prefix names that package itself only when it is the package and a dot. */
  lemma {:induction false} DottedForms(pkg: string, from: string, to: string)
    requires ValidPair(from, to) && pkg != "" && pkg != PrefixParts(from).0 && pkg + "." <= to && !(PrefixParts(from).0 + "/" <= pkg)
    ensures PrefixParts(to).0 == pkg <==> to == pkg + "."
    ensures !(PrefixParts(to).0 + "/" <= pkg)
  {
    PartsForm(to);
    if EndsWith(to, '.') {
      DottedEnd(PrefixParts(to).0, pkg, to);
    } else if PrefixParts(to).1 == "" {
      BareEnd(PrefixParts(to).0, pkg, to);
    }
  }

  lemma {:induction false} DottedEnd(toPkg: string, pkg: string, to: string)
    requires to == toPkg + "." && |pkg + "."| <= |to|
    ensures toPkg == pkg <==> to == pkg + "."
    ensures !(toPkg + "/" <= pkg)
  {
    assert (pkg + ".")[..|pkg|] == pkg && to[..|toPkg|] == toPkg;
  }

  lemma {:induction false} BareEnd(toPkg: string, pkg: string, to: string)
    requires (to == toPkg || to == toPkg + "/") && pkg + "." <= to && !EndsWith(to, '.')
    ensures toPkg != pkg && to != pkg + "." && !(toPkg + "/" <= pkg)
  {
    PrefixAt(pkg + ".", to, |pkg|);
  }

  /**
   The swapped pair restores a moved coherent row that records a package, halves included, unless the rename dropped the
   whole rest of its prefix behind that package: the way back then takes the package for the prefix.
   */
  lemma {:induction false} SwapRestoresRow(e: SubjectEvidence, from: string, to: string)
    requires ValidPair(from, to) && Coherent(e) && e.fingerprint.proof.subjectPackage != ""
    requires RetargetRow(e, from, to).Ok? && RetargetSymbol(e.symbol, from, to).value.Moved?
    ensures RetargetRow(RetargetRow(e, from, to).value, to, from) == Ok(e) <==> to != e.fingerprint.proof.subjectPackage + "."
  {
    var pkg, local := e.fingerprint.proof.subjectPackage, e.fingerprint.proof.subjectSymbol;
    MovedEdge(e.symbol, from, to);
    SwapRestores(e.symbol, from, to);
    if pkg == PrefixParts(from).0 {
      OwnRestores(pkg, local, from, to);
    } else if PrefixParts(from).0 + "/" <= pkg {
      ParentRestores(pkg, local, from, to);
    } else {
      PairTerminators(from, to);
      NotJustPackage(pkg, from);
      DottedForms(pkg, from, to);
      DottedCase(pkg, local, from, to);
    }
  }

  lemma {:induction false} PairTerminators(from: string, to: string)
    requires ValidPair(from, to)
    ensures from != "" && Terminator(from) == Terminator(to)
  {
  }

  /** A method renamed to a function of its package: the way back spells the type into the package half. */
  lemma {:induction false} DroppedQualifierStaysDropped()
    ensures ValidPair("p.T.", "p.")
    ensures RetargetHalves("p", "T.M", "p.T.", "p.") == Ok(("p", "M"))
    ensures RetargetHalves("p", "M", "p.", "p.T.") == Ok(("p.T", "M"))
  {
    assert "p.T."[..3] == "p.T" && "p."[..1] == "p" && "p.T."[2..] == "T." && "p."[2..] == "";
    assert "T." <= "T.M" && "T.M"[2..] == "M" && "" + "M" == "M";
  }

  // ---- a record ----

  const PACKAGE_KILLER_PREFIX := "(package failure: "

  /** A kill's attribution: a package failure's path under a package pair, a test's symbol under any. */
  function RetargetKiller(killer: string, from: string, to: string): Result<string, RetargetError> {
    if PACKAGE_KILLER_PREFIX <= killer then
      var inner := killer[|PACKAGE_KILLER_PREFIX|..];
      if PrefixParts(from).1 == "" && PrefixParts(to).1 == "" && EndsWith(inner, ')') then
        Ok(PACKAGE_KILLER_PREFIX + RetargetPackagePath(inner[..|inner| - 1], PrefixParts(from).0, PrefixParts(to).0) + ")")
      else Ok(killer)
    else match RetargetSymbol(killer, from, to)
      case Err(err) => Err(err)
      case Ok(r) => Ok(Renamed(killer, r))
  }

  function RetargetRows(es: seq<SubjectEvidence>, from: string,
          to: string): Result<seq<SubjectEvidence>, RetargetError> {
    if es == [] then Ok([]) else
      match RetargetRows(es[..|es| - 1], from, to)
      case Err(err) => Err(err)
      case Ok(init) =>
        match RetargetRow(es[|es| - 1], from, to)
        case Err(err) => Err(err)
        case Ok(e) => Ok(init + [e])
  }

  function RetargetKills(ks: seq<Kill>, from: string, to: string): Result<seq<Kill>, RetargetError> {
    if ks == [] then Ok([]) else
      match RetargetKills(ks[..|ks| - 1], from, to)
      case Err(err) => Err(err)
      case Ok(init) =>
        match RetargetKiller(ks[|ks| - 1].killer, from, to)
        case Err(err) => Err(err)
        case Ok(killer) => Ok(init + [ks[|ks| - 1].(killer := killer)])
  }

  /** Every symbol-bearing field of a record, or the first refusal; survivors and dispositions ride unchanged. */
  function RetargetedFinding(f: Finding, from: string, to: string): Result<Finding, RetargetError> {
    match RetargetSymbol(f.symbol, from, to)
    case Err(err) => Err(err)
    case Ok(symbol) =>
      match RetargetRow(f.targetEvidence, from, to)
      case Err(err) => Err(err)
      case Ok(target) =>
        match RetargetRows(f.oracleEvidence, from, to)
        case Err(err) => Err(err)
        case Ok(oracle) =>
          match RetargetKills(f.kills, from, to)
          case Err(err) => Err(err)
          case Ok(kills) => Ok(f.(symbol := Renamed(f.symbol, symbol), targetEvidence := target, oracleEvidence := oracle, kills := kills))
  }

  lemma {:induction false} RowsRefused(es: seq<SubjectEvidence>, from: string, to: string, n: nat)
    requires n <= |es| && RetargetRows(es[..n], from, to).Err?
    ensures RetargetRows(es, from, to) == RetargetRows(es[..n], from, to)
    decreases |es|
  {
    if n == |es| {
      assert es[..n] == es;
    } else {
      assert es[..|es| - 1][..n] == es[..n];
      RowsRefused(es[..|es| - 1], from, to, n);
    }
  }

  lemma {:induction false} KillsRefused(ks: seq<Kill>, from: string, to: string, n: nat)
    requires n <= |ks| && RetargetKills(ks[..n], from, to).Err?
    ensures RetargetKills(ks, from, to) == RetargetKills(ks[..n], from, to)
    decreases |ks|
  {
    if n == |ks| {
      assert ks[..n] == ks;
    } else {
      assert ks[..|ks| - 1][..n] == ks[..n];
      KillsRefused(ks[..|ks| - 1], from, to, n);
    }
  }

  method RetargetEvidence(es: seq<SubjectEvidence>, from: string,
          to: string) returns (r: Result<seq<SubjectEvidence>, RetargetError>)
    ensures r == RetargetRows(es, from, to)
  {
    var out := [];
    for i := 0 to |es|
      invariant RetargetRows(es[..i], from, to) == Ok(out)
    {
      assert es[..i + 1][..i] == es[..i];
      var e := RetargetRow(es[i], from, to);
      if e.Err? {
        RowsRefused(es, from, to, i + 1);
        return Err(e.error);
      }
      out := out + [e.value];
    }
    assert es[..|es|] == es;
    r := Ok(out);
  }

  method RetargetAttributions(ks: seq<Kill>, from: string, to: string) returns (r: Result<seq<Kill>, RetargetError>)
    ensures r == RetargetKills(ks, from, to)
  {
    var out := [];
    for i := 0 to |ks|
      invariant RetargetKills(ks[..i], from, to) == Ok(out)
    {
      assert ks[..i + 1][..i] == ks[..i];
      var killer := RetargetKiller(ks[i].killer, from, to);
      if killer.Err? {
        KillsRefused(ks, from, to, i + 1);
        return Err(killer.error);
      }
      out := out + [ks[i].(killer := killer.value)];
    }
    assert ks[..|ks|] == ks;
    r := Ok(out);
  }

  method RetargetFinding(f: Finding, from: string, to: string) returns (r: Result<Finding, RetargetError>)
    ensures r == RetargetedFinding(f, from, to)
  {
    var symbol := RetargetSymbol(f.symbol, from, to);
    if symbol.Err? {
      return Err(symbol.error);
    }
    var target := RetargetRow(f.targetEvidence, from, to);
    if target.Err? {
      return Err(target.error);
    }
    var oracle := RetargetEvidence(f.oracleEvidence, from, to);
    if oracle.Err? {
      return Err(oracle.error);
    }
    var kills := RetargetAttributions(f.kills, from, to);
    if kills.Err? {
      return Err(kills.error);
    }
    r := Ok(f.(symbol := Renamed(f.symbol, symbol.value), targetEvidence := target.value, oracleEvidence := oracle.value, kills := kills.value));
  }

  /** Each row of a retargeted record is its row retargeted. */
  lemma {:induction false} RowsAt(es: seq<SubjectEvidence>, from: string, to: string, i: nat)
    requires RetargetRows(es, from, to).Ok? && i < |es|
    ensures |RetargetRows(es, from, to).value| == |es| && RetargetRow(es[i], from, to) == Ok(RetargetRows(es, from, to).value[i])
  {
    var n := |es| - 1;
    if n > 0 {
      RowsAt(es[..n], from, to, if i < n then i else 0);
    }
  }

  /** A row that spells its symbol behind a recorded package. */
  predicate Packaged(e: SubjectEvidence) { Coherent(e) && e.fingerprint.proof.subjectPackage != "" }

  /** A record's packaged rows, the target's and the oracles', come through a rename coherent. */
  lemma {:induction false} RecordStaysCoherent(f: Finding, from: string, to: string)
    requires ValidPair(from, to) && RetargetedFinding(f, from, to).Ok?
    ensures var g := RetargetedFinding(f, from, to).value;
            && (Packaged(f.targetEvidence) ==> Coherent(g.targetEvidence))
            && |g.oracleEvidence| == |f.oracleEvidence|
            && (forall i :: 0 <= i < |f.oracleEvidence| && Packaged(f.oracleEvidence[i]) ==> Coherent(g.oracleEvidence[i]))
            && g.survivors == f.survivors && g.attested == f.attested && g.withdrawn == f.withdrawn
  {
    var g := RetargetedFinding(f, from, to).value;
    if Packaged(f.targetEvidence) {
      RenameKeepsCoherent(f.targetEvidence, from, to);
    }
    if f.oracleEvidence != [] {
      RowsAt(f.oracleEvidence, from, to, 0);
    }
    forall i | 0 <= i < |f.oracleEvidence| && Packaged(f.oracleEvidence[i]) ensures Coherent(g.oracleEvidence[i]) {
      RowsAt(f.oracleEvidence, from, to, i);
      RenameKeepsCoherent(f.oracleEvidence[i], from, to);
    }
  }

  // ---- the exemption record ----

  datatype Exemption = Exemption(subject: string, reason: string, rationale: string)

  function RewrittenEntry(e: Exemption, from: string, to: string): Exemption {
    match RetargetSymbol(e.subject, from, to) case Ok(r) => e.(subject := Renamed(e.subject, r)) case Err(_) => e
  }

  function AcceptanceOf(e: Exemption): (string, string) { (e.subject, e.reason) }

  ghost predicate OneAcceptanceEach(entries: seq<Exemption>) {
    forall i, j :: 0 <= i < j < |entries| ==> AcceptanceOf(entries[i]) != AcceptanceOf(entries[j])
  }

  function RewrittenEntries(entries: seq<Exemption>, from: string, to: string): (r: seq<Exemption>)
    ensures |r| == |entries| && forall i :: 0 <= i < |entries| ==> r[i] == RewrittenEntry(entries[i], from, to)
  {
    seq(|entries|, i requires 0 <= i < |entries| => RewrittenEntry(entries[i], from, to))
  }

  ghost predicate Unambiguous(entries: seq<Exemption>, from: string, to: string) {
    forall e :: e in entries ==> RetargetSymbol(e.subject, from, to).Ok?
  }

  datatype ExemptionError = AmbiguousSubject(subject: string) | Collision(subject: string)

  method RewriteExemptions(entries: seq<Exemption>, from: string,
          to: string) returns (r: Result<seq<Exemption>, ExemptionError>)
    ensures r.Ok? <==> Unambiguous(entries, from, to) && OneAcceptanceEach(RewrittenEntries(entries, from, to))
    ensures r.Ok? ==> r.value == RewrittenEntries(entries, from, to)
  {
    for i := 0 to |entries|
      invariant forall j :: 0 <= j < i ==> RetargetSymbol(entries[j].subject, from, to).Ok?
    {
      assert entries[i] in entries;
      if RetargetSymbol(entries[i].subject, from, to).Err? {
        return Err(AmbiguousSubject(entries[i].subject));
      }
    }
    var rewritten: seq<Exemption>, seen: set<(string, string)> := [], {};
    for i := 0 to |entries|
      invariant |rewritten| == i && forall j :: 0 <= j < i ==> rewritten[j] == RewrittenEntry(entries[j], from, to)
      invariant forall k :: k in seen <==> exists j :: 0 <= j < i && AcceptanceOf(rewritten[j]) == k
      invariant OneAcceptanceEach(rewritten)
    {
      var e := RewrittenEntry(entries[i], from, to);
      if AcceptanceOf(e) in seen {
        var j :| 0 <= j < i && AcceptanceOf(rewritten[j]) == AcceptanceOf(e);
        assert AcceptanceOf(RewrittenEntries(entries, from, to)[j]) == AcceptanceOf(RewrittenEntries(entries, from, to)[i]);
        return Err(Collision(e.subject));
      }
      seen := seen + {AcceptanceOf(e)};
      rewritten := rewritten + [e];
    }
    assert rewritten == RewrittenEntries(entries, from, to);
    r := Ok(rewritten);
  }

  /** Two moved subjects never meet: a collision is a moved entry meeting one the pair leaves alone. */
  lemma {:induction false} CollisionIsMovedOntoUnmoved(entries: seq<Exemption>, from: string, to: string, i: nat,
          j: nat)
    requires OneAcceptanceEach(entries) && Unambiguous(entries, from, to) && i < j < |entries|
    requires AcceptanceOf(RewrittenEntry(entries[i], from, to)) == AcceptanceOf(RewrittenEntry(entries[j], from, to))
    ensures RetargetSymbol(entries[i].subject, from, to).value.Moved? <==> RetargetSymbol(entries[j].subject, from, to).value.Same?
  {
    assert entries[i] in entries && entries[j] in entries;
    var a, b := entries[i].subject, entries[j].subject;
    assert AcceptanceOf(entries[i]) != AcceptanceOf(entries[j]);
    MovedInjective(a, b, from, to);
  }

  lemma {:induction false} MovedInjective(a: string, b: string, from: string, to: string)
    ensures from <= a && from <= b && to + a[|from|..] == to + b[|from|..] ==> a == b
  {
    if from <= a && from <= b {
      assert a == from + a[|from|..] && b == from + b[|from|..];
      assert (to + a[|from|..])[|to|..] == a[|from|..];
      assert (to + b[|from|..])[|to|..] == b[|from|..];
    }
  }
}
