/**
 Build-selection keys and cross-selection verdicts as text: printed by one set of functions, parsed by another.
 Parsing undoes printing exactly on clean selections and canonical verdicts.
 */
module SelectionText {
  import opened Wrappers
  import opened Text
  import opened Sorting

  datatype Selection = Selection(tags: seq<string>, toolchain: string)

  /** slices.Compact: runs of equal neighbours collapse. */
  function Compact(xs: seq<string>): seq<string> {
    if |xs| <= 1 then xs
    else if xs[0] == xs[1] then Compact(xs[1..]) else [xs[0]] + Compact(xs[1..])
  }

  function CanonicalTags(tags: seq<string>): seq<string> { Compact(SortBy(tags, Itself)) }

  function Canonical(sel: Selection): Selection { Selection(CanonicalTags(sel.tags), sel.toolchain) }

  function KeyParts(sel: Selection): seq<string> {
    (if |sel.tags| > 0 then ["tags:" + Join(CanonicalTags(sel.tags), ',')] else [])
    + if sel.toolchain != "" then ["toolchain:" + sel.toolchain] else []
  }

  function SelectionKey(sel: Selection): string { Join(KeyParts(sel), ';') }

  predicate ValidTag(t: string) { t != "" && TrimSpace(t) == t }

  /** One part of a key read into the selection so far; None refuses the key. */
  function ReadPart(sel: Selection, part: string): Option<Selection> {
    if "tags:" <= part then
      var raw := part[5..];
      if |sel.tags| > 0 || raw == "" then None
      else
        var tags := Split(raw, ',');
        if forall t :: t in tags ==> ValidTag(t) then Some(sel.(tags := tags)) else None
    else if "toolchain:" <= part then
      var tc := part[10..];
      if sel.toolchain != "" || tc == "" || TrimSpace(tc) != tc then None else Some(sel.(toolchain := tc))
    else None
  }

  function ReadParts(parts: seq<string>): Option<Selection> {
    if parts == [] then Some(Selection([], "")) else
      match ReadParts(parts[..|parts| - 1])
      case None => None
      case Some(sel) => ReadPart(sel, parts[|parts| - 1])
  }

  /** The parsed selection of a canonical key; None for a malformed or non-canonical one. */
  function ParsedKey(s: string): Option<Selection> {
    if s == "" then Some(Selection([], "")) else
      match ReadParts(Split(s, ';'))
      case None => None
      case Some(sel) => if SelectionKey(sel) == s then Some(sel) else None
  }

  method ParseSelectionKey(s: string) returns (r: Option<Selection>)
    ensures r == ParsedKey(s)
  {
    if s == "" {
      return Some(Selection([], ""));
    }
    var parts := Split(s, ';');
    var sel := Selection([], "");
    for i := 0 to |parts|
      invariant ReadParts(parts[..i]) == Some(sel)
    {
      assert parts[..i + 1][..i] == parts[..i];
      var part := parts[i];
      var next := ReadKeyPart(sel, part);
      if next.None? {
        RefusedPrefix(parts, i + 1);
        return None;
      }
      sel := next.value;
    }
    assert parts[..|parts|] == parts;
    r := if SelectionKey(sel) == s then Some(sel) else None;
  }

  method ReadKeyPart(sel: Selection, part: string) returns (r: Option<Selection>)
    ensures r == ReadPart(sel, part)
  {
    if "tags:" <= part {
      if |sel.tags| > 0 {
        return None;
      }
      var raw := part[5..];
      if raw == "" {
        return None;
      }
      var tags := Split(raw, ',');
      for i := 0 to |tags|
        invariant forall j :: 0 <= j < i ==> ValidTag(tags[j])
      {
        if tags[i] == "" || TrimSpace(tags[i]) != tags[i] {
          assert tags[i] in tags && !ValidTag(tags[i]);
          return None;
        }
      }
      return Some(sel.(tags := tags));
    }
    if "toolchain:" <= part {
      if sel.toolchain != "" {
        return None;
      }
      var tc := part[10..];
      if tc == "" || TrimSpace(tc) != tc {
        return None;
      }
      return Some(sel.(toolchain := tc));
    }
    r := None;
  }

  lemma {:induction false} RefusedPrefix(parts: seq<string>, n: nat)
    requires n <= |parts| && ReadParts(parts[..n]).None?
    ensures ReadParts(parts).None?
    decreases |parts| - n
  {
    if n == |parts| {
      assert parts[..n] == parts;
    } else {
      assert parts[..n + 1][..n] == parts[..n];
      RefusedPrefix(parts, n + 1);
    }
  }

  // ---- keys ----

  /** A selection the printer can be undone on: trimmed tags free of both separators, a trimmed toolchain free of the outer one. */
  ghost predicate Clean(sel: Selection) {
    && (forall t :: t in sel.tags ==> ValidTag(t) && ',' !in t && ';' !in t)
    && TrimSpace(sel.toolchain) == sel.toolchain && ';' !in sel.toolchain
  }

  lemma {:induction false} CompactMembers(xs: seq<string>)
    ensures forall x :: x in Compact(xs) <==> x in xs
    ensures Compact(xs) == [] <==> xs == []
  {
    if |xs| > 1 {
      CompactMembers(xs[1..]);
      assert xs == [xs[0]] + xs[1..];
    }
  }

  lemma {:induction false} CompactStrict(xs: seq<string>)
    requires Ascending(xs, Itself)
    ensures StrictlyAscending(Compact(xs), Itself)
    ensures xs != [] ==> Compact(xs) != [] && Compact(xs)[0] == xs[0]
  {
    if |xs| > 1 {
      forall i, j | 0 <= i < j < |xs[1..]| ensures AtMost(Itself(xs[1..][i]), Itself(xs[1..][j])) {
        assert AtMost(Itself(xs[i + 1]), Itself(xs[j + 1]));
      }
      CompactStrict(xs[1..]);
      if xs[0] != xs[1] {
        var rest := Compact(xs[1..]);
        assert AtMost(Itself(xs[0]), Itself(xs[1]));
        forall j | 0 < j < |rest| ensures Less(xs[0], rest[j]) {
          assert Less(Itself(rest[0]), Itself(rest[j]));
          LessTransitive(xs[0], rest[0], rest[j]);
        }
      }
    }
  }

  lemma {:induction false} CanonicalTagsFacts(tags: seq<string>)
    ensures forall t :: t in CanonicalTags(tags) <==> t in tags
    ensures StrictlyAscending(CanonicalTags(tags), Itself)
    ensures CanonicalTags(tags) == [] <==> tags == []
  {
    SortBySorts(tags, Itself);
    SortByMembers(tags, Itself);
    CompactMembers(SortBy(tags, Itself));
    CompactStrict(SortBy(tags, Itself));
  }

  lemma {:induction false} CanonicalTagsIdempotent(tags: seq<string>)
    ensures CanonicalTags(CanonicalTags(tags)) == CanonicalTags(tags)
  {
    CanonicalTagsFacts(tags);
    CanonicalTagsFacts(CanonicalTags(tags));
    SortedUnique(CanonicalTags(CanonicalTags(tags)), CanonicalTags(tags), Itself);
  }

  lemma {:induction false} KeyPartsHaveNoSemicolon(sel: Selection)
    requires Clean(sel)
    ensures forall p :: p in KeyParts(sel) ==> ';' !in p
  {
    CanonicalTagsFacts(sel.tags);
    JoinChars(CanonicalTags(sel.tags), ',', ';');
  }

  lemma {:induction false} ReadKeyParts(sel: Selection)
    requires Clean(sel)
    ensures ReadParts(KeyParts(sel)) == Some(Canonical(sel))
  {
    CanonicalTagsFacts(sel.tags);
    var tags, parts := CanonicalTags(sel.tags), KeyParts(sel);
    assert ReadParts([]) == Some(Selection([], ""));
    if |sel.tags| > 0 {
      ReadTagsPart(tags);
      assert ["tags:" + Join(tags, ',')][..0] == [];
    }
    if sel.toolchain != "" {
      ReadToolchainPart(Selection(tags, ""), sel.toolchain);
      assert parts[|parts| - 1] == "toolchain:" + sel.toolchain;
      assert parts[..|parts| - 1] == if |sel.tags| > 0 then ["tags:" + Join(tags, ',')] else [];
    }
  }

  lemma {:induction false} ReadTagsPart(tags: seq<string>)
    requires tags != [] && StrictlyAscending(tags, Itself) && forall t :: t in tags ==> ValidTag(t) && ',' !in t
    ensures ReadPart(Selection([], ""), "tags:" + Join(tags, ',')) == Some(Selection(tags, ""))
  {
    var part := "tags:" + Join(tags, ',');
    assert part[..5] == "tags:" && part[5..] == Join(tags, ',');
    SplitJoin(tags, ',');
    assert tags[0] in tags && |Join(tags, ',')| > 0;
  }

  lemma {:induction false} ReadToolchainPart(tagged: Selection, toolchain: string)
    requires tagged.toolchain == "" && toolchain != "" && TrimSpace(toolchain) == toolchain && ';' !in toolchain
    ensures ReadPart(tagged, "toolchain:" + toolchain) == Some(tagged.(toolchain := toolchain))
  {
    var part := "toolchain:" + toolchain;
    assert part[..10] == "toolchain:" && part[10..] == toolchain && part[1] == 'o';
  }

  /** What the parser accepts is clean: its parts cannot hold the separators they were split at. */
  lemma {:induction false} ReadPartsClean(parts: seq<string>)
    requires forall p :: p in parts ==> ';' !in p
    ensures ReadParts(parts).Some? ==> Clean(ReadParts(parts).value)
  {
    if parts != [] {
      ReadPartsClean(parts[..|parts| - 1]);
      var part := parts[|parts| - 1];
      assert part in parts;
      if "tags:" <= part {
        SplitParts(part[5..], ',');
        assert forall c :: c in part[5..] ==> c in part;
      }
    } else {
      assert TrimSpace("") == "";
    }
  }

  /** Parsing a printed key gives back the sorted, deduplicated selection exactly when the selection is clean. */
  lemma {:induction false} SelectionKeyRoundTrip(sel: Selection)
    ensures ParsedKey(SelectionKey(sel)) == Some(Canonical(sel)) <==> Clean(sel)
  {
    if Clean(sel) {
      CleanKeyReads(sel);
    }
    if ParsedKey(SelectionKey(sel)) == Some(Canonical(sel)) {
      ReadKeyIsClean(sel);
    }
  }

  lemma {:induction false} CleanKeyReads(sel: Selection)
    requires Clean(sel)
    ensures ParsedKey(SelectionKey(sel)) == Some(Canonical(sel))
  {
    CanonicalTagsFacts(sel.tags);
    KeyNonEmpty(sel);
    if KeyParts(sel) != [] {
      KeyPartsHaveNoSemicolon(sel);
      SplitJoin(KeyParts(sel), ';');
      ReadKeyParts(sel);
      CanonicalTagsIdempotent(sel.tags);
      assert KeyParts(Canonical(sel)) == KeyParts(sel);
    }
  }

  lemma {:induction false} ReadKeyIsClean(sel: Selection)
    requires ParsedKey(SelectionKey(sel)) == Some(Canonical(sel))
    ensures Clean(sel)
  {
    var s := SelectionKey(sel);
    CanonicalTagsFacts(sel.tags);
    KeyNonEmpty(sel);
    if s == "" {
      assert TrimSpace("") == "";
    } else {
      SplitParts(s, ';');
      ReadPartsClean(Split(s, ';'));
      assert Clean(Canonical(sel));
    }
  }

  lemma {:induction false} KeyNonEmpty(sel: Selection)
    ensures SelectionKey(sel) == "" <==> KeyParts(sel) == []
  {
    var parts := KeyParts(sel);
    if |parts| > 0 {
      assert |parts[0]| > 0;
    }
  }

  /** A comma in a tag prints another selection's key. */
  lemma {:induction false} CommaTagSharesKey()
    ensures SelectionKey(Selection(["a,b"], "")) == SelectionKey(Selection(["a", "b"], ""))
    ensures ParsedKey(SelectionKey(Selection(["a,b"], ""))) == Some(Selection(["a", "b"], ""))
  {
    var pair := Selection(["a", "b"], "");
    OneTag("a,b");
    TwoTags();
    assert Join(["a", "b"], ',') == "a,b";
    assert KeyParts(pair) == ["tags:" + "a,b"];
    CommaFree();
    CleanKeyReads(pair);
  }

  lemma {:induction false} CommaFree()
    ensures Clean(Selection(["a", "b"], ""))
  {
    assert TrimSpace("a") == "a" && TrimSpace("b") == "b" && TrimSpace("") == "";
  }

  /** A semicolon in a tag or a toolchain prints what no key is. */
  lemma {:induction false} SemicolonKeyRefused()
    ensures ParsedKey(SelectionKey(Selection(["a;b"], ""))).None?
    ensures ParsedKey(SelectionKey(Selection([], "go1;x"))).None?
  {
    OneTag("a;b");
    SplitRefused("tags:a", "b");
    SplitRefused("toolchain:go1", "x");
    assert "tags:" + "a;b" == "tags:a" + [';'] + "b";
    assert SelectionKey(Selection([], "go1;x")) == "toolchain:go1" + [';'] + "x";
  }

  lemma {:induction false} OneTag(t: string)
    ensures CanonicalTags([t]) == [t] && SelectionKey(Selection([t], "")) == "tags:" + t
  {
    CanonicalTagsFacts([t]);
    SortedUnique(CanonicalTags([t]), [t], Itself);
  }

  lemma {:induction false} TwoTags()
    ensures CanonicalTags(["a", "b"]) == ["a", "b"]
  {
    CanonicalTagsFacts(["a", "b"]);
    assert Less("a", "b");
    SortedUnique(CanonicalTags(["a", "b"]), ["a", "b"], Itself);
  }

  /** No part of a key starts with neither of the two markers. */
  lemma {:induction false} SplitRefused(head: string, tail: string)
    requires ';' !in head && ';' !in tail && tail != "" && |tail| < 5
    ensures ParsedKey(head + [';'] + tail).None?
  {
    SplitAfter(head, tail, ';');
    SplitAfter(tail, "", ';');
    assert ([head] + [tail])[..1] == [head];
  }

  // ---- verdicts ----

  datatype VerdictKind = KilledBy | AttestedAs | SurvivedThere | OtherWord(word: string)

  datatype SelectionVerdict = SelectionVerdict(selection: string, kind: VerdictKind, killer: string, reason: string)

  function SelectionName(sel: string): string { if sel == "" then "default" else sel }

  function DispositionText(v: SelectionVerdict): string {
    match v.kind
    case KilledBy => "killed by " + v.killer
    case AttestedAs => "attested (" + v.reason + ")"
    case _ => "survived"
  }

  function FormatVerdict(v: SelectionVerdict): string { SelectionName(v.selection) + ": " + DispositionText(v) }

  function FormatLines(vs: seq<SelectionVerdict>): (lines: seq<string>)
    ensures |lines| == |vs| && forall i :: 0 <= i < |vs| ==> lines[i] == FormatVerdict(vs[i])
  {
    seq(|vs|, i requires 0 <= i < |vs| => FormatVerdict(vs[i]))
  }

  function FormatVerdicts(vs: seq<SelectionVerdict>): string {
    if vs == [] then "" else Join(FormatLines(vs), '\n')
  }

  /** The disposition half of a verdict line, under a selection already read. */
  function ReadDisposition(sel: string, rest: string): Option<SelectionVerdict> {
    if rest == "survived" then Some(SelectionVerdict(sel, SurvivedThere, "", ""))
    else if "killed by " <= rest then
      var killer := rest[10..];
      if killer == "" || TrimSpace(killer) != killer then None else Some(SelectionVerdict(sel, KilledBy, killer, ""))
    else if "attested (" <= rest && rest[|rest| - 1] == ')' then
      var reason := rest[10..|rest| - 1];
      if TrimSpace(reason) == "" then None else Some(SelectionVerdict(sel, AttestedAs, "", reason))
    else None
  }

  function ReadVerdict(line: string): Option<SelectionVerdict> {
    match CutColon(line)
    case None => None
    case Some(cut) =>
      if cut.0 == "" || cut.1 == "" then None
      else if cut.0 == "default" then ReadDisposition("", cut.1)
      else if ParsedKey(cut.0).None? then None
      else ReadDisposition(cut.0, cut.1)
  }

  function ReadVerdicts(lines: seq<string>): Option<seq<SelectionVerdict>> {
    if lines == [] then Some([]) else
      match ReadVerdicts(lines[..|lines| - 1])
      case None => None
      case Some(vs) =>
        match ReadVerdict(lines[|lines| - 1])
        case None => None
        case Some(v) => Some(vs + [v])
  }

  function ParsedVerdicts(raw: string): Option<seq<SelectionVerdict>> {
    if raw == "" then Some([]) else ReadVerdicts(Split(raw, '\n'))
  }

  method ParseSelectionVerdicts(raw: string) returns (r: Option<seq<SelectionVerdict>>)
    ensures r == ParsedVerdicts(raw)
  {
    if raw == "" {
      return Some([]);
    }
    var lines := Split(raw, '\n');
    var out: seq<SelectionVerdict> := [];
    for i := 0 to |lines|
      invariant ReadVerdicts(lines[..i]) == Some(out)
    {
      assert lines[..i + 1][..i] == lines[..i];
      var v := ReadVerdict(lines[i]);
      if v.None? {
        RefusedLines(lines, i + 1);
        return None;
      }
      out := out + [v.value];
    }
    assert lines[..|lines|] == lines;
    r := Some(out);
  }

  lemma {:induction false} RefusedLines(lines: seq<string>, n: nat)
    requires n <= |lines| && ReadVerdicts(lines[..n]).None?
    ensures ReadVerdicts(lines).None?
    decreases |lines| - n
  {
    if n == |lines| {
      assert lines[..n] == lines;
    } else {
      assert lines[..n + 1][..n] == lines[..n];
      RefusedLines(lines, n + 1);
    }
  }

  predicate SingleLine(s: string) { '\n' !in s }

  /** A verdict the printer can be undone on, checkable on the verdict alone. */
  ghost predicate CanonicalVerdict(v: SelectionVerdict) {
    && (v.selection != "" ==> ParsedKey(v.selection).Some? && CutColon(v.selection).None? && SingleLine(v.selection))
    && match v.kind
       case KilledBy => v.killer != "" && TrimSpace(v.killer) == v.killer && SingleLine(v.killer) && v.reason == ""
       case AttestedAs => v.killer == "" && TrimSpace(v.reason) != "" && SingleLine(v.reason)
       case SurvivedThere => v.killer == "" && v.reason == ""
       case OtherWord(_) => false
  }

  lemma {:induction false} DefaultIsNoKey()
    ensures ParsedKey("default").None?
  {
    SplitAfter("default", "", ';');
    assert ["default"][..0] == [];
    assert "default"[0] == 'd' && "tags:"[0] == 't' && "toolchain:"[0] == 't';
  }

  lemma {:induction false} ReadDispositionText(v: SelectionVerdict)
    requires CanonicalVerdict(v)
    ensures SingleLine(DispositionText(v)) && DispositionText(v) != ""
    ensures ReadDisposition(v.selection, DispositionText(v)) == Some(v)
  {
    var rest := DispositionText(v);
    match v.kind {
      case KilledBy =>
        assert rest[..10] == "killed by " && rest[10..] == v.killer && rest[0] == 'k';
      case AttestedAs =>
        assert rest[..10] == "attested (" && rest[10..|rest| - 1] == v.reason && rest[0] == 'a';
      case SurvivedThere =>
    }
  }

  lemma {:induction false} NoColonNoCut(s: string)
    requires ':' !in s
    ensures CutColon(s).None?
  {
    if |s| >= 2 {
      assert s[0] in s;
      NoColonNoCut(s[1..]);
    }
  }

  lemma {:induction false} SingleLineConcat(a: string, b: string)
    requires SingleLine(a) && SingleLine(b)
    ensures SingleLine(a + b)
  {
  }

  lemma {:induction false} VerdictLine(v: SelectionVerdict)
    requires CanonicalVerdict(v)
    ensures SingleLine(FormatVerdict(v)) && FormatVerdict(v) != ""
    ensures ReadVerdict(FormatVerdict(v)) == Some(v)
  {
    ReadDispositionText(v);
    NameIsPlain(v);
    CutAfter(SelectionName(v.selection), DispositionText(v));
    SingleLineConcat(SelectionName(v.selection), ": ");
    SingleLineConcat(SelectionName(v.selection) + ": ", DispositionText(v));
  }

  /** The name a canonical verdict prints for its selection reads back as that selection. */
  lemma {:induction false} NameIsPlain(v: SelectionVerdict)
    requires CanonicalVerdict(v)
    ensures var name := SelectionName(v.selection); CutColon(name).None? && SingleLine(name) && name != ""
    ensures var name := SelectionName(v.selection); (name == "default" <==> v.selection == "") && (v.selection != "" ==> name == v.selection)
  {
    DefaultIsNoKey();
    NoColonNoCut("default");
  }

  lemma {:induction false} FormatLinesInit(vs: seq<SelectionVerdict>)
    requires vs != []
    ensures FormatLines(vs) == FormatLines(vs[..|vs| - 1]) + [FormatVerdict(vs[|vs| - 1])]
    ensures vs == vs[..|vs| - 1] + [vs[|vs| - 1]] && vs[|vs| - 1] in vs
  {
  }

  lemma {:induction false} ReadFormatted(vs: seq<SelectionVerdict>)
    requires forall v :: v in vs ==> CanonicalVerdict(v)
    ensures ReadVerdicts(FormatLines(vs)) == Some(vs)
  {
    if vs != [] {
      var n := |vs| - 1;
      ReadFormatted(vs[..n]);
      FormatLinesInit(vs);
      VerdictLine(vs[n]);
    }
  }

  lemma {:induction false} ReadVerdictCanonical(line: string)
    requires SingleLine(line) && ReadVerdict(line).Some?
    ensures CanonicalVerdict(ReadVerdict(line).value)
  {
    CutParts(line);
    var cut := CutColon(line).value;
    assert forall c :: c in cut.0 || c in cut.1 ==> c in line;
    assert forall i, j :: 0 <= i <= j <= |cut.1| ==> forall c :: c in cut.1[i..j] ==> c in cut.1;
    assert forall i :: 0 <= i <= |cut.1| ==> forall c :: c in cut.1[i..] ==> c in cut.1;
  }

  lemma {:induction false} ReadVerdictsCanonical(lines: seq<string>)
    requires forall l :: l in lines ==> SingleLine(l)
    ensures ReadVerdicts(lines).Some? ==> forall v :: v in ReadVerdicts(lines).value ==> CanonicalVerdict(v)
  {
    if lines != [] {
      ReadVerdictsCanonical(lines[..|lines| - 1]);
      assert lines[|lines| - 1] in lines;
      if ReadVerdict(lines[|lines| - 1]).Some? {
        ReadVerdictCanonical(lines[|lines| - 1]);
      }
    }
  }

  /** Parsing printed verdicts gives them back exactly when every one of them is canonical. */
  lemma {:induction false} VerdictsRoundTrip(vs: seq<SelectionVerdict>)
    ensures ParsedVerdicts(FormatVerdicts(vs)) == Some(vs) <==> forall v :: v in vs ==> CanonicalVerdict(v)
  {
    var lines := FormatLines(vs);
    if (forall v :: v in vs ==> CanonicalVerdict(v)) && vs != [] {
      ReadFormatted(vs);
      forall l | l in lines ensures SingleLine(l) && l != "" {
        var i :| 0 <= i < |lines| && lines[i] == l;
        assert vs[i] in vs;
        VerdictLine(vs[i]);
      }
      SplitJoin(lines, '\n');
      assert lines[0] in lines;
    }
    if ParsedVerdicts(FormatVerdicts(vs)) == Some(vs) && vs != [] {
      var raw := FormatVerdicts(vs);
      SplitParts(raw, '\n');
      ReadVerdictsCanonical(Split(raw, '\n'));
    }
  }
}
