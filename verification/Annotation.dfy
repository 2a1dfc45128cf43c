/**
 Cross-selection annotation: each survivor carries what the same symbol's records under other build selections
 say about its mutant, as text the validator parses back.
 */
module Annotation {
  import opened Wrappers
  import opened Sorting
  import opened SelectionText
  import opened Records

  function FirstKill(xs: seq<Kill>, key: Key): Option<Kill> {
    if xs == [] then None else if xs[0].Id() == key then Some(xs[0]) else FirstKill(xs[1..], key)
  }

  function FirstSurvivor(xs: seq<Survivor>, key: Key): Option<Survivor> {
    if xs == [] then None else if xs[0].Id() == key then Some(xs[0]) else FirstSurvivor(xs[1..], key)
  }

  function FirstAttestation(xs: seq<Attestation>, key: Key): Option<Attestation> {
    if xs == [] then None else if xs[0].Id() == key then Some(xs[0]) else FirstAttestation(xs[1..], key)
  }

  /** What another record says of a mutant: killed, attested, survived, or nothing it can answer for this site. */
  function VerdictFrom(other: Finding, key: Key, site: string): Option<SelectionVerdict> {
    match FirstKill(other.kills, key)
    case Some(k) => Some(SelectionVerdict(other.selection, KilledBy, k.killer, ""))
    case None =>
      match FirstSurvivor(other.survivors, key)
      case None => None
      case Some(s) =>
        if site != "" && s.site != "" && site != s.site then None
        else match FirstAttestation(other.attested, key)
          case Some(a) => Some(SelectionVerdict(other.selection, AttestedAs, "", a.reason))
          case None => Some(SelectionVerdict(other.selection, SurvivedThere, "", ""))
  }

  /** Records comparable with f: another selection, an admitted policy, the same mutation domain. */
  predicate Comparable(f: Finding, other: Finding) {
    other.selection != f.selection && !PolicyIssue(other) && other.bodyHash == f.bodyHash && other.operatorSet == f.operatorSet
  }

  function Verdicts(f: Finding, peers: seq<Finding>, key: Key, site: string): seq<SelectionVerdict> {
    if peers == [] then [] else
      var other := peers[|peers| - 1];
      Verdicts(f, peers[..|peers| - 1], key, site)
      + if !Comparable(f, other) then [] else match VerdictFrom(other, key, site) case None => [] case Some(v) => [v]
  }

  function BySelection(v: SelectionVerdict): string { v.selection }

  function Annotate(s: Survivor, f: Finding, peers: seq<Finding>): Survivor {
    s.(otherSelection := if PolicyIssue(f) then "" else FormatVerdicts(SortBy(Verdicts(f, peers, s.Id(), s.site), BySelection)))
  }

  function AnnotateAll(xs: seq<Survivor>, f: Finding, peers: seq<Finding>): (r: seq<Survivor>)
    ensures |r| == |xs| && forall i :: 0 <= i < |xs| ==> r[i] == Annotate(xs[i], f, peers)
  {
    seq(|xs|, i requires 0 <= i < |xs| => Annotate(xs[i], f, peers))
  }

  /** The document's measured records of one symbol, in document order. */
  function Group(doc: seq<Finding>, symbol: string): seq<Finding> {
    if doc == [] then [] else
      var f := doc[|doc| - 1];
      Group(doc[..|doc| - 1], symbol) + if f.skipped == "" && f.symbol == symbol then [f] else []
  }

  /** One record of the annotated document. A symbol with a single record keeps whatever annotation it carries. */
  function AnnotatedRecord(doc: seq<Finding>, f: Finding): Finding {
    if f.skipped != "" || |Group(doc, f.symbol)| < 2 then f
    else f.(survivors := AnnotateAll(f.survivors, f, Group(doc, f.symbol)))
  }

  function Annotated(doc: seq<Finding>): (r: seq<Finding>)
    ensures |r| == |doc| && forall i :: 0 <= i < |doc| ==> r[i] == AnnotatedRecord(doc, doc[i])
  {
    seq(|doc|, i requires 0 <= i < |doc| => AnnotatedRecord(doc, doc[i]))
  }

  // ---- the loops ----

  method SelectionVerdictFrom(other: Finding, key: Key, site: string) returns (v: Option<SelectionVerdict>)
    ensures v == VerdictFrom(other, key, site)
  {
    for i := 0 to |other.kills|
      invariant FirstKill(other.kills, key) == FirstKill(other.kills[i..], key)
    {
      if other.kills[i].Id() == key {
        return Some(SelectionVerdict(other.selection, KilledBy, other.kills[i].killer, ""));
      }
    }
    for i := 0 to |other.survivors|
      invariant FirstSurvivor(other.survivors, key) == FirstSurvivor(other.survivors[i..], key)
    {
      var s := other.survivors[i];
      if s.Id() == key {
        if site != "" && s.site != "" && site != s.site {
          return None;
        }
        for j := 0 to |other.attested|
          invariant FirstAttestation(other.attested, key) == FirstAttestation(other.attested[j..], key)
        {
          if other.attested[j].Id() == key {
            return Some(SelectionVerdict(other.selection, AttestedAs, "", other.attested[j].reason));
          }
        }
        return Some(SelectionVerdict(other.selection, SurvivedThere, "", ""));
      }
    }
    v := None;
  }

  method AnnotateSurvivors(f: Finding, peers: seq<Finding>) returns (xs: seq<Survivor>)
    ensures xs == AnnotateAll(f.survivors, f, peers)
  {
    xs := [];
    for si := 0 to |f.survivors|
      invariant |xs| == si && forall k :: 0 <= k < si ==> xs[k] == Annotate(f.survivors[k], f, peers)
    {
      var s := f.survivors[si];
      if PolicyIssue(f) {
        xs := xs + [s.(otherSelection := "")];
        continue;
      }
      var verdicts: seq<SelectionVerdict> := [];
      for pi := 0 to |peers|
        invariant verdicts == Verdicts(f, peers[..pi], s.Id(), s.site)
      {
        assert peers[..pi + 1][..pi] == peers[..pi];
        if Comparable(f, peers[pi]) {
          var v := SelectionVerdictFrom(peers[pi], s.Id(), s.site);
          if v.Some? {
            verdicts := verdicts + [v.value];
          }
        }
      }
      assert peers[..|peers|] == peers;
      xs := xs + [s.(otherSelection := FormatVerdicts(SortBy(verdicts, BySelection)))];
    }
  }

  function JoinsGroup(f: Finding, symbol: string): seq<Finding> { if f.skipped == "" && f.symbol == symbol then [f] else [] }

  lemma {:induction false} GroupLast(doc: seq<Finding>, i: nat, symbol: string)
    requires i < |doc|
    ensures Group(doc[..i + 1], symbol) == Group(doc[..i], symbol) + JoinsGroup(doc[i], symbol)
  {
    assert doc[..i + 1][..i] == doc[..i];
  }

  method GroupBySymbol(doc: seq<Finding>) returns (bySymbol: map<string, seq<Finding>>)
    ensures forall symbol :: Group(doc, symbol) == if symbol in bySymbol then bySymbol[symbol] else []
  {
    bySymbol := map[];
    for i := 0 to |doc|
      invariant forall symbol :: Group(doc[..i], symbol) == if symbol in bySymbol then bySymbol[symbol] else []
    {
      forall symbol ensures Group(doc[..i + 1], symbol) == Group(doc[..i], symbol) + JoinsGroup(doc[i], symbol) {
        GroupLast(doc, i, symbol);
      }
      var f := doc[i];
      if f.skipped == "" {
        bySymbol := bySymbol[f.symbol := (if f.symbol in bySymbol then bySymbol[f.symbol] else []) + [f]];
      }
    }
    assert doc[..|doc|] == doc;
  }

  method AnnotateRecord(f: Finding, group: seq<Finding>) returns (r: Finding)
    ensures r == if f.skipped != "" || |group| < 2 then f else f.(survivors := AnnotateAll(f.survivors, f, group))
  {
    if f.skipped != "" || |group| < 2 {
      return f;
    }
    var survivors := AnnotateSurvivors(f, group);
    r := f.(survivors := survivors);
  }

  method AnnotateSelectionVerdicts(doc: seq<Finding>) returns (out: seq<Finding>)
    ensures out == Annotated(doc)
  {
    var bySymbol := GroupBySymbol(doc);
    out := [];
    for i := 0 to |doc|
      invariant |out| == i && forall k :: 0 <= k < i ==> out[k] == AnnotatedRecord(doc, doc[k])
    {
      var group := if doc[i].symbol in bySymbol then bySymbol[doc[i].symbol] else [];
      var r := AnnotateRecord(doc[i], group);
      out := out + [r];
    }
  }

  // ---- what annotation leaves alone ----

  /** The record without its advisory cross-selection text. */
  function Bare(f: Finding): Finding {
    f.(survivors := seq(|f.survivors|, i requires 0 <= i < |f.survivors| => f.survivors[i].(otherSelection := "")))
  }

  lemma {:induction false} BareRows(f: Finding, g: Finding)
    requires Bare(f) == Bare(g)
    ensures f == g.(survivors := f.survivors)
    ensures |f.survivors| == |g.survivors|
    ensures forall i :: 0 <= i < |f.survivors| ==> f.survivors[i].(otherSelection := "") == g.survivors[i].(otherSelection := "")
  {
    assert forall i :: 0 <= i < |f.survivors| ==> Bare(f).survivors[i] == f.survivors[i].(otherSelection := "");
    assert forall i :: 0 <= i < |g.survivors| ==> Bare(g).survivors[i] == g.survivors[i].(otherSelection := "");
  }

  lemma {:induction false} AnnotatedIsBareEqual(doc: seq<Finding>, f: Finding)
    ensures Bare(AnnotatedRecord(doc, f)) == Bare(f)
    ensures SurvivorIds(AnnotatedRecord(doc, f).survivors) == SurvivorIds(f.survivors)
    ensures |AnnotatedRecord(doc, f).survivors| == |f.survivors|
    ensures AnnotatedRecord(doc, f).(survivors := f.survivors) == f
  {
    assert SurvivorIds(AnnotatedRecord(doc, f).survivors) == SurvivorIds(f.survivors);
  }

  lemma {:induction false} GroupMembers(doc: seq<Finding>, symbol: string, f: Finding)
    ensures f in Group(doc, symbol) <==> f in doc && f.skipped == "" && f.symbol == symbol
  {
    if doc != [] {
      GroupMembers(doc[..|doc| - 1], symbol, f);
      assert doc == doc[..|doc| - 1] + [doc[|doc| - 1]];
    }
  }

  ghost predicate UniqueRecords(doc: seq<Finding>) {
    forall i, j :: 0 <= i < j < |doc| ==> KeyOf(doc[i]) != KeyOf(doc[j])
  }

  lemma {:induction false} GroupSelectionsDistinct(doc: seq<Finding>, symbol: string)
    requires UniqueRecords(doc)
    ensures forall i, j :: 0 <= i < j < |Group(doc, symbol)| ==> Group(doc, symbol)[i].selection != Group(doc, symbol)[j].selection
  {
    if doc != [] {
      var n := |doc| - 1;
      GroupSelectionsDistinct(doc[..n], symbol);
      var init := Group(doc[..n], symbol);
      forall i | 0 <= i < |init| && doc[n].symbol == symbol ensures init[i].selection != doc[n].selection {
        GroupMembers(doc[..n], symbol, init[i]);
        assert init[i] in init;
        var k :| 0 <= k < n && doc[..n][k] == init[i];
        assert doc[k] == init[i];
        assert KeyOf(doc[k]) != KeyOf(doc[n]);
      }
    }
  }

  lemma {:induction false} FirstKillFinds(xs: seq<Kill>, key: Key)
    ensures FirstKill(xs, key).Some? ==> FirstKill(xs, key).value in xs && FirstKill(xs, key).value.Id() == key
  {
    if xs != [] && xs[0].Id() != key {
      FirstKillFinds(xs[1..], key);
    }
  }

  lemma {:induction false} FirstAttestationFinds(xs: seq<Attestation>, key: Key)
    ensures FirstAttestation(xs, key).Some? ==> FirstAttestation(xs, key).value in xs && FirstAttestation(xs, key).value.Id() == key
  {
    if xs != [] && xs[0].Id() != key {
      FirstAttestationFinds(xs[1..], key);
    }
  }

  /** A record whose texts the annotation can carry: caller-checkable on the record alone. */
  ghost predicate Annotatable(f: Finding) {
    && (f.selection != "" ==> ParsedKey(f.selection).Some? && Text.CutColon(f.selection).None? && SingleLine(f.selection))
    && (forall k :: k in f.kills ==> k.killer != "" && Text.TrimSpace(k.killer) == k.killer && SingleLine(k.killer))
    && (forall a :: a in f.attested ==> Text.TrimSpace(a.reason) != "" && SingleLine(a.reason))
  }

  lemma {:induction false} VerdictFromCanonical(other: Finding, key: Key, site: string)
    requires Annotatable(other)
    ensures VerdictFrom(other, key, site).Some? ==>
              CanonicalVerdict(VerdictFrom(other, key, site).value) && VerdictFrom(other, key, site).value.selection == other.selection
  {
    FirstKillFinds(other.kills, key);
    FirstAttestationFinds(other.attested, key);
  }

  lemma {:induction false} VerdictsCanonical(f: Finding, peers: seq<Finding>, key: Key, site: string)
    requires forall p :: p in peers ==> Annotatable(p)
    requires forall i, j :: 0 <= i < j < |peers| ==> peers[i].selection != peers[j].selection
    ensures forall v :: v in Verdicts(f, peers, key, site) ==>
              CanonicalVerdict(v) && v.selection != f.selection && exists p :: p in peers && p.selection == v.selection
    ensures DistinctKeys(Verdicts(f, peers, key, site), BySelection)
  {
    if peers != [] {
      var n := |peers| - 1;
      assert peers == peers[..n] + [peers[n]];
      VerdictsCanonical(f, peers[..n], key, site);
      assert peers[n] in peers;
      VerdictFromCanonical(peers[n], key, site);
      var init := Verdicts(f, peers[..n], key, site);
      forall i | 0 <= i < |init| ensures init[i].selection != peers[n].selection {
        assert init[i] in init;
        var p :| p in peers[..n] && p.selection == init[i].selection;
        var k :| 0 <= k < n && peers[..n][k] == p;
        assert peers[k].selection != peers[n].selection;
      }
      forall v | v in init ensures exists p :: p in peers && p.selection == v.selection {
        var p :| p in peers[..n] && p.selection == v.selection;
        assert p in peers;
      }
    }
  }

  /** A reason the record verbs' faces refuse but the record type admits: its annotation would not parse. */
  lemma {:induction false} BlankReasonBreaksAnnotation()
    ensures ParsedVerdicts(FormatVerdicts([SelectionVerdict("", AttestedAs, "", " ")])) != Some([SelectionVerdict("", AttestedAs, "", " ")])
  {
    var v := SelectionVerdict("", AttestedAs, "", " ");
    VerdictsRoundTrip([v]);
    assert Text.TrimLeft(" ") == Text.TrimLeft("");
    assert v in [v] && !CanonicalVerdict(v);
  }
}
