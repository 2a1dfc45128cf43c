/**
 A run's document side: its contradictions, site sheds, commit sheds and the final merge's residue, each shed
 mutant told once, the first report winning, and nothing told of a write that failed.
 */
module RunLedger {
  import opened Wrappers
  import opened Records
  import opened Dispositions
  import opened Annotation
  import opened Merging

  /** The key the ledger reports a mutant under. */
  function MutantKey(symbol: string, position: string, operator: string): string { symbol + "\0" + position + "\0" + operator }

  function ShedKey(d: AttestationShed): string { MutantKey(d.symbol, d.position, d.operator) }

  /** Keys collide only where a symbol or a position holds the separator. */
  lemma {:induction false} MutantKeyInjective(symbol: string, position: string, operator: string, symbol': string,
          position': string, operator': string)
    requires '\0' !in symbol && '\0' !in symbol' && '\0' !in position && '\0' !in position'
    requires MutantKey(symbol, position, operator) == MutantKey(symbol', position', operator')
    ensures symbol == symbol' && position == position' && operator == operator'
  {
    assert MutantKey(symbol, position, operator) == symbol + "\0" + (position + "\0" + operator);
    assert MutantKey(symbol', position', operator') == symbol' + "\0" + (position' + "\0" + operator');
    SeparatedHead(symbol, position + "\0" + operator, symbol', position' + "\0" + operator');
    SeparatedHead(position, operator, position', operator');
  }

  lemma {:induction false} SeparatedHead(head: string, tail: string, head': string, tail': string)
    requires '\0' !in head && '\0' !in head' && head + "\0" + tail == head' + "\0" + tail'
    ensures head == head' && tail == tail'
  {
    var s := head + "\0" + tail;
    assert s[|head|] == '\0' && s[|head'|] == '\0';
    assert forall i :: 0 <= i < |head| ==> s[i] == head[i];
    assert forall i :: 0 <= i < |head'| ==> s[i] == head'[i];
    assert |head| == |head'|;
    assert head == s[..|head|] == head';
    assert tail == s[|head| + 1..] == tail';
  }

  // ---- the fates told so far ----

  /** told is what the face received through its shed callback, in order. */
  datatype Fates = Fates(reported: set<string>, sheds: seq<AttestationShed>, told: seq<AttestationShed>)

  function Delivered(s: Fates, d: AttestationShed, listening: bool): Fates {
    if ShedKey(d) in s.reported then s
    else s.(reported := s.reported + {ShedKey(d)}, told := if listening then s.told + [d] else s.told)
  }

  function DeliveredAll(s: Fates, ds: seq<AttestationShed>, listening: bool): Fates {
    if ds == [] then s else Delivered(DeliveredAll(s, ds[..|ds| - 1], listening), ds[|ds| - 1], listening)
  }

  /** What a run reports before its final merge, in order; a commit whose write failed reports nothing. */
  datatype Report = Contradicts(key: string) | SiteSheds(d: AttestationShed) | CommitSheds(ds: seq<AttestationShed>)

  function After(s: Fates, r: Report, listening: bool): Fates {
    match r
    case Contradicts(key) => s.(reported := s.reported + {key})
    case SiteSheds(d) => Delivered(s.(sheds := s.sheds + [d]), d, listening)
    case CommitSheds(ds) => DeliveredAll(s.(sheds := s.sheds + ds), ds, listening)
  }

  function AfterAll(reports: seq<Report>, listening: bool): Fates {
    if reports == [] then Fates({}, [], []) else After(AfterAll(reports[..|reports| - 1], listening), reports[|reports| - 1], listening)
  }

  // ---- the final merge's residue ----

  function FirstShed(ds: seq<AttestationShed>, key: string): Option<AttestationShed> {
    if ds == [] then None
    else
      var earlier := FirstShed(ds[..|ds| - 1], key);
      if earlier.Some? then earlier else if ShedKey(ds[|ds| - 1]) == key then Some(ds[|ds| - 1]) else None
  }

  /** Each mutant's first report. */
  function Deduped(ds: seq<AttestationShed>): seq<AttestationShed> {
    if ds == [] then [] else
      var d := ds[|ds| - 1];
      Deduped(ds[..|ds| - 1]) + if FirstShed(ds[..|ds| - 1], ShedKey(d)).Some? then [] else [d]
  }

  function Unreported(ds: seq<AttestationShed>, reported: set<string>): seq<AttestationShed> {
    if ds == [] then [] else
      Unreported(ds[..|ds| - 1], reported) + if ShedKey(ds[|ds| - 1]) in reported then [] else [ds[|ds| - 1]]
  }

  function ResidueOf(s: Fates, finals: seq<AttestationShed>): seq<AttestationShed> {
    Unreported(Deduped(s.sheds + finals), s.reported)
  }

  method DedupeAttestationSheds(ds: seq<AttestationShed>) returns (out: seq<AttestationShed>)
    ensures out == Deduped(ds)
  {
    var seen: set<string> := {};
    out := [];
    for i := 0 to |ds|
      invariant out == Deduped(ds[..i])
      invariant forall key :: key in seen <==> FirstShed(ds[..i], key).Some?
    {
      assert ds[..i + 1][..i] == ds[..i];
      var key := ShedKey(ds[i]);
      if key in seen {
        continue;
      }
      seen := seen + {key};
      out := out + [ds[i]];
    }
    assert ds[..|ds|] == ds;
  }

  // ---- one mutant's line ----

  /** The rows of a report list that name one mutant. */
  function Lines(ds: seq<AttestationShed>, key: string): seq<AttestationShed> {
    if ds == [] then [] else
      Lines(ds[..|ds| - 1], key) + if ShedKey(ds[|ds| - 1]) == key then [ds[|ds| - 1]] else []
  }

  datatype Mention = ByContradiction | ByShed(d: AttestationShed)

  function MentionIn(r: Report, key: string): Option<Mention> {
    match r
    case Contradicts(k) => if k == key then Some(ByContradiction) else None
    case SiteSheds(d) => if ShedKey(d) == key then Some(ByShed(d)) else None
    case CommitSheds(ds) => match FirstShed(ds, key) case None => None case Some(d) => Some(ByShed(d))
  }

  function FirstMention(reports: seq<Report>, key: string): Option<Mention> {
    if reports == [] then None else
      var earlier := FirstMention(reports[..|reports| - 1], key);
      if earlier.Some? then earlier else MentionIn(reports[|reports| - 1], key)
  }

  function Line(m: Option<AttestationShed>): seq<AttestationShed> { match m case None => [] case Some(d) => [d] }

  lemma {:induction false} LinesConcat(xs: seq<AttestationShed>, ys: seq<AttestationShed>, key: string)
    ensures Lines(xs + ys, key) == Lines(xs, key) + Lines(ys, key)
  {
    if ys == [] {
      assert xs + ys == xs;
    } else {
      LinesConcat(xs, ys[..|ys| - 1], key);
      assert (xs + ys)[..|xs + ys| - 1] == xs + ys[..|ys| - 1];
    }
  }

  lemma {:induction false} LinesAppend(xs: seq<AttestationShed>, d: AttestationShed, key: string)
    ensures Lines(xs + [d], key) == Lines(xs, key) + if ShedKey(d) == key then [d] else []
  {
    assert (xs + [d])[..|xs|] == xs;
  }

  lemma {:induction false} FirstShedConcat(xs: seq<AttestationShed>, ys: seq<AttestationShed>, key: string)
    ensures FirstShed(xs + ys, key) == if FirstShed(xs, key).Some? then FirstShed(xs, key) else FirstShed(ys, key)
  {
    if ys == [] {
      assert xs + ys == xs;
    } else {
      FirstShedConcat(xs, ys[..|ys| - 1], key);
      assert (xs + ys)[..|xs + ys| - 1] == xs + ys[..|ys| - 1];
    }
  }

  lemma {:induction false} DeliveredAt(s: Fates, d: AttestationShed, listening: bool, key: string)
    ensures var s' := Delivered(s, d, listening);
            && s'.sheds == s.sheds
            && (key in s'.reported <==> key in s.reported || ShedKey(d) == key)
            && Lines(s'.told, key) == Lines(s.told, key) + if listening && key !in s.reported && ShedKey(d) == key then [d] else []
  {
    LinesAppend(s.told, d, key);
    assert Lines(s.told, key) + [] == Lines(s.told, key);
  }

  lemma {:induction false} DeliveredAllAt(s: Fates, ds: seq<AttestationShed>, listening: bool, key: string)
    ensures var s' := DeliveredAll(s, ds, listening);
            && s'.sheds == s.sheds
            && (key in s'.reported <==> key in s.reported || FirstShed(ds, key).Some?)
            && Lines(s'.told, key) == Lines(s.told, key) + if listening && key !in s.reported then Line(FirstShed(ds, key)) else []
  {
    if ds == [] {
      assert Lines(s.told, key) + [] == Lines(s.told, key);
    } else {
      DeliveredAllAt(s, ds[..|ds| - 1], listening, key);
      DeliveredAt(DeliveredAll(s, ds[..|ds| - 1], listening), ds[|ds| - 1], listening, key);
    }
  }

  /** Before the final merge, a mutant is reported exactly when mentioned, and its line is its first mention's shed. */
  lemma {:induction false} ToldSoFar(reports: seq<Report>, listening: bool, key: string)
    ensures var s, first := AfterAll(reports, listening), FirstMention(reports, key);
            && (key in s.reported <==> first.Some?)
            && (FirstShed(s.sheds, key).Some? ==> first.Some?)
            && Lines(s.told, key) == if listening && first.Some? && first.value.ByShed? then [first.value.d] else []
  {
    if reports != [] {
      var init, r := reports[..|reports| - 1], reports[|reports| - 1];
      ToldSoFar(init, listening, key);
      var s := AfterAll(init, listening);
      match r {
        case Contradicts(k) =>
        case SiteSheds(d) =>
          DeliveredAt(s.(sheds := s.sheds + [d]), d, listening, key);
          FirstShedConcat(s.sheds, [d], key);
          assert [d][..0] == [];
        case CommitSheds(ds) =>
          DeliveredAllAt(s.(sheds := s.sheds + ds), ds, listening, key);
          FirstShedConcat(s.sheds, ds, key);
      }
    }
  }

  lemma {:induction false} DedupedLines(ds: seq<AttestationShed>, key: string)
    ensures Lines(Deduped(ds), key) == Line(FirstShed(ds, key))
  {
    if ds != [] {
      var init, d := ds[..|ds| - 1], ds[|ds| - 1];
      DedupedLines(init, key);
      if FirstShed(init, ShedKey(d)).None? {
        LinesAppend(Deduped(init), d, key);
      } else {
        assert Deduped(ds) == Deduped(init);
      }
    }
  }

  lemma {:induction false} UnreportedLines(ds: seq<AttestationShed>, reported: set<string>, key: string)
    ensures Lines(Unreported(ds, reported), key) == if key in reported then [] else Lines(ds, key)
  {
    if ds != [] {
      var init, d := ds[..|ds| - 1], ds[|ds| - 1];
      UnreportedLines(init, reported, key);
      if ShedKey(d) !in reported {
        LinesAppend(Unreported(init, reported), d, key);
      } else {
        assert Unreported(ds, reported) == Unreported(init, reported);
      }
    }
  }

  /**
   Each shed is told exactly once: over a whole run, a mutant's lines across the callback and the residue are its
   first shed alone, and none when a contradiction for it came first.
   */
  lemma {:induction false} ToldExactlyOnce(reports: seq<Report>, finals: seq<AttestationShed>, key: string)
    ensures var s := AfterAll(reports, true);
            Lines(s.told + ResidueOf(s, finals), key)
              == match FirstMention(reports, key)
                 case Some(ByContradiction) => []
                 case Some(ByShed(d)) => [d]
                 case None => Line(FirstShed(finals, key))
  {
    var s := AfterAll(reports, true);
    ToldSoFar(reports, true, key);
    LinesConcat(s.told, ResidueOf(s, finals), key);
    UnreportedLines(Deduped(s.sheds + finals), s.reported, key);
    DedupedLines(s.sheds + finals, key);
    FirstShedConcat(s.sheds, finals, key);
  }

  /** A face without a callback: a mutant shed before the final merge is marked reported and told nowhere. */
  lemma {:induction false} UnheardSheds(reports: seq<Report>, finals: seq<AttestationShed>, key: string)
    ensures var s := AfterAll(reports, false);
            Lines(s.told + ResidueOf(s, finals), key)
              == if FirstMention(reports, key).Some? then [] else Line(FirstShed(finals, key))
  {
    var s := AfterAll(reports, false);
    ToldSoFar(reports, false, key);
    LinesConcat(s.told, ResidueOf(s, finals), key);
    UnreportedLines(Deduped(s.sheds + finals), s.reported, key);
    DedupedLines(s.sheds + finals, key);
    FirstShedConcat(s.sheds, finals, key);
  }

  lemma {:induction false} OneCommit(d: AttestationShed, listening: bool)
    ensures AfterAll([CommitSheds([d])], listening) == Fates({ShedKey(d)}, [d], if listening then [d] else [])
  {
    var start := Fates({}, [d], []);
    assert [CommitSheds([d])][..0] == [] && [d][..0] == [];
    assert AfterAll([], listening) == Fates({}, [], []) && [] + [d] == [d];
    assert After(Fates({}, [], []), CommitSheds([d]), listening) == DeliveredAll(start, [d], listening);
    assert DeliveredAll(start, [], listening) == start;
    assert DeliveredAll(start, [d], listening) == Delivered(start, d, listening);
  }

  /** One commit's shed and nothing more: told once through a callback, and told nowhere without one. */
  lemma {:induction false} CommitShedGoesUnheard(d: AttestationShed)
    ensures var s := AfterAll([CommitSheds([d])], false); s.told == [] && ResidueOf(s, []) == []
    ensures var s := AfterAll([CommitSheds([d])], true); s.told == [d] && ResidueOf(s, []) == []
  {
    OneCommit(d, false);
    OneCommit(d, true);
    assert [d] + [] == [d] && [d][..0] == [];
    assert Deduped([]) == [] && FirstShed([], ShedKey(d)).None?;
    assert Deduped([d]) == [d];
    assert Unreported([], {ShedKey(d)}) == [];
    assert Unreported([d], {ShedKey(d)}) == [];
  }

  // ---- rendering ----

  function RenderedRow(f: Finding, postMerge: map<string, Finding>): Finding {
    if KeyOf(f) in postMerge then postMerge[KeyOf(f)].(skipped := f.skipped) else f
  }

  method RenderedFindings(findings: seq<Finding>, postMerge: map<string, Finding>) returns (rows: seq<Finding>)
    ensures |rows| == |findings| && forall i :: 0 <= i < |findings| ==> rows[i] == RenderedRow(findings[i], postMerge)
  {
    rows := [];
    for i := 0 to |findings|
      invariant |rows| == i && forall j :: 0 <= j < i ==> rows[j] == RenderedRow(findings[j], postMerge)
    {
      var f := findings[i];
      if KeyOf(f) in postMerge {
        rows := rows + [postMerge[KeyOf(f)].(skipped := f.skipped)];
      } else {
        rows := rows + [f];
      }
    }
  }

  /** The post-merge rows after a write: every tracked key takes the written document's record. */
  function Refreshed(postMerge: map<string, Finding>, tracked: set<string>, doc: seq<Finding>): map<string, Finding> {
    if doc == [] then postMerge else
      var m, rest := doc[|doc| - 1], Refreshed(postMerge, tracked, doc[..|doc| - 1]);
      if KeyOf(m) in tracked then rest[KeyOf(m) := m] else rest
  }

  lemma {:induction false} RefreshedAt(postMerge: map<string, Finding>, tracked: set<string>, doc: seq<Finding>,
          key: string)
    requires UniqueRecords(doc)
    ensures key in tracked && RecordUnder(doc, key) ==>
              key in Refreshed(postMerge, tracked, doc) && Refreshed(postMerge, tracked, doc)[key] in doc
              && KeyOf(Refreshed(postMerge, tracked, doc)[key]) == key
    ensures !(key in tracked && RecordUnder(doc, key)) ==>
              (key in Refreshed(postMerge, tracked, doc) <==> key in postMerge)
              && (key in postMerge ==> Refreshed(postMerge, tracked, doc)[key] == postMerge[key])
  {
    if doc != [] {
      RefreshedAt(postMerge, tracked, doc[..|doc| - 1], key);
      RecordUnderLast(doc, key);
    }
  }

  ghost predicate RecordUnder(doc: seq<Finding>, key: string) { exists m :: m in doc && KeyOf(m) == key }

  lemma {:induction false} RecordUnderLast(doc: seq<Finding>, key: string)
    requires doc != []
    ensures RecordUnder(doc, key) <==> RecordUnder(doc[..|doc| - 1], key) || KeyOf(doc[|doc| - 1]) == key
    ensures forall m :: m in doc[..|doc| - 1] ==> m in doc
  {
    assert doc == doc[..|doc| - 1] + [doc[|doc| - 1]];
    assert forall m :: m in doc <==> m in doc[..|doc| - 1] || m == doc[|doc| - 1];
  }

  // ---- contradictions ----

  function KillerOf(kills: seq<Kill>, key: Key): Option<string> {
    if kills == [] then None
    else if kills[|kills| - 1].Id() == key then Some(kills[|kills| - 1].killer) else KillerOf(kills[..|kills| - 1], key)
  }

  datatype Contradiction = Contradiction(symbol: string, position: string, operator: string, killer: string, reason: string)

  /** The gone dispositions whose mutant the fresh record killed, each with its killer, in their order. */
  function Contradicted(symbol: string, gone: seq<Attestation>, survivors: seq<Survivor>,
          kills: seq<Kill>): seq<Contradiction> {
    if gone == [] then [] else
      var a := gone[|gone| - 1];
      Contradicted(symbol, gone[..|gone| - 1], survivors, kills)
      + if a.Id() in SurvivorIds(survivors) || KillerOf(kills, a.Id()).None? then []
        else [Contradiction(symbol, a.position, a.operator, KillerOf(kills, a.Id()).value, a.reason)]
  }

  method ContradictKilledDispositions(symbol: string, gone: seq<Attestation>, survivors: seq<Survivor>,
          kills: seq<Kill>)
    returns (emitted: seq<Contradiction>)
    ensures emitted == Contradicted(symbol, gone, survivors, kills)
  {
    var surviving := set i | 0 <= i < |survivors| :: survivors[i].Id();
    assert forall key :: key in surviving <==> key in SurvivorIds(survivors);
    var killerOf: map<Key, string> := map[];
    for i := 0 to |kills|
      invariant forall key :: key in killerOf <==> KillerOf(kills[..i], key).Some?
      invariant forall key :: key in killerOf ==> KillerOf(kills[..i], key) == Some(killerOf[key])
    {
      assert kills[..i + 1][..i] == kills[..i];
      killerOf := killerOf[kills[i].Id() := kills[i].killer];
    }
    assert kills[..|kills|] == kills;
    emitted := [];
    for i := 0 to |gone|
      invariant emitted == Contradicted(symbol, gone[..i], survivors, kills)
    {
      assert gone[..i + 1][..i] == gone[..i];
      var a := gone[i];
      if a.Id() in surviving {
        continue;
      }
      if a.Id() in killerOf {
        emitted := emitted + [Contradiction(symbol, a.position, a.operator, killerOf[a.Id()], a.reason)];
      }
    }
    assert gone[..|gone|] == gone;
  }

  // ---- the ledger ----

  /** How a document write ended: refused before the change ran, lost after it, or persisted. */
  datatype Write = Refused | Lost | Persisted

  datatype RunOutcome = RunOutcome(rendered: seq<Finding>, residue: seq<AttestationShed>)

  class Ledger {
    const snapshot: map<string, seq<Attestation>>
    const wholeTree: bool
    const listening: bool
    var reported: set<string>
    var commitSheds: seq<AttestationShed>
    var told: seq<AttestationShed>
    var postMerge: map<string, Finding>

    constructor (prior: seq<Finding>, wholeTree: bool, listening: bool)
      ensures this.wholeTree == wholeTree && this.listening == listening
      ensures forall key :: key in snapshot <==> key in ByKey(prior)
      ensures forall key :: key in snapshot ==> snapshot[key] == ByKey(prior)[key].attested
      ensures State() == Fates({}, [], []) && postMerge == map[]
    {
      this.wholeTree, this.listening := wholeTree, listening;
      snapshot := map key | key in ByKey(prior) :: ByKey(prior)[key].attested;
      reported, commitSheds, told, postMerge := {}, [], [], map[];
    }

    function State(): Fates
      reads this
    {
      Fates(reported, commitSheds, told)
    }

    method Contradict(key: string)
      modifies this
      ensures State() == After(old(State()), Contradicts(key), listening) && postMerge == old(postMerge)
    {
      reported := reported + {key};
    }

    method Deliver(d: AttestationShed)
      modifies this
      ensures State() == Delivered(old(State()), d, listening) && postMerge == old(postMerge)
    {
      var key := ShedKey(d);
      if key in reported {
        return;
      }
      reported := reported + {key};
      if listening {
        told := told + [d];
      }
    }

    method DeliverEach(ds: seq<AttestationShed>)
      modifies this
      ensures State() == DeliveredAll(old(State()), ds, listening) && postMerge == old(postMerge)
    {
      for i := 0 to |ds|
        invariant State() == DeliveredAll(old(State()), ds[..i], listening) && postMerge == old(postMerge)
      {
        assert ds[..i + 1][..i] == ds[..i];
        Deliver(ds[i]);
      }
      assert ds[..|ds|] == ds;
    }

    method SiteShed(d: AttestationShed)
      modifies this
      ensures State() == After(old(State()), SiteSheds(d), listening) && postMerge == old(postMerge)
    {
      commitSheds := commitSheds + [d];
      Deliver(d);
    }

    method Refresh(tracked: set<string>, doc: seq<Finding>)
      modifies this`postMerge
      ensures postMerge == Refreshed(old(postMerge), tracked, doc)
    {
      for i := 0 to |doc|
        invariant postMerge == Refreshed(old(postMerge), tracked, doc[..i])
      {
        assert doc[..i + 1][..i] == doc[..i];
        if KeyOf(doc[i]) in tracked {
          postMerge := postMerge[KeyOf(doc[i]) := doc[i]];
        }
      }
      assert doc[..|doc|] == doc;
    }

    /** One finished target's incremental commit over the document as read under its lock. */
    method Commit(finding: Finding, current: seq<Finding>, write: Write) returns (doc: seq<Finding>)
      modifies this
      ensures write != Persisted ==> doc == current && State() == old(State())
      ensures write == Refused ==> postMerge == old(postMerge)
      ensures write == Persisted ==>
                && (exists listing :: Lists(listing, MergeInto([finding], ByKey(current), Some(snapshot)).records) && doc == Annotated(listing))
                && State() == After(old(State()), CommitSheds(MergeInto([finding], ByKey(current), Some(snapshot)).sheds), listening)
                && postMerge == Refreshed(old(postMerge), {KeyOf(finding)}, doc)
    {
      if write == Refused {
        return current;
      }
      ghost var listing;
      var merged, dropped;
      merged, dropped, listing := MergeFindings(current, [finding], Some(snapshot));
      Refresh({KeyOf(finding)}, merged);
      if write == Lost {
        return current;
      }
      doc := merged;
      commitSheds := commitSheds + dropped;
      DeliverEach(dropped);
    }

    /** The final merge: None when a scoped run selected nothing or the write failed, which tells nothing. */
    method Finish(findings: seq<Finding>, discovered: set<string>, selection: string, selected: bool,
            current: seq<Finding>, write: Write)
      returns (outcome: Option<RunOutcome>, doc: seq<Finding>)
      modifies this
      ensures outcome.Some? <==> (selected || wholeTree) && write == Persisted
      ensures outcome.None? ==> doc == current && State() == old(State())
      ensures outcome.Some? ==>
                && (exists listing ::
                      && Lists(listing, MergeInto(findings, ByKey(current), Some(snapshot)).records)
                      && doc == if wholeTree then Annotated(Staying(Annotated(listing), discovered, selection)) else Annotated(listing))
                && outcome.value.residue == ResidueOf(old(State()), MergeInto(findings, ByKey(current), Some(snapshot)).sheds)
                && commitSheds == old(commitSheds) && told == old(told)
                && (forall key :: key in reported <==> key in old(reported) || FirstShed(outcome.value.residue, key).Some?)
                && postMerge == Refreshed(old(postMerge), old(postMerge).Keys, doc)
                && |outcome.value.rendered| == |findings|
                && forall i :: 0 <= i < |findings| ==> outcome.value.rendered[i] == RenderedRow(findings[i], postMerge)
    {
      if (!selected && !wholeTree) || write == Refused {
        return None, current;
      }
      ghost var listing;
      var merged, finals;
      if wholeTree {
        merged, finals, listing := MergeWholeFindingsForSelection(current, findings, discovered, Some(snapshot), selection);
      } else {
        merged, finals, listing := MergeFindings(current, findings, Some(snapshot));
      }
      Refresh(postMerge.Keys, merged);
      if write == Lost {
        return None, current;
      }
      doc := merged;
      var rendered := RenderedFindings(findings, postMerge);
      var residue := TakeResidue(finals);
      outcome := Some(RunOutcome(rendered, residue));
    }

    method TakeResidue(finals: seq<AttestationShed>) returns (residue: seq<AttestationShed>)
      modifies this
      ensures residue == ResidueOf(old(State()), finals) && postMerge == old(postMerge)
      ensures commitSheds == old(commitSheds) && told == old(told)
      ensures forall key :: key in reported <==> key in old(reported) || FirstShed(residue, key).Some?
    {
      ghost var ds, before := commitSheds + finals, reported;
      var all := DedupeAttestationSheds(commitSheds + finals);
      residue := [];
      for i := 0 to |all|
        invariant ResidueTo(all, i, before, reported, residue)
        invariant postMerge == old(postMerge) && commitSheds == old(commitSheds) && told == old(told)
      {
        ResidueNext(ds, i, before, reported, residue);
        var key := ShedKey(all[i]);
        if key in reported {
          continue;
        }
        reported := reported + {key};
        residue := residue + [all[i]];
      }
      assert all[..|all|] == all;
    }
  }

  /** The residue of the first n deduplicated sheds, and the mutants reported once they are. */
  ghost predicate ResidueTo(all: seq<AttestationShed>, n: nat, before: set<string>, reported: set<string>,
          residue: seq<AttestationShed>)
    requires n <= |all|
  {
    && residue == Unreported(all[..n], before)
    && (forall key :: key in reported <==> key in before || FirstShed(residue, key).Some?)
    && forall key :: FirstShed(residue, key).Some? ==> FirstShed(all[..n], key).Some?
  }

  lemma {:induction false} ResidueNext(ds: seq<AttestationShed>, i: nat, before: set<string>, reported: set<string>,
          residue: seq<AttestationShed>)
    requires i < |Deduped(ds)| && ResidueTo(Deduped(ds), i, before, reported, residue)
    ensures var all := Deduped(ds); var key := ShedKey(all[i]);
            if key in reported then ResidueTo(all, i + 1, before, reported, residue)
            else ResidueTo(all, i + 1, before, reported + {key}, residue + [all[i]])
  {
    var all := Deduped(ds);
    var x := all[i];
    assert all[..i + 1] == all[..i] + [x];
    assert (all[..i] + [x])[..i] == all[..i];
    DedupedFirst(ds, i);
    forall key ensures FirstShed(all[..i + 1], key).Some? <==> FirstShed(all[..i], key).Some? || key == ShedKey(x)
               ensures FirstShed(residue + [x], key).Some? <==> FirstShed(residue, key).Some? || key == ShedKey(x)
    {
      FirstShedAppend(all[..i], x, key);
      FirstShedAppend(residue, x, key);
    }
  }

  lemma {:induction false} FirstShedAppend(xs: seq<AttestationShed>, x: AttestationShed, key: string)
    ensures FirstShed(xs + [x], key).Some? <==> FirstShed(xs, key).Some? || key == ShedKey(x)
  {
    assert (xs + [x])[..|xs|] == xs;
  }

  /** A deduplicated list mentions no mutant twice. */
  lemma {:induction false} DedupedFirst(ds: seq<AttestationShed>, i: nat)
    requires i < |Deduped(ds)|
    ensures FirstShed(Deduped(ds)[..i], ShedKey(Deduped(ds)[i])).None?
  {
    var out, key := Deduped(ds), ShedKey(Deduped(ds)[i]);
    DedupedLines(ds, key);
    assert out == out[..i] + [out[i]] + out[i + 1..];
    LinesConcat(out[..i] + [out[i]], out[i + 1..], key);
    LinesAppend(out[..i], out[i], key);
    if FirstShed(out[..i], key).Some? {
      FirstShedLines(out[..i], key);
    }
  }

  lemma {:induction false} FirstShedLines(ds: seq<AttestationShed>, key: string)
    requires FirstShed(ds, key).Some?
    ensures Lines(ds, key) != []
  {
    if FirstShed(ds[..|ds| - 1], key).Some? {
      FirstShedLines(ds[..|ds| - 1], key);
    }
  }

  /** What a response renders is what the document holds: a committed finding's row is the written record, its own skip note aside. */
  lemma {:induction false} RenderedIsWritten(f: Finding, postMerge: map<string, Finding>, doc: seq<Finding>, m: Finding)
    requires UniqueRecords(doc) && KeyOf(f) in postMerge && m in doc && KeyOf(m) == KeyOf(f)
    ensures RenderedRow(f, Refreshed(postMerge, postMerge.Keys, doc)) == m.(skipped := f.skipped)
  {
    RefreshedAt(postMerge, postMerge.Keys, doc, KeyOf(f));
    var r := Refreshed(postMerge, postMerge.Keys, doc)[KeyOf(f)];
    var i :| 0 <= i < |doc| && doc[i] == r;
    var j :| 0 <= j < |doc| && doc[j] == m;
    assert i == j;
  }
}
