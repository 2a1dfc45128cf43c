/**
 Whole runs over the live document. Between them, sessions' edits, a run's incremental commits and its final merge
 act on each record exactly as one record's events do, so the record's guarantees hold of the whole document.
 */
module DocumentRuns {
  import opened Wrappers
  import opened Records
  import opened Dispositions
  import opened Grafting
  import opened DispositionRuns
  import opened Annotation
  import opened Merging
  import opened Splicing

  type Document = map<string, Finding>

  /** What a whole-tree run discovered, and the selection it ran under. */
  datatype Scope = Scope(discovered: set<string>, selection: string)

  /** A session's edit of one record, or a merge of some of the run's findings; a whole-tree run's final merge has a scope. */
  datatype DocEvent =
    | Disposed(key: string, verb: Verb, mutant: Key, reason: string)
    | Merges(part: seq<Finding>, whole: Option<Scope>)

  /** A commit or the final merge: some of the run's findings, each record key once. */
  ghost predicate PartOf(part: seq<Finding>, run: seq<Finding>) {
    && OnePerKey(part)
    && forall key :: Measured(part, key).Some? ==> Measured(part, key) == Measured(run, key)
  }

  /** A run measures only what it discovered. */
  ghost predicate Discovers(run: seq<Finding>, scope: Scope) {
    forall f :: f in run && f.skipped == "" ==> f.symbol in scope.discovered
  }

  function Surviving(records: Document, whole: Option<Scope>): Document {
    if whole.None? then records
    else map key | key in records && Stays(records[key], whole.value.discovered, whole.value.selection) :: records[key]
  }

  function Target(before: Document, e: DocEvent, snaps: Snapshots): Document {
    match e
    case Merges(part, whole) => Surviving(MergeInto(part, before, snaps).records, whole)
    case Disposed(key, verb, mutant, reason) =>
      if key in before && Edited(before[key], verb, mutant, reason).Ok?
      then before[key := Edited(before[key], verb, mutant, reason).value] else before
  }

  /** One atomic rewrite of the document. The advisory cross-selection text may come out anyhow. */
  ghost predicate DocStep(before: Document, e: DocEvent, after: Document, run: seq<Finding>, snaps: Snapshots) {
    && (e.Merges? ==> PartOf(e.part, run) && (e.whole.Some? ==> e.part == run && Discovers(run, e.whole.value)))
    && after.Keys == Target(before, e, snaps).Keys
    && forall key :: key in after ==> Bare(after[key]) == Bare(Target(before, e, snaps)[key])
  }

  ghost predicate DocRun(states: seq<Document>, events: seq<DocEvent>, run: seq<Finding>, snaps: Snapshots) {
    && |states| == |events| + 1
    && forall i :: 0 <= i < |events| ==> DocStep(states[i], events[i], states[i + 1], run, snaps)
  }

  /** The events of one record. */
  function Project(events: seq<DocEvent>, key: string): seq<Event> {
    if events == [] then [] else
      var e := events[|events| - 1];
      Project(events[..|events| - 1], key)
      + match e
        case Disposed(at, verb, mutant, reason) => if at == key then [Edit(verb, mutant, reason)] else []
        case Merges(part, _) => if Measured(part, key).Some? then [Merge] else []
  }

  lemma {:induction false} FirstSiteBare(xs: seq<Survivor>, ys: seq<Survivor>, mutant: Key)
    requires |xs| == |ys| && forall i :: 0 <= i < |xs| ==> xs[i].(otherSelection := "") == ys[i].(otherSelection := "")
    ensures FirstSite(xs, mutant) == FirstSite(ys, mutant)
  {
    if xs != [] {
      FirstSiteBare(xs[1..], ys[1..], mutant);
    }
  }

  /** No edit and no merge reads the advisory text. */
  lemma {:induction false} EditedBare(f: Finding, g: Finding, verb: Verb, mutant: Key, reason: string)
    requires Bare(f) == Bare(g)
    ensures Edited(f, verb, mutant, reason).Ok? <==> Edited(g, verb, mutant, reason).Ok?
    ensures Edited(f, verb, mutant, reason).Ok? ==>
              Bare(Edited(f, verb, mutant, reason).value) == Bare(Edited(g, verb, mutant, reason).value)
  {
    BareRows(f, g);
    FirstSiteBare(f.survivors, g.survivors, mutant);
  }

  lemma {:induction false} StepBare(f: Finding, g: Finding, e: Event, run: Finding, snap: Snapshot)
    requires Bare(f) == Bare(g)
    ensures Bare(Step(f, e, run, snap)) == Bare(Step(g, e, run, snap))
  {
    BareRows(f, g);
    if e.Edit? {
      EditedBare(f, g, e.verb, e.mutant, e.reason);
    }
  }

  /** One document step, seen at one record: that record's event, or nothing. */
  lemma {:induction false} StepAt(before: Document, e: DocEvent, after: Document, run: seq<Finding>, snaps: Snapshots,
          key: string, f: Finding)
    requires DocStep(before, e, after, run, snaps) && key in before && Measured(run, key) == Some(f)
    ensures key in after
    ensures Bare(after[key]) == match e
                                case Disposed(at, verb, mutant, reason) =>
                                  Bare(if at == key then Step(before[key], Edit(verb, mutant, reason), f, SnapshotOf(snaps, key)) else before[key])
                                case Merges(part, _) =>
                                  Bare(if Measured(part, key).Some? then Step(before[key], Merge, f, SnapshotOf(snaps, key)) else before[key])
  {
    if e.Merges? {
      MergeIntoAt(e.part, before, snaps, key);
      MeasuredFinds(run, key);
    }
    assert key in Target(before, e, snaps).Keys;
  }

  /** Every record the run measured goes through exactly its own events. */
  lemma {:induction false} RecordProjection(states: seq<Document>, events: seq<DocEvent>, run: seq<Finding>,
          snaps: Snapshots, key: string, f: Finding)
    requires DocRun(states, events, run, snaps) && key in states[0] && Measured(run, key) == Some(f)
    ensures key in states[|events|]
    ensures Bare(states[|events|][key]) == Bare(Play(states[0][key], Project(events, key), f, SnapshotOf(snaps, key)))
  {
    if events != [] {
      var n := |events| - 1;
      RecordProjection(states[..n + 1], events[..n], run, snaps, key, f);
      assert DocStep(states[n], events[n], states[n + 1], run, snaps);
      ProjectionNext(states[0][key], events, states[n], states[n + 1], run, snaps, key, f);
    }
  }

  lemma {:induction false} ProjectionNext(start: Finding, events: seq<DocEvent>, before: Document, after: Document,
          run: seq<Finding>, snaps: Snapshots, key: string, f: Finding)
    requires events != [] && DocStep(before, events[|events| - 1], after, run, snaps) && key in before && Measured(run, key) == Some(f)
    requires Bare(before[key]) == Bare(Play(start, Project(events[..|events| - 1], key), f, SnapshotOf(snaps, key)))
    ensures key in after && Bare(after[key]) == Bare(Play(start, Project(events, key), f, SnapshotOf(snaps, key)))
  {
    var n, snap := |events| - 1, SnapshotOf(snaps, key);
    var mine := Project(events[..n], key);
    StepAt(before, events[n], after, run, snaps, key, f);
    match events[n]
    case Disposed(at, verb, mutant, reason) =>
      if at == key {
        PlayNext(start, mine, before[key], Edit(verb, mutant, reason), f, snap);
      } else {
        assert mine + [] == mine;
      }
    case Merges(part, _) =>
      if Measured(part, key).Some? {
        PlayNext(start, mine, before[key], Merge, f, snap);
      } else {
        assert mine + [] == mine;
      }
  }

  lemma {:induction false} PlayNext(start: Finding, mine: seq<Event>, now: Finding, e: Event, f: Finding,
          snap: Snapshot)
    requires Bare(now) == Bare(Play(start, mine, f, snap))
    ensures Bare(Step(now, e, f, snap)) == Bare(Play(start, mine + [e], f, snap))
  {
    StepBare(now, Play(start, mine, f, snap), e, f, snap);
    assert (mine + [e])[..|mine|] == mine;
  }

  // ---- a run's findings carry only their snapshot's dispositions ----

  lemma {:induction false} CarryAllRows(prior: seq<Attestation>, sites: map<Key, string>)
    ensures forall a :: a in CarryAll(prior, sites).kept ==>
              a.Id() in sites && exists p :: p in prior && p.Id() == a.Id() && p.reason == a.reason
  {
    if prior != [] {
      var init := prior[..|prior| - 1];
      CarryAllRows(init, sites);
      assert prior == init + [prior[|prior| - 1]];
      var last := prior[|prior| - 1];
      assert last in prior && last.Id() == last.Id() && last.reason == last.reason;
      forall a | a in CarryAll(init, sites).kept ensures exists p :: p in prior && p.Id() == a.Id() && p.reason == a.reason {
        var p :| p in init && p.Id() == a.Id() && p.reason == a.reason;
        assert p in prior;
      }
    }
  }

  /** A fresh measurement that carries its snapshot record's dispositions by site meets the runs' assumption. */
  lemma {:induction false} CarryMeetsRun(start: Finding, run: Finding)
    requires Distinct(AttestedIds(start.attested))
    requires run.attested == CarryAll(start.attested, SiteMap(run.survivors)).kept
    ensures CarriedFrom(run, Some(AttestedMap(start.attested)))
  {
    CarryAllRows(start.attested, SiteMap(run.survivors));
    AttestedMapExact(start.attested);
    forall a | a in run.attested ensures a.Id() in AttestedMap(start.attested) && AttestedMap(start.attested)[a.Id()].reason == a.reason {
      var p :| p in start.attested && p.Id() == a.Id() && p.reason == a.reason;
      var i :| 0 <= i < |start.attested| && start.attested[i] == p;
    }
  }

  lemma {:induction false} KeepAnchoredRows(prior: seq<Attestation>, sites: map<Key, string>)
    ensures forall a :: a in KeepAnchored(prior, sites) ==>
              a.Id() in sites && exists p :: p in prior && p.Id() == a.Id() && p.reason == a.reason
  {
    if prior != [] {
      var init, last := prior[..|prior| - 1], prior[|prior| - 1];
      KeepAnchoredRows(init, sites);
      assert prior == init + [last];
      assert last in prior && last.Id() == last.Id() && last.reason == last.reason;
      forall a | a in KeepAnchored(init, sites) ensures exists p :: p in prior && p.Id() == a.Id() && p.reason == a.reason {
        var p :| p in init && p.Id() == a.Id() && p.reason == a.reason;
        assert p in prior;
      }
    }
  }

  /** A spliced record meets it too. */
  lemma {:induction false} SpliceMeetsRun(start: Finding, run: Finding)
    requires Distinct(AttestedIds(start.attested))
    requires run.attested == KeepAnchored(start.attested, SiteMap(run.survivors))
    ensures CarriedFrom(run, Some(AttestedMap(start.attested)))
  {
    KeepAnchoredRows(start.attested, SiteMap(run.survivors));
    AttestedMapExact(start.attested);
    forall a | a in run.attested ensures a.Id() in AttestedMap(start.attested) && AttestedMap(start.attested)[a.Id()].reason == a.reason {
      var p :| p in start.attested && p.Id() == a.Id() && p.reason == a.reason;
      var i :| 0 <= i < |start.attested| && start.attested[i] == p;
    }
  }

  lemma {:induction false} StampSitesRows(prior: seq<Attestation>, sites: map<Key, string>)
    ensures forall a :: a in StampSites(prior, sites) ==> exists p :: p in prior && p.Id() == a.Id() && p.reason == a.reason
  {
    if prior != [] {
      var init, last := prior[..|prior| - 1], prior[|prior| - 1];
      StampSitesRows(init, sites);
      assert prior == init + [last];
      assert last in prior && last.Id() == last.Id() && last.reason == last.reason;
      forall a | a in StampSites(init, sites) ensures exists p :: p in prior && p.Id() == a.Id() && p.reason == a.reason {
        var p :| p in init && p.Id() == a.Id() && p.reason == a.reason;
        assert p in prior;
      }
    }
  }

  /** So does an extended one, whose dispositions the validator ties to the prefix survivors it keeps. */
  lemma {:induction false} ExtendMeetsRun(start: Finding, run: Finding)
    requires Distinct(AttestedIds(start.attested)) && forall a :: a in start.attested ==> a.Id() in SurvivorIds(start.survivors)
    requires start.survivors <= run.survivors && run.attested == StampSites(start.attested, SiteMap(run.survivors))
    ensures CarriedFrom(run, Some(AttestedMap(start.attested)))
  {
    StampSitesRows(start.attested, SiteMap(run.survivors));
    AttestedMapExact(start.attested);
    SiteMapExact(run.survivors);
    forall a | a in run.attested
      ensures a.Id() in AttestedMap(start.attested) && AttestedMap(start.attested)[a.Id()].reason == a.reason
      ensures a.Id() in SiteMap(run.survivors)
    {
      var p :| p in start.attested && p.Id() == a.Id() && p.reason == a.reason;
      var i :| 0 <= i < |start.attested| && start.attested[i] == p;
      var j :| 0 <= j < |start.survivors| && SurvivorIds(start.survivors)[j] == p.Id();
      assert SurvivorIds(run.survivors)[j] == p.Id();
    }
  }

  // ---- what the two merges write is one step ----

  lemma {:induction false} ByKeyBare(xs: seq<Finding>, ys: seq<Finding>)
    requires |xs| == |ys| && forall i :: 0 <= i < |xs| ==> Bare(xs[i]) == Bare(ys[i])
    ensures ByKey(xs).Keys == ByKey(ys).Keys
    ensures forall key :: key in ByKey(xs) ==> Bare(ByKey(xs)[key]) == Bare(ByKey(ys)[key])
  {
    if xs != [] {
      var n := |xs| - 1;
      ByKeyBare(xs[..n], ys[..n]);
      BareRows(xs[n], ys[n]);
    }
  }

  lemma {:induction false} StayingBare(xs: seq<Finding>, ys: seq<Finding>, discovered: set<string>, selection: string)
    requires |xs| == |ys| && forall i :: 0 <= i < |xs| ==> Bare(xs[i]) == Bare(ys[i])
    ensures var us, vs := Staying(xs, discovered, selection), Staying(ys, discovered, selection);
            |us| == |vs| && forall i :: 0 <= i < |us| ==> Bare(us[i]) == Bare(vs[i])
  {
    if xs != [] {
      var n := |xs| - 1;
      StayingBare(xs[..n], ys[..n], discovered, selection);
      BareRows(xs[n], ys[n]);
    }
  }

  lemma {:induction false} AnnotatedBare(doc: seq<Finding>)
    ensures forall i :: 0 <= i < |doc| ==> Bare(Annotated(doc)[i]) == Bare(doc[i])
  {
    forall i | 0 <= i < |doc| ensures Bare(Annotated(doc)[i]) == Bare(doc[i]) {
      AnnotatedIsBareEqual(doc, doc[i]);
    }
  }

  lemma {:induction false} SurvivingNext(records: Document, key: string, f: Finding, scope: Scope)
    requires key !in records
    ensures Surviving(records[key := f], Some(scope))
         == if Stays(f, scope.discovered, scope.selection) then Surviving(records, Some(scope))[key := f] else Surviving(records, Some(scope))
  {
  }

  lemma {:induction false} StayingAt(doc: seq<Finding>, scope: Scope)
    requires UniqueRecords(doc)
    ensures ByKey(Staying(doc, scope.discovered, scope.selection)) == Surviving(ByKey(doc), Some(scope))
  {
    if doc != [] {
      var n := |doc| - 1;
      StayingAt(doc[..n], scope);
      NewKey(doc);
      SurvivingNext(ByKey(doc[..n]), KeyOf(doc[n]), doc[n], scope);
      ByKeyNext(Staying(doc[..n], scope.discovered, scope.selection), doc[n]);
    }
  }

  lemma {:induction false} ByKeyNext(doc: seq<Finding>, f: Finding)
    ensures ByKey(doc + [f]) == ByKey(doc)[KeyOf(f) := f] && ByKey(doc + []) == ByKey(doc)
  {
    assert (doc + [f])[..|doc|] == doc && doc + [] == doc;
  }

  lemma {:induction false} NewKey(doc: seq<Finding>)
    requires doc != [] && UniqueRecords(doc)
    ensures KeyOf(doc[|doc| - 1]) !in ByKey(doc[..|doc| - 1])
  {
    ByKeyKeyed(doc[..|doc| - 1]);
  }

  lemma {:induction false} ListedByKey(listing: seq<Finding>, records: Document)
    requires Lists(listing, records) && Keyed(records)
    ensures ByKey(listing) == records
  {
    ByKeyUnique(listing);
    ByKeyKeyed(listing);
  }

  /** Both merges, as written: a commit's or a scoped run's, and a whole-tree run's that drops what it no longer found. */
  lemma {:induction false} MergeIsStep(prior: seq<Finding>, part: seq<Finding>, run: seq<Finding>, snaps: Snapshots,
          whole: Option<Scope>, listing: seq<Finding>, out: seq<Finding>)
    requires PartOf(part, run) && (whole.Some? ==> part == run && Discovers(run, whole.value))
    requires Lists(listing, MergeInto(part, ByKey(prior), snaps).records)
    requires out == if whole.None? then Annotated(listing)
                    else Annotated(Staying(Annotated(listing), whole.value.discovered, whole.value.selection))
    ensures DocStep(ByKey(prior), Merges(part, whole), ByKey(out), run, snaps)
  {
    ByKeyKeyed(prior);
    MergeIntoKeyed(part, ByKey(prior), snaps);
    ListedByKey(listing, MergeInto(part, ByKey(prior), snaps).records);
    AnnotatedBare(listing);
    if whole.None? {
      ByKeyBare(out, listing);
    } else {
      WholeMergeKeeps(listing, whole.value);
    }
  }

  lemma {:induction false} WholeMergeKeeps(listing: seq<Finding>, scope: Scope)
    requires UniqueRecords(listing)
    ensures var out := ByKey(Annotated(Staying(Annotated(listing), scope.discovered, scope.selection)));
            var kept := Surviving(ByKey(listing), Some(scope));
            out.Keys == kept.Keys && forall key :: key in out ==> Bare(out[key]) == Bare(kept[key])
  {
    var kept := Staying(Annotated(listing), scope.discovered, scope.selection);
    AnnotatedBare(listing);
    StayingBare(Annotated(listing), listing, scope.discovered, scope.selection);
    AnnotatedBare(kept);
    ByKeyBare(Annotated(kept), Staying(listing, scope.discovered, scope.selection));
    StayingAt(listing, scope);
  }

  // ---- the document's guarantees ----

  /** The record stood at the start: its snapshot, and a fresh finding that carries from it. */
  ghost predicate Stood(states: seq<Document>, run: seq<Finding>, snaps: Snapshots, key: string, f: Finding) {
    && |states| > 0 && key in states[0] && Measured(run, key) == Some(f)
    && RunOver(states[0][key], f, SnapshotOf(snaps, key))
  }

  /** The run measured the record: one that stood at its start, its snapshot taken then, or one the run itself first writes. */
  ghost predicate BeganOn(states: seq<Document>, run: seq<Finding>, snaps: Snapshots, key: string, f: Finding) {
    && |states| > 0 && Measured(run, key) == Some(f) && Tidy(f) && CarriedFrom(f, SnapshotOf(snaps, key))
    && if key in states[0] then Tidy(states[0][key]) && SnapshotOf(snaps, key) == Some(AttestedMap(states[0][key].attested))
       else SnapshotOf(snaps, key) == Some(map[])
  }

  /** A key the document does not hold appears only as the run's own finding. */
  lemma {:induction false} Appears(before: Document, e: DocEvent, after: Document, run: seq<Finding>, snaps: Snapshots,
          key: string, f: Finding)
    requires DocStep(before, e, after, run, snaps) && Measured(run, key) == Some(f) && key !in before && key in after
    ensures Bare(after[key]) == Bare(f)
  {
    assert key in Target(before, e, snaps).Keys;
    if e.Merges? {
      MergeIntoAt(e.part, before, snaps, key);
      MeasuredFinds(run, key);
    }
  }

  lemma {:induction false} TidyBare(f: Finding, g: Finding)
    requires Bare(f) == Bare(g) && Tidy(g)
    ensures Tidy(f) && f.attested == g.attested
  {
    BareRows(f, g);
    assert forall i :: 0 <= i < |f.survivors| ==> f.survivors[i].Id() == f.survivors[i].(otherSelection := "").Id();
    assert SurvivorIds(f.survivors) == SurvivorIds(g.survivors);
  }

  /** From some state on - the first, or the one the run's commit created the record in - the record stood. */
  lemma {:induction false} Origin(states: seq<Document>, events: seq<DocEvent>, run: seq<Finding>, snaps: Snapshots,
          key: string, f: Finding, i: nat) returns (b: nat)
    requires DocRun(states, events, run, snaps) && BeganOn(states, run, snaps, key, f) && i <= |events| && key in states[i]
    ensures b <= i && Stood(states[b..], run, snaps, key, f) && DocRun(states[b..], events[b..], run, snaps)
  {
    if key in states[0] {
      b := 0;
    } else if key in states[i - 1] {
      b := Origin(states, events, run, snaps, key, f, i - 1);
    } else {
      b := i;
      assert DocStep(states[i - 1], events[i - 1], states[i], run, snaps);
      Appears(states[i - 1], events[i - 1], states[i], run, snaps, key, f);
      TidyBare(states[i][key], f);
      CarriedNothing(f);
    }
  }

  lemma {:induction false} CarriedNothing(f: Finding)
    ensures CarriedFrom(f, Some(map[])) ==> f.attested == [] && AttestedMap(f.attested) == map[]
  {
    if f.attested != [] {
      assert f.attested[0] in f.attested;
    }
  }

  lemma {:induction false} ProjectSplit(before: seq<DocEvent>, after: seq<DocEvent>, key: string)
    ensures Project(before + after, key) == Project(before, key) + Project(after, key)
  {
    if after == [] {
      assert before + after == before;
    } else {
      var n := |after| - 1;
      ProjectSplit(before, after[..n], key);
      assert (before + after)[..|before + after| - 1] == before + after[..n];
    }
  }

  lemma {:induction false} ProjectAt(events: seq<DocEvent>, i: nat, key: string, verb: Verb, mutant: Key,
          reason: string)
    requires i < |events| && events[i] == Disposed(key, verb, mutant, reason)
    ensures Project(events, key) == Project(events[..i], key) + [Edit(verb, mutant, reason)] + Project(events[i + 1..], key)
  {
    assert events == events[..i] + [events[i]] + events[i + 1..];
    ProjectSplit(events[..i] + [events[i]], events[i + 1..], key);
    ProjectSplit(events[..i], [events[i]], key);
    assert [events[i]][..0] == [];
  }

  /** What the document holds just before step i is, advisory text aside, what the record's own events left. */
  lemma {:induction false} LiveIsPlayed(states: seq<Document>, events: seq<DocEvent>, run: seq<Finding>,
          snaps: Snapshots, key: string, f: Finding, i: nat)
    requires DocRun(states, events, run, snaps) && Stood(states, run, snaps, key, f) && i <= |events|
    ensures key in states[i]
    ensures Bare(states[i][key]) == Bare(Play(states[0][key], Project(events[..i], key), f, SnapshotOf(snaps, key)))
  {
    RecordProjection(states[..i + 1], events[..i], run, snaps, key, f);
  }

  lemma {:induction false} BareWithdrawal(f: Finding, g: Finding, mutant: Key, reason: string)
    requires Bare(f) == Bare(g) && Withdrawn(f, mutant, reason).Ok?
    ensures Withdrawn(g, mutant, reason).Ok? && WithdrawalOf(f, mutant, reason) == WithdrawalOf(g, mutant, reason)
  {
    BareRows(f, g);
    FirstSiteBare(f.survivors, g.survivors, mutant);
  }

  lemma {:induction false} BareEdit(f: Finding, g: Finding, verb: Verb, mutant: Key, reason: string)
    requires Bare(f) == Bare(g) && Edited(f, verb, mutant, reason).Ok?
    ensures Edited(g, verb, mutant, reason).Ok? && FirstSite(f.survivors, mutant) == FirstSite(g.survivors, mutant)
  {
    BareRows(f, g);
    FirstSiteBare(f.survivors, g.survivors, mutant);
    EditedBare(f, g, verb, mutant, reason);
  }

  lemma {:induction false} BareAttested(f: Finding, g: Finding)
    requires Bare(f) == Bare(g)
    ensures f.attested == g.attested
  {
    BareRows(f, g);
  }

  lemma {:induction false} ProjectUntouched(events: seq<DocEvent>, key: string, mutant: Key)
    requires forall e :: e in events && e.Disposed? && e.key == key ==> e.mutant != mutant
    ensures Untouched(Project(events, key), mutant)
  {
    if events != [] {
      var n := |events| - 1;
      assert events[n] in events;
      ProjectUntouched(events[..n], key, mutant);
    }
  }

  lemma {:induction false} WithdrawalStandsFrom(states: seq<Document>, events: seq<DocEvent>, run: seq<Finding>,
          snaps: Snapshots, key: string, f: Finding, i: nat, mutant: Key, reason: string)
    requires DocRun(states, events, run, snaps) && Stood(states, run, snaps, key, f)
    requires i < |events| && events[i] == Disposed(key, DoWithdraw, mutant, reason)
    requires key in states[i] && Withdrawn(states[i][key], mutant, reason).Ok?
    requires mutant in SiteMap(f.survivors) ==>
               var site := WithdrawalOf(states[i][key], mutant, reason).site; site == "" || site == SiteMap(f.survivors)[mutant]
    requires forall e :: e in events[i + 1..] && e.Disposed? && e.key == key ==> e.mutant != mutant
    ensures key in states[|events|] && mutant !in AttestedIds(states[|events|][key].attested)
  {
    var snap, start := SnapshotOf(snaps, key), states[0][key];
    var before, after := Project(events[..i], key), Project(events[i + 1..], key);
    LiveIsPlayed(states, events, run, snaps, key, f, i);
    BareWithdrawal(states[i][key], Play(start, before, f, snap), mutant, reason);
    ProjectUntouched(events[i + 1..], key, mutant);
    WithdrawalNeverResurrected(start, before, mutant, reason, after, f, snap);
    ProjectAt(events, i, key, DoWithdraw, mutant, reason);
    RecordProjection(states, events, run, snaps, key, f);
    BareAttested(states[|events|][key], Play(start, Project(events, key), f, snap));
  }

  /**
   A withdrawal another session makes at step i is never resurrected by any commit or merge of the run, in any
   interleaving, when its recorded site is empty or the fresh survivor's. The record stood when the run began, or the
   run's own commit created it.
   */
  lemma {:induction false} DocumentWithdrawalStands(states: seq<Document>, events: seq<DocEvent>, run: seq<Finding>,
          snaps: Snapshots, key: string, f: Finding, i: nat, mutant: Key, reason: string)
    requires DocRun(states, events, run, snaps) && BeganOn(states, run, snaps, key, f)
    requires i < |events| && events[i] == Disposed(key, DoWithdraw, mutant, reason)
    requires key in states[i] && Withdrawn(states[i][key], mutant, reason).Ok?
    requires mutant in SiteMap(f.survivors) ==>
               var site := WithdrawalOf(states[i][key], mutant, reason).site; site == "" || site == SiteMap(f.survivors)[mutant]
    requires forall e :: e in events[i + 1..] && e.Disposed? && e.key == key ==> e.mutant != mutant
    ensures key in states[|events|] && mutant !in AttestedIds(states[|events|][key].attested)
  {
    var b := Origin(states, events, run, snaps, key, f, i);
    assert events[b..][i - b + 1..] == events[i + 1..];
    WithdrawalStandsFrom(states[b..], events[b..], run, snaps, key, f, i - b, mutant, reason);
  }

  lemma {:induction false} DispositionReachesTheEndFrom(states: seq<Document>, events: seq<DocEvent>, run: seq<Finding>,
          snaps: Snapshots, key: string, f: Finding, i: nat, verb: Verb, mutant: Key, reason: string)
    requires DocRun(states, events, run, snaps) && Stood(states, run, snaps, key, f)
    requires i < |events| && events[i] == Disposed(key, verb, mutant, reason) && !verb.DoWithdraw?
    requires key in states[i] && Edited(states[i][key], verb, mutant, reason).Ok?
    requires NewReason(SnapshotOf(snaps, key), mutant, reason) && mutant in SiteMap(f.survivors)
    requires var site := FirstSite(states[i][key].survivors, mutant); site == Some("") || site == Some(SiteMap(f.survivors)[mutant])
    requires forall e :: e in events[i + 1..] && e.Disposed? && e.key == key ==> e.mutant != mutant
    ensures key in states[|events|] && Holds(states[|events|][key], f, mutant, reason)
  {
    var snap, start := SnapshotOf(snaps, key), states[0][key];
    var before, after := Project(events[..i], key), Project(events[i + 1..], key);
    LiveIsPlayed(states, events, run, snaps, key, f, i);
    BareEdit(states[i][key], Play(start, before, f, snap), verb, mutant, reason);
    ProjectUntouched(events[i + 1..], key, mutant);
    NewDispositionReachesTheEnd(start, before, verb, mutant, reason, after, f, snap);
    ProjectAt(events, i, key, verb, mutant, reason);
    RecordProjection(states, events, run, snaps, key, f);
    BareAttested(states[|events|][key], Play(start, Project(events, key), f, snap));
  }

  /** A disposition recorded at step i with a reason new since the snapshot is in the final document's record. */
  lemma {:induction false} DocumentDispositionReachesTheEnd(states: seq<Document>, events: seq<DocEvent>,
          run: seq<Finding>, snaps: Snapshots, key: string, f: Finding, i: nat, verb: Verb, mutant: Key, reason: string)
    requires DocRun(states, events, run, snaps) && BeganOn(states, run, snaps, key, f)
    requires i < |events| && events[i] == Disposed(key, verb, mutant, reason) && !verb.DoWithdraw?
    requires key in states[i] && Edited(states[i][key], verb, mutant, reason).Ok?
    requires NewReason(SnapshotOf(snaps, key), mutant, reason) && mutant in SiteMap(f.survivors)
    requires var site := FirstSite(states[i][key].survivors, mutant); site == Some("") || site == Some(SiteMap(f.survivors)[mutant])
    requires forall e :: e in events[i + 1..] && e.Disposed? && e.key == key ==> e.mutant != mutant
    ensures key in states[|events|] && Holds(states[|events|][key], f, mutant, reason)
  {
    var b := Origin(states, events, run, snaps, key, f, i);
    assert events[b..][i - b + 1..] == events[i + 1..];
    DispositionReachesTheEndFrom(states[b..], events[b..], run, snaps, key, f, i - b, verb, mutant, reason);
  }

  ghost predicate Told(sheds: seq<AttestationShed>, symbol: string, mutant: Key) {
    exists d :: d in sheds && d.symbol == symbol && d.Id() == mutant
  }

  lemma {:induction false} MergeTells(part: seq<Finding>, base: Document, snaps: Snapshots, key: string, f: Finding,
          mutant: Key)
    requires OnePerKey(part) && Measured(part, key) == Some(f) && key in base
    requires mutant in ShedIds(GraftOnto(base[key], f, SnapshotOf(snaps, key)).sheds)
    ensures Told(MergeInto(part, base, snaps).sheds, f.symbol, mutant)
  {
    var init, last := part[..|part| - 1], part[|part| - 1];
    var m := MergeInto(init, base, snaps);
    if last.skipped == "" && KeyOf(last) == key {
      NotMeasured(init, key);
      MergeIntoAt(init, base, snaps, key);
      var g := GraftOnto(base[key], f, SnapshotOf(snaps, key));
      var j :| 0 <= j < |g.sheds| && ShedIds(g.sheds)[j] == mutant;
      assert WithSymbol(g.sheds, f.symbol)[j] in m.sheds + WithSymbol(g.sheds, f.symbol);
    } else {
      MergeTells(init, base, snaps, key, f, mutant);
      var d :| d in m.sheds && d.symbol == f.symbol && d.Id() == mutant;
      assert d in MergeInto(part, base, snaps).sheds;
    }
  }

  ghost predicate FirstMergeOf(events: seq<DocEvent>, i: nat, key: string) {
    && i < |events| && events[i].Merges? && Measured(events[i].part, key).Some?
    && forall j :: 0 <= j < i && events[j].Merges? ==> Measured(events[j].part, key).None?
  }

  lemma {:induction false} ProjectUnmerged(events: seq<DocEvent>, key: string)
    requires forall e :: e in events && e.Merges? ==> Measured(e.part, key).None?
    ensures Merge !in Project(events, key)
  {
    if events != [] {
      var n := |events| - 1;
      assert events[n] in events;
      ProjectUnmerged(events[..n], key);
    }
  }

  lemma {:induction false} ProjectMerge(events: seq<DocEvent>, i: nat, key: string)
    requires i < |events| && events[i].Merges? && Measured(events[i].part, key).Some?
    ensures Project(events, key) == Project(events[..i], key) + [Merge] + Project(events[i + 1..], key)
  {
    assert events == events[..i] + [events[i]] + events[i + 1..];
    ProjectSplit(events[..i] + [events[i]], events[i + 1..], key);
    ProjectSplit(events[..i], [events[i]], key);
    assert [events[i]][..0] == [];
  }

  /** A snapshot disposition the run did not carry and no session touched: the record's first merge tells it shed, and it stays gone. */
  lemma {:induction false} DocumentDispositionSheds(states: seq<Document>, events: seq<DocEvent>, run: seq<Finding>,
          snaps: Snapshots, key: string, f: Finding, i: nat, mutant: Key)
    requires DocRun(states, events, run, snaps) && BeganOn(states, run, snaps, key, f) && FirstMergeOf(events, i, key)
    requires forall e :: e in events && e.Disposed? && e.key == key ==> e.mutant != mutant
    requires mutant in SnapshotOf(snaps, key).value && mutant !in AttestedMap(f.attested)
    ensures key in states[i] && Told(MergeInto(events[i].part, states[i], snaps).sheds, f.symbol, mutant)
    ensures key in states[|events|] && mutant !in AttestedIds(states[|events|][key].attested)
  {
    var snap, start := SnapshotOf(snaps, key), states[0][key];
    var before, after := Project(events[..i], key), Project(events[i + 1..], key);
    forall e | e in events[..i] && e.Merges? ensures Measured(e.part, key).None? {
      var j :| 0 <= j < i && events[j] == e;
    }
    ProjectUnmerged(events[..i], key);
    ProjectUntouched(events[..i], key, mutant);
    ProjectUntouched(events[i + 1..], key, mutant);
    RejectedDispositionSheds(start, before, after, f, snap, mutant);
    LiveIsPlayed(states, events, run, snaps, key, f, i);
    BareRows(states[i][key], Play(start, before, f, snap));
    assert DocStep(states[i], events[i], states[i + 1], run, snaps);
    MergeTells(events[i].part, states[i], snaps, key, f, mutant);
    ProjectMerge(events, i, key);
    RecordProjection(states, events, run, snaps, key, f);
    BareAttested(states[|events|][key], Play(start, Project(events, key), f, snap));
  }
}
