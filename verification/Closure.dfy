/**
 The validator's invariant is closed under every rewrite of a record: the measurement half because a record of an
 outcome vector always reconciles, the disposition half because each rewrite keeps dispositions on survivors.
 */
module Closure {
  import opened Wrappers
  import opened Text
  import opened Sorting
  import opened SelectionText
  import opened Records
  import opened Vectors
  import opened Dispositions
  import opened Grafting
  import opened Annotation
  import opened Merging
  import opened Reconcile
  import opened Splicing
  import opened Validator
  import opened DispositionRuns

  // ---- a record of a vector reconciles ----

  /** The engine names every candidate's position and operator. */
  ghost predicate NamedCandidates(cs: seq<Candidate>) {
    forall i :: 0 <= i < |cs| ==> cs[i].position != "" && cs[i].operator != ""
  }

  /** Every kill is attributed to a named test. */
  ghost predicate NamedKillers(os: seq<Outcome>, ks: seq<string>)
    requires |os| == |ks|
  {
    forall i :: 0 <= i < |os| && os[i] == Killed ==> ks[i] != ""
  }

  ghost predicate Reasoned(rows: seq<CandidateEvidence>) { forall e :: e in rows ==> e.reason != "" }

  ghost predicate AnnotationsValid(f: Finding) {
    forall s :: s in f.survivors ==> AnnotationValid(s.otherSelection, f.selection)
  }

  /** The selection the budget stamp describes is the one measured. */
  predicate Stamped(f: Finding, n: nat) {
    && 0 <= f.candidateCount && 0 <= f.budget && n <= MAX_INT64
    && n == if 0 < f.budget < f.candidateCount then f.budget else f.candidateCount
  }

  ghost predicate Vector(cs: seq<Candidate>, os: seq<Outcome>, ks: seq<string>) {
    |os| == |ks| == |cs| && UniqueIdentities(cs) && NamedCandidates(cs) && NamedKillers(os, ks)
  }

  lemma {:induction false} SurvivorsCounted(xs: seq<Survivor>, cs: seq<Candidate>, os: seq<Outcome>, n: nat, op: string)
    requires n <= |cs| && n <= |os| && SurvivorIds(xs) == SurvivingKeys(cs, os, n)
    ensures SurvivorsOf(xs, op) == Count(cs, os, n, op, Survived)
  {
    if n > 0 {
      if os[n - 1] == Survived {
        assert SurvivorIds(xs)[|xs| - 1] == cs[n - 1].Id();
        assert SurvivorIds(xs[..|xs| - 1]) == SurvivorIds(xs)[..|xs| - 1];
        assert SurvivingKeys(cs, os, n)[..|xs| - 1] == SurvivingKeys(cs, os, n - 1);
        SurvivorsCounted(xs[..|xs| - 1], cs, os, n - 1, op);
      } else {
        SurvivorsCounted(xs, cs, os, n - 1, op);
      }
    } else {
      assert |SurvivorIds(xs)| == 0;
    }
  }

  lemma {:induction false} SurvivorsNamed(f: Finding, cs: seq<Candidate>, os: seq<Outcome>)
    requires |os| == |cs| && NamedCandidates(cs) && SurvivorIds(f.survivors) == SurvivingKeys(cs, os, |cs|)
    ensures forall s :: s in f.survivors ==> SurvivorNamed(s)
  {
    forall s | s in f.survivors ensures SurvivorNamed(s) {
      var j :| 0 <= j < |f.survivors| && f.survivors[j] == s;
      assert SurvivorIds(f.survivors)[j] == s.Id();
      SurvivingKeysExact(cs, os, |cs|, s.Id());
      var i :| 0 <= i < |cs| && os[i] == Survived && cs[i].Id() == s.Id();
    }
  }

  lemma {:induction false} KillsReconcile(f: Finding, cs: seq<Candidate>, os: seq<Outcome>, ks: seq<string>)
    requires Vector(cs, os, ks) && Represents(f, cs, os, ks, |cs|)
    ensures KillsValid(f)
  {
    if f.kills != [] {
      KillRowsExact(cs, os, ks, |cs|, f.kills[0]);
      KillRowsDistinct(cs, os, ks, |cs|);
      forall k | k in f.kills ensures KillNamed(k) && k.Id() !in SurvivorIds(f.survivors) {
        KillRowsExact(cs, os, ks, |cs|, k);
        SurvivingKeysExact(cs, os, |cs|, k.Id());
      }
    }
  }

  lemma {:induction false} GeneratedSums(ops: seq<OperatorSummary>, k: nat, cs: seq<Candidate>, os: seq<Outcome>)
    requires k <= |ops| && |os| == |cs|
    requires forall j :: 0 <= j < |ops| ==> ops[j] == Tally(cs, os, |cs|, ops[j].operator)
    ensures SumGenerated(ops, k) == SumOutcome(ops, k, Killed) + SumOutcome(ops, k, Survived) + SumOutcome(ops, k, Discarded)
  {
    if k > 0 {
      GeneratedSums(ops, k - 1, cs, os);
      CountConserved(cs, os, |cs|, ops[k - 1].operator);
    }
  }

  lemma {:induction false} SummariesReconcile(f: Finding, cs: seq<Candidate>, os: seq<Outcome>)
    requires |os| == |cs| && NamedCandidates(cs) && UniqueIdentities(cs) && Accounts(f, cs, os, |cs|)
    ensures OperatorsValid(f)
  {
    var ops := f.operators;
    forall s | s in ops ensures SummaryValid(s) && s.survived == SurvivorsOf(f.survivors, s.operator) {
      var j :| 0 <= j < |ops| && ops[j] == s;
      CountConserved(cs, os, |cs|, s.operator);
      SurvivorsCounted(f.survivors, cs, os, |cs|, s.operator);
      var i := SelectedWitness(cs, |cs|, s.operator);
    }
    SumsAreTotals(ops, cs, os, |cs|);
    GeneratedSums(ops, |ops|, cs, os);
    TotalConserved(os, |cs|);
    SurvivingKeysDistinct(cs, os, |cs|);
  }

  // ---- flagged candidates stay within their operator's totals ----

  function Matching(cs: seq<Candidate>, os: seq<Outcome>, n: nat, op: string, o: Outcome): set<Key>
    requires n <= |cs| && n <= |os|
  {
    if n == 0 then {} else
      Matching(cs, os, n - 1, op, o) + if cs[n - 1].operator == op && os[n - 1] == o then {cs[n - 1].Id()} else {}
  }

  lemma {:induction false} MatchingExact(cs: seq<Candidate>, os: seq<Outcome>, n: nat, op: string, o: Outcome, key: Key)
    requires n <= |cs| && n <= |os|
    ensures key in Matching(cs, os, n, op, o) <==> exists i :: 0 <= i < n && cs[i].operator == op && os[i] == o && cs[i].Id() == key
  {
    if n > 0 {
      MatchingExact(cs, os, n - 1, op, o, key);
    }
  }

  lemma {:induction false} MatchingSize(cs: seq<Candidate>, os: seq<Outcome>, n: nat, op: string, o: Outcome)
    requires n <= |cs| && n <= |os| && UniqueIdentities(cs)
    ensures |Matching(cs, os, n, op, o)| == Count(cs, os, n, op, o)
  {
    if n > 0 {
      MatchingSize(cs, os, n - 1, op, o);
      MatchingExact(cs, os, n - 1, op, o, cs[n - 1].Id());
    }
  }

  function FlaggedKeys(rows: seq<CandidateEvidence>, op: string, o: Outcome): set<Key> {
    if rows == [] then {} else
      var e := rows[|rows| - 1];
      FlaggedKeys(rows[..|rows| - 1], op, o) + if e.operator == op && e.disposition == Scored(o) then {e.Id()} else {}
  }

  lemma {:induction false} FlaggedExact(rows: seq<CandidateEvidence>, op: string, o: Outcome, key: Key)
    ensures key in FlaggedKeys(rows, op, o) <==> exists e :: e in rows && e.operator == op && e.disposition == Scored(o) && e.Id() == key
  {
    if rows != [] {
      FlaggedExact(rows[..|rows| - 1], op, o, key);
      assert rows == rows[..|rows| - 1] + [rows[|rows| - 1]];
    }
  }

  lemma {:induction false} FlaggedSize(rows: seq<CandidateEvidence>, op: string, o: Outcome)
    requires Distinct(EvidenceIds(rows))
    ensures |FlaggedKeys(rows, op, o)| == FlaggedOf(rows, op, o)
  {
    if rows != [] {
      var init, e := rows[..|rows| - 1], rows[|rows| - 1];
      assert EvidenceIds(rows) == EvidenceIds(init) + [e.Id()];
      DistinctInit(EvidenceIds(init), e.Id());
      FlaggedSize(init, op, o);
      FlaggedExact(init, op, o, e.Id());
      EvidenceAbsent(init, e.Id());
    }
  }

  lemma {:induction false} EvidenceAbsent(rows: seq<CandidateEvidence>, key: Key)
    requires key !in EvidenceIds(rows)
    ensures forall e :: e in rows ==> e.Id() != key
  {
    forall e | e in rows ensures e.Id() != key {
      var i :| 0 <= i < |rows| && rows[i] == e;
      assert EvidenceIds(rows)[i] == e.Id();
    }
  }

  lemma {:induction false} SubsetSize<T>(a: set<T>, b: set<T>)
    requires a <= b
    ensures |a| <= |b|
  {
    assert |b - a| == |b| - |a|;
  }

  lemma {:induction false} ClaimedTally(ops: seq<OperatorSummary>, cs: seq<Candidate>, os: seq<Outcome>, op: string,
          o: Outcome)
    requires |os| == |cs|
    requires forall j :: 0 <= j < |ops| ==> ops[j] == Tally(cs, os, |cs|, ops[j].operator)
    requires Names(ops, op)
    ensures Claimed(ops, op, o) == Count(cs, os, |cs|, op, o)
  {
    if ops[|ops| - 1].operator != op {
      var j :| 0 <= j < |ops| && ops[j].operator == op;
      assert ops[..|ops| - 1][j].operator == op;
      ClaimedTally(ops[..|ops| - 1], cs, os, op, o);
    }
  }

  lemma {:induction false} FlaggedReconcile(f: Finding, cs: seq<Candidate>, os: seq<Outcome>, o: Outcome)
    requires |os| == |cs| && UniqueIdentities(cs) && Accounts(f, cs, os, |cs|) && EvidenceRecords(f.candidateEvidence, cs, os, |cs|)
    ensures FlaggedWithinTotals(f.candidateEvidence, f.operators, o)
  {
    var rows := f.candidateEvidence;
    forall op | FlaggedOf(rows, op, o) > 0 ensures FlaggedOf(rows, op, o) <= Claimed(f.operators, op, o) {
      FlaggedSize(rows, op, o);
      MatchingSize(cs, os, |cs|, op, o);
      forall key | key in FlaggedKeys(rows, op, o) ensures key in Matching(cs, os, |cs|, op, o) {
        FlaggedExact(rows, op, o, key);
        var e :| e in rows && e.operator == op && e.disposition == Scored(o) && e.Id() == key;
        var j :| 0 <= j < |rows| && rows[j] == e;
        assert RecordsOutcome(rows[j], cs, os, |cs|);
        MatchingExact(cs, os, |cs|, op, o, key);
      }
      SubsetSize(FlaggedKeys(rows, op, o), Matching(cs, os, |cs|, op, o));
      var key :| key in Matching(cs, os, |cs|, op, o);
      MatchingExact(cs, os, |cs|, op, o, key);
      var i :| 0 <= i < |cs| && cs[i].operator == op && os[i] == o;
      assert Names(f.operators, cs[i].operator);
      ClaimedTally(f.operators, cs, os, op, o);
    }
  }

  lemma {:induction false} EvidenceReconciles(f: Finding, cs: seq<Candidate>, os: seq<Outcome>)
    requires |os| == |cs| && UniqueIdentities(cs) && NamedCandidates(cs) && Reasoned(f.candidateEvidence)
    requires SurvivorIds(f.survivors) == SurvivingKeys(cs, os, |cs|) && EvidenceRecords(f.candidateEvidence, cs, os, |cs|)
    ensures EvidenceIdentitiesValid(f)
  {
    var rows := f.candidateEvidence;
    forall e | e in rows ensures EvidenceNamed(e) && (e.disposition == Scored(Survived) <==> e.Id() in SurvivorIds(f.survivors)) {
      var j :| 0 <= j < |rows| && rows[j] == e;
      assert RecordsOutcome(rows[j], cs, os, |cs|);
      var i :| 0 <= i < |cs| && cs[i].Id() == e.Id() && cs[i].runnable && e.disposition == Scored(os[i]);
      SurvivingKeysExact(cs, os, |cs|, e.Id());
    }
  }

  /** A record of an outcome vector passes every measurement check of the validator. */
  lemma {:induction false} RepresentedIsValid(f: Finding, cs: seq<Candidate>, os: seq<Outcome>, ks: seq<string>)
    requires Vector(cs, os, ks) && Represents(f, cs, os, ks, |cs|)
    requires Stamped(f, |cs|) && Reasoned(f.candidateEvidence) && AnnotationsValid(f)
    ensures MeasurementValid(f)
  {
    TotalConserved(os, |cs|);
    SurvivingKeysDistinct(cs, os, |cs|);
    KillsReconcile(f, cs, os, ks);
    SurvivorsNamed(f, cs, os);
    SummariesReconcile(f, cs, os);
    EvidenceReconciles(f, cs, os);
    FlaggedReconcile(f, cs, os, Killed);
    FlaggedReconcile(f, cs, os, Discarded);
  }

  // ---- dispositions ----

  /** Dispositions are judged apart from the measurement. */
  lemma {:induction false} DispositionsApart(f: Finding, attested: seq<Attestation>,
          withdrawn: seq<WithdrawnAttestation>)
    requires Accepted(f)
    requires AttestedValid(f.(attested := attested, withdrawn := withdrawn)) && WithdrawnValid(f.(attested := attested, withdrawn := withdrawn))
    ensures Accepted(f.(attested := attested, withdrawn := withdrawn))
  {
    var g := f.(attested := attested, withdrawn := withdrawn);
    assert OracleSymbols(g) == OracleSymbols(f);
    assert EvidenceComplete(g) <==> EvidenceComplete(f);
    assert EvidenceAccepted(g);
    assert MeasurementValid(g);
  }

  /** Membership form of the two disposition rules. */
  lemma {:induction false} DispositionRules(f: Finding)
    requires Distinct(AttestedIds(f.attested)) && Distinct(WithdrawnIds(f.withdrawn))
    requires forall key :: key in AttestedMap(f.attested) ==>
               AttestationNamed(AttestedMap(f.attested)[key]) && key in SurvivorIds(f.survivors)
    requires forall key :: key in WithdrawnMap(f.withdrawn) ==>
               WithdrawalNamed(WithdrawnMap(f.withdrawn)[key]) && key in SurvivorIds(f.survivors) && key !in AttestedMap(f.attested)
    ensures AttestedValid(f) && WithdrawnValid(f)
  {
    AttestedMapExact(f.attested);
    WithdrawnMapExact(f.withdrawn);
    forall a | a in f.attested ensures AttestationNamed(a) && a.Id() in SurvivorIds(f.survivors) {
      var i :| 0 <= i < |f.attested| && f.attested[i] == a;
    }
    forall w | w in f.withdrawn ensures WithdrawalNamed(w) && w.Id() in SurvivorIds(f.survivors) && w.Id() !in AttestedIds(f.attested) {
      var i :| 0 <= i < |f.withdrawn| && f.withdrawn[i] == w;
    }
  }

  lemma {:induction false} AttestedRule(f: Finding, key: Key)
    requires AttestedValid(f) && key in AttestedMap(f.attested)
    ensures AttestationNamed(AttestedMap(f.attested)[key]) && AttestedMap(f.attested)[key].Id() == key && key in SurvivorIds(f.survivors)
  {
    AttestedMapExact(f.attested);
  }

  lemma {:induction false} WithdrawnRule(f: Finding, key: Key)
    requires WithdrawnValid(f) && key in WithdrawnMap(f.withdrawn)
    ensures WithdrawalNamed(WithdrawnMap(f.withdrawn)[key]) && WithdrawnMap(f.withdrawn)[key].Id() == key
    ensures key in SurvivorIds(f.survivors) && key !in AttestedMap(f.attested)
  {
    WithdrawnMapExact(f.withdrawn);
    AttestedMapExact(f.attested);
  }

  lemma {:induction false} AcceptedIsTidy(f: Finding)
    requires Accepted(f)
    ensures Tidy(f)
  {
  }

  lemma {:induction false} SurvivorIsNamed(f: Finding, key: Key)
    requires SurvivorsValid(f) && key in SurvivorIds(f.survivors)
    ensures key.position != "" && key.operator != ""
  {
    var i :| 0 <= i < |f.survivors| && SurvivorIds(f.survivors)[i] == key;
    assert f.survivors[i] in f.survivors;
  }

  /** What one edit leaves at its own mutant. */
  lemma {:induction false} EditOwn(f: Finding, verb: Verb, mutant: Key, reason: string)
    requires Accepted(f) && Edited(f, verb, mutant, reason).Ok?
    ensures mutant in SurvivorIds(f.survivors)
    ensures var g := Edited(f, verb, mutant, reason).value;
            && (mutant in AttestedMap(g.attested) ==> AttestationNamed(AttestedMap(g.attested)[mutant]) && !verb.DoWithdraw?)
            && (mutant in WithdrawnMap(g.withdrawn) ==> WithdrawalNamed(WithdrawnMap(g.withdrawn)[mutant]) && mutant !in AttestedMap(g.attested))
  {
    AcceptedIsTidy(f);
    FirstSiteFinds(f.survivors, mutant);
    FirstAttestedFinds(f.attested, mutant);
    match verb {
      case DoAttest =>
        SurvivorIsNamed(f, mutant);
        AttestRow(f, verb, mutant, reason);
        WithoutWithdrawnAt(f.withdrawn, mutant, mutant);
      case DoReattest =>
        SurvivorIsNamed(f, mutant);
        AttestRow(f, verb, mutant, reason);
        AttestedLookup(f.attested, mutant);
        var i := FirstAttested(f.attested, mutant).value;
        assert AttestedIds(f.attested)[i] == mutant;
        if mutant in WithdrawnMap(f.withdrawn) {
          WithdrawnRule(f, mutant);
        }
      case DoWithdraw =>
        WithdrawRow(f, mutant, reason, mutant);
        var i := FirstAttested(f.attested, mutant).value;
        assert f.attested[i] in f.attested;
        SurvivorIsNamed(f, mutant);
    }
  }

  /** Attest, re-attest and withdraw keep an accepted record accepted. */
  lemma {:induction false} EditKeepsAccepted(f: Finding, verb: Verb, mutant: Key, reason: string)
    requires Accepted(f) && Edited(f, verb, mutant, reason).Ok?
    ensures Accepted(Edited(f, verb, mutant, reason).value)
  {
    var g := Edited(f, verb, mutant, reason).value;
    AcceptedIsTidy(f);
    EditOwn(f, verb, mutant, reason);
    EditAt(f, verb, mutant, reason, mutant);
    forall key | key in AttestedMap(g.attested) ensures AttestationNamed(AttestedMap(g.attested)[key]) && key in SurvivorIds(f.survivors) {
      if key != mutant {
        EditAt(f, verb, mutant, reason, key);
        AttestedRule(f, key);
      }
    }
    forall key | key in WithdrawnMap(g.withdrawn)
      ensures WithdrawalNamed(WithdrawnMap(g.withdrawn)[key]) && key in SurvivorIds(f.survivors) && key !in AttestedMap(g.attested)
    {
      if key != mutant {
        EditAt(f, verb, mutant, reason, key);
        WithdrawnRule(f, key);
      }
    }
    DispositionRules(g);
    EditFrame(f, verb, mutant, reason);
    DispositionsApart(f, g.attested, g.withdrawn);
  }

  /** An edit rewrites the disposition lists only. */
  lemma {:induction false} EditFrame(f: Finding, verb: Verb, mutant: Key, reason: string)
    requires Edited(f, verb, mutant, reason).Ok?
    ensures var g := Edited(f, verb, mutant, reason).value; g == f.(attested := g.attested, withdrawn := g.withdrawn)
  {
  }

  /** Grafting an accepted live record's dispositions keeps the fresh record accepted, under any snapshot. */
  lemma {:induction false} GraftKeepsAccepted(live: Finding, f: Finding, snap: Snapshot)
    requires Accepted(live) && Accepted(f)
    ensures Accepted(MergedOnto(live, f, snap))
  {
    var g := MergedOnto(live, f, snap);
    AcceptedIsTidy(live);
    AcceptedIsTidy(f);
    MergeAt(live, f, snap, Key("", ""));
    SiteMapExact(f.survivors);
    forall key | key in AttestedMap(g.attested) ensures AttestationNamed(AttestedMap(g.attested)[key]) && key in SurvivorIds(f.survivors) {
      GraftAttestedRule(live, f, snap, key);
    }
    forall key | key in WithdrawnMap(g.withdrawn)
      ensures WithdrawalNamed(WithdrawnMap(g.withdrawn)[key]) && key in SurvivorIds(f.survivors) && key !in AttestedMap(g.attested)
    {
      GraftWithdrawnRule(live, f, snap, key);
    }
    DispositionRules(g);
    DispositionsApart(f, g.attested, g.withdrawn);
  }

  lemma {:induction false} GraftAttestedRule(live: Finding, f: Finding, snap: Snapshot, key: Key)
    requires Accepted(live) && Accepted(f) && key in AttestedMap(MergedOnto(live, f, snap).attested)
    ensures AttestationNamed(AttestedMap(MergedOnto(live, f, snap).attested)[key]) && key in SiteMap(f.survivors)
  {
    MergeAt(live, f, snap, key);
    SiteMapExact(f.survivors);
    if key in AttestedMap(live.attested) {
      AttestedRule(live, key);
    }
    if key in AttestedMap(f.attested) {
      AttestedRule(f, key);
    }
  }

  lemma {:induction false} GraftWithdrawnRule(live: Finding, f: Finding, snap: Snapshot, key: Key)
    requires Accepted(live) && Accepted(f) && key in WithdrawnMap(MergedOnto(live, f, snap).withdrawn)
    ensures var g := MergedOnto(live, f, snap);
            WithdrawalNamed(WithdrawnMap(g.withdrawn)[key]) && key in SiteMap(f.survivors) && key !in AttestedMap(g.attested)
  {
    MergeAt(live, f, snap, key);
    if key in WithdrawnMap(live.withdrawn) {
      WithdrawnRule(live, key);
    }
    if key in WithdrawnMap(f.withdrawn) {
      WithdrawnRule(f, key);
    }
  }

  // ---- annotation ----

  lemma {:induction false} AnnotatedTextValid(f: Finding, peers: seq<Finding>, s: Survivor)
    requires forall p :: p in peers ==> Annotatable(p)
    requires forall i, j :: 0 <= i < j < |peers| ==> peers[i].selection != peers[j].selection
    ensures AnnotationValid(Annotate(s, f, peers).otherSelection, f.selection)
  {
    var vs := Verdicts(f, peers, s.Id(), s.site);
    VerdictsCanonical(f, peers, s.Id(), s.site);
    SortByMembers(vs, BySelection);
    SortByStrict(vs, BySelection);
    VerdictsRoundTrip(SortBy(vs, BySelection));
    assert forall i, j :: 0 <= i < j < |SortBy(vs, BySelection)| ==>
             Less(BySelection(SortBy(vs, BySelection)[i]), BySelection(SortBy(vs, BySelection)[j]));
  }

  lemma {:induction false} SameOperators(xs: seq<Survivor>, ys: seq<Survivor>, op: string)
    requires SurvivorIds(xs) == SurvivorIds(ys)
    ensures SurvivorsOf(xs, op) == SurvivorsOf(ys, op)
  {
    assert |xs| == |SurvivorIds(xs)| == |SurvivorIds(ys)| == |ys|;
    if xs != [] {
      var n := |xs| - 1;
      assert SurvivorIds(xs)[n] == xs[n].Id() && SurvivorIds(ys)[n] == ys[n].Id();
      assert SurvivorIds(xs[..n]) == SurvivorIds(xs)[..n];
      assert SurvivorIds(ys[..n]) == SurvivorIds(ys)[..n];
      SameOperators(xs[..n], ys[..n], op);
    }
  }

  /** Survivor texts matter to the validator only as annotations. */
  lemma {:induction false} SurvivorTextApart(f: Finding, survivors: seq<Survivor>)
    requires Accepted(f) && SurvivorIds(survivors) == SurvivorIds(f.survivors)
    requires AnnotationsValid(f.(survivors := survivors))
    ensures Accepted(f.(survivors := survivors))
  {
    var g := f.(survivors := survivors);
    assert |survivors| == |SurvivorIds(survivors)| == |f.survivors|;
    forall op ensures SurvivorsOf(survivors, op) == SurvivorsOf(f.survivors, op) {
      SameOperators(survivors, f.survivors, op);
    }
    forall s | s in survivors ensures SurvivorNamed(s) {
      var i :| 0 <= i < |survivors| && survivors[i] == s;
      assert SurvivorIds(survivors)[i] == SurvivorIds(f.survivors)[i] == f.survivors[i].Id();
      assert f.survivors[i] in f.survivors;
    }
    assert OracleSymbols(g) == OracleSymbols(f);
    assert EvidenceComplete(g) <==> EvidenceComplete(f);
    assert EvidenceAccepted(g);
    assert KillsValid(g) && SurvivorsValid(g) && OperatorsValid(g) && EvidenceRowsValid(g);
  }

  /** Annotating a document of unique keys whose killers and reasons are single trimmed lines keeps its records accepted. */
  lemma {:induction false} AnnotateKeepsAccepted(doc: seq<Finding>, f: Finding)
    requires UniqueRecords(doc) && (forall g :: g in doc ==> Annotatable(g)) && Accepted(f)
    ensures Accepted(AnnotatedRecord(doc, f))
  {
    if f.skipped == "" && |Group(doc, f.symbol)| >= 2 {
      var peers := Group(doc, f.symbol);
      var g := AnnotatedRecord(doc, f);
      forall p | p in peers ensures Annotatable(p) {
        GroupMembers(doc, f.symbol, p);
      }
      GroupSelectionsDistinct(doc, f.symbol);
      AnnotatedIsBareEqual(doc, f);
      forall s | s in g.survivors ensures AnnotationValid(s.otherSelection, g.selection) {
        var i :| 0 <= i < |g.survivors| && g.survivors[i] == s;
        AnnotatedTextValid(f, peers, f.survivors[i]);
      }
      SurvivorTextApart(f, g.survivors);
    }
  }

  // ---- splice and extension ----

  lemma {:induction false} KeptRows(xs: seq<Attestation>, sites: map<Key, string>, key: Key)
    requires Distinct(AttestedIds(xs))
    ensures Distinct(AttestedIds(KeepAnchored(xs, sites)))
    ensures key in AttestedMap(KeepAnchored(xs, sites)) <==> key in AttestedMap(xs) && key in sites
    ensures key in AttestedMap(KeepAnchored(xs, sites)) ==> AttestedMap(KeepAnchored(xs, sites))[key].reason == AttestedMap(xs)[key].reason
                                                             && AttestedMap(KeepAnchored(xs, sites))[key].Id() == key
  {
    if xs != [] {
      var init, a := xs[..|xs| - 1], xs[|xs| - 1];
      SplitLast(xs);
      AttestedAppend(init, a, key);
      DistinctInit(AttestedIds(init), a.Id());
      KeptRows(init, sites, key);
      KeptRows(init, sites, a.Id());
      var out := KeepAnchored(init, sites);
      AttestedLookup(init, a.Id());
      AttestedLookup(out, a.Id());
      if a.Id() in sites {
        var b := a.(site := if a.site == "" then sites[a.Id()] else a.site);
        AttestedAppend(out, b, key);
        DistinctAppend(AttestedIds(out), a.Id());
      } else {
        assert KeepAnchored(xs, sites) == out;
      }
    }
  }

  lemma {:induction false} StampedRows(xs: seq<Attestation>, sites: map<Key, string>, key: Key)
    ensures AttestedIds(StampSites(xs, sites)) == AttestedIds(xs)
    ensures key in AttestedMap(StampSites(xs, sites)) <==> key in AttestedMap(xs)
    ensures key in AttestedMap(xs) ==> AttestedMap(StampSites(xs, sites))[key].reason == AttestedMap(xs)[key].reason
                                       && AttestedMap(StampSites(xs, sites))[key].Id() == AttestedMap(xs)[key].Id() == key
  {
    if xs != [] {
      var init, a := xs[..|xs| - 1], xs[|xs| - 1];
      SplitLast(xs);
      AttestedAppend(init, a, key);
      StampedRows(init, sites, key);
      var out := StampSites(init, sites);
      var b := if a.site == "" then a.(site := SiteAt(sites, a.Id())) else a;
      AttestedAppend(out, b, key);
    } else {
      assert AttestedIds(StampSites(xs, sites)) == AttestedIds(xs);
    }
  }

  /** Withdrawals re-anchored over new survivors stay valid beside any valid attested list. */
  lemma {:induction false} ReanchoredValid(f: Finding, prior: seq<WithdrawnAttestation>)
    requires AttestedValid(f) && Distinct(WithdrawnIds(prior)) && forall w :: w in prior ==> WithdrawalNamed(w)
    requires f.withdrawn == AddWithdrawn(prior, [], AttestedSet(f.attested), SiteMap(f.survivors))
    ensures WithdrawnValid(f)
  {
    var sites, taken := SiteMap(f.survivors), AttestedSet(f.attested);
    AddWithdrawnDistinct(prior, [], taken, sites);
    SiteMapExact(f.survivors);
    forall key | key in WithdrawnMap(f.withdrawn)
      ensures WithdrawalNamed(WithdrawnMap(f.withdrawn)[key]) && key in SurvivorIds(f.survivors) && key !in AttestedMap(f.attested)
    {
      AddWithdrawnAt(prior, [], taken, sites, key);
      AttestedLookup(f.attested, key);
      WithdrawnMapExact(prior);
    }
    forall key | key in AttestedMap(f.attested) ensures AttestationNamed(AttestedMap(f.attested)[key]) && key in SurvivorIds(f.survivors) {
      AttestedRule(f, key);
    }
    DispositionRules(f);
  }

  /** Every attested row comes from an accepted record and names one of the new survivors. */
  lemma {:induction false} CarriedAttestedValid(rec: Finding, f: Finding)
    requires AttestedValid(rec) && Distinct(AttestedIds(f.attested))
    requires forall key :: key in AttestedMap(f.attested) ==>
               && key in AttestedMap(rec.attested) && key in SurvivorIds(f.survivors)
               && AttestedMap(f.attested)[key].Id() == key && AttestedMap(f.attested)[key].reason == AttestedMap(rec.attested)[key].reason
    ensures AttestedValid(f)
  {
    AttestedMapExact(f.attested);
    forall a | a in f.attested ensures AttestationNamed(a) && a.Id() in SurvivorIds(f.survivors) {
      var i :| 0 <= i < |f.attested| && f.attested[i] == a;
      AttestedRule(rec, a.Id());
    }
  }

  lemma {:induction false} EvidenceApart(rec: Finding, f: Finding)
    requires f.symbol == rec.symbol && f.selection == rec.selection && f.shape == rec.shape
    requires f.targetEvidence == rec.targetEvidence && f.oracleEvidence == rec.oracleEvidence
    ensures EvidenceAccepted(f) <==> EvidenceAccepted(rec)
    ensures EvidenceComplete(f) <==> EvidenceComplete(rec)
  {
    assert OracleSymbols(f) == OracleSymbols(rec);
  }

  lemma {:induction false} SplicedAnnotations(rec: Finding, cs: seq<Candidate>, os: seq<Outcome>, flagged: set<nat>,
          unstable: bool, flips: map<nat, string>, n: nat)
    requires n <= |cs| && n <= |os| && AnnotationsValid(rec)
    ensures forall s :: s in SplicedSurvivors(cs, os, flagged, SurvivorMap(rec.survivors), unstable, flips, n) ==>
              AnnotationValid(s.otherSelection, rec.selection)
  {
    SplicedTexts(SurvivorMap(rec.survivors), cs, os, flagged, unstable, flips, n);
    forall key ensures key in SurvivorMap(rec.survivors) ==> SurvivorMap(rec.survivors)[key] in rec.survivors {
      SurvivorMapRows(rec.survivors, key);
    }
  }

  ghost predicate TextFrom(prior: map<Key, Survivor>, text: string) {
    text == "" || exists key :: key in prior && prior[key].otherSelection == text
  }

  /** A splice invents no annotation. */
  lemma {:induction false} SplicedTexts(prior: map<Key, Survivor>, cs: seq<Candidate>, os: seq<Outcome>,
          flagged: set<nat>, unstable: bool, flips: map<nat, string>, n: nat)
    requires n <= |cs| && n <= |os|
    ensures forall s :: s in SplicedSurvivors(cs, os, flagged, prior, unstable, flips, n) ==> TextFrom(prior, s.otherSelection)
  {
    if n > 0 {
      SplicedTexts(prior, cs, os, flagged, unstable, flips, n - 1);
    }
  }

  lemma {:induction false} SurvivorMapRows(xs: seq<Survivor>, key: Key)
    ensures key in SurvivorMap(xs) ==> SurvivorMap(xs)[key] in xs
  {
    if xs != [] {
      SurvivorMapRows(xs[..|xs| - 1], key);
      assert xs == xs[..|xs| - 1] + [xs[|xs| - 1]];
    }
  }

  lemma {:induction false} SuffixAnnotations(cs: seq<Candidate>, os: seq<Outcome>, execution: string,
          flips: map<nat, string>, from: nat, n: nat)
    requires from <= n <= |cs| && n <= |os|
    ensures forall s :: s in SuffixSurvivors(cs, os, execution, flips, from, n) ==> s.otherSelection == ""
  {
    if n > from {
      SuffixAnnotations(cs, os, execution, flips, from, n - 1);
    }
  }

  /** A splice keeps the bounds, the evidence rows and the stamp; its rows are the walk's. */
  lemma {:induction false} SpliceKeepsAccepted(rec: Finding, r: Finding, cs: seq<Candidate>, flagged: set<nat>,
          scores: WindowScores, unstable: bool, posture: Posture, os: seq<Outcome>, ks: seq<string>)
    requires |scores.outcomes| == |scores.killers| == |cs| == |os| == |ks| && Accepted(rec) && Stamped(rec, |cs|)
    requires r == SplicedRecord(rec, scores, posture, Work(r.operators, r.survivors, r.kills, r.candidateEvidence), true)
    requires var after, killers := Replaced(os, scores.outcomes, flagged), Replaced(ks, scores.killers, flagged);
             && Vector(cs, after, killers) && Represents(r, cs, after, killers, |cs|)
             && r.survivors == SplicedSurvivors(cs, after, flagged, SurvivorMap(rec.survivors), unstable, scores.flips, |cs|)
    requires Reasoned(r.candidateEvidence)
    ensures Accepted(r)
  {
    var after := Replaced(os, scores.outcomes, flagged);
    SplicedAnnotations(rec, cs, after, flagged, unstable, scores.flips, |cs|);
    RepresentedIsValid(r, cs, after, Replaced(ks, scores.killers, flagged));
    EvidenceApart(rec, r);
    var sites := SiteMap(r.survivors);
    SiteMapExact(r.survivors);
    KeptRows(rec.attested, sites, Key("", ""));
    forall key | key in AttestedMap(r.attested)
      ensures key in AttestedMap(rec.attested) && key in SurvivorIds(r.survivors)
      ensures AttestedMap(r.attested)[key].Id() == key && AttestedMap(r.attested)[key].reason == AttestedMap(rec.attested)[key].reason
    {
      KeptRows(rec.attested, sites, key);
    }
    CarriedAttestedValid(rec, r);
    ReanchoredValid(r, rec.withdrawn);
  }

  /** An extension carries every disposition: the capped record's survivors are all still reported. */
  lemma {:induction false} ExtensionKeepsAccepted(rec: Finding, r: Finding, cs: seq<Candidate>, from: nat,
          scores: WindowScores, evidence: seq<CandidateEvidence>, budget: int, execution: string, posture: Posture,
          after: seq<Outcome>, killers: seq<string>)
    requires |scores.outcomes| == |cs| && from <= |cs| && Accepted(rec)
    requires r == ExtendedRecord(rec, scores, posture, r.operators, r.survivors, r.kills, evidence, budget, |cs|)
    requires r.survivors == rec.survivors + SuffixSurvivors(cs, scores.outcomes, execution, scores.flips, from, |cs|)
    requires Vector(cs, after, killers) && Represents(r, cs, after, killers, |cs|)
    requires Stamped(r, |cs|) && Reasoned(evidence)
    ensures Accepted(r)
  {
    SuffixAnnotations(cs, scores.outcomes, execution, scores.flips, from, |cs|);
    RepresentedIsValid(r, cs, after, killers);
    EvidenceApart(rec, r);
    var sites := SiteMap(r.survivors);
    StampedRows(rec.attested, sites, Key("", ""));
    forall key | key in AttestedMap(r.attested)
      ensures key in AttestedMap(rec.attested) && key in SurvivorIds(r.survivors)
      ensures AttestedMap(r.attested)[key].Id() == key && AttestedMap(r.attested)[key].reason == AttestedMap(rec.attested)[key].reason
    {
      StampedRows(rec.attested, sites, key);
      AttestedRule(rec, key);
      var i :| 0 <= i < |rec.survivors| && SurvivorIds(rec.survivors)[i] == key;
      assert SurvivorIds(r.survivors)[i] == r.survivors[i].Id() == key;
    }
    CarriedAttestedValid(rec, r);
    ReanchoredValid(r, rec.withdrawn);
  }

  // ---- fresh measurement ----

  lemma {:induction false} CarriedRows(prior: seq<Attestation>, sites: map<Key, string>, key: Key)
    requires Distinct(AttestedIds(prior))
    ensures var kept := CarryAll(prior, sites).kept;
            && Distinct(AttestedIds(kept))
            && (key in AttestedMap(kept) ==> key in AttestedMap(prior) && key in sites && AttestedMap(kept)[key].Id() == key
                                             && AttestedMap(kept)[key].reason == AttestedMap(prior)[key].reason)
  {
    if prior != [] {
      var init, a := prior[..|prior| - 1], prior[|prior| - 1];
      SplitLast(prior);
      AttestedAppend(init, a, key);
      DistinctInit(AttestedIds(init), a.Id());
      CarriedRows(init, sites, key);
      CarriedRows(init, sites, a.Id());
      var out := CarryAll(init, sites).kept;
      AttestedLookup(init, a.Id());
      AttestedLookup(out, a.Id());
      if a.Id() in sites && (a.site == "" || a.site == sites[a.Id()]) {
        AttestedAppend(out, a.(site := sites[a.Id()]), key);
        DistinctAppend(AttestedIds(out), a.Id());
      } else {
        assert CarryAll(prior, sites).kept == out;
      }
    }
  }

  lemma {:induction false} FreshUnannotated(cs: seq<Candidate>, os: seq<Outcome>, flips: map<nat, string>, n: nat)
    requires n <= |cs| && n <= |os|
    ensures forall s :: s in FreshSurvivors(cs, os, flips, n) ==> s.otherSelection == ""
  {
    if n > 0 {
      FreshUnannotated(cs, os, flips, n - 1);
    }
  }

  /** A fresh measurement that carries an accepted prior record's dispositions by site is accepted. */
  lemma {:induction false} FreshAccepted(prior: Finding, f: Finding, cs: seq<Candidate>, os: seq<Outcome>,
          ks: seq<string>, flips: map<nat, string>)
    requires Vector(cs, os, ks) && Represents(f, cs, os, ks, |cs|) && Stamped(f, |cs|) && Reasoned(f.candidateEvidence)
    requires ParsedKey(f.selection).Some? && EvidenceAccepted(f) && f.survivors == FreshSurvivors(cs, os, flips, |cs|)
    requires Accepted(prior)
    requires f.attested == CarryAll(prior.attested, SiteMap(f.survivors)).kept
    requires f.withdrawn == AddWithdrawn(prior.withdrawn, [], AttestedSet(f.attested), SiteMap(f.survivors))
    ensures Accepted(f)
  {
    FreshUnannotated(cs, os, flips, |cs|);
    RepresentedIsValid(f, cs, os, ks);
    SiteMapExact(f.survivors);
    CarriedRows(prior.attested, SiteMap(f.survivors), Key("", ""));
    forall key | key in AttestedMap(f.attested)
      ensures key in AttestedMap(prior.attested) && key in SurvivorIds(f.survivors)
      ensures AttestedMap(f.attested)[key].Id() == key && AttestedMap(f.attested)[key].reason == AttestedMap(prior.attested)[key].reason
    {
      CarriedRows(prior.attested, SiteMap(f.survivors), key);
    }
    CarriedAttestedValid(prior, f);
    ReanchoredValid(f, prior.withdrawn);
  }

  // ---- any sequence of rewrites ----

  /** A record with the outcome vector it accounts for. */
  datatype Recorded = Recorded(f: Finding, cs: seq<Candidate>, os: seq<Outcome>, ks: seq<string>)

  ghost predicate Sound(s: Recorded) {
    && Vector(s.cs, s.os, s.ks) && Represents(s.f, s.cs, s.os, s.ks, |s.cs|)
    && Stamped(s.f, |s.cs|) && Reasoned(s.f.candidateEvidence) && Accepted(s.f)
  }

  datatype Rewrite =
    | Dispose(verb: Verb, mutant: Key, reason: string)
    | GraftLive(live: Finding, snap: Snapshot)
    | AnnotateIn(doc: seq<Finding>)
    | Splice(flagged: set<nat>, scores: WindowScores, evidence: seq<CandidateEvidence>, unstable: bool, posture: Posture)
    | Extend(cs: seq<Candidate>, scores: WindowScores, evidence: seq<CandidateEvidence>, budget: int, unstable: bool, posture: Posture)

  /** The vector a splice's re-execution leaves, and what SpliceFindingCounts promises of its record. */
  ghost predicate Splices(s: Recorded, rw: Rewrite, t: Recorded)
    requires rw.Splice?
  {
    && t.cs == s.cs && |s.os| == |s.ks| == |s.cs|
    && Served(s.f, s.cs, rw.flagged, rw.scores, rw.evidence, s.os, s.ks) && Reasoned(rw.evidence)
    && t.os == Replaced(s.os, rw.scores.outcomes, rw.flagged) && t.ks == Replaced(s.ks, rw.scores.killers, rw.flagged)
    && NamedKillers(t.os, t.ks)
    && t.f == SplicedRecord(s.f, rw.scores, rw.posture, Work(t.f.operators, t.f.survivors, t.f.kills, t.f.candidateEvidence), true)
    && t.f.candidateEvidence == SplicedEvidence(s.cs, rw.flagged, EvidenceMap(rw.evidence), |s.cs|)
    && Represents(t.f, s.cs, t.os, t.ks, |s.cs|)
    && t.f.survivors == SplicedSurvivors(s.cs, t.os, rw.flagged, SurvivorMap(s.f.survivors), rw.unstable, rw.scores.flips, |s.cs|)
  }

  /** The vector an extension's suffix leaves, and what ExtendFindingCounts promises of its record. */
  ghost predicate Extends(s: Recorded, rw: Rewrite, t: Recorded)
    requires rw.Extend?
  {
    && t.cs == rw.cs && s.cs <= rw.cs && |t.os| == |t.ks| == |rw.cs| == |rw.scores.outcomes|
    && Vector(t.cs, t.os, t.ks) && s.os <= t.os
    && Accounts(t.f, t.cs, t.os, |t.cs|)
    && (t.f.kills == [] || t.f.kills == KillRows(t.cs, t.os, t.ks, |t.cs|))
    && EvidenceRecords(rw.evidence, t.cs, t.os, |t.cs|) && Reasoned(rw.evidence)
    && t.f == ExtendedRecord(s.f, rw.scores, rw.posture, t.f.operators, t.f.survivors, t.f.kills, rw.evidence, rw.budget, |rw.cs|)
    && t.f.survivors == s.f.survivors + SuffixSurvivors(rw.cs, rw.scores.outcomes, if rw.unstable then "unstable-oracle" else "", rw.scores.flips, |s.cs|, |rw.cs|)
    && Stamped(t.f, |t.cs|)
  }

  ghost predicate Rewrites(s: Recorded, rw: Rewrite, t: Recorded) {
    match rw
    case Dispose(verb, mutant, reason) => Edited(s.f, verb, mutant, reason) == Ok(t.f) && t == s.(f := t.f)
    case GraftLive(live, snap) => Accepted(live) && t == s.(f := MergedOnto(live, s.f, snap))
    case AnnotateIn(doc) => UniqueRecords(doc) && (forall g :: g in doc ==> Annotatable(g)) && t == s.(f := AnnotatedRecord(doc, s.f))
    case Splice(_, _, _, _, _) => Splices(s, rw, t)
    case Extend(_, _, _, _, _, _) => Extends(s, rw, t)
  }

  /** The splice method performs exactly the modelled rewrite on every served record. */
  method SpliceRecorded(s: Recorded, rw: Rewrite) returns (f: Finding)
    requires Sound(s) && rw.Splice? && Served(s.f, s.cs, rw.flagged, rw.scores, rw.evidence, s.os, s.ks) && Reasoned(rw.evidence)
    requires NamedKillers(Replaced(s.os, rw.scores.outcomes, rw.flagged), Replaced(s.ks, rw.scores.killers, rw.flagged))
    ensures Rewrites(s, rw, Recorded(f, s.cs, Replaced(s.os, rw.scores.outcomes, rw.flagged), Replaced(s.ks, rw.scores.killers, rw.flagged)))
  {
    var r := SpliceFindingCounts(s.f, s.cs, rw.flagged, rw.scores, rw.evidence, rw.unstable, rw.posture, s.os, s.ks);
    f := r.value;
  }

  /** The extension method performs exactly the modelled rewrite over a longer enumeration. */
  method ExtendRecorded(s: Recorded, rw: Rewrite) returns (f: Finding)
    requires Sound(s) && rw.Extend? && s.cs <= rw.cs && |rw.cs| == |rw.scores.outcomes| == |rw.scores.killers|
    requires Vector(rw.cs, s.os + rw.scores.outcomes[|s.cs|..], s.ks + rw.scores.killers[|s.cs|..])
    requires EvidenceRecords(rw.evidence, rw.cs, s.os + rw.scores.outcomes[|s.cs|..], |rw.cs|) && Reasoned(rw.evidence)
    requires Stamped(s.f.(budget := rw.budget), |rw.cs|)
    ensures Rewrites(s, rw, Recorded(f, rw.cs, s.os + rw.scores.outcomes[|s.cs|..], s.ks + rw.scores.killers[|s.cs|..]))
  {
    ghost var os, ks := s.os + rw.scores.outcomes[|s.cs|..], s.ks + rw.scores.killers[|s.cs|..];
    AccountsPrefix(s.f, rw.cs, os, ks, s.cs, s.os, s.ks, |s.cs|);
    KillRowsExact(s.cs, s.os, s.ks, |s.cs|, Kill("", "", ""));
    f := ExtendFindingCounts(s.f, rw.cs, |s.cs|, rw.scores, rw.evidence, rw.budget, rw.unstable, rw.posture, os, ks);
    assert Appended(os, rw.scores.outcomes, |s.cs|) == os;
    assert Appended(ks, rw.scores.killers, |s.cs|) == ks;
  }

  /** Rewrites that touch only dispositions and texts leave the vector represented. */
  lemma {:induction false} TextRewriteSound(s: Recorded, g: Finding)
    requires Sound(s) && Accepted(g)
    requires SurvivorIds(g.survivors) == SurvivorIds(s.f.survivors)
    requires g == s.f.(attested := g.attested, withdrawn := g.withdrawn, survivors := g.survivors)
    ensures Sound(s.(f := g))
  {
  }

  lemma {:induction false} SpliceSound(s: Recorded, rw: Rewrite, t: Recorded)
    requires Sound(s) && rw.Splice? && Splices(s, rw, t)
    ensures Sound(t)
  {
    SplicedRowsFresh(s.cs, rw.flagged, rw.evidence, |s.cs|);
    SpliceKeepsAccepted(s.f, t.f, s.cs, rw.flagged, rw.scores, rw.unstable, rw.posture, s.os, s.ks);
  }

  lemma {:induction false} ExtendSound(s: Recorded, rw: Rewrite, t: Recorded)
    requires Sound(s) && rw.Extend? && Extends(s, rw, t)
    ensures Sound(t)
  {
    ExtensionKeepsAccepted(s.f, t.f, rw.cs, |s.cs|, rw.scores, rw.evidence, rw.budget, if rw.unstable then "unstable-oracle" else "", rw.posture, t.os, t.ks);
  }

  lemma {:induction false} RewriteSound(s: Recorded, rw: Rewrite, t: Recorded)
    requires Sound(s) && Rewrites(s, rw, t)
    ensures Sound(t)
  {
    match rw {
      case Dispose(verb, mutant, reason) =>
        EditKeepsAccepted(s.f, verb, mutant, reason);
        EditFrame(s.f, verb, mutant, reason);
        TextRewriteSound(s, t.f);
      case GraftLive(live, snap) =>
        GraftKeepsAccepted(live, s.f, snap);
        TextRewriteSound(s, t.f);
      case AnnotateIn(doc) =>
        AnnotateKeepsAccepted(doc, s.f);
        AnnotatedIsBareEqual(doc, s.f);
        TextRewriteSound(s, t.f);
      case Splice(_, _, _, _, _) => SpliceSound(s, rw, t);
      case Extend(_, _, _, _, _, _) => ExtendSound(s, rw, t);
    }
  }

  /** Any sequence of edits, grafts, annotations, splices and extensions keeps a record both accepted and true to its vector. */
  lemma {:induction false} RewritesKeepSound(states: seq<Recorded>, rewrites: seq<Rewrite>)
    requires |states| == |rewrites| + 1 && Sound(states[0])
    requires forall i :: 0 <= i < |rewrites| ==> Rewrites(states[i], rewrites[i], states[i + 1])
    ensures Sound(states[|rewrites|])
  {
    if rewrites != [] {
      var n := |rewrites| - 1;
      RewritesKeepSound(states[..n + 1], rewrites[..n]);
      RewriteSound(states[n], rewrites[n], states[n + 1]);
    }
  }
}
