/**
 The three assemblies of a measured record: fresh, spliced over flagged candidates, extended over a suffix.
 Each result represents the vector its window produced: replaced at the flagged indexes, or appended.
 */
module Splicing {
  import opened Wrappers
  import opened Records
  import opened Sorting
  import opened Vectors
  import opened Dispositions
  import opened Reconcile

  datatype SpliceError = NoOperatorSummary | CountsDoNotReconcile

  // ---- the vectors ----

  ghost function Replaced<T>(base: seq<T>, fresh_: seq<T>, flagged: set<nat>): (r: seq<T>)
    requires |base| == |fresh_|
    ensures |r| == |base| && forall i :: 0 <= i < |base| ==> r[i] == if i in flagged then fresh_[i] else base[i]
  {
    seq(|base|, i requires 0 <= i < |base| => if i in flagged then fresh_[i] else base[i])
  }

  // ---- lookup tables ----

  method IndexOperators(ops: seq<OperatorSummary>) returns (index: map<string, nat>)
    ensures forall op :: op in index <==> Names(ops, op)
    ensures forall op :: op in index ==> index[op] < |ops| && ops[index[op]].operator == op
  {
    index := map[];
    for i := 0 to |ops|
      invariant forall op :: op in index ==> index[op] < i && ops[index[op]].operator == op
      invariant forall j :: 0 <= j < i ==> ops[j].operator in index
    {
      index := index[ops[i].operator := i];
    }
  }

  function SurvivorMap(xs: seq<Survivor>): map<Key, Survivor> {
    if xs == [] then map[] else SurvivorMap(xs[..|xs| - 1])[xs[|xs| - 1].Id() := xs[|xs| - 1]]
  }

  lemma {:induction false} SurvivorMapExact(xs: seq<Survivor>)
    ensures forall key :: key in SurvivorMap(xs) <==> key in SurvivorIds(xs)
  {
    if xs != [] {
      SurvivorMapExact(xs[..|xs| - 1]);
      assert SurvivorIds(xs) == SurvivorIds(xs[..|xs| - 1]) + [xs[|xs| - 1].Id()];
    }
  }

  method IndexSurvivors(xs: seq<Survivor>) returns (index: map<Key, Survivor>)
    ensures index == SurvivorMap(xs)
  {
    index := map[];
    for i := 0 to |xs|
      invariant index == SurvivorMap(xs[..i])
    {
      assert xs[..i + 1][..i] == xs[..i];
      index := index[xs[i].Id() := xs[i]];
    }
    assert xs[..|xs|] == xs;
  }

  method IndexKills(xs: seq<Kill>) returns (index: map<Key, string>)
    ensures forall key :: key in index <==> key in KillIds(xs)
    ensures forall key :: key in index ==> Kill(key.position, key.operator, index[key]) in xs
  {
    index := map[];
    for i := 0 to |xs|
      invariant forall key :: key in index <==> key in KillIds(xs)[..i]
      invariant forall key :: key in index ==> Kill(key.position, key.operator, index[key]) in xs
    {
      index := index[xs[i].Id() := xs[i].killer];
      assert KillIds(xs)[..i + 1] == KillIds(xs)[..i] + [xs[i].Id()];
      assert xs[i] == Kill(xs[i].Id().position, xs[i].Id().operator, xs[i].killer);
    }
    assert KillIds(xs)[..|xs|] == KillIds(xs);
  }

  function EvidenceMap(xs: seq<CandidateEvidence>): map<Key, CandidateEvidence> {
    if xs == [] then map[] else EvidenceMap(xs[..|xs| - 1])[xs[|xs| - 1].Id() := xs[|xs| - 1]]
  }

  method IndexEvidence(xs: seq<CandidateEvidence>) returns (index: map<Key, CandidateEvidence>)
    ensures index == EvidenceMap(xs)
    ensures forall key :: key in index <==> key in EvidenceIds(xs)
    ensures forall key :: key in index ==> index[key] in xs && index[key].Id() == key
  {
    index := map[];
    for i := 0 to |xs|
      invariant index == EvidenceMap(xs[..i])
      invariant forall key :: key in index <==> key in EvidenceIds(xs)[..i]
      invariant forall key :: key in index ==> index[key] in xs && index[key].Id() == key
    {
      assert xs[..i + 1][..i] == xs[..i];
      index := index[xs[i].Id() := xs[i]];
      assert EvidenceIds(xs)[..i + 1] == EvidenceIds(xs)[..i] + [xs[i].Id()];
    }
    assert xs[..|xs|] == xs;
    assert EvidenceIds(xs)[..|xs|] == EvidenceIds(xs);
  }

  // ---- dispositions riding a splice or an extension ----

  function KeepAnchored(xs: seq<Attestation>, sites: map<Key, string>): seq<Attestation> {
    if xs == [] then [] else
      var a := xs[|xs| - 1];
      KeepAnchored(xs[..|xs| - 1], sites)
      + if a.Id() in sites then [a.(site := if a.site == "" then sites[a.Id()] else a.site)] else []
  }

  function StampSites(xs: seq<Attestation>, sites: map<Key, string>): seq<Attestation> {
    if xs == [] then [] else
      var a := xs[|xs| - 1];
      StampSites(xs[..|xs| - 1], sites) + [if a.site == "" then a.(site := SiteAt(sites, a.Id())) else a]
  }

  method KeepCurrent(xs: seq<Attestation>, sites: map<Key, string>) returns (kept: seq<Attestation>)
    ensures kept == KeepAnchored(xs, sites)
  {
    kept := [];
    for i := 0 to |xs|
      invariant kept == KeepAnchored(xs[..i], sites)
    {
      assert xs[..i + 1][..i] == xs[..i];
      if xs[i].Id() in sites {
        kept := kept + [if xs[i].site == "" then xs[i].(site := sites[xs[i].Id()]) else xs[i]];
      }
    }
    assert xs[..|xs|] == xs;
  }

  method StampCurrent(xs: seq<Attestation>, sites: map<Key, string>) returns (stamped: seq<Attestation>)
    ensures stamped == StampSites(xs, sites)
  {
    stamped := [];
    for i := 0 to |xs|
      invariant stamped == StampSites(xs[..i], sites)
    {
      assert xs[..i + 1][..i] == xs[..i];
      stamped := stamped + [if xs[i].site == "" then xs[i].(site := SiteAt(sites, xs[i].Id())) else xs[i]];
    }
    assert xs[..|xs|] == xs;
  }

  // ---- candidate evidence of the executed candidates ----

  lemma {:induction false} SplicedRowsFresh(cs: seq<Candidate>, flagged: set<nat>, rows: seq<CandidateEvidence>, n: nat)
    requires n <= |cs|
    ensures forall e :: e in SplicedEvidence(cs, flagged, EvidenceMap(rows), n) ==> e in rows
  {
    if n > 0 {
      SplicedRowsFresh(cs, flagged, rows, n - 1);
      EvidenceMapRows(rows, cs[n - 1].Id());
    }
  }

  lemma {:induction false} EvidenceMapRows(rows: seq<CandidateEvidence>, key: Key)
    ensures key in EvidenceMap(rows) ==> EvidenceMap(rows)[key] in rows && EvidenceMap(rows)[key].Id() == key
    ensures Distinct(EvidenceIds(rows)) ==> forall e :: e in rows && e.Id() == key ==> key in EvidenceMap(rows) && EvidenceMap(rows)[key] == e
  {
    if rows != [] {
      var init, last := rows[..|rows| - 1], rows[|rows| - 1];
      assert rows == init + [last];
      assert EvidenceIds(rows) == EvidenceIds(init) + [last.Id()];
      if Distinct(EvidenceIds(rows)) {
        assert forall i :: 0 <= i < |init| ==> EvidenceIds(init)[i] == EvidenceIds(rows)[i];
        assert forall i :: 0 <= i < |init| ==> EvidenceIds(rows)[i] != EvidenceIds(rows)[|init|];
        assert forall e :: e in init ==> exists i :: 0 <= i < |init| && init[i] == e;
      }
      EvidenceMapRows(init, key);
    }
  }

  /** The row a splice keeps for one candidate is the row its re-execution left, if any. */
  lemma {:induction false} SplicedRowAt(cs: seq<Candidate>, os: seq<Outcome>, incompletes: seq<string>,
          flagged: set<nat>, i: nat)
    requires i < |cs| == |os| == |incompletes| && UniqueIdentities(cs)
    ensures SplicedRow(cs, flagged, EvidenceMap(EvidenceRows(cs, os, incompletes, Some(flagged), |cs|)), i)
         == EvidenceRow(cs, os, incompletes, Some(flagged), i)
  {
    var rows := EvidenceRows(cs, os, incompletes, Some(flagged), |cs|);
    EvidenceRowsDistinct(cs, os, incompletes, Some(flagged), |cs|);
    EvidenceMapRows(rows, cs[i].Id());
    EvidenceRowsAt(cs, os, incompletes, flagged, i, |cs|);
  }

  lemma {:induction false} SameRows(cs: seq<Candidate>, os: seq<Outcome>, incompletes: seq<string>, flagged: set<nat>,
          kept: map<Key, CandidateEvidence>, n: nat)
    requires n <= |cs| == |os| == |incompletes|
    requires forall i :: 0 <= i < n ==> SplicedRow(cs, flagged, kept, i) == EvidenceRow(cs, os, incompletes, Some(flagged), i)
    ensures SplicedEvidence(cs, flagged, kept, n) == EvidenceRows(cs, os, incompletes, Some(flagged), n)
  {
    if n > 0 {
      SameRows(cs, os, incompletes, flagged, kept, n - 1);
    }
  }

  /** No evidence row is lost or invented: a re-execution's own rows are the record's rows after the splice. */
  lemma {:induction false} SplicedEvidenceExact(cs: seq<Candidate>, os: seq<Outcome>, incompletes: seq<string>,
          flagged: set<nat>)
    requires |cs| == |os| == |incompletes| && UniqueIdentities(cs)
    ensures var rows := EvidenceRows(cs, os, incompletes, Some(flagged), |cs|);
            SplicedEvidence(cs, flagged, EvidenceMap(rows), |cs|) == rows
  {
    var rows := EvidenceRows(cs, os, incompletes, Some(flagged), |cs|);
    forall i | 0 <= i < |cs| ensures SplicedRow(cs, flagged, EvidenceMap(rows), i) == EvidenceRow(cs, os, incompletes, Some(flagged), i) {
      SplicedRowAt(cs, os, incompletes, flagged, i);
    }
    SameRows(cs, os, incompletes, flagged, EvidenceMap(rows), |cs|);
  }

  lemma {:induction false} EvidenceRowsAt(cs: seq<Candidate>, os: seq<Outcome>, incompletes: seq<string>,
          flagged: set<nat>, i: nat, n: nat)
    requires n <= |cs| == |os| == |incompletes| && UniqueIdentities(cs) && i < |cs|
    ensures var rows := EvidenceRows(cs, os, incompletes, Some(flagged), n);
            && (i < n && i in flagged && cs[i].runnable && incompletes[i] != "" ==>
                  CandidateEvidence(cs[i].position, cs[i].operator, incompletes[i], Scored(os[i])) in rows)
            && (!(i < n && i in flagged && cs[i].runnable && incompletes[i] != "") ==> forall e :: e in rows ==> e.Id() != cs[i].Id())
  {
    if n > 0 {
      EvidenceRowsAt(cs, os, incompletes, flagged, i, n - 1);
      assert n - 1 != i ==> cs[n - 1].Id() != cs[i].Id();
    }
  }

  /** Appending at most the next candidate's row keeps the rows distinct and truthful. */
  lemma {:induction false} EvidenceAppend(rows: seq<CandidateEvidence>, rows': seq<CandidateEvidence>,
          cs: seq<Candidate>, os: seq<Outcome>, n: nat)
    requires n < |cs| && n < |os| && UniqueIdentities(cs) && EvidenceRecords(rows, cs, os, n)
    requires rows' == rows || (|rows'| == |rows| + 1 && rows <= rows' && rows'[|rows|].Id() == cs[n].Id()
                               && cs[n].runnable && rows'[|rows|].disposition == Scored(os[n]))
    ensures EvidenceRecords(rows', cs, os, n + 1)
  {
    forall j | 0 <= j < |rows| ensures RecordsOutcome(rows[j], cs, os, n + 1) && rows[j].Id() != cs[n].Id() {
      assert RecordsOutcome(rows[j], cs, os, n);
      var i :| 0 <= i < n && cs[i].Id() == rows[j].Id() && cs[i].runnable && rows[j].disposition == Scored(os[i]);
    }
    forall j | 0 <= j < |rows'| ensures RecordsOutcome(rows'[j], cs, os, n + 1) {
      assert j < |rows| ==> rows'[j] == rows[j];
    }
    assert forall j :: 0 <= j < |rows| ==> EvidenceIds(rows')[j] == EvidenceIds(rows)[j];
  }

  /** The rows of the executed candidates whose process could not prove its runtime evidence sound. */
  function EvidenceRows(cs: seq<Candidate>, os: seq<Outcome>, incompletes: seq<string>, flagged: Option<set<nat>>,
          n: nat): seq<CandidateEvidence>
    requires n <= |cs| && n <= |os| && n <= |incompletes|
  {
    if n == 0 then [] else
      EvidenceRows(cs, os, incompletes, flagged, n - 1) + EvidenceRow(cs, os, incompletes, flagged, n - 1)
  }

  function EvidenceRow(cs: seq<Candidate>, os: seq<Outcome>, incompletes: seq<string>, flagged: Option<set<nat>>,
          i: nat): seq<CandidateEvidence>
    requires i < |cs| && i < |os| && i < |incompletes|
  {
    if (flagged.Some? ==> i in flagged.value) && cs[i].runnable && incompletes[i] != ""
    then [CandidateEvidence(cs[i].position, cs[i].operator, incompletes[i], Scored(os[i]))] else []
  }

  method CompletedEvidence(cs: seq<Candidate>, os: seq<Outcome>, incompletes: seq<string>, flagged: Option<set<nat>>)
    returns (rows: seq<CandidateEvidence>)
    requires |cs| == |os| == |incompletes|
    ensures rows == EvidenceRows(cs, os, incompletes, flagged, |cs|)
  {
    rows := [];
    for mi := 0 to |cs|
      invariant rows == EvidenceRows(cs, os, incompletes, flagged, mi)
    {
      if flagged.Some? && mi !in flagged.value {
        continue;
      }
      if !cs[mi].runnable {
        continue;
      }
      if incompletes[mi] != "" {
        rows := rows + [CandidateEvidence(cs[mi].position, cs[mi].operator, incompletes[mi], Scored(os[mi]))];
      }
    }
  }

  /** Rows that record, for whichever candidates they name among the given ones, that candidate's outcome. */
  ghost predicate Fits(rows: seq<CandidateEvidence>, cs: seq<Candidate>, os: seq<Outcome>)
    requires |cs| == |os|
  {
    forall e, i :: e in rows && 0 <= i < |cs| && cs[i].Id() == e.Id() ==> cs[i].runnable && e.disposition == Scored(os[i])
  }

  lemma {:induction false} EvidenceRowsRecord(cs: seq<Candidate>, os: seq<Outcome>, incompletes: seq<string>,
          flagged: Option<set<nat>>, n: nat)
    requires n <= |cs| && |os| == |cs| && n <= |incompletes| && UniqueIdentities(cs)
    ensures EvidenceRecords(EvidenceRows(cs, os, incompletes, flagged, n), cs, os, n)
  {
    if n > 0 {
      EvidenceRowsRecord(cs, os, incompletes, flagged, n - 1);
      var init, rows := EvidenceRows(cs, os, incompletes, flagged, n - 1), EvidenceRows(cs, os, incompletes, flagged, n);
      EvidenceAppend(init, rows, cs, os, n - 1);
    }
  }

  lemma {:induction false} EvidenceRowsFit(cs: seq<Candidate>, os: seq<Outcome>, incompletes: seq<string>,
          flagged: Option<set<nat>>, n: nat)
    requires n <= |cs| && |os| == |cs| && n <= |incompletes| && UniqueIdentities(cs)
    ensures Fits(EvidenceRows(cs, os, incompletes, flagged, n), cs, os)
  {
    if n > 0 {
      EvidenceRowsFit(cs, os, incompletes, flagged, n - 1);
      forall i | 0 <= i < |cs| && cs[i].Id() == cs[n - 1].Id() ensures i == n - 1 {
        SameIdentity(cs, i, n - 1);
      }
    }
  }

  lemma {:induction false} SameIdentity(cs: seq<Candidate>, i: nat, j: nat)
    requires i < |cs| && j < |cs| && UniqueIdentities(cs) && cs[i].Id() == cs[j].Id()
    ensures i == j
  {
  }

  lemma {:induction false} EvidenceRowsDistinct(cs: seq<Candidate>, os: seq<Outcome>, incompletes: seq<string>,
          flagged: Option<set<nat>>, n: nat)
    requires n <= |cs| && |os| == |cs| && n <= |incompletes| && UniqueIdentities(cs)
    ensures Distinct(EvidenceIds(EvidenceRows(cs, os, incompletes, flagged, n)))
  {
    EvidenceRowsRecord(cs, os, incompletes, flagged, n);
  }

  // ---- fresh ----

  /** The per-operator map of summarizeOperators after n candidates, and the operators in first-seen order. */
  ghost predicate Gathered(operators: seq<string>, byOperator: map<string, OperatorSummary>, cs: seq<Candidate>,
          os: seq<Outcome>, n: nat)
    requires n <= |cs| && n <= |os|
  {
    && Distinct(operators)
    && (forall op :: op in operators <==> op in byOperator)
    && (forall op :: op in byOperator <==> Selected(cs, n, op) > 0)
    && (forall op :: op in byOperator ==> byOperator[op] == Tally(cs, os, n, op))
  }

  method GatherNext(operators: seq<string>, byOperator: map<string, OperatorSummary>, cs: seq<Candidate>,
          os: seq<Outcome>, n: nat)
    returns (operators': seq<string>, byOperator': map<string, OperatorSummary>)
    requires n < |cs| && n < |os| && Gathered(operators, byOperator, cs, os, n)
    ensures Gathered(operators', byOperator', cs, os, n + 1)
  {
    var op := cs[n].operator;
    operators', byOperator' := operators, byOperator;
    if op !in byOperator {
      NoneSelected(cs, os, n, op);
      operators' := operators + [op];
      byOperator' := byOperator[op := OperatorSummary(op, 0, 0, 0, 0)];
    }
    var s := byOperator'[op];
    byOperator' := byOperator'[op := ApplyDisposition(s.(generated := s.generated + 1), Scored(os[n]), 1)];
    forall other | other in byOperator' ensures byOperator'[other] == Tally(cs, os, n + 1, other) {
      ScoreNext(cs, os, n, other);
    }
  }

  lemma {:induction false} NoneSelected(cs: seq<Candidate>, os: seq<Outcome>, n: nat, op: string)
    requires n <= |cs| && n <= |os| && Selected(cs, n, op) == 0
    ensures Tally(cs, os, n, op) == OperatorSummary(op, 0, 0, 0, 0)
  {
    CountConserved(cs, os, n, op);
  }

  method SortedOperators(operators: seq<string>) returns (sorted: seq<string>)
    requires Distinct(operators)
    ensures StrictlyAscending(sorted, Itself)
    ensures forall op :: op in sorted <==> op in operators
  {
    SortByStrict(operators, Itself);
    SortByMembers(operators, Itself);
    sorted := SortBy(operators, Itself);
  }

  method EmitSummaries(sorted: seq<string>,
          byOperator: map<string, OperatorSummary>) returns (summaries: seq<OperatorSummary>)
    requires forall op :: op in sorted ==> op in byOperator
    ensures |summaries| == |sorted| && forall j :: 0 <= j < |sorted| ==> summaries[j] == byOperator[sorted[j]]
  {
    summaries := [];
    for j := 0 to |sorted|
      invariant |summaries| == j && forall k :: 0 <= k < j ==> summaries[k] == byOperator[sorted[k]]
    {
      summaries := summaries + [byOperator[sorted[j]]];
    }
  }

  method SummarizeOperators(cs: seq<Candidate>, os: seq<Outcome>) returns (summaries: seq<OperatorSummary>)
    requires |cs| == |os|
    ensures Summarizes(summaries, cs, os, |cs|)
  {
    var byOperator: map<string, OperatorSummary>, operators: seq<string> := map[], [];
    for i := 0 to |cs|
      invariant Gathered(operators, byOperator, cs, os, i)
    {
      operators, byOperator := GatherNext(operators, byOperator, cs, os, i);
    }
    var sorted := SortedOperators(operators);
    summaries := EmitSummaries(sorted, byOperator);
    SummariesOfGathered(summaries, sorted, operators, byOperator, cs, os, |cs|);
  }

  lemma {:induction false} SummariesOfGathered(summaries: seq<OperatorSummary>, sorted: seq<string>,
          operators: seq<string>, byOperator: map<string, OperatorSummary>, cs: seq<Candidate>, os: seq<Outcome>,
          n: nat)
    requires n <= |cs| && n <= |os| && Gathered(operators, byOperator, cs, os, n)
    requires StrictlyAscending(sorted, Itself) && forall op :: op in sorted <==> op in operators
    requires |summaries| == |sorted| && forall j :: 0 <= j < |sorted| ==> sorted[j] in byOperator && summaries[j] == byOperator[sorted[j]]
    ensures Summarizes(summaries, cs, os, n)
  {
    forall i, j | 0 <= i < j < |summaries| ensures Less(OperatorName(summaries[i]), OperatorName(summaries[j])) {
      assert Less(Itself(sorted[i]), Itself(sorted[j]));
    }
    forall i | 0 <= i < n ensures Names(summaries, cs[i].operator) {
      SelectedPositive(cs, n, i);
      assert cs[i].operator in sorted;
      var j :| 0 <= j < |sorted| && sorted[j] == cs[i].operator;
      assert summaries[j].operator == cs[i].operator;
    }
  }

  /** Rows of a fresh record's survivors: nothing recorded before, so no bucket but a flip's. */
  function FreshSurvivors(cs: seq<Candidate>, os: seq<Outcome>, flips: map<nat, string>, n: nat): seq<Survivor>
    requires n <= |cs| && n <= |os|
  {
    if n == 0 then [] else
      FreshSurvivors(cs, os, flips, n - 1) + if os[n - 1] == Survived then [NewSurvivor(cs[n - 1], "", flips, n - 1)] else []
  }

  /** The record skeleton a fresh measurement starts from: no counts and no rows yet. */
  predicate Skeleton(f: Finding) {
    f.mutants == 0 && f.killed == 0 && f.discarded == 0 && f.operators == [] && f.kills == [] && f.survivors == []
  }

  method AssembleFresh(f: Finding, cs: seq<Candidate>, scores: WindowScores, evidence: seq<CandidateEvidence>,
          posture: Posture)
    returns (r: Finding)
    requires Skeleton(f) && f.generated == |cs|
    requires |scores.outcomes| == |scores.killers| == |cs|
    ensures Accounts(r, cs, scores.outcomes, |cs|)
    ensures r.kills == KillRows(cs, scores.outcomes, scores.killers, |cs|)
    ensures r.survivors == FreshSurvivors(cs, scores.outcomes, scores.flips, |cs|)
    ensures r.candidateEvidence == evidence
    ensures r == MergeScoredFacts(f, scores, posture.(memoryPin := f.oracleMemoryBytes)).(
              operators := r.operators, discarded := r.discarded, mutants := r.mutants, killed := r.killed,
              survivors := r.survivors, kills := r.kills, candidateEvidence := evidence)
  {
    var os := scores.outcomes;
    var ops := SummarizeOperators(cs, os);
    var discarded, mutants, killed := 0, 0, 0;
    for j := 0 to |ops|
      invariant discarded == SumOutcome(ops, j, Discarded)
      invariant mutants == SumOutcome(ops, j, Killed) + SumOutcome(ops, j, Survived)
      invariant killed == SumOutcome(ops, j, Killed)
    {
      discarded, mutants, killed := discarded + ops[j].discarded, mutants + ops[j].killed + ops[j].survived, killed + ops[j].killed;
    }
    SumsAreTotals(ops, cs, os, |cs|);
    var survivors, kills := FreshRows(cs, scores);
    r := MergeScoredFacts(f, scores, posture.(memoryPin := f.oracleMemoryBytes));
    r := r.(operators := ops, discarded := discarded, mutants := mutants, killed := killed, survivors := survivors, kills := kills,
            candidateEvidence := evidence);
  }

  method FreshRows(cs: seq<Candidate>, scores: WindowScores) returns (survivors: seq<Survivor>, kills: seq<Kill>)
    requires |scores.outcomes| == |scores.killers| == |cs|
    ensures survivors == FreshSurvivors(cs, scores.outcomes, scores.flips, |cs|)
    ensures SurvivorIds(survivors) == SurvivingKeys(cs, scores.outcomes, |cs|)
    ensures kills == KillRows(cs, scores.outcomes, scores.killers, |cs|)
  {
    survivors, kills := [], [];
    for mi := 0 to |cs|
      invariant survivors == FreshSurvivors(cs, scores.outcomes, scores.flips, mi)
      invariant SurvivorIds(survivors) == SurvivingKeys(cs, scores.outcomes, mi)
      invariant kills == KillRows(cs, scores.outcomes, scores.killers, mi)
    {
      match scores.outcomes[mi] {
        case Survived =>
          ghost var before := survivors;
          survivors := survivors + [NewSurvivor(cs[mi], "", scores.flips, mi)];
          assert SurvivorIds(survivors) == SurvivorIds(before) + [cs[mi].Id()];
        case Killed => kills := kills + [Kill(cs[mi].position, cs[mi].operator, scores.killers[mi])];
        case Discarded =>
      }
    }
  }

  // ---- splice ----

  const NO_SURVIVOR := Survivor("", "", "", "", "", "", "")

  function RecordedRow(prior: map<Key, Survivor>, key: Key): Survivor {
    if key in prior then prior[key] else NO_SURVIVOR
  }

  /** The bucket a re-executed survivor starts from: its recorded one, unless the splice ran unstable. */
  function ReexecutedBucket(prior: map<Key, Survivor>, key: Key, unstable: bool): string {
    if unstable then "unstable-oracle" else RecordedRow(prior, key).execution
  }

  function SplicedSurvivors(cs: seq<Candidate>, os: seq<Outcome>, flagged: set<nat>, prior: map<Key, Survivor>,
          unstable: bool, flips: map<nat, string>, n: nat): seq<Survivor>
    requires n <= |cs| && n <= |os|
  {
    if n == 0 then [] else
      var c := cs[n - 1];
      SplicedSurvivors(cs, os, flagged, prior, unstable, flips, n - 1)
      + if os[n - 1] != Survived then []
        else if n - 1 in flagged then [NewSurvivor(c, ReexecutedBucket(prior, c.Id(), unstable), flips, n - 1)]
        else [CarrySurvivor(c, RecordedRow(prior, c.Id()))]
  }

  /** The evidence a splice keeps: each re-executed candidate's fresh row, in candidate order. */
  function SplicedEvidence(cs: seq<Candidate>, flagged: set<nat>, replacement: map<Key, CandidateEvidence>,
          n: nat): seq<CandidateEvidence>
    requires n <= |cs|
  {
    if n == 0 then [] else
      SplicedEvidence(cs, flagged, replacement, n - 1) + SplicedRow(cs, flagged, replacement, n - 1)
  }

  function SplicedRow(cs: seq<Candidate>, flagged: set<nat>, replacement: map<Key, CandidateEvidence>,
          i: nat): seq<CandidateEvidence>
    requires i < |cs|
  {
    if i in flagged && cs[i].Id() in replacement then [replacement[cs[i].Id()]] else []
  }

  datatype Tables = Tables(byOperator: map<string, nat>, survivors: map<Key, Survivor>, kills: map<Key, string>,
                           evidence: map<Key, CandidateEvidence>, replacement: map<Key, CandidateEvidence>)

  datatype Work = Work(operators: seq<OperatorSummary>, survivors: seq<Survivor>, kills: seq<Kill>, evidence: seq<CandidateEvidence>)

  /** The input a served record is: a represented vector, its evidence naming exactly the flagged candidates. */
  ghost predicate Served(rec: Finding, cs: seq<Candidate>, flagged: set<nat>, scores: WindowScores,
          freshEvidence: seq<CandidateEvidence>, os: seq<Outcome>, ks: seq<string>)
  {
    && |os| == |ks| == |scores.outcomes| == |scores.killers| == |cs|
    && UniqueIdentities(cs)
    && Flags(flagged, cs, rec)
    && Represents(rec, cs, os, ks, |cs|)
    && Fits(freshEvidence, cs, Replaced(os, scores.outcomes, flagged))
  }

  ghost predicate OperatorsTabled(t: Tables, rec: Finding) {
    && (forall op :: op in t.byOperator <==> Names(rec.operators, op))
    && (forall op :: op in t.byOperator ==> t.byOperator[op] < |rec.operators| && rec.operators[t.byOperator[op]].operator == op)
  }

  ghost predicate Tabled(t: Tables, rec: Finding, freshEvidence: seq<CandidateEvidence>) {
    && OperatorsTabled(t, rec)
    && t.survivors == SurvivorMap(rec.survivors)
    && (forall key :: key in t.kills <==> key in KillIds(rec.kills))
    && (forall key :: key in t.kills ==> Kill(key.position, key.operator, t.kills[key]) in rec.kills)
    && (forall key :: key in t.evidence <==> key in EvidenceIds(rec.candidateEvidence))
    && (forall key :: key in t.evidence ==> t.evidence[key] in rec.candidateEvidence && t.evidence[key].Id() == key)
    && t.replacement == EvidenceMap(freshEvidence)
    && RowsById(t.replacement, freshEvidence)
  }

  /** Summaries that tally one vector, in the record's own order. */
  ghost predicate Tallied(ops: seq<OperatorSummary>, recOps: seq<OperatorSummary>, cs: seq<Candidate>, os: seq<Outcome>)
    requires |os| == |cs|
  {
    |ops| == |recOps| && forall j :: 0 <= j < |ops| ==> ops[j] == Tally(cs, os, |cs|, recOps[j].operator)
  }

  lemma {:induction false} CoveredKill(rec: Finding, cs: seq<Candidate>, os: seq<Outcome>, ks: seq<string>, mi: nat)
    requires |os| == |ks| == |cs| && mi < |cs| && UniqueIdentities(cs) && Represents(rec, cs, os, ks, |cs|)
    ensures cs[mi].Id() in KillIds(rec.kills) <==> Attributed(rec) && os[mi] == Killed
    ensures forall row :: row in rec.kills && row.Id() == cs[mi].Id() ==> row.killer == ks[mi]
  {
    KillRowsExact(cs, os, ks, |cs|, Kill(cs[mi].position, cs[mi].operator, ks[mi]));
    forall row | row in rec.kills && row.Id() == cs[mi].Id() ensures row.killer == ks[mi] && os[mi] == Killed {
      KillRowsExact(cs, os, ks, |cs|, row);
    }
    if cs[mi].Id() in KillIds(rec.kills) {
      var j :| 0 <= j < |rec.kills| && rec.kills[j].Id() == cs[mi].Id();
      assert rec.kills[j] in rec.kills;
    }
    if Attributed(rec) && os[mi] == Killed {
      var row := Kill(cs[mi].position, cs[mi].operator, ks[mi]);
      assert row in KillRows(cs, os, ks, |cs|);
      var j :| 0 <= j < |rec.kills| && rec.kills[j] == row;
      assert KillIds(rec.kills)[j] == cs[mi].Id();
    }
  }

  lemma {:induction false} CoveredEvidence(rows: seq<CandidateEvidence>, cs: seq<Candidate>, os: seq<Outcome>, mi: nat,
          e: CandidateEvidence)
    requires |os| == |cs| && mi < |cs| && UniqueIdentities(cs) && EvidenceRecords(rows, cs, os, |cs|)
    requires e in rows && e.Id() == cs[mi].Id()
    ensures e.disposition == Scored(os[mi])
  {
    var j :| 0 <= j < |rows| && rows[j] == e;
    assert RecordsOutcome(rows[j], cs, os, |cs|);
    var i :| 0 <= i < |cs| && cs[i].Id() == e.Id() && cs[i].runnable && e.disposition == Scored(os[i]);
    SameIdentity(cs, i, mi);
  }

  /** A candidate the splice does not re-execute keeps its recorded row and attribution. */
  method WalkCovered(w: Work, t: Tables, c: Candidate) returns (w': Work)
    ensures w'.operators == w.operators && w'.evidence == w.evidence
    ensures w'.survivors == w.survivors + if c.Id() in t.survivors then [CarrySurvivor(c, t.survivors[c.Id()])] else []
    ensures w'.kills == w.kills + if c.Id() in t.kills then [Kill(c.position, c.operator, t.kills[c.Id()])] else []
  {
    w' := w;
    if c.Id() in t.survivors {
      w' := w'.(survivors := w'.survivors + [CarrySurvivor(c, t.survivors[c.Id()])]);
    }
    if c.Id() in t.kills {
      w' := w'.(kills := w'.kills + [Kill(c.position, c.operator, t.kills[c.Id()])]);
    }
  }

  function RecordedDisposition(t: Tables, key: Key): Disposition {
    if key in t.evidence then t.evidence[key].disposition else Unknown("")
  }

  /** A re-executed candidate: its recorded disposition is retracted and its fresh outcome scored in its place. */
  method WalkFlagged(w: Work, t: Tables, c: Candidate, mi: nat, outcome: Outcome, killer: string,
          flips: map<nat, string>, unstable: bool, attributed: bool) returns (w': Work)
    requires c.operator in t.byOperator && t.byOperator[c.operator] < |w.operators|
    ensures var j := t.byOperator[c.operator];
            w'.operators == w.operators[j := ApplyDisposition(ApplyDisposition(w.operators[j], RecordedDisposition(t, c.Id()), -1), Scored(outcome), 1)]
    ensures w'.survivors == w.survivors
              + if outcome == Survived then [NewSurvivor(c, ReexecutedBucket(t.survivors, c.Id(), unstable), flips, mi)] else []
    ensures w'.kills == w.kills + if outcome == Killed && attributed then [Kill(c.position, c.operator, killer)] else []
    ensures w'.evidence == w.evidence + if c.Id() in t.replacement then [t.replacement[c.Id()]] else []
  {
    var j := t.byOperator[c.operator];
    w' := w.(operators := w.operators[j := ApplyDisposition(w.operators[j], RecordedDisposition(t, c.Id()), -1)]);
    w' := w'.(operators := w'.operators[j := ApplyDisposition(w'.operators[j], Scored(outcome), 1)]);
    if outcome == Survived {
      var execution := RecordedRow(t.survivors, c.Id()).execution;
      if unstable {
        execution := "unstable-oracle";
      }
      w' := w'.(survivors := w'.survivors + [NewSurvivor(c, execution, flips, mi)]);
    }
    if outcome == Killed && attributed {
      w' := w'.(kills := w'.kills + [Kill(c.position, c.operator, killer)]);
    }
    if c.Id() in t.replacement {
      w' := w'.(evidence := w'.evidence + [t.replacement[c.Id()]]);
    }
  }

  /** The rows a splice emits name the survivors of the new vector, in candidate order. */
  lemma {:induction false} SplicedSurvivorIds(cs: seq<Candidate>, os: seq<Outcome>, flagged: set<nat>,
          prior: map<Key, Survivor>, unstable: bool, flips: map<nat, string>, n: nat)
    requires n <= |cs| && n <= |os|
    ensures SurvivorIds(SplicedSurvivors(cs, os, flagged, prior, unstable, flips, n)) == SurvivingKeys(cs, os, n)
  {
    if n > 0 {
      SplicedSurvivorIds(cs, os, flagged, prior, unstable, flips, n - 1);
      var init := SplicedSurvivors(cs, os, flagged, prior, unstable, flips, n - 1);
      var xs := SplicedSurvivors(cs, os, flagged, prior, unstable, flips, n);
      assert os[n - 1] == Survived ==> SurvivorIds(xs) == SurvivorIds(init) + [cs[n - 1].Id()];
    }
  }

  /** A table of rows by identity. */
  ghost predicate RowsById(index: map<Key, CandidateEvidence>, rows: seq<CandidateEvidence>) {
    forall key :: key in index ==> index[key] in rows && index[key].Id() == key
  }

  /** The evidence a splice keeps records the new vector. */
  lemma {:induction false} SplicedEvidenceRecords(cs: seq<Candidate>, os: seq<Outcome>, flagged: set<nat>,
          rows: seq<CandidateEvidence>, index: map<Key, CandidateEvidence>, n: nat)
    requires n <= |cs| == |os| && UniqueIdentities(cs) && Fits(rows, cs, os) && RowsById(index, rows)
    ensures EvidenceRecords(SplicedEvidence(cs, flagged, index, n), cs, os, n)
  {
    if n > 0 {
      SplicedEvidenceRecords(cs, os, flagged, rows, index, n - 1);
      EvidenceAppend(SplicedEvidence(cs, flagged, index, n - 1), SplicedEvidence(cs, flagged, index, n), cs, os, n - 1);
    }
  }

  /** What the tables answer for a candidate of a served record. */
  ghost predicate Answers(t: Tables, rec: Finding, c: Candidate, o: Outcome, k: string) {
    && (c.Id() in t.survivors <==> o == Survived)
    && (c.Id() in t.kills <==> Attributed(rec) && o == Killed)
    && (c.Id() in t.kills ==> t.kills[c.Id()] == k)
    && (c.Id() in EvidenceIds(rec.candidateEvidence) ==> RecordedDisposition(t, c.Id()) == Scored(o))
    && c.operator in t.byOperator && t.byOperator[c.operator] < |rec.operators| && rec.operators[t.byOperator[c.operator]].operator == c.operator
  }

  lemma {:induction false} TableFacts(t: Tables, rec: Finding, cs: seq<Candidate>,
          freshEvidence: seq<CandidateEvidence>, os: seq<Outcome>, ks: seq<string>, mi: nat)
    requires |os| == |ks| == |cs| && mi < |cs| && UniqueIdentities(cs) && Represents(rec, cs, os, ks, |cs|)
    requires Tabled(t, rec, freshEvidence)
    ensures Answers(t, rec, cs[mi], os[mi], ks[mi])
  {
    CoveredKill(rec, cs, os, ks, mi);
    SurvivingKeysExact(cs, os, |cs|, cs[mi].Id());
    SurvivorMapExact(rec.survivors);
    assert Names(rec.operators, cs[mi].operator);
    if cs[mi].Id() in t.kills {
      assert Kill(cs[mi].position, cs[mi].operator, t.kills[cs[mi].Id()]) in rec.kills;
    }
    if cs[mi].Id() in t.evidence {
      CoveredEvidence(rec.candidateEvidence, cs, os, mi, t.evidence[cs[mi].Id()]);
    }
  }

  /** Retracting and re-scoring one candidate in its own summary re-tallies the updated vector in every summary. */
  lemma {:induction false} RescoreAll(recOps: seq<OperatorSummary>, ops: seq<OperatorSummary>, cs: seq<Candidate>,
          cur: seq<Outcome>, mi: nat, x: Outcome, k: nat)
    requires mi < |cs| == |cur| && k < |recOps| == |ops| && StrictlyAscending(recOps, OperatorName)
    requires recOps[k].operator == cs[mi].operator
    requires forall j :: 0 <= j < |ops| ==> ops[j] == Tally(cs, cur, |cs|, recOps[j].operator)
    ensures var ops' := ops[k := ApplyDisposition(ApplyDisposition(ops[k], Scored(cur[mi]), -1), Scored(x), 1)];
            forall j :: 0 <= j < |ops'| ==> ops'[j] == Tally(cs, cur[mi := x], |cs|, recOps[j].operator)
  {
    var ops' := ops[k := ApplyDisposition(ApplyDisposition(ops[k], Scored(cur[mi]), -1), Scored(x), 1)];
    forall j | 0 <= j < |ops'| ensures ops'[j] == Tally(cs, cur[mi := x], |cs|, recOps[j].operator) {
      Rescore(cs, cur, mi, x, |cs|, recOps[j].operator);
      StrictIndex(recOps, j, k);
    }
  }

  lemma {:induction false} StrictIndex(ops: seq<OperatorSummary>, j: nat, k: nat)
    requires j < |ops| && k < |ops| && StrictlyAscending(ops, OperatorName)
    ensures ops[j].operator == ops[k].operator <==> j == k
  {
    LessIrreflexive(OperatorName(ops[j]));
  }

  /** Re-scoring the candidate at the walk's place tallies the vector blended one further. */
  lemma {:induction false} TalliedNext(ops: seq<OperatorSummary>, recOps: seq<OperatorSummary>, cs: seq<Candidate>,
          after: seq<Outcome>, os: seq<Outcome>, mi: nat, k: nat)
    requires mi < |cs| == |after| == |os| && k < |recOps| && StrictlyAscending(recOps, OperatorName)
    requires recOps[k].operator == cs[mi].operator && Tallied(ops, recOps, cs, Blend(after, os, mi))
    ensures Tallied(Rescored(ops, k, Scored(os[mi]), after[mi]), recOps, cs, Blend(after, os, mi + 1))
  {
    BlendNext(after, os, mi);
    RescoreAll(recOps, ops, cs, Blend(after, os, mi), mi, after[mi], k);
  }

  /** The record a splice returns, from its finished walk. */
  function SplicedRecord(rec: Finding, scores: WindowScores, posture: Posture, w: Work, attributed: bool): Finding {
    var killed, survived := SumOutcome(w.operators, |w.operators|, Killed), SumOutcome(w.operators, |w.operators|, Survived);
    var kept := KeepAnchored(rec.attested, SiteMap(w.survivors));
    MergeScoredFacts(rec, scores, posture).(
      operators := w.operators, killed := killed, discarded := SumOutcome(w.operators, |w.operators|, Discarded), mutants := killed + survived,
      kills := if attributed then w.kills else [], survivors := w.survivors, candidateEvidence := w.evidence,
      attested := kept, withdrawn := AddWithdrawn(rec.withdrawn, [], AttestedSet(kept), SiteMap(w.survivors)))
  }

  lemma {:induction false} ServedRows(trail: seq<Work>, rec: Finding, t: Tables, cs: seq<Candidate>, flagged: set<nat>,
          scores: WindowScores, freshEvidence: seq<CandidateEvidence>, unstable: bool, os: seq<Outcome>,
          ks: seq<string>)
    requires Served(rec, cs, flagged, scores, freshEvidence, os, ks) && Tabled(t, rec, freshEvidence)
    requires Trail(trail, rec, t, cs, flagged, scores, unstable, |cs|)
    ensures var after, killers, w := Replaced(os, scores.outcomes, flagged), Replaced(ks, scores.killers, flagged), trail[|cs|];
            && w.kills == (if Attributed(rec) then KillRows(cs, after, killers, |cs|) else [])
            && w.survivors == SplicedSurvivors(cs, after, flagged, t.survivors, unstable, scores.flips, |cs|)
  {
    ServedAnswers(rec, t, cs, flagged, scores, freshEvidence, os, ks);
    TrailSurvivors(trail, rec, t, cs, flagged, scores, unstable, os, |cs|);
    TrailKills(trail, rec, t, cs, flagged, scores, unstable, os, ks, |cs|);
  }

  lemma {:induction false} ServedTallies(trail: seq<Work>, rec: Finding, t: Tables, cs: seq<Candidate>,
          flagged: set<nat>, scores: WindowScores, freshEvidence: seq<CandidateEvidence>, unstable: bool,
          os: seq<Outcome>, ks: seq<string>)
    requires Served(rec, cs, flagged, scores, freshEvidence, os, ks) && Tabled(t, rec, freshEvidence)
    requires Trail(trail, rec, t, cs, flagged, scores, unstable, |cs|)
    ensures Tallied(trail[|cs|].operators, rec.operators, cs, Replaced(os, scores.outcomes, flagged))
  {
    ServedAnswers(rec, t, cs, flagged, scores, freshEvidence, os, ks);
    TrailTallied(trail, rec, t, cs, flagged, scores, unstable, os, |cs|);
    BlendEnds(Replaced(os, scores.outcomes, flagged), os);
  }

  /** What a finished walk over a served record returns. */
  lemma {:induction false} ServedTrail(trail: seq<Work>, rec: Finding, t: Tables, cs: seq<Candidate>, flagged: set<nat>,
          scores: WindowScores, freshEvidence: seq<CandidateEvidence>, unstable: bool, posture: Posture,
          os: seq<Outcome>, ks: seq<string>)
    requires Served(rec, cs, flagged, scores, freshEvidence, os, ks) && Tabled(t, rec, freshEvidence)
    requires Trail(trail, rec, t, cs, flagged, scores, unstable, |cs|)
    requires trail[|cs|].evidence == SplicedEvidence(cs, flagged, t.replacement, |cs|)
    ensures var after, killers, w := Replaced(os, scores.outcomes, flagged), Replaced(ks, scores.killers, flagged), trail[|cs|];
            && (forall s :: s in w.operators ==> Counted(s))
            && Represents(SplicedRecord(rec, scores, posture, w, Attributed(rec)), cs, after, killers, |cs|)
            && w.kills == (if Attributed(rec) then KillRows(cs, after, killers, |cs|) else [])
            && w.survivors == SplicedSurvivors(cs, after, flagged, t.survivors, unstable, scores.flips, |cs|)
            && var out := SplicedRecord(rec, scores, posture, w, Attributed(rec));
               Attributed(out) <==> Attributed(rec) || Total(after, |cs|, Killed) == 0
  {
    var after, killers, w := Replaced(os, scores.outcomes, flagged), Replaced(ks, scores.killers, flagged), trail[|cs|];
    ServedRows(trail, rec, t, cs, flagged, scores, freshEvidence, unstable, os, ks);
    ServedTallies(trail, rec, t, cs, flagged, scores, freshEvidence, unstable, os, ks);
    TalliedCounted(w.operators, rec.operators, cs, after);
    SplicedSurvivorIds(cs, after, flagged, t.survivors, unstable, scores.flips, |cs|);
    SplicedEvidenceRecords(cs, after, flagged, freshEvidence, t.replacement, |cs|);
    SplicedRepresents(rec, scores, posture, w, cs, os, after, killers);
    SplicedAttribution(SplicedRecord(rec, scores, posture, w, Attributed(rec)), Attributed(rec), cs, after, killers);
  }

  /** A record that keeps all its attributions or none is complete when it keeps them, or when nothing was killed. */
  lemma {:induction false} SplicedAttribution(f: Finding, attributed: bool, cs: seq<Candidate>, os: seq<Outcome>,
          ks: seq<string>)
    requires |cs| == |os| == |ks| && f.killed == Total(os, |cs|, Killed)
    requires f.kills == if attributed then KillRows(cs, os, ks, |cs|) else []
    ensures Attributed(f) <==> attributed || Total(os, |cs|, Killed) == 0
  {
    KillRowsExact(cs, os, ks, |cs|, Kill("", "", ""));
  }

  /**
   A record from before attribution becomes complete when its last kill survives re-execution: one flagged candidate,
   recorded killed without a killer, that survives again.
   */
  lemma {:induction false} SpliceCompletesUnattributed(base: Finding, c: Candidate, reason: string)
    requires c.runnable
    ensures var rec := base.(generated := 1, killed := 1, discarded := 0, mutants := 1, survivors := [], kills := [],
                             operators := [OperatorSummary(c.operator, 1, 0, 1, 0)],
                             candidateEvidence := [CandidateEvidence(c.position, c.operator, reason, Scored(Killed))]);
            var scores := WindowScores([Survived], [""], map[], [false]);
            && Served(rec, [c], {0}, scores, [], [Killed], [""]) && !Attributed(rec)
            && Total(Replaced([Killed], scores.outcomes, {0}), 1, Killed) == 0
  {
    var e := CandidateEvidence(c.position, c.operator, reason, Scored(Killed));
    var rec := base.(generated := 1, killed := 1, discarded := 0, mutants := 1, survivors := [], kills := [],
                     operators := [OperatorSummary(c.operator, 1, 0, 1, 0)], candidateEvidence := [e]);
    OneKilled(c);
    assert rec.operators[0] == Tally([c], [Killed], 1, c.operator);
    assert RecordsOutcome(e, [c], [Killed], 1) by {
      assert [c][0].Id() == e.Id();
    }
    assert EvidenceIds(rec.candidateEvidence)[0] == [c][0].Id();
    assert Accounts(rec, [c], [Killed], 1);
  }

  lemma {:induction false} OneKilled(c: Candidate)
    ensures Tally([c], [Killed], 1, c.operator) == OperatorSummary(c.operator, 1, 0, 1, 0)
    ensures Total([Killed], 1, Killed) == 1 && Total([Killed], 1, Survived) == 0 && Total([Killed], 1, Discarded) == 0
    ensures SurvivingKeys([c], [Killed], 1) == []
  {
    assert Selected([c], 1, c.operator) == 1;
    assert Count([c], [Killed], 1, c.operator, Killed) == 1;
    assert Count([c], [Killed], 1, c.operator, Survived) == Count([c], [Killed], 1, c.operator, Discarded) == 0;
  }

  /**
   Splice refines a fresh measurement: over a record of vector os whose evidence flags exactly the re-executed
   candidates, it never fails and its result is a record of os with the fresh outcomes at the flagged indexes.
   */
  method SpliceFindingCounts(rec: Finding, cs: seq<Candidate>, flagged: set<nat>, scores: WindowScores,
          freshEvidence: seq<CandidateEvidence>, unstable: bool, posture: Posture, ghost os: seq<Outcome>,
          ghost ks: seq<string>)
    returns (r: Result<Finding, SpliceError>)
    requires |scores.outcomes| == |scores.killers| == |cs| == |os| == |ks|
    ensures Served(rec, cs, flagged, scores, freshEvidence, os, ks) ==>
              && r.Ok?
              && Represents(r.value, cs, Replaced(os, scores.outcomes, flagged), Replaced(ks, scores.killers, flagged), |cs|)
              && r.value.kills == (if Attributed(rec) then KillRows(cs, Replaced(os, scores.outcomes, flagged), Replaced(ks, scores.killers, flagged), |cs|) else [])
              && r.value.survivors == SplicedSurvivors(cs, Replaced(os, scores.outcomes, flagged), flagged, SurvivorMap(rec.survivors), unstable, scores.flips, |cs|)
              && (Attributed(r.value) <==> Attributed(rec) || Total(Replaced(os, scores.outcomes, flagged), |cs|, Killed) == 0)
    ensures r.Ok? ==> r.value == SplicedRecord(rec, scores, posture, Work(r.value.operators, r.value.survivors, r.value.kills, r.value.candidateEvidence), true)
    ensures r.Ok? ==> r.value.candidateEvidence == SplicedEvidence(cs, flagged, EvidenceMap(freshEvidence), |cs|)
    ensures r.Ok? ==> forall s :: s in r.value.operators ==> Counted(s)
    ensures r != Err(NoOperatorSummary) <==> AllNamed(rec.operators, cs, flagged, |cs|)
  {
    var t := BuildTables(rec, freshEvidence);
    var walked, trail := WalkAll(t, rec, cs, flagged, scores, unstable);
    if Served(rec, cs, flagged, scores, freshEvidence, os, ks) {
      ServedAllNamed(rec, t, cs, flagged, scores, freshEvidence, os, ks);
    }
    if walked.None? {
      return Err(NoOperatorSummary);
    }
    if Served(rec, cs, flagged, scores, freshEvidence, os, ks) {
      ServedTrail(trail, rec, t, cs, flagged, scores, freshEvidence, unstable, posture, os, ks);
    }
    var w := walked.value;
    var reconciled := NoneNegative(w.operators);
    if !reconciled {
      return Err(CountsDoNotReconcile);
    }
    var f := Finalize(rec, scores, posture, w, Attributed(rec));
    r := Ok(f);
  }

  predicate Counted(s: OperatorSummary) { s.killed >= 0 && s.discarded >= 0 && s.survived >= 0 }

  method NoneNegative(ops: seq<OperatorSummary>) returns (ok: bool)
    ensures ok <==> forall s :: s in ops ==> Counted(s)
  {
    for j := 0 to |ops|
      invariant forall k :: 0 <= k < j ==> Counted(ops[k])
    {
      if ops[j].killed < 0 || ops[j].discarded < 0 || ops[j].survived < 0 {
        assert ops[j] in ops;
        return false;
      }
    }
    ok := true;
  }

  lemma {:induction false} TalliedCounted(ops: seq<OperatorSummary>, recOps: seq<OperatorSummary>, cs: seq<Candidate>,
          os: seq<Outcome>)
    requires |os| == |cs| && Tallied(ops, recOps, cs, os)
    ensures forall s :: s in ops ==> Counted(s)
  {
  }

  /** Every re-executed candidate among the first n has an operator summary to re-score. */
  ghost predicate AllNamed(ops: seq<OperatorSummary>, cs: seq<Candidate>, flagged: set<nat>, n: nat) {
    forall i: nat :: i in flagged && i < n && i < |cs| ==> Names(ops, cs[i].operator)
  }

  lemma {:induction false} NamedSplit(ops: seq<OperatorSummary>, cs: seq<Candidate>, flagged: set<nat>, n: nat)
    requires n < |cs|
    ensures AllNamed(ops, cs, flagged, n + 1) <==> AllNamed(ops, cs, flagged, n) && (n in flagged ==> Names(ops, cs[n].operator))
    ensures AllNamed(ops, cs, flagged, |cs|) ==> AllNamed(ops, cs, flagged, n + 1)
  {
  }

  /** A walk's works, from none walked to n candidates walked. */
  ghost predicate Trail(trail: seq<Work>, rec: Finding, t: Tables, cs: seq<Candidate>, flagged: set<nat>,
          scores: WindowScores, unstable: bool, n: nat)
    requires |scores.outcomes| == |scores.killers| == |cs| && n <= |cs|
  {
    && n < |trail|
    && if n == 0 then trail[0] == Work(rec.operators, [], [], []) else
         && Turned(trail[n - 1], trail[n], t, cs, flagged, scores, unstable, Attributed(rec), n - 1)
         && Trail(trail, rec, t, cs, flagged, scores, unstable, n - 1)
  }

  lemma {:induction false} TrailExtends(trail: seq<Work>, w: Work, rec: Finding, t: Tables, cs: seq<Candidate>,
          flagged: set<nat>, scores: WindowScores, unstable: bool, n: nat)
    requires |scores.outcomes| == |scores.killers| == |cs| && n <= |cs| && Trail(trail, rec, t, cs, flagged, scores, unstable, n)
    ensures Trail(trail + [w], rec, t, cs, flagged, scores, unstable, n)
  {
    if n > 0 {
      TrailExtends(trail, w, rec, t, cs, flagged, scores, unstable, n - 1);
    }
  }

  lemma {:induction false} ServedAnswers(rec: Finding, t: Tables, cs: seq<Candidate>, flagged: set<nat>,
          scores: WindowScores, freshEvidence: seq<CandidateEvidence>, os: seq<Outcome>, ks: seq<string>)
    requires Served(rec, cs, flagged, scores, freshEvidence, os, ks) && Tabled(t, rec, freshEvidence)
    ensures Answering(rec, t, cs, os, ks)
  {
    forall i: nat | i < |cs| ensures Answers(t, rec, cs[i], os[i], ks[i]) {
      TableFacts(t, rec, cs, freshEvidence, os, ks, i);
    }
  }

  ghost predicate Answering(rec: Finding, t: Tables, cs: seq<Candidate>, os: seq<Outcome>, ks: seq<string>)
    requires |os| == |ks| == |cs|
  {
    forall i: nat :: i < |cs| ==> Answers(t, rec, cs[i], os[i], ks[i])
  }

  /** Over a served record the walk's survivors are those of the vector with the re-executed outcomes in place. */
  lemma {:induction false} TrailSurvivors(trail: seq<Work>, rec: Finding, t: Tables, cs: seq<Candidate>,
          flagged: set<nat>, scores: WindowScores, unstable: bool, os: seq<Outcome>, n: nat)
    requires |scores.outcomes| == |scores.killers| == |cs| == |os| && n <= |cs| && Trail(trail, rec, t, cs, flagged, scores, unstable, n)
    requires forall i: nat :: i < |cs| ==> (cs[i].Id() in t.survivors <==> os[i] == Survived)
    ensures trail[n].survivors == SplicedSurvivors(cs, Replaced(os, scores.outcomes, flagged), flagged, t.survivors, unstable, scores.flips, n)
  {
    if n > 0 {
      TrailSurvivors(trail, rec, t, cs, flagged, scores, unstable, os, n - 1);
    }
  }

  lemma {:induction false} TrailKills(trail: seq<Work>, rec: Finding, t: Tables, cs: seq<Candidate>, flagged: set<nat>,
          scores: WindowScores, unstable: bool, os: seq<Outcome>, ks: seq<string>, n: nat)
    requires |scores.outcomes| == |scores.killers| == |cs| == |os| == |ks| && n <= |cs| && Trail(trail, rec, t, cs, flagged, scores, unstable, n)
    requires forall i: nat :: i < |cs| ==> (cs[i].Id() in t.kills <==> Attributed(rec) && os[i] == Killed)
    requires forall i: nat :: i < |cs| && cs[i].Id() in t.kills ==> t.kills[cs[i].Id()] == ks[i]
    ensures trail[n].kills == if Attributed(rec)
              then KillRows(cs, Replaced(os, scores.outcomes, flagged), Replaced(ks, scores.killers, flagged), n) else []
  {
    if n > 0 {
      TrailKills(trail, rec, t, cs, flagged, scores, unstable, os, ks, n - 1);
    }
  }

  /** The walk's summaries tally the vector replaced so far. */
  lemma {:induction false} TrailTallied(trail: seq<Work>, rec: Finding, t: Tables, cs: seq<Candidate>,
          flagged: set<nat>, scores: WindowScores, unstable: bool, os: seq<Outcome>, n: nat)
    requires |scores.outcomes| == |scores.killers| == |cs| == |os| && n <= |cs| && Trail(trail, rec, t, cs, flagged, scores, unstable, n)
    requires Tallied(rec.operators, rec.operators, cs, os) && StrictlyAscending(rec.operators, OperatorName)
    requires forall i: nat :: i in flagged && i < |cs| ==> FlaggedTabled(rec, t, cs[i], os[i])
    ensures Tallied(trail[n].operators, rec.operators, cs, Blend(Replaced(os, scores.outcomes, flagged), os, n))
  {
    var after := Replaced(os, scores.outcomes, flagged);
    if n == 0 {
      BlendEnds(after, os);
    } else {
      TrailTallied(trail, rec, t, cs, flagged, scores, unstable, os, n - 1);
      if n - 1 in flagged {
        assert FlaggedTabled(rec, t, cs[n - 1], os[n - 1]);
        TalliedNext(trail[n - 1].operators, rec.operators, cs, after, os, n - 1, t.byOperator[cs[n - 1].operator]);
      } else {
        BlendSame(after, os, n - 1);
      }
    }
  }

  /** A re-executed candidate's summary and recorded disposition. */
  ghost predicate FlaggedTabled(rec: Finding, t: Tables, c: Candidate, o: Outcome) {
    && RecordedDisposition(t, c.Id()) == Scored(o)
    && c.operator in t.byOperator && t.byOperator[c.operator] < |rec.operators| && rec.operators[t.byOperator[c.operator]].operator == c.operator
  }

  lemma {:induction false} ServedAllNamed(rec: Finding, t: Tables, cs: seq<Candidate>, flagged: set<nat>,
          scores: WindowScores, freshEvidence: seq<CandidateEvidence>, os: seq<Outcome>, ks: seq<string>)
    requires Served(rec, cs, flagged, scores, freshEvidence, os, ks) && Tabled(t, rec, freshEvidence)
    ensures AllNamed(rec.operators, cs, flagged, |cs|)
  {
    ServedAnswers(rec, t, cs, flagged, scores, freshEvidence, os, ks);
    forall i: nat | i in flagged && i < |cs| ensures Names(rec.operators, cs[i].operator) {
      assert Answers(t, rec, cs[i], os[i], ks[i]);
    }
  }

  /** The splice's walk over every candidate. */
  method WalkAll(t: Tables, rec: Finding, cs: seq<Candidate>, flagged: set<nat>, scores: WindowScores, unstable: bool)
    returns (r: Option<Work>, ghost trail: seq<Work>)
    requires |scores.outcomes| == |scores.killers| == |cs| && OperatorsTabled(t, rec)
    ensures r.Some? <==> AllNamed(rec.operators, cs, flagged, |cs|)
    ensures r.Some? ==> r.value.evidence == SplicedEvidence(cs, flagged, t.replacement, |cs|)
    ensures r.Some? ==> Trail(trail, rec, t, cs, flagged, scores, unstable, |cs|) && trail[|cs|] == r.value
  {
    var w := Work(rec.operators, [], [], []);
    trail := [w];
    for mi := 0 to |cs|
      invariant |w.operators| == |rec.operators|
      invariant |trail| == mi + 1 && Trail(trail, rec, t, cs, flagged, scores, unstable, mi) && trail[mi] == w
      invariant w.evidence == SplicedEvidence(cs, flagged, t.replacement, mi)
      invariant AllNamed(rec.operators, cs, flagged, mi)
    {
      var step := WalkNext(w, t, cs, flagged, scores, unstable, Attributed(rec), |rec.operators|, mi);
      NamedSplit(rec.operators, cs, flagged, mi);
      if step.None? {
        return None, trail;
      }
      TrailExtends(trail, step.value, rec, t, cs, flagged, scores, unstable, mi);
      w := step.value;
      trail := trail + [w];
    }
    r := Some(w);
  }

  /** The vector while the walk stands at n: replaced before, recorded from there on. */
  ghost function Blend<T>(after: seq<T>, os: seq<T>, n: nat): seq<T>
    requires |after| == |os| && n <= |os|
  {
    after[..n] + os[n..]
  }

  lemma {:induction false} BlendNext<T>(after: seq<T>, os: seq<T>, n: nat)
    requires |after| == |os| && n < |os|
    ensures Blend(after, os, n)[n] == os[n] && Blend(after, os, n)[n := after[n]] == Blend(after, os, n + 1)
  {
  }

  lemma {:induction false} BlendSame<T>(after: seq<T>, os: seq<T>, n: nat)
    requires |after| == |os| && n < |os| && after[n] == os[n]
    ensures Blend(after, os, n + 1) == Blend(after, os, n)
  {
  }

  lemma {:induction false} BlendEnds<T>(after: seq<T>, os: seq<T>)
    requires |after| == |os|
    ensures Blend(after, os, 0) == os && Blend(after, os, |os|) == after
  {
  }

  lemma {:induction false} SplicedRepresents(rec: Finding, scores: WindowScores, posture: Posture, w: Work,
          cs: seq<Candidate>, os: seq<Outcome>, after: seq<Outcome>, killers: seq<string>)
    requires |os| == |after| == |killers| == |cs| && Accounts(rec, cs, os, |cs|)
    requires Tallied(w.operators, rec.operators, cs, after) && SurvivorIds(w.survivors) == SurvivingKeys(cs, after, |cs|)
    requires w.kills == (if Attributed(rec) then KillRows(cs, after, killers, |cs|) else []) && EvidenceRecords(w.evidence, cs, after, |cs|)
    ensures Represents(SplicedRecord(rec, scores, posture, w, Attributed(rec)), cs, after, killers, |cs|)
  {
    Retallied(rec.operators, w.operators, cs, os, after);
    SumsAreTotals(w.operators, cs, after, |cs|);
  }

  function Rescored(ops: seq<OperatorSummary>, j: nat, recorded: Disposition, outcome: Outcome): seq<OperatorSummary>
    requires j < |ops|
  {
    ops[j := ApplyDisposition(ApplyDisposition(ops[j], recorded, -1), Scored(outcome), 1)]
  }

  /** What one turn of the walk does to the work: a candidate covered, or re-executed under its operator's summary. */
  predicate Turned(w: Work, w': Work, t: Tables, cs: seq<Candidate>, flagged: set<nat>, scores: WindowScores,
          unstable: bool, attributed: bool, mi: nat)
    requires mi < |cs| && mi < |scores.outcomes| && mi < |scores.killers|
  {
    var c, outcome := cs[mi], scores.outcomes[mi];
    if mi in flagged then
      && c.operator in t.byOperator && t.byOperator[c.operator] < |w.operators|
      && w'.operators == Rescored(w.operators, t.byOperator[c.operator], RecordedDisposition(t, c.Id()), outcome)
      && w'.survivors == w.survivors
           + (if outcome == Survived then [NewSurvivor(c, ReexecutedBucket(t.survivors, c.Id(), unstable), scores.flips, mi)] else [])
      && w'.kills == w.kills + (if outcome == Killed && attributed then [Kill(c.position, c.operator, scores.killers[mi])] else [])
      && w'.evidence == w.evidence + if c.Id() in t.replacement then [t.replacement[c.Id()]] else []
    else
      && w'.operators == w.operators && w'.evidence == w.evidence
      && w'.survivors == w.survivors + (if c.Id() in t.survivors then [CarrySurvivor(c, t.survivors[c.Id()])] else [])
      && w'.kills == w.kills + if c.Id() in t.kills then [Kill(c.position, c.operator, t.kills[c.Id()])] else []
  }

  /** One turn of the splice's walk; None when a re-executed candidate has no operator summary. */
  method WalkNext(w: Work, t: Tables, cs: seq<Candidate>, flagged: set<nat>, scores: WindowScores, unstable: bool,
          attributed: bool, ghost size: nat, mi: nat) returns (r: Option<Work>)
    requires |scores.outcomes| == |scores.killers| == |cs| && mi < |cs| && |w.operators| == size
    requires forall op :: op in t.byOperator ==> t.byOperator[op] < size
    ensures r.None? <==> mi in flagged && cs[mi].operator !in t.byOperator
    ensures r.Some? ==> |r.value.operators| == size && Turned(w, r.value, t, cs, flagged, scores, unstable, attributed, mi)
    ensures r.Some? && w.evidence == SplicedEvidence(cs, flagged, t.replacement, mi) ==>
              r.value.evidence == SplicedEvidence(cs, flagged, t.replacement, mi + 1)
  {
    if mi !in flagged {
      var covered := WalkCovered(w, t, cs[mi]);
      return Some(covered);
    }
    if cs[mi].operator !in t.byOperator {
      return None;
    }
    var next := WalkFlagged(w, t, cs[mi], mi, scores.outcomes[mi], scores.killers[mi], scores.flips, unstable, attributed);
    r := Some(next);
  }

  method BuildTables(rec: Finding, freshEvidence: seq<CandidateEvidence>) returns (t: Tables)
    ensures Tabled(t, rec, freshEvidence)
  {
    var byOperator := IndexOperators(rec.operators);
    var survivors := IndexSurvivors(rec.survivors);
    var kills := IndexKills(rec.kills);
    var evidence := IndexEvidence(rec.candidateEvidence);
    var replacement := IndexEvidence(freshEvidence);
    t := Tables(byOperator, survivors, kills, evidence, replacement);
  }

  method Finalize(rec: Finding, scores: WindowScores, posture: Posture, w: Work, attributed: bool) returns (f: Finding)
    ensures f == SplicedRecord(rec, scores, posture, w, attributed)
  {
    var killed, discarded, survived := SumOperatorTotals(w.operators);
    var sites := BuildSites(w.survivors);
    var kept := KeepCurrent(rec.attested, sites);
    var withdrawn := CarryAnchoredWithdrawn(rec.withdrawn, kept, w.survivors);
    f := MergeScoredFacts(rec, scores, posture).(
      operators := w.operators, killed := killed, discarded := discarded, mutants := killed + survived,
      kills := if attributed then w.kills else [], survivors := w.survivors, candidateEvidence := w.evidence,
      attested := kept, withdrawn := withdrawn);
  }

  /** Summaries re-tallied over another vector of the same candidates summarize that vector. */
  lemma {:induction false} Retallied(recOps: seq<OperatorSummary>, ops: seq<OperatorSummary>, cs: seq<Candidate>,
          os: seq<Outcome>, after: seq<Outcome>)
    requires |os| == |after| == |cs| && |ops| == |recOps| && Summarizes(recOps, cs, os, |cs|)
    requires forall j :: 0 <= j < |ops| ==> ops[j] == Tally(cs, after, |cs|, recOps[j].operator)
    ensures Summarizes(ops, cs, after, |cs|)
  {
    forall i, j | 0 <= i < j < |ops| ensures Less(OperatorName(ops[i]), OperatorName(ops[j])) {
      assert Less(OperatorName(recOps[i]), OperatorName(recOps[j]));
    }
    forall i | 0 <= i < |cs| ensures Names(ops, cs[i].operator) {
      assert Names(recOps, cs[i].operator);
      var j :| 0 <= j < |recOps| && recOps[j].operator == cs[i].operator;
      assert ops[j].operator == cs[i].operator;
    }
  }

  // ---- extend ----

  ghost function Appended<T>(base: seq<T>, suffix: seq<T>, from: nat): (r: seq<T>)
    requires |base| == |suffix| && from <= |base|
    ensures |r| == |base| && forall i :: 0 <= i < |base| ==> r[i] == if i < from then base[i] else suffix[i]
  {
    base[..from] + suffix[from..]
  }

  /** The summaries while a suffix is scored: one per operator seen, unsorted, reachable through the index. */
  ghost predicate Joined(ops: seq<OperatorSummary>, index: map<string, nat>, cs: seq<Candidate>, os: seq<Outcome>,
          n: nat)
    requires n <= |cs| && n <= |os|
  {
    && (forall op :: op in index <==> Selected(cs, n, op) > 0)
    && (forall op :: op in index ==> index[op] < |ops| && ops[index[op]] == Tally(cs, os, n, op))
    && (forall j :: 0 <= j < |ops| ==> ops[j].operator in index && index[ops[j].operator] == j)
  }

  lemma {:induction false} JoinedPrefix(rec: Finding, index: map<string, nat>, cs: seq<Candidate>, os: seq<Outcome>,
          after: seq<Outcome>, from: nat)
    requires from <= |cs| && |os| == |after| == |cs| && Summarizes(rec.operators, cs, os, from)
    requires forall i :: 0 <= i < from ==> after[i] == os[i]
    requires forall op :: op in index <==> Names(rec.operators, op)
    requires forall op :: op in index ==> index[op] < |rec.operators| && rec.operators[index[op]].operator == op
    ensures Joined(rec.operators, index, cs, after, from)
  {
    var ops := rec.operators;
    forall op | Selected(cs, from, op) > 0 ensures op in index {
      var i := SelectedWitness(cs, from, op);
      assert Names(ops, cs[i].operator);
    }
    assert forall op :: op in index ==> ops[index[op]] == Tally(cs, os, from, op);
    forall op | op in index ensures ops[index[op]] == Tally(cs, after, from, op) {
      TallyPrefix(cs, os, cs, after, from, op);
    }
    forall j | 0 <= j < |ops| ensures ops[j].operator in index && index[ops[j].operator] == j {
      assert Names(ops, ops[j].operator);
      StrictIndex(ops, j, index[ops[j].operator]);
    }
  }

  function WithOperator(ops: seq<OperatorSummary>, index: map<string, nat>, op: string): (seq<OperatorSummary>,
          map<string, nat>) {
    if op in index then (ops, index) else (ops + [OperatorSummary(op, 0, 0, 0, 0)], index[op := |ops|])
  }

  function ScoredInto(s: OperatorSummary, outcome: Outcome): OperatorSummary {
    ApplyDisposition(s.(generated := s.generated + 1), Scored(outcome), 1)
  }

  method JoinCandidate(ops: seq<OperatorSummary>, index: map<string, nat>, c: Candidate, outcome: Outcome)
    returns (ops': seq<OperatorSummary>, index': map<string, nat>)
    requires forall op :: op in index ==> index[op] < |ops|
    ensures index' == WithOperator(ops, index, c.operator).1
    ensures ops' == var base := WithOperator(ops, index, c.operator).0; var i := index'[c.operator]; base[i := ScoredInto(base[i], outcome)]
    ensures forall op :: op in index' ==> index'[op] < |ops'|
  {
    ops', index' := ops, index;
    if c.operator !in index {
      index' := index[c.operator := |ops|];
      ops' := ops + [OperatorSummary(c.operator, 0, 0, 0, 0)];
    }
    var i := index'[c.operator];
    ops' := ops'[i := ops'[i].(generated := ops'[i].generated + 1)];
    ops' := ops'[i := ApplyDisposition(ops'[i], Scored(outcome), 1)];
  }

  lemma {:induction false} JoinedNext(ops: seq<OperatorSummary>, index: map<string, nat>, ops': seq<OperatorSummary>,
          index': map<string, nat>, cs: seq<Candidate>, os: seq<Outcome>, n: nat)
    requires n < |cs| && n < |os| && Joined(ops, index, cs, os, n)
    requires index' == WithOperator(ops, index, cs[n].operator).1
    requires forall op :: op in index' ==> index'[op] < |WithOperator(ops, index, cs[n].operator).0|
    requires ops' == var base := WithOperator(ops, index, cs[n].operator).0; var i := index'[cs[n].operator]; base[i := ScoredInto(base[i], os[n])]
    ensures Joined(ops', index', cs, os, n + 1)
  {
    var op := cs[n].operator;
    var base := WithOperator(ops, index, op).0;
    if op !in index {
      NoneSelected(cs, os, n, op);
    }
    assert base[index'[op]] == Tally(cs, os, n, op);
    forall other | other in index' ensures ops'[index'[other]] == Tally(cs, os, n + 1, other) {
      ScoreNext(cs, os, n, other);
      if other != op {
        assert index'[other] != index'[op];
      }
    }
  }

  lemma {:induction false} JoinedSorted(ops: seq<OperatorSummary>, index: map<string, nat>, cs: seq<Candidate>,
          os: seq<Outcome>, n: nat)
    requires n <= |cs| && n <= |os| && Joined(ops, index, cs, os, n)
    ensures Summarizes(SortBy(ops, OperatorName), cs, os, n)
  {
    assert DistinctKeys(ops, OperatorName);
    SortByStrict(ops, OperatorName);
    SortByMembers(ops, OperatorName);
    var sorted := SortBy(ops, OperatorName);
    forall j | 0 <= j < |sorted| ensures sorted[j] == Tally(cs, os, n, sorted[j].operator) && sorted[j].generated > 0 {
      assert sorted[j] in ops;
      var k :| 0 <= k < |ops| && ops[k] == sorted[j];
      assert ops[k].operator in index && index[ops[k].operator] == k;
    }
    forall i | 0 <= i < n ensures Names(sorted, cs[i].operator) {
      SelectedPositive(cs, n, i);
      var s := ops[index[cs[i].operator]];
      assert s in sorted;
      var j :| 0 <= j < |sorted| && sorted[j] == s;
      assert sorted[j].operator == cs[i].operator;
    }
  }

  /** The rows an extension appends after the carried prefix rows. */
  function SuffixSurvivors(cs: seq<Candidate>, os: seq<Outcome>, execution: string, flips: map<nat, string>, from: nat,
          n: nat): seq<Survivor>
    requires from <= n <= |cs| && n <= |os|
  {
    if n == from then [] else
      SuffixSurvivors(cs, os, execution, flips, from, n - 1)
      + if os[n - 1] == Survived then [NewSurvivor(cs[n - 1], execution, flips, n - 1)] else []
  }

  method AppendRows(rec: Finding, cs: seq<Candidate>, from: nat, scores: WindowScores, execution: string,
          attributed: bool, ghost after: seq<Outcome>, ghost killers: seq<string>)
    returns (survivors: seq<Survivor>, kills: seq<Kill>)
    requires from <= |cs| == |scores.outcomes| == |scores.killers| == |after| == |killers|
    requires forall i :: from <= i < |cs| ==> after[i] == scores.outcomes[i] && killers[i] == scores.killers[i]
    ensures survivors == rec.survivors + SuffixSurvivors(cs, scores.outcomes, execution, scores.flips, from, |cs|)
    ensures SurvivorIds(rec.survivors) == SurvivingKeys(cs, after, from) ==> SurvivorIds(survivors) == SurvivingKeys(cs, after, |cs|)
    ensures attributed && rec.kills == KillRows(cs, after, killers, from) ==> kills == KillRows(cs, after, killers, |cs|)
  {
    survivors, kills := rec.survivors, rec.kills;
    for mi := from to |cs|
      invariant survivors == rec.survivors + SuffixSurvivors(cs, scores.outcomes, execution, scores.flips, from, mi)
      invariant SurvivorIds(rec.survivors) == SurvivingKeys(cs, after, from) ==> SurvivorIds(survivors) == SurvivingKeys(cs, after, mi)
      invariant attributed && rec.kills == KillRows(cs, after, killers, from) ==> kills == KillRows(cs, after, killers, mi)
    {
      match scores.outcomes[mi] {
        case Survived =>
          ghost var before := survivors;
          survivors := survivors + [NewSurvivor(cs[mi], execution, scores.flips, mi)];
          assert SurvivorIds(survivors) == SurvivorIds(before) + [cs[mi].Id()];
        case Killed =>
          if attributed {
            kills := kills + [Kill(cs[mi].position, cs[mi].operator, scores.killers[mi])];
          }
        case Discarded =>
      }
    }
  }

  method JoinSuffix(rec: Finding, cs: seq<Candidate>, from: nat, scores: WindowScores,
          ghost os: seq<Outcome>) returns (ops: seq<OperatorSummary>)
    requires from <= |cs| == |scores.outcomes| == |os|
    ensures Summarizes(rec.operators, cs, os, from) ==> Summarizes(ops, cs, Appended(os, scores.outcomes, from), |cs|)
  {
    ghost var after := Appended(os, scores.outcomes, from);
    ghost var good := Summarizes(rec.operators, cs, os, from);
    var index: map<string, nat> := IndexOperators(rec.operators);
    ops := rec.operators;
    if good {
      JoinedPrefix(rec, index, cs, os, after, from);
    }
    for mi := from to |cs|
      invariant forall op :: op in index ==> index[op] < |ops|
      invariant good ==> Joined(ops, index, cs, after, mi)
    {
      ghost var ops0, index0 := ops, index;
      ops, index := JoinCandidate(ops, index, cs[mi], scores.outcomes[mi]);
      if good {
        JoinedNext(ops0, index0, ops, index, cs, after, mi);
      }
    }
    if good {
      JoinedSorted(ops, index, cs, after, |cs|);
    }
    ops := SortBy(ops, OperatorName);
  }

  function ExtendedRecord(rec: Finding, scores: WindowScores, posture: Posture, ops: seq<OperatorSummary>,
          survivors: seq<Survivor>, kills: seq<Kill>, freshEvidence: seq<CandidateEvidence>, budget: int,
          generated: int): Finding
  {
    var killed, survived := SumOutcome(ops, |ops|, Killed), SumOutcome(ops, |ops|, Survived);
    var stamped := StampSites(rec.attested, SiteMap(survivors));
    MergeScoredFacts(rec, scores, posture).(
      operators := ops, killed := killed, discarded := SumOutcome(ops, |ops|, Discarded), mutants := killed + survived,
      kills := kills, survivors := survivors, candidateEvidence := freshEvidence, budget := budget, generated := generated,
      attested := stamped, withdrawn := AddWithdrawn(rec.withdrawn, [], AttestedSet(stamped), SiteMap(survivors)))
  }

  /**
   Extension refines a fresh measurement: over a capped record of the first from outcomes of os, the result is a
   record of the whole list, the suffix outcomes appended.
   */
  method ExtendFindingCounts(rec: Finding, cs: seq<Candidate>, from: nat, scores: WindowScores,
          freshEvidence: seq<CandidateEvidence>, budget: int, unstable: bool, posture: Posture, ghost os: seq<Outcome>,
          ghost ks: seq<string>)
    returns (r: Finding)
    requires from <= |cs| == |scores.outcomes| == |scores.killers| == |os| == |ks|
    ensures r == ExtendedRecord(rec, scores, posture, r.operators, r.survivors, r.kills, freshEvidence, budget, |cs|)
    ensures r.survivors == rec.survivors
              + SuffixSurvivors(cs, scores.outcomes, if unstable then "unstable-oracle" else "", scores.flips, from, |cs|)
    ensures Accounts(rec, cs, os, from) ==> Accounts(r, cs, Appended(os, scores.outcomes, from), |cs|)
    ensures Attributed(rec) && rec.kills == KillRows(cs, os, ks, from) ==>
              r.kills == KillRows(cs, Appended(os, scores.outcomes, from), Appended(ks, scores.killers, from), |cs|)
    ensures !Attributed(rec) ==> r.kills == []
    ensures Accounts(rec, cs, os, from) && (rec.kills == [] || rec.kills == KillRows(cs, os, ks, from)) ==>
              (Attributed(r) <==> Attributed(rec))
  {
    ghost var after, killers := Appended(os, scores.outcomes, from), Appended(ks, scores.killers, from);
    var attributed := Attributed(rec);
    SurvivingKeysPrefix(cs, os, cs, after, from);
    KillRowsPrefix(cs, os, ks, cs, after, killers, from);
    var suffixExecution := "";
    if unstable {
      suffixExecution := "unstable-oracle";
    }
    var survivors, kills := AppendRows(rec, cs, from, scores, suffixExecution, attributed, after, killers);
    var ops := JoinSuffix(rec, cs, from, scores, os);
    if !attributed {
      kills := [];
    }
    if Accounts(rec, cs, os, from) {
      SumsAreTotals(ops, cs, after, |cs|);
    }
    r := FinalizeExtension(rec, scores, posture, ops, survivors, kills, freshEvidence, budget, |cs|);
    if Accounts(rec, cs, os, from) && (rec.kills == [] || rec.kills == KillRows(cs, os, ks, from)) {
      ExtendedAttribution(rec, r, cs, os, ks, from, after, killers);
    }
  }

  /** No extension completes or breaks an attribution. */
  lemma {:induction false} ExtendedAttribution(rec: Finding, f: Finding, cs: seq<Candidate>, os: seq<Outcome>,
          ks: seq<string>, from: nat, after: seq<Outcome>, killers: seq<string>)
    requires from <= |cs| == |os| == |ks| == |after| == |killers| && forall i :: 0 <= i < from ==> after[i] == os[i]
    requires rec.killed == Total(os, from, Killed) && (rec.kills == [] || rec.kills == KillRows(cs, os, ks, from))
    requires f.killed == Total(after, |cs|, Killed)
    requires Attributed(rec) && rec.kills == KillRows(cs, os, ks, from) ==> f.kills == KillRows(cs, after, killers, |cs|)
    requires !Attributed(rec) ==> f.kills == []
    ensures Attributed(f) <==> Attributed(rec)
  {
    KillRowsExact(cs, os, ks, from, Kill("", "", ""));
    KillRowsExact(cs, after, killers, |cs|, Kill("", "", ""));
    CountPrefix(cs, os, cs, after, from, "", Killed);
    TotalGrows(after, from, |cs|, Killed);
  }

  lemma {:induction false} TotalGrows(os: seq<Outcome>, m: nat, n: nat, o: Outcome)
    requires m <= n <= |os|
    ensures Total(os, m, o) <= Total(os, n, o)
  {
    if m < n {
      TotalGrows(os, m, n - 1, o);
    }
  }

  method FinalizeExtension(rec: Finding, scores: WindowScores, posture: Posture, ops: seq<OperatorSummary>,
          survivors: seq<Survivor>, kills: seq<Kill>, freshEvidence: seq<CandidateEvidence>, budget: int,
          generated: int) returns (f: Finding)
    ensures f == ExtendedRecord(rec, scores, posture, ops, survivors, kills, freshEvidence, budget, generated)
  {
    var killed, discarded, survived := SumOperatorTotals(ops);
    var sites := BuildSites(survivors);
    var stamped := StampCurrent(rec.attested, sites);
    var withdrawn := CarryAnchoredWithdrawn(rec.withdrawn, stamped, survivors);
    f := MergeScoredFacts(rec, scores, posture).(
      operators := ops, killed := killed, discarded := discarded, mutants := killed + survived,
      kills := kills, survivors := survivors, candidateEvidence := freshEvidence, budget := budget, generated := generated,
      attested := stamped, withdrawn := withdrawn);
  }
}
