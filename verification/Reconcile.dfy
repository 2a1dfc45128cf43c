/**
 The counts arithmetic of reconcile.go: re-identifying a record's candidates, assembling a fresh record,
 splicing re-executed candidates into a served record, and extending a capped record.
 Each method is proved against the outcome vector its result must represent.
 */
module Reconcile {
  import opened Wrappers
  import opened Records
  import opened Sorting
  import opened Vectors
  import opened Dispositions

  /** The engine's answer for one budget: the complete candidate count and the selected prefix. */
  datatype Generation = Generation(candidateCount: int, candidates: seq<Candidate>)

  /** One execution window's scores for one target, indexed by candidate. */
  datatype WindowScores = WindowScores(outcomes: seq<Outcome>, killers: seq<string>, flips: map<nat, string>, memoryDecided: seq<bool>)

  /** The entry-resolved oracle bounds a window ran under. */
  datatype Posture = Posture(memoryPin: int, oracleBudget: int, budgetDerived: bool)

  // ---- pins joined by a window ----

  const MAX_INT64 := 0x7FFF_FFFF_FFFF_FFFF

  function EffectiveCeiling(bytes: int): int { if bytes <= 0 then MAX_INT64 else bytes }

  predicate AnyMemoryDecided(scores: WindowScores) { true in scores.memoryDecided }

  /** Joins a window's bound facts into the record; only the four bound fields can move. */
  function MergeScoredFacts(rec: Finding, scores: WindowScores, posture: Posture): (r: Finding)
    ensures r == rec.(oracleCeilingDecided := r.oracleCeilingDecided, oracleMemoryBytes := r.oracleMemoryBytes,
                      oracleTimeout := r.oracleTimeout, oracleTimeoutDerived := r.oracleTimeoutDerived)
  {
    var decided := rec.(oracleCeilingDecided := rec.oracleCeilingDecided || AnyMemoryDecided(scores));
    var raised := if EffectiveCeiling(posture.memoryPin) > EffectiveCeiling(decided.oracleMemoryBytes)
                  then decided.(oracleMemoryBytes := posture.memoryPin) else decided;
    if posture.budgetDerived || raised.oracleTimeoutDerived then
      var loosened := if raised.oracleTimeout.Nanos? && posture.oracleBudget > raised.oracleTimeout.value
                      then raised.(oracleTimeout := Nanos(posture.oracleBudget)) else raised;
      loosened.(oracleTimeoutDerived := loosened.oracleTimeoutDerived || posture.budgetDerived)
    else raised
  }

  // ---- survivor rows ----

  function NewSurvivor(c: Candidate, execution: string, flips: map<nat, string>, mi: nat): Survivor {
    var row := Survivor(c.position, c.operator, c.extent, c.site, execution, "", "");
    if mi in flips then row.(execution := "flipped-kill", withdrawnKiller := flips[mi]) else row
  }

  function CarrySurvivor(c: Candidate, prior: Survivor): Survivor {
    Survivor(c.position, c.operator, c.extent, c.site, prior.execution, prior.withdrawnKiller, prior.otherSelection)
  }

  // ---- re-identification ----

  method CandidateIdentityIndex(cs: seq<Candidate>) returns (index: Option<map<Key, nat>>)
    ensures index.Some? <==> UniqueIdentities(cs)
    ensures index.Some? ==>
              && (forall key :: key in index.value <==> key in CandidateIds(cs))
              && (forall key :: key in index.value ==> index.value[key] < |cs| && cs[index.value[key]].Id() == key)
  {
    var byIdentity: map<Key, nat> := map[];
    for i := 0 to |cs|
      invariant forall j, k :: 0 <= j < k < i ==> cs[j].Id() != cs[k].Id()
      invariant forall j :: 0 <= j < i ==> cs[j].Id() in byIdentity
      invariant forall key :: key in byIdentity ==> byIdentity[key] < i && cs[byIdentity[key]].Id() == key
    {
      if cs[i].Id() in byIdentity {
        return None;
      }
      byIdentity := byIdentity[cs[i].Id() := i];
    }
    forall key | key in byIdentity ensures key in CandidateIds(cs) {
      assert CandidateIds(cs)[byIdentity[key]] == key;
    }
    index := Some(byIdentity);
  }

  predicate Regenerates(g: Generation, rec: Finding) {
    g.candidateCount == rec.candidateCount && |g.candidates| == rec.generated
  }

  method Reidentify(g: Generation, rec: Finding) returns (index: Option<map<Key, nat>>)
    ensures index.Some? <==> Regenerates(g, rec) && UniqueIdentities(g.candidates)
    ensures index.Some? ==>
              && (forall key :: key in index.value <==> key in CandidateIds(g.candidates))
              && (forall key :: key in index.value ==>
                    index.value[key] < |g.candidates| && g.candidates[index.value[key]].Id() == key)
  {
    if g.candidateCount != rec.candidateCount || |g.candidates| != rec.generated {
      return None;
    }
    index := CandidateIdentityIndex(g.candidates);
  }

  ghost predicate Reexecutable(cs: seq<Candidate>, key: Key) {
    exists i :: 0 <= i < |cs| && cs[i].Id() == key && cs[i].runnable
  }

  /** The served record's flagged candidates are exactly the ones its evidence rows name. */
  ghost predicate Flags(flagged: set<nat>, cs: seq<Candidate>, rec: Finding) {
    forall i: nat :: i in flagged <==> i < |cs| && cs[i].Id() in EvidenceIds(rec.candidateEvidence)
  }

  method FlaggedCandidateIndexes(g: Generation, rec: Finding) returns (r: Option<set<nat>>)
    ensures r.Some? <==>
              && Regenerates(g, rec) && UniqueIdentities(g.candidates)
              && (forall key :: key in SurvivorIds(rec.survivors) ==> key in CandidateIds(g.candidates))
              && (forall key :: key in EvidenceIds(rec.candidateEvidence) ==> Reexecutable(g.candidates, key))
    ensures r.Some? ==> Flags(r.value, g.candidates, rec)
  {
    var index := Reidentify(g, rec);
    if index.None? {
      return None;
    }
    var byIdentity, cs := index.value, g.candidates;
    for j := 0 to |rec.survivors|
      invariant forall k :: 0 <= k < j ==> rec.survivors[k].Id() in byIdentity
    {
      if rec.survivors[j].Id() !in byIdentity {
        assert SurvivorIds(rec.survivors)[j] !in CandidateIds(cs);
        return None;
      }
    }
    r := FlagEvidence(cs, byIdentity, rec.candidateEvidence);
  }

  lemma {:induction false} ReexecutableAt(cs: seq<Candidate>, i: nat)
    requires UniqueIdentities(cs) && i < |cs|
    ensures Reexecutable(cs, cs[i].Id()) <==> cs[i].runnable
  {
  }

  /** The rows' candidates, each of which must be in the enumeration and runnable. */
  method FlagEvidence(cs: seq<Candidate>, byIdentity: map<Key, nat>,
          rows: seq<CandidateEvidence>) returns (r: Option<set<nat>>)
    requires UniqueIdentities(cs) && forall key :: key in byIdentity <==> key in CandidateIds(cs)
    requires forall key :: key in byIdentity ==> byIdentity[key] < |cs| && cs[byIdentity[key]].Id() == key
    ensures r.Some? <==> forall key :: key in EvidenceIds(rows) ==> Reexecutable(cs, key)
    ensures r.Some? ==> forall i: nat :: i in r.value <==> i < |cs| && cs[i].Id() in EvidenceIds(rows)
  {
    var flagged: set<nat> := {};
    for j := 0 to |rows|
      invariant forall k :: 0 <= k < j ==> Reexecutable(cs, EvidenceIds(rows)[k])
      invariant forall i: nat :: i in flagged <==> i < |cs| && cs[i].Id() in EvidenceIds(rows)[..j]
    {
      var key := rows[j].Id();
      assert EvidenceIds(rows)[j] == key;
      if key !in byIdentity {
        assert forall i :: 0 <= i < |cs| ==> CandidateIds(cs)[i] == cs[i].Id();
        assert !Reexecutable(cs, key);
        return None;
      }
      var i := byIdentity[key];
      ReexecutableAt(cs, i);
      if !cs[i].runnable {
        return None;
      }
      flagged := flagged + {i};
      assert EvidenceIds(rows)[..j + 1] == EvidenceIds(rows)[..j] + [key];
    }
    assert EvidenceIds(rows)[..|rows|] == EvidenceIds(rows);
    r := Some(flagged);
  }

  /** A record of the regenerated candidates is always served: nothing it names can fail to re-identify. */
  lemma {:induction false} RepresentedIsServable(g: Generation, rec: Finding, os: seq<Outcome>, ks: seq<string>)
    requires |os| == |ks| == |g.candidates|
    requires UniqueIdentities(g.candidates) && g.candidateCount == rec.candidateCount
    requires Represents(rec, g.candidates, os, ks, |g.candidates|)
    ensures Regenerates(g, rec)
    ensures forall key :: key in SurvivorIds(rec.survivors) ==> key in CandidateIds(g.candidates)
    ensures forall key :: key in EvidenceIds(rec.candidateEvidence) ==> Reexecutable(g.candidates, key)
  {
    var cs := g.candidates;
    forall key | key in SurvivorIds(rec.survivors) ensures key in CandidateIds(cs) {
      SurvivingKeysExact(cs, os, |cs|, key);
      var i :| 0 <= i < |cs| && os[i] == Survived && cs[i].Id() == key;
      assert CandidateIds(cs)[i] == key;
    }
    forall key | key in EvidenceIds(rec.candidateEvidence) ensures Reexecutable(cs, key) {
      var j :| 0 <= j < |rec.candidateEvidence| && rec.candidateEvidence[j].Id() == key;
      assert RecordsOutcome(rec.candidateEvidence[j], cs, os, |cs|);
    }
  }

  method CountPrefixOperators(cs: seq<Candidate>, n: nat) returns (counts: map<string, nat>)
    requires n <= |cs|
    ensures forall op :: op in counts <==> Selected(cs, n, op) > 0
    ensures forall op :: op in counts ==> counts[op] == Selected(cs, n, op)
  {
    counts := map[];
    for i := 0 to n
      invariant forall op :: op in counts <==> Selected(cs, i, op) > 0
      invariant forall op :: op in counts ==> counts[op] == Selected(cs, i, op)
    {
      var op := cs[i].operator;
      counts := counts[op := (if op in counts then counts[op] else 0) + 1];
    }
  }

  ghost predicate PrefixOperatorsStand(ops: seq<OperatorSummary>, cs: seq<Candidate>, n: nat)
    requires n <= |cs|
  {
    && (forall j :: 0 <= j < |ops| ==> ops[j].generated == Selected(cs, n, ops[j].operator))
    && (forall i :: 0 <= i < n ==> Names(ops, cs[i].operator))
  }

  method PrefixOperatorsRecorded(ops: seq<OperatorSummary>, cs: seq<Candidate>, n: nat) returns (same: bool)
    requires n <= |cs|
    requires StrictlyAscending(ops, OperatorName) && forall j :: 0 <= j < |ops| ==> ops[j].generated > 0
    ensures same <==> PrefixOperatorsStand(ops, cs, n)
  {
    var counts := CountPrefixOperators(cs, n);
    ghost var named := set j | 0 <= j < |ops| :: ops[j].operator;
    NamedSize(ops, |ops|);
    assert |counts| == |counts.Keys|;
    if |counts| != |ops| {
      if PrefixOperatorsStand(ops, cs, n) {
        OperatorsExhaust(ops, cs, n, counts.Keys, named);
        assert false;
      }
      return false;
    }
    for j := 0 to |ops|
      invariant forall k :: 0 <= k < j ==> ops[k].generated == Selected(cs, n, ops[k].operator)
    {
      if (if ops[j].operator in counts then counts[ops[j].operator] else 0) != ops[j].generated {
        return false;
      }
    }
    assert named <= counts.Keys;
    SubsetOfEqualSize(named, counts.Keys);
    forall i | 0 <= i < n ensures Names(ops, cs[i].operator) {
      SelectedPositive(cs, n, i);
      assert cs[i].operator in named;
    }
    same := true;
  }

  /**
   Over a record whose summaries are strictly ordered with positive counts (the validator's rule), the
   prefix stands exactly when the enumeration re-identifies it, operator by operator and survivor by survivor.
   */
  method ExtendedPrefixStands(g: Generation, rec: Finding) returns (stands: bool)
    requires StrictlyAscending(rec.operators, OperatorName) && forall j :: 0 <= j < |rec.operators| ==> rec.operators[j].generated > 0
    requires rec.generated >= 0
    ensures stands <==>
              && g.candidateCount == rec.candidateCount && rec.generated < |g.candidates|
              && UniqueIdentities(g.candidates)
              && PrefixOperatorsStand(rec.operators, g.candidates, rec.generated)
              && (forall key :: key in SurvivorIds(rec.survivors) ==> key in CandidateIds(g.candidates)[..rec.generated])
  {
    if g.candidateCount != rec.candidateCount || |g.candidates| <= rec.generated {
      return false;
    }
    var cs, n := g.candidates, rec.generated;
    var index := CandidateIdentityIndex(cs);
    if index.None? {
      return false;
    }
    var same := PrefixOperatorsRecorded(rec.operators, cs, n);
    if !same {
      return false;
    }
    for j := 0 to |rec.survivors|
      invariant forall k :: 0 <= k < j ==> rec.survivors[k].Id() in CandidateIds(cs)[..n]
    {
      var key := rec.survivors[j].Id();
      assert SurvivorIds(rec.survivors)[j] == key;
      if key !in index.value || index.value[key] >= n {
        assert key !in CandidateIds(cs)[..n];
        return false;
      }
      assert CandidateIds(cs)[..n][index.value[key]] == key;
    }
    stands := true;
  }

  lemma {:induction false} NamedSize(ops: seq<OperatorSummary>, n: nat)
    requires n <= |ops| && StrictlyAscending(ops, OperatorName)
    ensures |set j | 0 <= j < n :: ops[j].operator| == n
  {
    if n > 0 {
      NamedSize(ops, n - 1);
      var init := set j | 0 <= j < n - 1 :: ops[j].operator;
      assert ops[n - 1].operator !in init by {
        forall j | 0 <= j < n - 1 ensures ops[j].operator != ops[n - 1].operator {
          LessIrreflexive(OperatorName(ops[j]));
          assert Less(OperatorName(ops[j]), OperatorName(ops[n - 1]));
        }
      }
      assert (set j | 0 <= j < n :: ops[j].operator) == init + {ops[n - 1].operator};
    }
  }

  lemma {:induction false} SubsetOfEqualSize<T>(a: set<T>, b: set<T>)
    requires a <= b && |a| == |b|
    ensures a == b
  {
    assert |b - a| == |b| - |a|;
  }

  lemma {:induction false} OperatorsExhaust(ops: seq<OperatorSummary>, cs: seq<Candidate>, n: nat, counted: set<string>,
          named: set<string>)
    requires n <= |cs| && PrefixOperatorsStand(ops, cs, n)
    requires forall j :: 0 <= j < |ops| ==> ops[j].generated > 0
    requires forall op :: op in counted <==> Selected(cs, n, op) > 0
    requires named == set j | 0 <= j < |ops| :: ops[j].operator
    ensures counted == named
  {
    forall op | op in counted ensures op in named {
      var i := SelectedWitness(cs, n, op);
      assert Names(ops, cs[i].operator);
    }
  }

  /** A capped record of the same list is always extended by a strictly longer selection. */
  lemma {:induction false} RepresentedIsExtendable(g: Generation, rec: Finding, os: seq<Outcome>, n: nat)
    requires n < |g.candidates| && n <= |os|
    requires UniqueIdentities(g.candidates) && g.candidateCount == rec.candidateCount
    requires Accounts(rec, g.candidates, os, n)
    ensures PrefixOperatorsStand(rec.operators, g.candidates, rec.generated)
    ensures forall key :: key in SurvivorIds(rec.survivors) ==> key in CandidateIds(g.candidates)[..rec.generated]
  {
    forall key | key in SurvivorIds(rec.survivors) ensures key in CandidateIds(g.candidates)[..n] {
      SurvivingKeysExact(g.candidates, os, n, key);
      var i :| 0 <= i < n && os[i] == Survived && g.candidates[i].Id() == key;
      assert CandidateIds(g.candidates)[..n][i] == key;
    }
  }

  // ---- totals ----

  function OutcomeOf(s: OperatorSummary, o: Outcome): int {
    match o case Killed => s.killed case Survived => s.survived case Discarded => s.discarded
  }

  function SumOutcome(ops: seq<OperatorSummary>, k: nat, o: Outcome): int
    requires k <= |ops|
  {
    if k == 0 then 0 else SumOutcome(ops, k - 1, o) + OutcomeOf(ops[k - 1], o)
  }

  method SumOperatorTotals(ops: seq<OperatorSummary>) returns (killed: int, discarded: int, survived: int)
    ensures killed == SumOutcome(ops, |ops|, Killed)
    ensures discarded == SumOutcome(ops, |ops|, Discarded)
    ensures survived == SumOutcome(ops, |ops|, Survived)
  {
    killed, discarded, survived := 0, 0, 0;
    for i := 0 to |ops|
      invariant killed == SumOutcome(ops, i, Killed)
      invariant discarded == SumOutcome(ops, i, Discarded)
      invariant survived == SumOutcome(ops, i, Survived)
    {
      killed, discarded, survived := killed + ops[i].killed, discarded + ops[i].discarded, survived + ops[i].survived;
    }
  }

  lemma {:induction false} SumOutcomeCounts(ops: seq<OperatorSummary>, k: nat, cs: seq<Candidate>, os: seq<Outcome>,
          n: nat, o: Outcome)
    requires k <= |ops| && n <= |cs| && n <= |os|
    requires forall j :: 0 <= j < |ops| ==> ops[j] == Tally(cs, os, n, ops[j].operator)
    ensures SumOutcome(ops, k, o) == SumCounts(ops, k, cs, os, n, o)
  {
    if k > 0 {
      SumOutcomeCounts(ops, k - 1, cs, os, n, o);
    }
  }

  /** Per-operator sums are the finding totals of the vector the summaries tally. */
  lemma {:induction false} SumsAreTotals(ops: seq<OperatorSummary>, cs: seq<Candidate>, os: seq<Outcome>, n: nat)
    requires n <= |cs| && n <= |os| && Summarizes(ops, cs, os, n)
    ensures forall o :: SumOutcome(ops, |ops|, o) == Total(os, n, o)
  {
    forall o ensures SumOutcome(ops, |ops|, o) == Total(os, n, o) {
      SumOutcomeCounts(ops, |ops|, cs, os, n, o);
      SumCountsTotal(ops, cs, os, n, o);
    }
  }

  // ---- one candidate into its operator's summary ----

  function ApplyDisposition(s: OperatorSummary, d: Disposition, delta: int): OperatorSummary {
    match d
    case Scored(Killed) => s.(killed := s.killed + delta)
    case Scored(Survived) => s.(survived := s.survived + delta)
    case Scored(Discarded) => s.(discarded := s.discarded + delta)
    case Unknown(_) => s
  }

  lemma {:induction false} ScoreNext(cs: seq<Candidate>, os: seq<Outcome>, n: nat, op: string)
    requires n < |cs| && n < |os|
    ensures Tally(cs, os, n + 1, op)
         == if cs[n].operator != op then Tally(cs, os, n, op)
            else ApplyDisposition(Tally(cs, os, n, op).(generated := Selected(cs, n, op) + 1), Scored(os[n]), 1)
  {
  }

  /** Retracting the recorded disposition and scoring the replacement re-tallies the updated vector. */
  lemma {:induction false} Rescore(cs: seq<Candidate>, os: seq<Outcome>, i: nat, x: Outcome, n: nat, op: string)
    requires n <= |cs| && n <= |os| && i < n
    ensures Tally(cs, os[i := x], n, op)
         == if cs[i].operator != op then Tally(cs, os, n, op)
            else ApplyDisposition(ApplyDisposition(Tally(cs, os, n, op), Scored(os[i]), -1), Scored(x), 1)
  {
    CountUpdate(cs, os, i, x, n, op, Killed);
    CountUpdate(cs, os, i, x, n, op, Survived);
    CountUpdate(cs, os, i, x, n, op, Discarded);
  }
}
