/**
 The meaning of a record: an outcome vector over the deterministic candidate list.
 Everything here is defined by counting candidates, independently of how the record code keeps its sums.
 A vector is read up to a length n, so a capped record and the whole measurement share one candidate list.
 */
module Vectors {
  import opened Wrappers
  import opened Records
  import opened Sorting

  function Selected(cs: seq<Candidate>, n: nat, op: string): nat
    requires n <= |cs|
  {
    if n == 0 then 0 else Selected(cs, n - 1, op) + if cs[n - 1].operator == op then 1 else 0
  }

  /** How many of the first n candidates of one operator scored o. */
  function Count(cs: seq<Candidate>, os: seq<Outcome>, n: nat, op: string, o: Outcome): nat
    requires n <= |cs| && n <= |os|
  {
    if n == 0 then 0 else Count(cs, os, n - 1, op, o) + if cs[n - 1].operator == op && os[n - 1] == o then 1 else 0
  }

  function Total(os: seq<Outcome>, n: nat, o: Outcome): nat
    requires n <= |os|
  {
    if n == 0 then 0 else Total(os, n - 1, o) + if os[n - 1] == o then 1 else 0
  }

  function Tally(cs: seq<Candidate>, os: seq<Outcome>, n: nat, op: string): OperatorSummary
    requires n <= |cs| && n <= |os|
  {
    OperatorSummary(op, Selected(cs, n, op), Count(cs, os, n, op, Discarded), Count(cs, os, n, op, Killed), Count(cs, os, n, op, Survived))
  }

  /** The surviving candidates' identities, in candidate order. */
  function SurvivingKeys(cs: seq<Candidate>, os: seq<Outcome>, n: nat): seq<Key>
    requires n <= |cs| && n <= |os|
  {
    if n == 0 then [] else SurvivingKeys(cs, os, n - 1) + if os[n - 1] == Survived then [cs[n - 1].Id()] else []
  }

  /** One attribution per killed candidate, in candidate order. */
  function KillRows(cs: seq<Candidate>, os: seq<Outcome>, ks: seq<string>, n: nat): seq<Kill>
    requires n <= |cs| && n <= |os| && n <= |ks|
  {
    if n == 0 then [] else
      KillRows(cs, os, ks, n - 1) + if os[n - 1] == Killed then [Kill(cs[n - 1].position, cs[n - 1].operator, ks[n - 1])] else []
  }

  function OperatorName(s: OperatorSummary): string { s.operator }

  ghost predicate UniqueIdentities(cs: seq<Candidate>) {
    forall i, j :: 0 <= i < j < |cs| ==> cs[i].Id() != cs[j].Id()
  }

  ghost predicate Names(ops: seq<OperatorSummary>, op: string) {
    exists j :: 0 <= j < |ops| && ops[j].operator == op
  }

  /** The summaries are exactly the tallies of the operators that occur, in strict operator order. */
  ghost predicate Summarizes(ops: seq<OperatorSummary>, cs: seq<Candidate>, os: seq<Outcome>, n: nat)
    requires n <= |cs| && n <= |os|
  {
    && StrictlyAscending(ops, OperatorName)
    && (forall j :: 0 <= j < |ops| ==> ops[j] == Tally(cs, os, n, ops[j].operator) && ops[j].generated > 0)
    && (forall i :: 0 <= i < n ==> Names(ops, cs[i].operator))
  }

  /** An evidence row names a runnable candidate of the prefix and carries its outcome. */
  ghost predicate RecordsOutcome(e: CandidateEvidence, cs: seq<Candidate>, os: seq<Outcome>, n: nat)
    requires n <= |cs| && n <= |os|
  {
    exists i :: 0 <= i < n && cs[i].Id() == e.Id() && cs[i].runnable && e.disposition == Scored(os[i])
  }

  ghost predicate EvidenceRecords(evidence: seq<CandidateEvidence>, cs: seq<Candidate>, os: seq<Outcome>, n: nat)
    requires n <= |cs| && n <= |os|
  {
    && Distinct(EvidenceIds(evidence))
    && forall j :: 0 <= j < |evidence| ==> RecordsOutcome(evidence[j], cs, os, n)
  }

  /** A record's counts, identities and attributions are those of the first n outcomes. */
  ghost predicate Accounts(f: Finding, cs: seq<Candidate>, os: seq<Outcome>, n: nat)
    requires n <= |cs| && n <= |os|
  {
    && f.generated == n
    && f.killed == Total(os, n, Killed)
    && f.discarded == Total(os, n, Discarded)
    && f.mutants == Total(os, n, Killed) + Total(os, n, Survived)
    && Summarizes(f.operators, cs, os, n)
    && SurvivorIds(f.survivors) == SurvivingKeys(cs, os, n)
  }

  /** Kill attribution covers every kill; a record from before attribution carries none. */
  predicate Attributed(f: Finding) { |f.kills| == f.killed }

  ghost predicate Represents(f: Finding, cs: seq<Candidate>, os: seq<Outcome>, ks: seq<string>, n: nat)
    requires n <= |cs| && n <= |os| && n <= |ks|
  {
    && Accounts(f, cs, os, n)
    && (f.kills == [] || f.kills == KillRows(cs, os, ks, n))
    && EvidenceRecords(f.candidateEvidence, cs, os, n)
  }

  // ---- counting ----

  lemma {:induction false} CountUpdate(cs: seq<Candidate>, os: seq<Outcome>, i: nat, x: Outcome, n: nat, op: string,
          o: Outcome)
    requires n <= |cs| && n <= |os| && i < n
    ensures Count(cs, os[i := x], n, op, o)
         == Count(cs, os, n, op, o)
            - (if cs[i].operator == op && os[i] == o then 1 else 0)
            + (if cs[i].operator == op && x == o then 1 else 0)
  {
    if i == n - 1 {
      CountPrefix(cs, os, cs, os[i := x], n - 1, op, o);
    } else {
      CountUpdate(cs, os, i, x, n - 1, op, o);
    }
  }

  lemma {:induction false} CountPrefix(cs: seq<Candidate>, os: seq<Outcome>, cs': seq<Candidate>, os': seq<Outcome>,
          n: nat, op: string, o: Outcome)
    requires n <= |cs| && n <= |os| && n <= |cs'| && n <= |os'|
    requires forall i :: 0 <= i < n ==> cs[i] == cs'[i] && os[i] == os'[i]
    ensures Count(cs, os, n, op, o) == Count(cs', os', n, op, o)
    ensures Selected(cs, n, op) == Selected(cs', n, op)
    ensures Total(os, n, o) == Total(os', n, o)
  {
    if n > 0 {
      CountPrefix(cs, os, cs', os', n - 1, op, o);
    }
  }

  lemma {:induction false} TallyPrefix(cs: seq<Candidate>, os: seq<Outcome>, cs': seq<Candidate>, os': seq<Outcome>,
          n: nat, op: string)
    requires n <= |cs| && n <= |os| && n <= |cs'| && n <= |os'|
    requires forall i :: 0 <= i < n ==> cs[i] == cs'[i] && os[i] == os'[i]
    ensures Tally(cs, os, n, op) == Tally(cs', os', n, op)
  {
    CountPrefix(cs, os, cs', os', n, op, Discarded);
    CountPrefix(cs, os, cs', os', n, op, Killed);
    CountPrefix(cs, os, cs', os', n, op, Survived);
  }

  /** Every selected candidate is counted under exactly one outcome. */
  lemma {:induction false} CountConserved(cs: seq<Candidate>, os: seq<Outcome>, n: nat, op: string)
    requires n <= |cs| && n <= |os|
    ensures Count(cs, os, n, op, Killed) + Count(cs, os, n, op, Survived) + Count(cs, os, n, op, Discarded) == Selected(cs, n, op)
  {
    if n > 0 {
      CountConserved(cs, os, n - 1, op);
    }
  }

  lemma {:induction false} TotalConserved(os: seq<Outcome>, n: nat)
    requires n <= |os|
    ensures Total(os, n, Killed) + Total(os, n, Survived) + Total(os, n, Discarded) == n
  {
    if n > 0 {
      TotalConserved(os, n - 1);
    }
  }

  lemma {:induction false} SelectedPositive(cs: seq<Candidate>, n: nat, i: nat)
    requires n <= |cs| && i < n
    ensures Selected(cs, n, cs[i].operator) > 0
  {
    if i < n - 1 {
      SelectedPositive(cs, n - 1, i);
    }
  }

  lemma {:induction false} SelectedWitness(cs: seq<Candidate>, n: nat, op: string) returns (i: nat)
    requires n <= |cs| && Selected(cs, n, op) > 0
    ensures i < n && cs[i].operator == op
  {
    if cs[n - 1].operator == op {
      i := n - 1;
    } else {
      i := SelectedWitness(cs, n - 1, op);
    }
  }

  /** One summand per operator, over outcome o. */
  function SumCounts(ops: seq<OperatorSummary>, k: nat, cs: seq<Candidate>, os: seq<Outcome>, n: nat, o: Outcome): nat
    requires k <= |ops| && n <= |cs| && n <= |os|
  {
    if k == 0 then 0 else SumCounts(ops, k - 1, cs, os, n, o) + Count(cs, os, n, ops[k - 1].operator, o)
  }

  lemma {:induction false} SumCountsStep(ops: seq<OperatorSummary>, k: nat, cs: seq<Candidate>, os: seq<Outcome>,
          n: nat, o: Outcome)
    requires k <= |ops| && 0 < n <= |cs| && n <= |os|
    requires StrictlyAscending(ops, OperatorName)
    ensures SumCounts(ops, k, cs, os, n, o) == SumCounts(ops, k, cs, os, n - 1, o)
         + if os[n - 1] == o && (exists j :: 0 <= j < k && ops[j].operator == cs[n - 1].operator) then 1 else 0
  {
    if k > 0 {
      SumCountsStep(ops, k - 1, cs, os, n, o);
      forall j | 0 <= j < k - 1 ensures ops[j].operator != ops[k - 1].operator {
        assert Less(OperatorName(ops[j]), OperatorName(ops[k - 1]));
        LessIrreflexive(ops[j].operator);
      }
    }
  }

  /** Operator sums and finding totals are one derivation: the distinct operators partition the candidates. */
  lemma {:induction false} SumCountsTotal(ops: seq<OperatorSummary>, cs: seq<Candidate>, os: seq<Outcome>, n: nat,
          o: Outcome)
    requires n <= |cs| && n <= |os|
    requires StrictlyAscending(ops, OperatorName)
    requires forall i :: 0 <= i < n ==> Names(ops, cs[i].operator)
    ensures SumCounts(ops, |ops|, cs, os, n, o) == Total(os, n, o)
  {
    if n == 0 {
      SumCountsNone(ops, |ops|, cs, os, o);
    } else {
      SumCountsTotal(ops, cs, os, n - 1, o);
      SumCountsStep(ops, |ops|, cs, os, n, o);
    }
  }

  lemma {:induction false} SumCountsNone(ops: seq<OperatorSummary>, k: nat, cs: seq<Candidate>, os: seq<Outcome>,
          o: Outcome)
    requires k <= |ops|
    ensures SumCounts(ops, k, cs, os, 0, o) == 0
  {
    if k > 0 {
      SumCountsNone(ops, k - 1, cs, os, o);
    }
  }

  // ---- identities ----

  lemma {:induction false} SurvivingKeysExact(cs: seq<Candidate>, os: seq<Outcome>, n: nat, key: Key)
    requires n <= |cs| && n <= |os|
    ensures key in SurvivingKeys(cs, os, n) <==> exists i :: 0 <= i < n && os[i] == Survived && cs[i].Id() == key
  {
    if n > 0 {
      SurvivingKeysExact(cs, os, n - 1, key);
    }
  }

  lemma {:induction false} SurvivingKeysDistinct(cs: seq<Candidate>, os: seq<Outcome>, n: nat)
    requires n <= |cs| && n <= |os| && UniqueIdentities(cs)
    ensures Distinct(SurvivingKeys(cs, os, n))
    ensures |SurvivingKeys(cs, os, n)| == Total(os, n, Survived)
  {
    if n > 0 {
      SurvivingKeysDistinct(cs, os, n - 1);
      SurvivingKeysExact(cs, os, n - 1, cs[n - 1].Id());
    }
  }

  lemma {:induction false} SurvivingKeysPrefix(cs: seq<Candidate>, os: seq<Outcome>, cs': seq<Candidate>,
          os': seq<Outcome>, n: nat)
    requires n <= |cs| && n <= |os| && n <= |cs'| && n <= |os'|
    requires forall i :: 0 <= i < n ==> cs[i] == cs'[i] && os[i] == os'[i]
    ensures SurvivingKeys(cs, os, n) == SurvivingKeys(cs', os', n)
  {
    if n > 0 {
      SurvivingKeysPrefix(cs, os, cs', os', n - 1);
    }
  }

  lemma {:induction false} KillRowsExact(cs: seq<Candidate>, os: seq<Outcome>, ks: seq<string>, n: nat, row: Kill)
    requires n <= |cs| && n <= |os| && n <= |ks|
    ensures row in KillRows(cs, os, ks, n)
       <==> exists i :: 0 <= i < n && os[i] == Killed && row == Kill(cs[i].position, cs[i].operator, ks[i])
    ensures |KillRows(cs, os, ks, n)| == Total(os, n, Killed)
  {
    if n > 0 {
      KillRowsExact(cs, os, ks, n - 1, row);
    }
  }

  lemma {:induction false} KillRowsDistinct(cs: seq<Candidate>, os: seq<Outcome>, ks: seq<string>, n: nat)
    requires n <= |cs| && n <= |os| && n <= |ks| && UniqueIdentities(cs)
    ensures Distinct(KillIds(KillRows(cs, os, ks, n)))
  {
    if n > 0 {
      KillRowsDistinct(cs, os, ks, n - 1);
      var rows := KillRows(cs, os, ks, n - 1);
      forall j | 0 <= j < |rows| ensures rows[j].Id() != cs[n - 1].Id() {
        KillRowsExact(cs, os, ks, n - 1, rows[j]);
      }
    }
  }

  lemma {:induction false} KillRowsPrefix(cs: seq<Candidate>, os: seq<Outcome>, ks: seq<string>, cs': seq<Candidate>,
          os': seq<Outcome>, ks': seq<string>, n: nat)
    requires n <= |cs| && n <= |os| && n <= |ks| && n <= |cs'| && n <= |os'| && n <= |ks'|
    requires forall i :: 0 <= i < n ==> cs[i] == cs'[i] && os[i] == os'[i] && (os[i] == Killed ==> ks[i] == ks'[i])
    ensures KillRows(cs, os, ks, n) == KillRows(cs', os', ks', n)
  {
    if n > 0 {
      KillRowsPrefix(cs, os, ks, cs', os', ks', n - 1);
    }
  }

  /** Two vectors that agree on the first n candidates have the same records of them. */
  lemma {:induction false} AccountsPrefix(f: Finding, cs: seq<Candidate>, os: seq<Outcome>, ks: seq<string>,
          cs': seq<Candidate>, os': seq<Outcome>, ks': seq<string>, n: nat)
    requires n <= |cs'| && |cs'| == |os'| == |ks'| && n <= |cs| && |cs| == |os| == |ks|
    requires forall i :: 0 <= i < n ==> cs'[i] == cs[i] && os'[i] == os[i] && ks'[i] == ks[i]
    ensures Accounts(f, cs', os', n) <==> Accounts(f, cs, os, n)
    ensures KillRows(cs', os', ks', n) == KillRows(cs, os, ks, n)
  {
    SurvivingKeysPrefix(cs', os', cs, os, n);
    KillRowsPrefix(cs', os', ks', cs, os, ks, n);
    CountPrefix(cs', os', cs, os, n, "", Killed);
    CountPrefix(cs', os', cs, os, n, "", Survived);
    CountPrefix(cs', os', cs, os, n, "", Discarded);
    forall op ensures Tally(cs', os', n, op) == Tally(cs, os, n, op) {
      TallyPrefix(cs', os', cs, os, n, op);
    }
    assert Summarizes(f.operators, cs', os', n) <==> Summarizes(f.operators, cs, os, n);
  }

  /** The vector determines the record: two records of one vector agree on every count and identity. */
  lemma {:induction false} AccountsUnique(f: Finding, g: Finding, cs: seq<Candidate>, os: seq<Outcome>, n: nat)
    requires n <= |cs| && n <= |os|
    requires Accounts(f, cs, os, n) && Accounts(g, cs, os, n)
    ensures f.generated == g.generated && f.killed == g.killed && f.discarded == g.discarded && f.mutants == g.mutants
    ensures f.operators == g.operators
    ensures SurvivorIds(f.survivors) == SurvivorIds(g.survivors)
  {
    SummariesIncluded(f.operators, g.operators, cs, os, n);
    SummariesIncluded(g.operators, f.operators, cs, os, n);
    SortedUnique(f.operators, g.operators, OperatorName);
  }

  lemma {:induction false} SummariesIncluded(ops: seq<OperatorSummary>, others: seq<OperatorSummary>,
          cs: seq<Candidate>, os: seq<Outcome>, n: nat)
    requires n <= |cs| && n <= |os|
    requires Summarizes(ops, cs, os, n) && Summarizes(others, cs, os, n)
    ensures forall s :: s in ops ==> s in others
  {
    forall s | s in ops ensures s in others {
      var j :| 0 <= j < |ops| && ops[j] == s;
      var i := SelectedWitness(cs, n, s.operator);
      assert Names(others, cs[i].operator);
      var k :| 0 <= k < |others| && others[k].operator == cs[i].operator;
      assert others[k] == Tally(cs, os, n, s.operator);
    }
  }
}
