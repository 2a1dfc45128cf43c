/**
 The directional bound pins: over any history of gated serves, splices and extensions the recorded memory pin bounds
 every verdict's ceiling, so a record the gate lets through agrees with a fresh run under the current ceiling.
 */
module Pins {
  import opened Wrappers
  import opened Records
  import opened Vectors
  import opened Reconcile
  import opened Splicing

  // ---- the gates ----

  predicate MemoryPinStale(prior: Finding, currentPin: int) {
    if prior.oracleCeilingDecided then prior.oracleMemoryBytes != currentPin
    else EffectiveCeiling(currentPin) < EffectiveCeiling(prior.oracleMemoryBytes)
  }

  const TIMEOUT_KILLER := "(timeout)"

  /** Every timeout kill has a candidate-local evidence row: its re-execution route. */
  ghost predicate TimeoutKillsCovered(f: Finding) {
    forall k :: k in f.kills && k.killer == TIMEOUT_KILLER ==> k.Id() in EvidenceIds(f.candidateEvidence)
  }

  method TimeoutKillsReexecutable(f: Finding) returns (ok: bool)
    ensures ok <==> TimeoutKillsCovered(f)
  {
    for i := 0 to |f.kills|
      invariant forall j :: 0 <= j < i && f.kills[j].killer == TIMEOUT_KILLER ==> f.kills[j].Id() in EvidenceIds(f.candidateEvidence)
    {
      var k := f.kills[i];
      assert k in f.kills;
      if k.killer != TIMEOUT_KILLER {
        continue;
      }
      var covered := false;
      for j := 0 to |f.candidateEvidence|
        invariant !covered && k.Id() !in EvidenceIds(f.candidateEvidence)[..j]
      {
        assert EvidenceIds(f.candidateEvidence)[..j + 1] == EvidenceIds(f.candidateEvidence)[..j] + [f.candidateEvidence[j].Id()];
        if f.candidateEvidence[j].Id() == k.Id() {
          assert EvidenceIds(f.candidateEvidence)[j] == k.Id();
          covered := true;
          break;
        }
      }
      assert covered <==> k.Id() in EvidenceIds(f.candidateEvidence) by {
        assert EvidenceIds(f.candidateEvidence)[..|f.candidateEvidence|] == EvidenceIds(f.candidateEvidence);
      }
      if !covered {
        return false;
      }
    }
    ok := true;
  }

  ghost predicate TimeoutPinMatches(prior: Finding, timeout: Bound, derived: bool) {
    || (prior.oracleTimeout == timeout && prior.oracleTimeoutDerived == derived)
    || (prior.oracleTimeoutDerived && derived && TimeoutKillsCovered(prior))
  }

  method CheckTimeoutPin(prior: Finding, timeout: Bound, derived: bool) returns (ok: bool)
    ensures ok <==> TimeoutPinMatches(prior, timeout, derived)
  {
    if prior.oracleTimeout == timeout && prior.oracleTimeoutDerived == derived {
      return true;
    }
    if !prior.oracleTimeoutDerived || !derived {
      return false;
    }
    ok := TimeoutKillsReexecutable(prior);
  }

  // ---- verdicts and the bounds they were measured under ----

  /** One candidate's verdict: its ceiling, whether the ceiling decided it, its outcome, and the budget it ran under. */
  datatype Verdict = Verdict(ceiling: int, decided: bool, outcome: Outcome, budget: int)

  /** The record's bound facts cover every verdict it carries. */
  ghost predicate Covers(rec: Finding, vs: seq<Verdict>) {
    && (forall i :: 0 <= i < |vs| ==> EffectiveCeiling(vs[i].ceiling) <= EffectiveCeiling(rec.oracleMemoryBytes))
    && (forall i :: 0 <= i < |vs| && vs[i].decided ==>
          rec.oracleCeilingDecided && EffectiveCeiling(vs[i].ceiling) == EffectiveCeiling(rec.oracleMemoryBytes))
    && (rec.oracleTimeout.Nanos? ==> forall i :: 0 <= i < |vs| ==> vs[i].budget <= rec.oracleTimeout.value)
  }

  /** A window's verdicts: all under the posture, its memory-decided flags among the scores'. */
  ghost predicate MeasuredUnder(vs: seq<Verdict>, executed: set<nat>, scores: WindowScores, posture: Posture) {
    forall i: nat :: i in executed && i < |vs| ==>
      && vs[i].ceiling == posture.memoryPin && vs[i].budget <= posture.oracleBudget
      && (vs[i].decided ==> AnyMemoryDecided(scores))
  }

  /** A run that derives no budget measures under the record's own timeout. */
  predicate BudgetFits(rec: Finding, posture: Posture) {
    posture.budgetDerived || rec.oracleTimeoutDerived || (rec.oracleTimeout.Nanos? ==> posture.oracleBudget <= rec.oracleTimeout.value)
  }

  /** A gated window keeps the cover: the executed verdicts join under the posture, the others stand. */
  lemma {:induction false} GatedWindowCovers(rec: Finding, vs: seq<Verdict>, vs': seq<Verdict>, executed: set<nat>,
          scores: WindowScores, posture: Posture)
    requires Covers(rec, vs) && !MemoryPinStale(rec, posture.memoryPin) && BudgetFits(rec, posture)
    requires MeasuredUnder(vs', executed, scores, posture)
    requires |vs| <= |vs'| && forall i: nat :: i < |vs'| && i !in executed ==> i < |vs| && vs'[i] == vs[i]
    ensures Covers(MergeScoredFacts(rec, scores, posture), vs')
  {
    var merged := MergeScoredFacts(rec, scores, posture);
    assert EffectiveCeiling(merged.oracleMemoryBytes) == EffectiveCeiling(posture.memoryPin);
    assert rec.oracleTimeout.Nanos? ==> merged.oracleTimeout.Nanos? && merged.oracleTimeout.value >= rec.oracleTimeout.value;
    assert rec.oracleTimeout.Nanos? ==> merged.oracleTimeout.value >= posture.oracleBudget || !(posture.budgetDerived || rec.oracleTimeoutDerived);
  }

  /** A fresh measurement starts covered: the skeleton's memory pin is the posture's own. */
  lemma {:induction false} FreshCovers(skeleton: Finding, vs: seq<Verdict>, executed: set<nat>, scores: WindowScores,
          posture: Posture)
    requires MeasuredUnder(vs, executed, scores, posture) && forall i: nat :: i < |vs| ==> i in executed
    requires posture.memoryPin == skeleton.oracleMemoryBytes
    requires BudgetFits(skeleton, posture)
    ensures Covers(MergeScoredFacts(skeleton, scores, posture), vs)
  {
    assert forall i: nat :: i < |vs| ==> i in executed && vs[i].ceiling == posture.memoryPin;
  }

  // ---- histories ----

  /** What happens to a record under one session's posture, once its gate passed. */
  datatype Session = Serve(posture: Posture) | Window(posture: Posture, scores: WindowScores, executed: set<nat>)

  datatype Standing = Standing(rec: Finding, vs: seq<Verdict>)

  /** A gated serve changes nothing; a window joins its facts and its executed verdicts, a splice's or an extension's. */
  ghost predicate Follows(s: Standing, session: Session, t: Standing) {
    && !MemoryPinStale(s.rec, session.posture.memoryPin) && BudgetFits(s.rec, session.posture)
    && match session
       case Serve(_) => t == s
       case Window(posture, scores, executed) =>
         && |s.vs| <= |t.vs| && MeasuredUnder(t.vs, executed, scores, posture)
         && (forall i: nat :: i < |t.vs| && i !in executed ==> i < |s.vs| && t.vs[i] == s.vs[i])
         && SameBounds(t.rec, MergeScoredFacts(s.rec, scores, posture))
  }

  /** Two records of one set of bound facts. */
  predicate SameBounds(a: Finding, b: Finding) {
    && a.oracleCeilingDecided == b.oracleCeilingDecided && a.oracleMemoryBytes == b.oracleMemoryBytes
    && a.oracleTimeout == b.oracleTimeout && a.oracleTimeoutDerived == b.oracleTimeoutDerived
  }

  /** Splicing and extending take exactly the merged bound facts. */
  lemma {:induction false} AssembliesMergeBounds(rec: Finding, scores: WindowScores, posture: Posture, w: Work,
          attributed: bool, budget: int, generated: int)
    ensures SameBounds(SplicedRecord(rec, scores, posture, w, attributed), MergeScoredFacts(rec, scores, posture))
    ensures SameBounds(ExtendedRecord(rec, scores, posture, w.operators, w.survivors, w.kills, w.evidence, budget, generated),
                       MergeScoredFacts(rec, scores, posture))
  {
  }

  ghost predicate History(states: seq<Standing>, sessions: seq<Session>) {
    && |states| == |sessions| + 1 && Covers(states[0].rec, states[0].vs)
    && forall i :: 0 <= i < |sessions| ==> Follows(states[i], sessions[i], states[i + 1])
  }

  /** After any gated history the recorded pins bound every verdict, memory-decided ones exactly. */
  lemma {:induction false} HistoryCovers(states: seq<Standing>, sessions: seq<Session>)
    requires History(states, sessions)
    ensures Covers(states[|sessions|].rec, states[|sessions|].vs)
  {
    if sessions != [] {
      var n := |sessions| - 1;
      HistoryCovers(states[..n + 1], sessions[..n]);
      assert Follows(states[n], sessions[n], states[n + 1]);
      if sessions[n].Window? {
        GatedWindowCovers(states[n].rec, states[n].vs, states[n + 1].vs, sessions[n].executed, sessions[n].scores, sessions[n].posture);
      }
    }
  }

  // ---- agreement with a fresh run ----

  /** A candidate's run at an effective ceiling: its outcome, and whether the ceiling decided it. */
  type Run = (nat, int) -> (Outcome, bool)

  /** A verdict the ceiling did not decide persists at every larger ceiling. */
  ghost predicate Persists(run: Run) {
    forall i, c, c' :: c <= c' && !run(i, c).1 ==> run(i, c') == run(i, c)
  }

  ghost predicate Measured(vs: seq<Verdict>, run: Run) {
    forall i: nat :: i < |vs| ==> run(i, EffectiveCeiling(vs[i].ceiling)) == (vs[i].outcome, vs[i].decided)
  }

  /** A record the memory gate lets through, after any history, holds the outcomes a fresh run would under the current ceiling. */
  lemma {:induction false} UnstaleAgreesWithFresh(states: seq<Standing>, sessions: seq<Session>, run: Run,
          currentPin: int, i: nat)
    requires History(states, sessions) && Persists(run) && Measured(states[|sessions|].vs, run)
    requires !MemoryPinStale(states[|sessions|].rec, currentPin) && i < |states[|sessions|].vs|
    ensures run(i, EffectiveCeiling(currentPin)).0 == states[|sessions|].vs[i].outcome
  {
    HistoryCovers(states, sessions);
    var v := states[|sessions|].vs[i];
    assert run(i, EffectiveCeiling(v.ceiling)) == (v.outcome, v.decided);
    assert EffectiveCeiling(v.ceiling) <= EffectiveCeiling(currentPin);
    assert v.decided ==> EffectiveCeiling(v.ceiling) == EffectiveCeiling(currentPin);
  }

  /** The gate is no stricter than it must be: a refused pin is one under which some covered verdict could differ. */
  lemma {:induction false} StaleCouldDiffer(rec: Finding, currentPin: int)
    requires MemoryPinStale(rec, currentPin) && EffectiveCeiling(rec.oracleMemoryBytes) != EffectiveCeiling(currentPin)
    ensures exists run: Run, vs: seq<Verdict> ::
              && Persists(run) && Covers(rec, vs) && Measured(vs, run) && |vs| == 1
              && run(0, EffectiveCeiling(currentPin)).0 != vs[0].outcome
  {
    var pin, now := EffectiveCeiling(rec.oracleMemoryBytes), EffectiveCeiling(currentPin);
    var low := if pin < now then pin else now;
    // Below the larger of the two ceilings the candidate exhausts its memory and dies; from it on, it survives.
    var run: Run := (i, c) => if c <= low then (Killed, true) else (Survived, false);
    var budget := if rec.oracleTimeout.Nanos? then rec.oracleTimeout.value else 0;
    var vs := [Verdict(rec.oracleMemoryBytes, pin == low, if pin == low then Killed else Survived, budget)];
    assert Persists(run) && Covers(rec, vs) && Measured(vs, run);
    assert run(0, now).0 != vs[0].outcome;
  }

  // ---- timeout kills ----

  /**
   Under a relaxed timeout pin no timeout kill is served on trust: every one is flagged, so the splice re-executes it
   under the current budget; and were one not flagged, the pin would have refused.
   */
  lemma {:induction false} TimeoutKillsAreReexecuted(rec: Finding, cs: seq<Candidate>, flagged: set<nat>,
          os: seq<Outcome>, ks: seq<string>)
    requires |os| == |ks| == |cs| && UniqueIdentities(cs) && Flags(flagged, cs, rec)
    requires Represents(rec, cs, os, ks, |cs|) && rec.kills == KillRows(cs, os, ks, |cs|)
    ensures TimeoutKillsCovered(rec) <==> forall i: nat :: i < |cs| && os[i] == Killed && ks[i] == TIMEOUT_KILLER ==> i in flagged
  {
    if TimeoutKillsCovered(rec) {
      forall i: nat | i < |cs| && os[i] == Killed && ks[i] == TIMEOUT_KILLER ensures i in flagged {
        KillRowsExact(cs, os, ks, |cs|, Kill(cs[i].position, cs[i].operator, ks[i]));
        assert Kill(cs[i].position, cs[i].operator, ks[i]) in rec.kills;
      }
    }
    if forall i: nat :: i < |cs| && os[i] == Killed && ks[i] == TIMEOUT_KILLER ==> i in flagged {
      forall k | k in rec.kills && k.killer == TIMEOUT_KILLER ensures k.Id() in EvidenceIds(rec.candidateEvidence) {
        KillRowsExact(cs, os, ks, |cs|, k);
      }
    }
  }
}
