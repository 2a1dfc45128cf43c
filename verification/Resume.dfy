/**
 Graceful interruption: the dispatch walk a soft stop drains, the truncation to capped records, and the
 equivalence of any interrupted campaign with one uninterrupted measurement.
 */
module Resume {
  import opened Wrappers
  import opened Records
  import opened Sorting
  import opened Vectors
  import opened Reconcile
  import opened Splicing

  // ---- the dispatch walk ----

  /** One target's prepared work: fresh, a served record's flagged re-execution, or a capped record's suffix. */
  datatype Mode = Fresh | Serve(flagged: set<nat>) | Extend(from: nat)

  datatype PreparedWork = PreparedWork(mode: Mode, candidates: seq<Candidate>)

  predicate ExecutesCandidate(w: PreparedWork, mi: nat)
    requires mi < |w.candidates|
  {
    && (w.mode.Serve? ==> mi in w.mode.flagged)
    && (w.mode.Extend? ==> w.mode.from <= mi)
    && w.candidates[mi].runnable
  }

  /** Where the walk ended: every candidate handled, or stopped before candidate mi of work wi. */
  datatype WalkEnd = Handled | Stopped(wi: nat, mi: nat)

  /** The candidates handed to the pool by a walk that ended there: every executing one before the stop, none after. */
  ghost predicate DispatchedUpTo(dispatched: set<(nat, nat)>, window: seq<PreparedWork>, wi: nat, mi: nat) {
    forall i: nat, j: nat :: (i, j) in dispatched <==>
      && i < |window| && j < |window[i].candidates| && ExecutesCandidate(window[i], j)
      && (i < wi || (i == wi && j < mi))
  }

  /** stopSeen answers each of the walk's two stop checks per candidate; any pattern of answers is admitted. */
  method Dispatch(window: seq<PreparedWork>, stopSeen: nat -> bool) returns (dispatched: set<(nat, nat)>, end: WalkEnd)
    ensures end.Stopped? ==> end.wi < |window| && end.mi < |window[end.wi].candidates|
    ensures match end
            case Handled => DispatchedUpTo(dispatched, window, |window|, 0)
            case Stopped(wi, mi) => DispatchedUpTo(dispatched, window, wi, mi)
  {
    dispatched := {};
    var check := 0;
    for wi := 0 to |window|
      invariant DispatchedUpTo(dispatched, window, wi, 0)
    {
      for mi := 0 to |window[wi].candidates|
        invariant DispatchedUpTo(dispatched, window, wi, mi)
      {
        if stopSeen(check) {
          return dispatched, Stopped(wi, mi);
        }
        check := check + 1;
        if !ExecutesCandidate(window[wi], mi) {
          continue;
        }
        if stopSeen(check) {
          return dispatched, Stopped(wi, mi);
        }
        check := check + 1;
        dispatched := dispatched + {(wi, mi)};
      }
    }
    end := Handled;
  }

  /** What a drained window keeps of one work: all of it, a capped prefix, or nothing. */
  datatype Kept = Whole | Capped(k: nat) | Dropped

  function KeptOf(window: seq<PreparedWork>, end: WalkEnd, i: nat): Kept
    requires i < |window|
  {
    if end.Handled? || i < end.wi then Whole
    else
      var k := if i == end.wi then end.mi else 0;
      if window[i].mode != Fresh || k == 0 then Dropped else Capped(k)
  }

  method TruncateWindow(window: seq<PreparedWork>, end: WalkEnd) returns (kept: seq<Kept>)
    ensures |kept| == |window| && forall i :: 0 <= i < |window| ==> kept[i] == KeptOf(window, end, i)
  {
    kept := [];
    for wi := 0 to |window|
      invariant |kept| == wi && forall i :: 0 <= i < wi ==> kept[i] == KeptOf(window, end, i)
    {
      var prefix: int := -1;
      if end.Stopped? && wi == end.wi {
        prefix := end.mi;
      }
      if end.Stopped? && wi > end.wi {
        prefix := 0;
      }
      if prefix < 0 {
        kept := kept + [Whole];
      } else if window[wi].mode != Fresh || prefix == 0 {
        kept := kept + [Dropped];
      } else {
        kept := kept + [Capped(prefix)];
      }
    }
  }

  function KeptLength(window: seq<PreparedWork>, kept: Kept, i: nat): nat
    requires i < |window|
  {
    match kept case Whole => |window[i].candidates| case Capped(k) => k case Dropped => 0
  }

  /**
   No unexecuted candidate is ever committed: whatever a drained window keeps of a work, each executing
   candidate in it was dispatched, so the record's discard zero value never stands for a measurement not made.
   */
  lemma {:induction false} KeptWasDispatched(window: seq<PreparedWork>, dispatched: set<(nat, nat)>, end: WalkEnd,
          i: nat, j: nat)
    requires end.Stopped? ==> end.wi < |window| && end.mi < |window[end.wi].candidates|
    requires match end
             case Handled => DispatchedUpTo(dispatched, window, |window|, 0)
             case Stopped(wi, mi) => DispatchedUpTo(dispatched, window, wi, mi)
    requires i < |window| && j < |window[i].candidates|
    ensures j < KeptLength(window, KeptOf(window, end, i), i) && ExecutesCandidate(window[i], j) ==> (i, j) in dispatched
    ensures KeptOf(window, end, i).Capped? ==>
              window[i].mode.Fresh? && KeptOf(window, end, i).k < |window[i].candidates|
              && forall m: nat :: KeptOf(window, end, i).k <= m ==> (i, m) !in dispatched
  {
  }

  // ---- sessions over one target ----

  /** The selection a budget makes of n candidates: the first budget of them, or all under budget 0. */
  function SelectionLength(n: nat, budget: nat): nat { if budget > 0 && budget < n then budget else n }

  predicate BudgetCovers(f: Finding, request: nat) {
    var needed := if request > 0 && request < f.candidateCount then request else f.candidateCount;
    f.generated >= needed
  }

  /** One run over the target: its budget, and where its walk was stopped inside the target, if it was. */
  datatype Session = Session(budget: nat, stop: Option<nat>)

  ghost predicate Interrupted(s: Session, n: nat) { s.stop.Some? && s.stop.value < SelectionLength(n, s.budget) }

  /** A record of the first n outcomes, fully attributed, without candidate evidence, its budget stamp agreeing. */
  ghost predicate Measured(f: Finding, cs: seq<Candidate>, os: seq<Outcome>, ks: seq<string>, n: nat)
    requires |cs| == |os| == |ks| && n <= |cs|
  {
    && Accounts(f, cs, os, n)
    && f.kills == KillRows(cs, os, ks, n)
    && f.candidateEvidence == []
    && f.candidateCount == |cs|
    && f.budget >= 0
    && n == SelectionLength(|cs|, f.budget)
  }

  ghost predicate Standing(state: Option<Finding>, cs: seq<Candidate>, os: seq<Outcome>, ks: seq<string>)
    requires |cs| == |os| == |ks|
  {
    state.Some? ==> 0 <= state.value.generated <= |cs| && Measured(state.value, cs, os, ks, state.value.generated)
  }

  /** What one session does to the standing record, as a relation over the vector both sides represent. */
  ghost predicate SessionStep(before: Option<Finding>, s: Session, after: Option<Finding>, cs: seq<Candidate>,
          os: seq<Outcome>, ks: seq<string>)
    requires |cs| == |os| == |ks|
  {
    var m := SelectionLength(|cs|, s.budget);
    if before.Some? && BudgetCovers(before.value, s.budget) then after == before
    else if !Interrupted(s, |cs|) then after.Some? && Measured(after.value, cs, os, ks, m) && after.value.budget == s.budget
    else if before.Some? || s.stop.value == 0 then after == before
    else after.Some? && Measured(after.value, cs, os, ks, s.stop.value) && after.value.budget == s.stop.value
  }

  /** The window's scores are the target's outcomes, for every candidate the session handled and kept. */
  ghost predicate Scores(scores: WindowScores, os: seq<Outcome>, ks: seq<string>, from: nat, to: nat)
    requires |os| == |ks|
  {
    && from <= to <= |os| && |scores.outcomes| == |scores.killers| == to
    && forall i :: from <= i < to ==> scores.outcomes[i] == os[i] && scores.killers[i] == ks[i]
  }

  /** The scores a drained window keeps: everything but the unhandled suffix. */
  function Truncated(scores: WindowScores, k: nat): WindowScores
    requires k <= |scores.outcomes| && k <= |scores.killers|
  {
    scores.(outcomes := scores.outcomes[..k], killers := scores.killers[..k],
            memoryDecided := if k <= |scores.memoryDecided| then scores.memoryDecided[..k] else scores.memoryDecided)
  }

  /** A fresh measurement of the first n candidates. */
  method MeasureFresh(skeleton: Finding, cs: seq<Candidate>, n: nat, budget: nat, scores: WindowScores,
          posture: Posture, ghost os: seq<Outcome>, ghost ks: seq<string>) returns (f: Finding)
    requires |cs| == |os| == |ks| && n <= |cs| && Skeleton(skeleton) && Scores(scores, os, ks, 0, n)
    requires n == SelectionLength(|cs|, budget)
    ensures Measured(f, cs, os, ks, n) && f.budget == budget
  {
    var started := skeleton.(candidateCount := |cs|, generated := n, budget := budget);
    f := AssembleFresh(started, cs[..n], scores, [], posture);
    AccountsPrefix(f, cs, os, ks, cs[..n], scores.outcomes, scores.killers, n);
  }

  method MeasureSuffix(rec: Finding, cs: seq<Candidate>, m: nat, budget: nat, scores: WindowScores, unstable: bool,
          posture: Posture, ghost os: seq<Outcome>, ghost ks: seq<string>) returns (f: Finding)
    requires |cs| == |os| == |ks| && 0 <= rec.generated < m <= |cs| && m == SelectionLength(|cs|, budget)
    requires Measured(rec, cs, os, ks, rec.generated)
    requires Scores(scores, os, ks, rec.generated, m)
    ensures Measured(f, cs, os, ks, m) && f.budget == budget
  {
    ghost var n := rec.generated;
    MeasuredPrefix(rec, cs, os, ks, m);
    f := ExtendFindingCounts(rec, cs[..m], rec.generated, scores, [], budget, unstable, posture, os[..m], ks[..m]);
    AppendedSame(os, scores.outcomes, n, m);
    AppendedSame(ks, scores.killers, n, m);
    AccountsPrefix(f, cs, os, ks, cs[..m], os[..m], ks[..m], m);
  }

  lemma {:induction false} MeasuredPrefix(rec: Finding, cs: seq<Candidate>, os: seq<Outcome>, ks: seq<string>, m: nat)
    requires |cs| == |os| == |ks| && m <= |cs| && 0 <= rec.generated < m && Measured(rec, cs, os, ks, rec.generated)
    ensures Accounts(rec, cs[..m], os[..m], rec.generated) && Attributed(rec)
            && rec.kills == KillRows(cs[..m], os[..m], ks[..m], rec.generated)
  {
    KillRowsExact(cs, os, ks, rec.generated, Kill("", "", ""));
    AccountsPrefix(rec, cs, os, ks, cs[..m], os[..m], ks[..m], rec.generated);
  }

  lemma {:induction false} AppendedSame<T>(base: seq<T>, suffix: seq<T>, from: nat, m: nat)
    requires from <= m <= |base| && |suffix| == m && forall i :: from <= i < m ==> suffix[i] == base[i]
    ensures Appended(base[..m], suffix, from) == base[..m]
  {
  }

  /**
   One session over the target, every pin but the budget holding: serve, extend, measure or drain. A stopped
   session handled the candidates before its stop; a drained extension is discarded and the prior stands.
   */
  method RunSession(before: Option<Finding>, s: Session, skeleton: Finding, cs: seq<Candidate>, scores: WindowScores,
          unstable: bool, posture: Posture, ghost os: seq<Outcome>,
          ghost ks: seq<string>) returns (after: Option<Finding>)
    requires |cs| == |os| == |ks| && UniqueIdentities(cs) && Skeleton(skeleton) && Standing(before, cs, os, ks)
    requires |scores.outcomes| == |scores.killers| == SelectionLength(|cs|, s.budget)
    requires forall i :: 0 <= i < |scores.outcomes|
                         && (s.stop.Some? ==> i < s.stop.value) && (before.Some? ==> before.value.generated <= i) ==>
                           scores.outcomes[i] == os[i] && scores.killers[i] == ks[i]
    ensures SessionStep(before, s, after, cs, os, ks)
  {
    var m := SelectionLength(|cs|, s.budget);
    if before.Some? {
      if BudgetCovers(before.value, s.budget) {
        return before;
      }
      var g := Generation(|cs|, cs[..m]);
      StandsOverSelection(before.value, cs, os, ks, m);
      var stands := ExtendedPrefixStands(g, before.value);
      assert stands;
      if s.stop.Some? && s.stop.value < m {
        return before;
      }
      var extended := MeasureSuffix(before.value, cs, m, s.budget, scores, unstable, posture, os, ks);
      return Some(extended);
    }
    if s.stop.Some? && s.stop.value < m {
      var k := s.stop.value;
      if k == 0 {
        return None;
      }
      var capped := MeasureFresh(skeleton, cs, k, k, Truncated(scores, k), posture, os, ks);
      return Some(capped);
    }
    var whole := MeasureFresh(skeleton, cs, m, s.budget, scores, posture, os, ks);
    after := Some(whole);
  }

  lemma {:induction false} StandsOverSelection(rec: Finding, cs: seq<Candidate>, os: seq<Outcome>, ks: seq<string>,
          m: nat)
    requires |cs| == |os| == |ks| && UniqueIdentities(cs) && m <= |cs|
    requires 0 <= rec.generated < m && Measured(rec, cs, os, ks, rec.generated)
    ensures StrictlyAscending(rec.operators, OperatorName) && forall j :: 0 <= j < |rec.operators| ==> rec.operators[j].generated > 0
    ensures UniqueIdentities(cs[..m]) && PrefixOperatorsStand(rec.operators, cs[..m], rec.generated)
    ensures forall key :: key in SurvivorIds(rec.survivors) ==> key in CandidateIds(cs[..m])[..rec.generated]
  {
    var n := rec.generated;
    RepresentedIsExtendable(Generation(|cs|, cs), rec, os, n);
    forall op ensures Selected(cs[..m], n, op) == Selected(cs, n, op) {
      CountPrefix(cs[..m], os[..m], cs, os, n, op, Killed);
    }
    assert CandidateIds(cs[..m])[..n] == CandidateIds(cs)[..n];
  }

  // ---- campaigns ----

  /** A campaign's states: no record at first, then one session after another. */
  ghost predicate Campaign(states: seq<Option<Finding>>, sessions: seq<Session>, cs: seq<Candidate>, os: seq<Outcome>,
          ks: seq<string>)
    requires |cs| == |os| == |ks|
  {
    && |states| == |sessions| + 1 && states[0] == None
    && forall i :: 0 <= i < |sessions| ==> SessionStep(states[i], sessions[i], states[i + 1], cs, os, ks)
  }

  /** Whatever the interruptions, the standing record is a record of a prefix of the one vector, within the widest selection. */
  lemma {:induction false} CampaignStands(states: seq<Option<Finding>>, sessions: seq<Session>, cs: seq<Candidate>,
          os: seq<Outcome>, ks: seq<string>, bound: nat)
    requires |cs| == |os| == |ks| && Campaign(states, sessions, cs, os, ks)
    requires forall i :: 0 <= i < |sessions| ==> SelectionLength(|cs|, sessions[i].budget) <= bound
    ensures Standing(states[|sessions|], cs, os, ks)
    ensures states[|sessions|].Some? ==> states[|sessions|].value.generated <= bound
  {
    if |sessions| > 0 {
      var last := |sessions| - 1;
      CampaignStands(states[..|sessions|], sessions[..last], cs, os, ks, bound);
      assert SessionStep(states[last], sessions[last], states[last + 1], cs, os, ks);
    }
  }

  /**
   Resume equivalence: after any sessions, however interrupted, a last uninterrupted session at least as wide as
   each of them leaves a record with every count, summary, kill and survivor identity of one uninterrupted measurement.
   */
  lemma {:induction false} ResumeEquivalence(states: seq<Option<Finding>>, sessions: seq<Session>, whole: Finding,
          cs: seq<Candidate>, os: seq<Outcome>, ks: seq<string>)
    requires |cs| == |os| == |ks| && |sessions| > 0 && Campaign(states, sessions, cs, os, ks)
    requires var last := sessions[|sessions| - 1];
             && !Interrupted(last, |cs|)
             && (forall i :: 0 <= i < |sessions| ==> SelectionLength(|cs|, sessions[i].budget) <= SelectionLength(|cs|, last.budget))
             && SessionStep(None, last, Some(whole), cs, os, ks)
    ensures states[|sessions|].Some?
    ensures var f := states[|sessions|].value;
            && f.generated == whole.generated && f.killed == whole.killed && f.discarded == whole.discarded && f.mutants == whole.mutants
            && f.operators == whole.operators && f.kills == whole.kills && SurvivorIds(f.survivors) == SurvivorIds(whole.survivors)
  {
    var n := |sessions| - 1;
    var m := SelectionLength(|cs|, sessions[n].budget);
    CampaignStands(states[..n + 1], sessions[..n], cs, os, ks, m);
    assert SessionStep(states[n], sessions[n], states[n + 1], cs, os, ks);
    AccountsUnique(states[n + 1].value, whole, cs, os, m);
  }
}
