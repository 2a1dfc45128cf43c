/**
 The freshness check over recorded evidence: prechecks subject by subject, then one batched verdict per view, refining
 the walk that asks each subject alone. The engine's verdicts are functions; a batch answers as each single would.
 */
module Freshness {
  import opened Wrappers
  import opened Records

  datatype Verdict = Valid | Stale(reason: string)

  /** The current runtime state of a manifest: a state, a failure that reads as a mismatch, or the run's cancellation. */
  datatype Current = State(ok: bool, digest: string, unverifiable: bool, reason: string) | Fails | Cancelled

  datatype SubjectView = SubjectView(view: nat, subject: string, symbol: string, base: string, environment: seq<string>, purity: string)

  datatype EvidencePair = EvidencePair(subject: SubjectView, evidence: SubjectEvidence)

  datatype MemoKey = MemoKey(manifest: string, base: string, environment: seq<string>)

  /** The engine: verdicts of one view's subjects, alone and batched, and the runtime states. None is an error. */
  datatype Engine = Engine(
    single: (nat, string, Fingerprint) -> Option<Verdict>,
    batch: (nat, map<string, Fingerprint>) -> Option<map<string, Verdict>>,
    current: MemoKey -> Current)
  {
    /** The engine's guarantee: a batch answers every subject it was given as the subject's single check does. */
    ghost predicate Agrees() {
      forall v, m, s :: batch(v, m).Some? && s in m ==> s in batch(v, m).value && single(v, s, m[s]) == Some(batch(v, m).value[s])
    }
  }

  type Accept = (EvidencePair, Verdict) -> bool

  predicate Observed(fp: Fingerprint) { fp.observationAssertion != "" || fp.proof != ZERO_PROOF }

  datatype Error = RunCancelled | EngineFailed

  // ---- the pre-verdict checks ----

  function KeyFor(p: EvidencePair): MemoKey {
    MemoKey(p.evidence.fingerprint.runtimeInputs, p.subject.base + p.evidence.moduleBase, p.subject.environment)
  }

  predicate Named(p: EvidencePair) {
    p.evidence.symbol == p.subject.symbol && p.evidence.fingerprint.runtimeInputs != "" && p.evidence.fingerprint.runtimeDigest != ""
  }

  /** The recorded runtime state is the current one, verifiable, under the same purity assertion. */
  predicate Holds(p: EvidencePair, now: Current) {
    && now == State(true, p.evidence.fingerprint.runtimeDigest, p.evidence.runtimeUnverifiable, p.evidence.runtimeReason)
    && !p.evidence.runtimeUnverifiable && p.evidence.fingerprint.purityAssertion == p.subject.purity
  }

  predicate Prechecks(e: Engine, p: EvidencePair) { Named(p) && Holds(p, e.current(KeyFor(p))) }

  method EvidencePrecheck(e: Engine, p: EvidencePair) returns (r: Result<bool, Error>)
    ensures r.Ok? ==> (r.value <==> Prechecks(e, p))
    ensures r.Err? <==> Named(p) && e.current(KeyFor(p)).Cancelled?
  {
    if p.evidence.symbol != p.subject.symbol || p.evidence.fingerprint.runtimeInputs == "" || p.evidence.fingerprint.runtimeDigest == "" {
      return Ok(false);
    }
    var state := e.current(KeyFor(p));
    if state.Cancelled? {
      return Err(RunCancelled);
    }
    if state.Fails? || !state.ok || state.digest != p.evidence.fingerprint.runtimeDigest
       || state.unverifiable != p.evidence.runtimeUnverifiable || state.reason != p.evidence.runtimeReason {
      return Ok(false);
    }
    if p.evidence.runtimeUnverifiable {
      return Ok(false);
    }
    r := Ok(p.evidence.fingerprint.purityAssertion == p.subject.purity);
  }

  // ---- the two walks ----

  /** The pair's own single verdict, when the engine answers, is accepted. */
  predicate Accepted(e: Engine, accept: Accept, p: EvidencePair) {
    var v := e.single(p.subject.view, p.subject.subject, p.evidence.fingerprint);
    v.Some? && accept(p, v.value)
  }

  /** The per-subject walk's answer: every pair prechecks and its own verdict is accepted. */
  ghost predicate AllStand(e: Engine, accept: Accept, pairs: seq<EvidencePair>) {
    forall p :: p in pairs ==> Prechecks(e, p) && Accepted(e, accept, p)
  }

  datatype Batch = Batch(recorded: map<string, Fingerprint>, members: seq<nat>)

  /** The batches built over the first n pairs: each pair accepted alone, or a member of its view's batch under its own recording. */
  ghost predicate Routed(e: Engine, accept: Accept, pairs: seq<EvidencePair>, batches: map<nat, Batch>, n: nat)
    requires n <= |pairs|
  {
    && (forall i :: 0 <= i < n ==> Accepted(e, accept, pairs[i]) || (pairs[i].subject.view in batches && i in batches[pairs[i].subject.view].members))
    && (forall v, i :: v in batches && i in batches[v].members ==> Member(pairs, batches[v], v, i, n))
  }

  ghost predicate Member(pairs: seq<EvidencePair>, b: Batch, v: nat, i: nat, n: nat)
    requires n <= |pairs|
  {
    && i < n && pairs[i].subject.view == v
    && pairs[i].subject.subject in b.recorded && b.recorded[pairs[i].subject.subject] == pairs[i].evidence.fingerprint
  }

  lemma {:induction false} RouteMember(e: Engine, accept: Accept, pairs: seq<EvidencePair>, batches: map<nat, Batch>,
          n: nat)
    requires n < |pairs| && Routed(e, accept, pairs, batches, n)
    requires var p := pairs[n]; p.subject.view in batches ==> p.subject.subject !in batches[p.subject.view].recorded
    ensures var p := pairs[n];
            var was := if p.subject.view in batches then batches[p.subject.view] else Batch(map[], []);
            Routed(e, accept, pairs, batches[p.subject.view := Batch(was.recorded[p.subject.subject := p.evidence.fingerprint], was.members + [n])], n + 1)
  {
    var p := pairs[n];
    var was := if p.subject.view in batches then batches[p.subject.view] else Batch(map[], []);
    var b := Batch(was.recorded[p.subject.subject := p.evidence.fingerprint], was.members + [n]);
    var batches' := batches[p.subject.view := b];
    forall v, i | v in batches' && i in batches'[v].members ensures Member(pairs, batches'[v], v, i, n + 1) {
      if v != p.subject.view || i != n {
        assert v in batches && i in batches[v].members && Member(pairs, batches[v], v, i, n);
      }
    }
    forall i | 0 <= i < n + 1 ensures Accepted(e, accept, pairs[i]) || (pairs[i].subject.view in batches' && i in batches'[pairs[i].subject.view].members) {
      if i < n && pairs[i].subject.view == p.subject.view && !Accepted(e, accept, pairs[i]) {
        assert i in was.members;
      }
    }
  }

  lemma {:induction false} RouteSingle(e: Engine, accept: Accept, pairs: seq<EvidencePair>, batches: map<nat, Batch>,
          n: nat)
    requires n < |pairs| && Routed(e, accept, pairs, batches, n) && Accepted(e, accept, pairs[n])
    ensures Routed(e, accept, pairs, batches, n + 1)
  {
    forall v, i | v in batches && i in batches[v].members ensures Member(pairs, batches[v], v, i, n + 1) {
      assert Member(pairs, batches[v], v, i, n);
    }
  }

  method PrecheckAll(e: Engine, pairs: seq<EvidencePair>) returns (r: Result<bool, Error>)
    ensures r.Ok? ==> (r.value <==> forall p :: p in pairs ==> Prechecks(e, p))
    ensures r.Err? ==> exists p :: p in pairs && e.current(KeyFor(p)).Cancelled?
  {
    for i := 0 to |pairs|
      invariant forall j :: 0 <= j < i ==> Prechecks(e, pairs[j])
    {
      assert pairs[i] in pairs;
      var ok := EvidencePrecheck(e, pairs[i]);
      if ok.Err? || !ok.value {
        return ok;
      }
    }
    r := Ok(true);
  }

  /** One pair to its batch, or checked alone: without observation facts, or when its view already records its subject. */
  method Route(e: Engine, accept: Accept, pairs: seq<EvidencePair>, batches: map<nat, Batch>, i: nat)
    returns (r: Result<Option<map<nat, Batch>>, Error>)
    requires i < |pairs| && Routed(e, accept, pairs, batches, i)
    ensures r.Ok? && r.value.Some? ==> Routed(e, accept, pairs, r.value.value, i + 1)
    ensures r.Ok? && r.value.None? ==> !Accepted(e, accept, pairs[i])
    ensures r.Err? ==> e.single(pairs[i].subject.view, pairs[i].subject.subject, pairs[i].evidence.fingerprint).None?
  {
    var p := pairs[i];
    var single := !Observed(p.evidence.fingerprint);
    if !single && p.subject.view in batches {
      single := p.subject.subject in batches[p.subject.view].recorded;
    }
    if single {
      var verdict := e.single(p.subject.view, p.subject.subject, p.evidence.fingerprint);
      if verdict.None? {
        return Err(EngineFailed);
      }
      if !accept(p, verdict.value) {
        return Ok(None);
      }
      RouteSingle(e, accept, pairs, batches, i);
      return Ok(Some(batches));
    }
    RouteMember(e, accept, pairs, batches, i);
    var was := if p.subject.view in batches then batches[p.subject.view] else Batch(map[], []);
    r := Ok(Some(batches[p.subject.view := Batch(was.recorded[p.subject.subject := p.evidence.fingerprint], was.members + [i])]));
  }

  /** One view's batch: every member's verdict out of one call. */
  method CheckBatch(e: Engine, accept: Accept, pairs: seq<EvidencePair>, batches: map<nat, Batch>,
          view: nat) returns (r: Result<bool, Error>)
    requires e.Agrees() && Routed(e, accept, pairs, batches, |pairs|) && view in batches
    ensures r.Ok? ==> (r.value <==> forall i :: i in batches[view].members ==> i < |pairs| && Accepted(e, accept, pairs[i]))
    ensures r.Err? ==> e.batch(view, batches[view].recorded).None?
  {
    var b := batches[view];
    var verdicts := e.batch(view, b.recorded);
    if verdicts.None? {
      return Err(EngineFailed);
    }
    for j := 0 to |b.members|
      invariant forall k :: 0 <= k < j ==> b.members[k] < |pairs| && Accepted(e, accept, pairs[b.members[k]])
    {
      var i := b.members[j];
      assert i in b.members && Member(pairs, b, view, i, |pairs|);
      if !accept(pairs[i], verdicts.value[pairs[i].subject.subject]) {
        return Ok(false);
      }
    }
    r := Ok(true);
  }

  method CheckBatches(e: Engine, accept: Accept, pairs: seq<EvidencePair>,
          batches: map<nat, Batch>) returns (r: Result<bool, Error>)
    requires e.Agrees() && Routed(e, accept, pairs, batches, |pairs|)
    ensures r.Ok? ==> (r.value <==> forall p :: p in pairs ==> Accepted(e, accept, p))
    ensures r.Err? ==> exists v :: v in batches && e.batch(v, batches[v].recorded).None?
  {
    var pending := batches.Keys;
    while pending != {}
      invariant pending <= batches.Keys
      invariant forall v, i :: v in batches && v !in pending && i in batches[v].members ==> i < |pairs| && Accepted(e, accept, pairs[i])
      decreases pending
    {
      var view :| view in pending;
      var ok := CheckBatch(e, accept, pairs, batches, view);
      if ok.Err? {
        return ok;
      }
      if !ok.value {
        MemberRefused(e, accept, pairs, batches, view);
        return ok;
      }
      pending := pending - {view};
    }
    forall p | p in pairs ensures Accepted(e, accept, p) {
      var i :| 0 <= i < |pairs| && pairs[i] == p;
    }
    r := Ok(true);
  }

  lemma {:induction false} MemberRefused(e: Engine, accept: Accept, pairs: seq<EvidencePair>, batches: map<nat, Batch>,
          view: nat)
    requires Routed(e, accept, pairs, batches, |pairs|) && view in batches
    requires !(forall i :: i in batches[view].members ==> i < |pairs| && Accepted(e, accept, pairs[i]))
    ensures exists p :: p in pairs && !Accepted(e, accept, p)
  {
    var i :| i in batches[view].members && !(i < |pairs| && Accepted(e, accept, pairs[i]));
    assert Member(pairs, batches[view], view, i, |pairs|);
    assert pairs[i] in pairs;
  }

  /** No call the walk may make fails. */
  ghost predicate Answers(e: Engine, pairs: seq<EvidencePair>) {
    && (forall p :: p in pairs ==> !e.current(KeyFor(p)).Cancelled?)
    && (forall p :: p in pairs ==> e.single(p.subject.view, p.subject.subject, p.evidence.fingerprint).Some?)
    && (forall v, m :: e.batch(v, m).Some?)
  }

  /**
   The batched walk refines the per-subject one: its answer is true exactly when every pair prechecks and its own
   single verdict is accepted, repeated subjects and rows without observation facts included.
   */
  method EvidencePairsValid(e: Engine, accept: Accept, pairs: seq<EvidencePair>) returns (r: Result<bool, Error>)
    requires e.Agrees()
    ensures r.Ok? ==> (r.value <==> AllStand(e, accept, pairs))
    ensures Answers(e, pairs) ==> r.Ok?
  {
    var prechecked := PrecheckAll(e, pairs);
    if prechecked.Err? || !prechecked.value {
      return prechecked;
    }
    var batches: map<nat, Batch> := map[];
    for i := 0 to |pairs|
      invariant Routed(e, accept, pairs, batches, i)
    {
      assert pairs[i] in pairs;
      var routed := Route(e, accept, pairs, batches, i);
      if routed.Err? {
        return Err(routed.error);
      }
      if routed.value.None? {
        return Ok(false);
      }
      batches := routed.value.value;
    }
    r := CheckBatches(e, accept, pairs, batches);
  }

  // ---- the runtime memo ----

  datatype Memoized = Memoized(answer: Current, uses: nat)

  /** One evaluation's memo of runtime states: each manifest is read once, and verified before the answers are trusted. */
  class RuntimeMemo {
    var results: map<MemoKey, Memoized>

    constructor ()
      ensures results == map[]
    {
      results := map[];
    }

    method Once(now: MemoKey -> Current, key: MemoKey) returns (answer: Current)
      modifies this
      ensures key in old(results) ==> answer == old(results)[key].answer && results == old(results)[key := Memoized(answer, old(results)[key].uses + 1)]
      ensures key !in old(results) ==> answer == now(key) && results == old(results)[key := Memoized(answer, 1)]
    {
      if key in results {
        answer := results[key].answer;
        results := results[key := Memoized(answer, results[key].uses + 1)];
        return;
      }
      answer := now(key);
      results := results[key := Memoized(answer, 1)];
    }

    /** True exactly when every manifest consulted more than once still reads as it did; None under cancellation. */
    method Verify(now: MemoKey -> Current) returns (ok: Option<bool>)
      ensures ok.Some? ==> (ok.value <==> forall key :: key in results && results[key].uses >= 2 ==> now(key).State? && now(key) == results[key].answer)
      ensures ok.None? ==> exists key :: key in results && now(key).Cancelled?
    {
      var pending := results.Keys;
      while pending != {}
        invariant pending <= results.Keys
        invariant forall key :: key in results && key !in pending && results[key].uses >= 2 ==> now(key).State? && now(key) == results[key].answer
        decreases pending
      {
        var key :| key in pending;
        pending := pending - {key};
        if results[key].uses < 2 {
          continue;
        }
        var state := now(key);
        if state.Cancelled? {
          return None;
        }
        if state.Fails? || state != results[key].answer {
          return Some(false);
        }
      }
      ok := Some(true);
    }
  }
}
