/**
 The findings validator. Its verdict is stated declaratively, and the loops with their running
 remainders and seen-sets are proved to decide exactly that.
 */
module Validator {
  import opened Wrappers
  import opened Text
  import opened Sorting
  import opened SelectionText
  import opened Records
  import opened Vectors
  import opened Reconcile

  // ---- evidence rows ----

  predicate CleanModuleBase(base: string) {
    && !("/" <= base) && '\\' !in base
    && forall segment :: segment in Split(base, '/') ==> segment != "" && segment != "." && segment != ".."
  }

  /** Every pin a serving path reads. */
  function Pins(e: SubjectEvidence): seq<string> {
    var fp := e.fingerprint;
    [e.symbol, fp.maximalClosure, fp.testVariantClosure, fp.toolchain, fp.buildConfig, fp.observationAssertion,
     fp.proof.strategy, fp.proof.subjectPackage, fp.proof.subjectSymbol, fp.proof.evidence, fp.runtimeInputs, fp.runtimeDigest]
  }

  /** The row's judgment: refused, or its completeness. */
  function RowVerdict(e: SubjectEvidence): Option<bool> {
    if e.runtimeUnverifiable != (e.runtimeReason != "") then Some(false)
    else if e.moduleBase != "" && !CleanModuleBase(e.moduleBase) then None
    else if e.fingerprint.proof.observable == (e.fingerprint.proof.reason != "") then Some(false)
    else Some("" !in Pins(e))
  }

  /** The runtime disposition the rows of one finding share. */
  function RuntimeOf(e: SubjectEvidence): (string, string, bool, string) {
    (e.fingerprint.runtimeInputs, e.fingerprint.runtimeDigest, e.runtimeUnverifiable, e.runtimeReason)
  }

  function Anchor(f: Finding): SubjectEvidence {
    if f.shape.Some? && |f.oracleEvidence| > 0 then f.oracleEvidence[0] else f.targetEvidence
  }

  function OracleSymbols(f: Finding): (xs: seq<string>)
    ensures |xs| == |f.oracleEvidence| && forall i :: 0 <= i < |xs| ==> xs[i] == f.oracleEvidence[i].symbol
  {
    seq(|f.oracleEvidence|, i requires 0 <= i < |f.oracleEvidence| => f.oracleEvidence[i].symbol)
  }

  /** The rows decode to evidence a serving path could judge. */
  ghost predicate EvidenceComplete(f: Finding) {
    && (f.shape.Some? ==> f.targetEvidence == ZERO_EVIDENCE)
    && (f.shape.None? ==> RowVerdict(f.targetEvidence) == Some(true) && f.targetEvidence.symbol == f.symbol)
    && f.oracleEvidence != []
    && forall e :: e in f.oracleEvidence ==> RowVerdict(e) == Some(true)
  }

  ghost predicate FindingWide(f: Finding) {
    forall e :: e in f.oracleEvidence ==> RuntimeOf(e) == RuntimeOf(Anchor(f))
  }

  ghost predicate EvidenceAccepted(f: Finding) {
    && (f.shape.Some? ==> f.shape.value.structural.Some? || f.shape.value.manual.Some?)
    && (f.shape.None? ==> RowVerdict(f.targetEvidence).Some?)
    && (forall e :: e in f.oracleEvidence ==> RowVerdict(e).Some?)
    && Distinct(OracleSymbols(f))
    && (EvidenceComplete(f) ==> FindingWide(f))
  }

  method ValidateEvidence(f: Finding) returns (verdict: Option<bool>)
    ensures verdict.Some? <==> EvidenceAccepted(f)
    ensures verdict.Some? ==> (verdict.value <==> EvidenceComplete(f))
  {
    var complete := true;
    if f.shape.Some? {
      if f.targetEvidence != ZERO_EVIDENCE {
        complete := false;
      }
      if f.shape.value.structural.None? && f.shape.value.manual.None? {
        return None;
      }
    } else {
      var valid := RowVerdict(f.targetEvidence);
      if valid.None? {
        return None;
      }
      complete := complete && valid.value;
      if f.targetEvidence.symbol != f.symbol {
        complete := false;
      }
    }
    if |f.oracleEvidence| == 0 {
      complete := false;
    }
    var oracles := ValidateOracles(f);
    if oracles.None? {
      return None;
    }
    complete := complete && oracles.value;
    if complete {
      var one := OneRuntime(f);
      if !one {
        return None;
      }
    }
    verdict := Some(complete);
  }

  /** The oracle rows, each judged and each symbol once. */
  method ValidateOracles(f: Finding) returns (verdict: Option<bool>)
    ensures verdict.Some? <==> (forall e :: e in f.oracleEvidence ==> RowVerdict(e).Some?) && Distinct(OracleSymbols(f))
    ensures verdict.Some? ==> (verdict.value <==> forall e :: e in f.oracleEvidence ==> RowVerdict(e) == Some(true))
  {
    var complete, seen: set<string> := true, {};
    for i := 0 to |f.oracleEvidence|
      invariant forall j :: 0 <= j < i ==> RowVerdict(f.oracleEvidence[j]).Some?
      invariant forall s :: s in seen <==> s in OracleSymbols(f)[..i]
      invariant Distinct(OracleSymbols(f)[..i])
      invariant complete <==> forall j :: 0 <= j < i ==> RowVerdict(f.oracleEvidence[j]) == Some(true)
    {
      var e := f.oracleEvidence[i];
      var valid := RowVerdict(e);
      if valid.None? {
        assert e in f.oracleEvidence;
        return None;
      }
      complete := complete && valid.value;
      if e.symbol in seen {
        assert OracleSymbols(f)[i] == e.symbol;
        return None;
      }
      seen := seen + {e.symbol};
      assert OracleSymbols(f)[..i + 1] == OracleSymbols(f)[..i] + [e.symbol];
    }
    assert OracleSymbols(f)[..|f.oracleEvidence|] == OracleSymbols(f);
    verdict := Some(complete);
  }

  method OneRuntime(f: Finding) returns (ok: bool)
    ensures ok <==> FindingWide(f)
  {
    for i := 0 to |f.oracleEvidence|
      invariant forall j :: 0 <= j < i ==> RuntimeOf(f.oracleEvidence[j]) == RuntimeOf(Anchor(f))
    {
      if RuntimeOf(f.oracleEvidence[i]) != RuntimeOf(Anchor(f)) {
        assert f.oracleEvidence[i] in f.oracleEvidence;
        return false;
      }
    }
    ok := true;
  }

  // ---- counts ----

  predicate CountsReconcile(f: Finding) {
    && f.candidateCount >= 0 && f.generated >= 0 && f.mutants >= 0 && f.killed >= 0 && f.discarded >= 0 && f.budget >= 0
    && f.killed <= f.mutants && |f.survivors| == f.mutants - f.killed
    && f.generated == f.mutants + f.discarded <= MAX_INT64
    && f.generated == (if 0 < f.budget < f.candidateCount then f.budget else f.candidateCount)
  }

  predicate KillNamed(k: Kill) { k.position != "" && k.operator != "" && k.killer != "" }

  /** Attribution is absent or covers every kill once, naming no survivor. */
  ghost predicate KillsValid(f: Finding) {
    f.kills != [] ==>
      && |f.kills| == f.killed
      && (forall k :: k in f.kills ==> KillNamed(k) && k.Id() !in SurvivorIds(f.survivors))
      && Distinct(KillIds(f.kills))
  }

  method ValidateKills(f: Finding) returns (ok: bool)
    ensures ok <==> KillsValid(f)
  {
    if |f.kills| == 0 {
      return true;
    }
    if |f.kills| != f.killed {
      return false;
    }
    var survivors := CollectSurvivors(f.survivors);
    var seen: set<Key> := {};
    for i := 0 to |f.kills|
      invariant forall j :: 0 <= j < i ==> KillNamed(f.kills[j]) && f.kills[j].Id() !in SurvivorIds(f.survivors)
      invariant forall key :: key in seen <==> key in KillIds(f.kills)[..i]
      invariant Distinct(KillIds(f.kills)[..i])
    {
      var k := f.kills[i];
      assert KillIds(f.kills)[i] == k.Id();
      if !KillNamed(k) || k.Id() in seen || k.Id() in survivors {
        assert k in f.kills;
        return false;
      }
      seen := seen + {k.Id()};
      assert KillIds(f.kills)[..i + 1] == KillIds(f.kills)[..i] + [k.Id()];
    }
    assert KillIds(f.kills)[..|f.kills|] == KillIds(f.kills);
    ok := true;
  }

  method CollectSurvivors(xs: seq<Survivor>) returns (ids: set<Key>)
    ensures forall key :: key in ids <==> key in SurvivorIds(xs)
  {
    ids := {};
    for i := 0 to |xs|
      invariant forall key :: key in ids <==> key in SurvivorIds(xs)[..i]
    {
      ids := ids + {xs[i].Id()};
      assert SurvivorIds(xs)[..i + 1] == SurvivorIds(xs)[..i] + [xs[i].Id()];
    }
    assert SurvivorIds(xs)[..|xs|] == SurvivorIds(xs);
  }

  // ---- survivors ----

  function VerdictSelection(v: SelectionVerdict): string { v.selection }

  /** The annotation parses to verdicts of other selections, each once, in selection order. */
  ghost predicate AnnotationValid(text: string, selection: string) {
    text != "" ==>
      && ParsedVerdicts(text).Some?
      && (forall v :: v in ParsedVerdicts(text).value ==> v.selection != selection)
      && StrictlyAscending(ParsedVerdicts(text).value, VerdictSelection)
  }

  method ValidateAnnotation(text: string, selection: string) returns (ok: bool)
    ensures ok <==> AnnotationValid(text, selection)
  {
    if text == "" {
      return true;
    }
    var parsed := ParseSelectionVerdicts(text);
    if parsed.None? {
      return false;
    }
    ok := ValidateVerdicts(parsed.value, selection);
  }

  function Selections(vs: seq<SelectionVerdict>): (xs: seq<string>)
    ensures |xs| == |vs| && forall i :: 0 <= i < |xs| ==> xs[i] == vs[i].selection
  {
    seq(|vs|, i requires 0 <= i < |vs| => vs[i].selection)
  }

  method ValidateVerdicts(vs: seq<SelectionVerdict>, selection: string) returns (ok: bool)
    ensures ok <==> (forall v :: v in vs ==> v.selection != selection) && StrictlyAscending(vs, VerdictSelection)
  {
    var seen: set<string> := {};
    for i := 0 to |vs|
      invariant forall j :: 0 <= j < i ==> vs[j].selection != selection
      invariant forall s :: s in seen <==> s in Selections(vs)[..i]
      invariant StrictlyAscending(vs[..i], VerdictSelection)
    {
      var v := vs[i];
      if v.selection == selection {
        assert v in vs;
        return false;
      }
      if v.selection in seen {
        RepeatNotAscending(vs, i);
        return false;
      }
      seen := seen + {v.selection};
      assert Selections(vs)[..i + 1] == Selections(vs)[..i] + [v.selection];
      if i > 0 && !Less(vs[i - 1].selection, v.selection) {
        assert !Less(VerdictSelection(vs[i - 1]), VerdictSelection(vs[i]));
        return false;
      }
      AscendingNext(vs, i, VerdictSelection);
    }
    assert vs[..|vs|] == vs;
    ok := true;
  }

  lemma {:induction false} RepeatNotAscending(vs: seq<SelectionVerdict>, i: nat)
    requires i < |vs| && vs[i].selection in Selections(vs)[..i]
    ensures !StrictlyAscending(vs, VerdictSelection)
  {
    var j :| 0 <= j < i && Selections(vs)[j] == vs[i].selection;
    LessIrreflexive(vs[i].selection);
    assert !Less(VerdictSelection(vs[j]), VerdictSelection(vs[i]));
  }

  ghost predicate SurvivorsValid(f: Finding) {
    && (forall s :: s in f.survivors ==> SurvivorNamed(s) && AnnotationValid(s.otherSelection, f.selection))
    && Distinct(SurvivorIds(f.survivors))
  }

  /** How many survivors one operator left. */
  function SurvivorsOf(xs: seq<Survivor>, op: string): nat {
    if xs == [] then 0 else SurvivorsOf(xs[..|xs| - 1], op) + if xs[|xs| - 1].operator == op then 1 else 0
  }

  predicate SurvivorNamed(s: Survivor) { s.position != "" && s.operator != "" }

  method ValidateSurvivors(f: Finding) returns (ok: bool)
    ensures ok <==> SurvivorsValid(f)
  {
    var seen: set<Key> := {};
    for i := 0 to |f.survivors|
      invariant forall j :: 0 <= j < i ==> SurvivorNamed(f.survivors[j]) && AnnotationValid(f.survivors[j].otherSelection, f.selection)
      invariant forall key :: key in seen <==> key in SurvivorIds(f.survivors)[..i]
      invariant Distinct(SurvivorIds(f.survivors)[..i])
    {
      var s := f.survivors[i];
      assert s in f.survivors && SurvivorIds(f.survivors)[i] == s.Id();
      if !SurvivorNamed(s) || s.Id() in seen {
        return false;
      }
      seen := seen + {s.Id()};
      var annotated := ValidateAnnotation(s.otherSelection, f.selection);
      if !annotated {
        return false;
      }
      assert SurvivorIds(f.survivors)[..i + 1] == SurvivorIds(f.survivors)[..i] + [s.Id()];
    }
    assert SurvivorIds(f.survivors)[..|f.survivors|] == SurvivorIds(f.survivors);
    ok := true;
  }

  method CountSurvivors(xs: seq<Survivor>) returns (byOperator: map<string, nat>)
    ensures forall op :: SurvivorsOf(xs, op) == if op in byOperator then byOperator[op] else 0
  {
    byOperator := map[];
    for i := 0 to |xs|
      invariant forall op :: SurvivorsOf(xs[..i], op) == if op in byOperator then byOperator[op] else 0
    {
      var op := xs[i].operator;
      assert xs[..i + 1][..i] == xs[..i];
      byOperator := byOperator[op := (if op in byOperator then byOperator[op] else 0) + 1];
    }
    assert xs[..|xs|] == xs;
  }

  // ---- operator summaries ----

  predicate SummaryValid(s: OperatorSummary) {
    && s.operator != "" && s.generated > 0 && s.discarded >= 0 && s.killed >= 0 && s.survived >= 0
    && s.survived == s.generated - s.discarded - s.killed
  }

  function SumGenerated(ops: seq<OperatorSummary>, k: nat): int
    requires k <= |ops|
  {
    if k == 0 then 0 else SumGenerated(ops, k - 1) + ops[k - 1].generated
  }

  /** Conservation: the summaries are consistent, ordered, match the survivor rows, and add up to the finding's totals. */
  ghost predicate OperatorsValid(f: Finding) {
    && (forall s :: s in f.operators ==> SummaryValid(s) && s.survived == SurvivorsOf(f.survivors, s.operator))
    && StrictlyAscending(f.operators, OperatorName)
    && SumGenerated(f.operators, |f.operators|) == f.generated
    && SumOutcome(f.operators, |f.operators|, Discarded) == f.discarded
    && SumOutcome(f.operators, |f.operators|, Killed) == f.killed
    && SumOutcome(f.operators, |f.operators|, Survived) == |f.survivors|
  }

  lemma {:induction false} SumsMonotone(ops: seq<OperatorSummary>, k: nat, n: nat)
    requires k <= n <= |ops| && forall s :: s in ops ==> SummaryValid(s)
    ensures SumGenerated(ops, k) <= SumGenerated(ops, n)
    ensures SumOutcome(ops, k, Killed) <= SumOutcome(ops, n, Killed)
    ensures SumOutcome(ops, k, Survived) <= SumOutcome(ops, n, Survived)
    ensures SumOutcome(ops, k, Discarded) <= SumOutcome(ops, n, Discarded)
  {
    if k < n {
      SumsMonotone(ops, k, n - 1);
      assert ops[n - 1] in ops;
    }
  }

  /** A summary that claims more than is left of a total breaks conservation. */
  lemma {:induction false} Overdrawn(f: Finding, i: nat)
    requires i < |f.operators|
    requires || SumGenerated(f.operators, i + 1) > f.generated || SumOutcome(f.operators, i + 1, Discarded) > f.discarded
             || SumOutcome(f.operators, i + 1, Killed) > f.killed || SumOutcome(f.operators, i + 1, Survived) > |f.survivors|
    ensures !OperatorsValid(f)
  {
    if OperatorsValid(f) {
      SumsMonotone(f.operators, i + 1, |f.operators|);
    }
  }

  method ValidateOperators(f: Finding, byOperator: map<string, nat>) returns (ok: bool)
    requires forall op :: SurvivorsOf(f.survivors, op) == if op in byOperator then byOperator[op] else 0
    ensures ok <==> OperatorsValid(f)
  {
    var ops := f.operators;
    var previous := "";
    var generated, discarded, killed, survived := f.generated, f.discarded, f.killed, |f.survivors|;
    for i := 0 to |ops|
      invariant forall j :: 0 <= j < i ==> SummaryValid(ops[j]) && ops[j].survived == SurvivorsOf(f.survivors, ops[j].operator)
      invariant StrictlyAscending(ops[..i], OperatorName)
      invariant i > 0 ==> previous == ops[i - 1].operator
      invariant generated == f.generated - SumGenerated(ops, i)
      invariant discarded == f.discarded - SumOutcome(ops, i, Discarded)
      invariant killed == f.killed - SumOutcome(ops, i, Killed)
      invariant survived == |f.survivors| - SumOutcome(ops, i, Survived)
    {
      var s := ops[i];
      assert s in ops;
      if !SummaryValid(s) {
        return false;
      }
      if i > 0 && !Less(previous, s.operator) {
        assert !Less(OperatorName(ops[i - 1]), OperatorName(ops[i]));
        return false;
      }
      if s.survived != (if s.operator in byOperator then byOperator[s.operator] else 0) {
        return false;
      }
      if s.generated > generated || s.discarded > discarded || s.killed > killed || s.survived > survived {
        Overdrawn(f, i);
        return false;
      }
      previous := s.operator;
      generated, discarded, killed, survived := generated - s.generated, discarded - s.discarded, killed - s.killed, survived - s.survived;
      AscendingNext(ops, i, OperatorName);
    }
    assert ops[..|ops|] == ops;
    ok := generated == 0 && discarded == 0 && killed == 0 && survived == 0;
  }

  // ---- candidate evidence ----

  predicate EvidenceNamed(e: CandidateEvidence) {
    e.position != "" && e.operator != "" && e.reason != "" && e.disposition.Scored?
  }

  /** How many evidence rows of one operator carry outcome o. */
  function FlaggedOf(rows: seq<CandidateEvidence>, op: string, o: Outcome): nat {
    if rows == [] then 0 else
      var e := rows[|rows| - 1];
      FlaggedOf(rows[..|rows| - 1], op, o) + if e.operator == op && e.disposition == Scored(o) then 1 else 0
  }

  /** The count a summary list claims for one operator's outcome; an absent operator claims none. */
  function Claimed(ops: seq<OperatorSummary>, op: string, o: Outcome): int {
    if ops == [] then 0
    else if ops[|ops| - 1].operator == op then OutcomeOf(ops[|ops| - 1], o) else Claimed(ops[..|ops| - 1], op, o)
  }

  ghost predicate EvidenceIdentitiesValid(f: Finding) {
    && (forall e :: e in f.candidateEvidence ==>
          EvidenceNamed(e) && (e.disposition == Scored(Survived) <==> e.Id() in SurvivorIds(f.survivors)))
    && Distinct(EvidenceIds(f.candidateEvidence))
  }

  ghost predicate FlaggedWithinTotals(rows: seq<CandidateEvidence>, ops: seq<OperatorSummary>, o: Outcome) {
    forall op :: FlaggedOf(rows, op, o) > 0 ==> FlaggedOf(rows, op, o) <= Claimed(ops, op, o)
  }

  ghost predicate EvidenceRowsValid(f: Finding) {
    && EvidenceIdentitiesValid(f)
    && FlaggedWithinTotals(f.candidateEvidence, f.operators, Killed)
    && FlaggedWithinTotals(f.candidateEvidence, f.operators, Discarded)
  }

  method ValidateEvidenceIdentities(f: Finding) returns (ok: bool)
    ensures ok <==> EvidenceIdentitiesValid(f)
  {
    var rows := f.candidateEvidence;
    var survivors := CollectSurvivors(f.survivors);
    var seen: set<Key> := {};
    for i := 0 to |rows|
      invariant forall j :: 0 <= j < i ==>
                  EvidenceNamed(rows[j]) && (rows[j].disposition == Scored(Survived) <==> rows[j].Id() in SurvivorIds(f.survivors))
      invariant forall key :: key in seen <==> key in EvidenceIds(rows)[..i]
      invariant Distinct(EvidenceIds(rows)[..i])
    {
      var e := rows[i];
      assert e in rows && EvidenceIds(rows)[i] == e.Id();
      if e.position == "" || e.operator == "" || e.reason == "" || e.Id() in seen || e.disposition.Unknown? {
        return false;
      }
      if e.disposition == Scored(Survived) && e.Id() !in survivors {
        return false;
      }
      if e.disposition != Scored(Survived) && e.Id() in survivors {
        return false;
      }
      seen := seen + {e.Id()};
      assert EvidenceIds(rows)[..i + 1] == EvidenceIds(rows)[..i] + [e.Id()];
    }
    assert EvidenceIds(rows)[..|rows|] == EvidenceIds(rows);
    ok := true;
  }

  method CountFlagged(rows: seq<CandidateEvidence>, o: Outcome) returns (byOperator: map<string, nat>)
    ensures forall op :: op in byOperator <==> FlaggedOf(rows, op, o) > 0
    ensures forall op :: op in byOperator ==> byOperator[op] == FlaggedOf(rows, op, o)
  {
    byOperator := map[];
    for i := 0 to |rows|
      invariant forall op :: op in byOperator <==> FlaggedOf(rows[..i], op, o) > 0
      invariant forall op :: op in byOperator ==> byOperator[op] == FlaggedOf(rows[..i], op, o)
    {
      assert rows[..i + 1][..i] == rows[..i];
      if rows[i].disposition == Scored(o) {
        var op := rows[i].operator;
        byOperator := byOperator[op := (if op in byOperator then byOperator[op] else 0) + 1];
      }
    }
    assert rows[..|rows|] == rows;
  }

  method FlaggedWithin(rows: seq<CandidateEvidence>, ops: seq<OperatorSummary>, o: Outcome) returns (ok: bool)
    ensures ok <==> FlaggedWithinTotals(rows, ops, o)
  {
    var counts := CountFlagged(rows, o);
    var pending := counts.Keys;
    while pending != {}
      invariant pending <= counts.Keys
      invariant forall op :: op in counts && op !in pending ==> FlaggedOf(rows, op, o) <= Claimed(ops, op, o)
      decreases pending
    {
      var op :| op in pending;
      if counts[op] > Claimed(ops, op, o) {
        assert FlaggedOf(rows, op, o) > 0 && FlaggedOf(rows, op, o) > Claimed(ops, op, o);
        return false;
      }
      pending := pending - {op};
    }
    ok := true;
  }

  // ---- dispositions ----

  predicate AttestationNamed(a: Attestation) { a.position != "" && a.operator != "" && a.reason != "" }

  ghost predicate AttestedValid(f: Finding) {
    && (forall a :: a in f.attested ==> AttestationNamed(a) && a.Id() in SurvivorIds(f.survivors))
    && Distinct(AttestedIds(f.attested))
  }

  method ValidateAttested(f: Finding) returns (ok: bool)
    ensures ok <==> AttestedValid(f)
  {
    var survivors := CollectSurvivors(f.survivors);
    var seen: set<Key> := {};
    for i := 0 to |f.attested|
      invariant forall j :: 0 <= j < i ==> AttestationNamed(f.attested[j]) && f.attested[j].Id() in SurvivorIds(f.survivors)
      invariant forall key :: key in seen <==> key in AttestedIds(f.attested)[..i]
      invariant Distinct(AttestedIds(f.attested)[..i])
    {
      var a := f.attested[i];
      assert a in f.attested && AttestedIds(f.attested)[i] == a.Id();
      if !AttestationNamed(a) || a.Id() !in survivors || a.Id() in seen {
        return false;
      }
      seen := seen + {a.Id()};
      assert AttestedIds(f.attested)[..i + 1] == AttestedIds(f.attested)[..i] + [a.Id()];
    }
    assert AttestedIds(f.attested)[..|f.attested|] == AttestedIds(f.attested);
    ok := true;
  }

  predicate WithdrawalNamed(w: WithdrawnAttestation) {
    w.position != "" && w.operator != "" && w.priorReason != "" && w.reason != ""
  }

  ghost predicate WithdrawnValid(f: Finding) {
    && (forall w :: w in f.withdrawn ==>
          WithdrawalNamed(w) && w.Id() in SurvivorIds(f.survivors) && w.Id() !in AttestedIds(f.attested))
    && Distinct(WithdrawnIds(f.withdrawn))
  }

  method ValidateWithdrawn(f: Finding) returns (ok: bool)
    ensures ok <==> WithdrawnValid(f)
  {
    var survivors := CollectSurvivors(f.survivors);
    var seen: set<Key> := {};
    for i := 0 to |f.withdrawn|
      invariant forall j :: 0 <= j < i ==> WithdrawalNamed(f.withdrawn[j]) && f.withdrawn[j].Id() in SurvivorIds(f.survivors)
                                             && f.withdrawn[j].Id() !in AttestedIds(f.attested)
      invariant forall key :: key in seen <==> key in WithdrawnIds(f.withdrawn)[..i]
      invariant Distinct(WithdrawnIds(f.withdrawn)[..i])
    {
      var w := f.withdrawn[i];
      assert w in f.withdrawn && WithdrawnIds(f.withdrawn)[i] == w.Id();
      if !WithdrawalNamed(w) || w.Id() !in survivors || w.Id() in AttestedIds(f.attested) || w.Id() in seen {
        return false;
      }
      seen := seen + {w.Id()};
      assert WithdrawnIds(f.withdrawn)[..i + 1] == WithdrawnIds(f.withdrawn)[..i] + [w.Id()];
    }
    assert WithdrawnIds(f.withdrawn)[..|f.withdrawn|] == WithdrawnIds(f.withdrawn);
    ok := true;
  }

  // ---- the verdict ----

  ghost predicate MeasurementValid(f: Finding) {
    CountsReconcile(f) && KillsValid(f) && SurvivorsValid(f) && OperatorsValid(f) && EvidenceRowsValid(f)
  }

  /** The record is admitted; EvidenceComplete says whether a serving path could also judge its evidence. */
  ghost predicate Accepted(f: Finding) {
    ParsedKey(f.selection).Some? && EvidenceAccepted(f) && MeasurementValid(f) && AttestedValid(f) && WithdrawnValid(f)
  }

  method ValidateMeasurement(f: Finding) returns (ok: bool)
    ensures ok <==> MeasurementValid(f)
  {
    if !CountsReconcile(f) {
      return false;
    }
    ok := ValidateKills(f);
    if !ok {
      return;
    }
    ok := ValidateSurvivors(f);
    if !ok {
      return;
    }
    var byOperator := CountSurvivors(f.survivors);
    ok := ValidateOperators(f, byOperator);
    if !ok {
      return;
    }
    ok := ValidateEvidenceIdentities(f);
    if !ok {
      return;
    }
    ok := FlaggedWithin(f.candidateEvidence, f.operators, Killed);
    if ok {
      ok := FlaggedWithin(f.candidateEvidence, f.operators, Discarded);
    }
  }

  /** None refuses the record; otherwise the answer is its completeness. */
  method ValidateFindingEncoding(f: Finding) returns (verdict: Option<bool>)
    ensures verdict.Some? <==> Accepted(f)
    ensures verdict.Some? ==> (verdict.value <==> EvidenceComplete(f))
  {
    var key := ParseSelectionKey(f.selection);
    if key.None? {
      return None;
    }
    var complete := ValidateEvidence(f);
    if complete.None? {
      return None;
    }
    var measured := ValidateMeasurement(f);
    if !measured {
      return None;
    }
    var attested := ValidateAttested(f);
    var withdrawn := ValidateWithdrawn(f);
    verdict := if attested && withdrawn then complete else None;
  }
}
