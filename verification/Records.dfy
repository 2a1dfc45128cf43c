/** The findings record and the generated candidates it accounts for, after decoding. */
module Records {
  import opened Wrappers

  /** A mutant's identity within one target: where it is and which operator made it. */
  datatype Key = Key(position: string, operator: string)

  /** The engine's scored outcome of one candidate; an unscored candidate reads as Discarded. */
  datatype Outcome = Killed | Survived | Discarded

  /** A persisted disposition word; a document may carry a word outside the vocabulary. */
  datatype Disposition = Scored(outcome: Outcome) | Unknown(word: string)

  datatype Candidate = Candidate(operator: string, position: string, site: string, extent: string, runnable: bool) {
    function Id(): Key { Key(position, operator) }
  }

  datatype OperatorSummary = OperatorSummary(operator: string, generated: int, discarded: int, killed: int, survived: int)

  datatype Survivor = Survivor(position: string, operator: string, extent: string, site: string,
                               execution: string, withdrawnKiller: string, otherSelection: string) {
    function Id(): Key { Key(position, operator) }
  }

  datatype Kill = Kill(position: string, operator: string, killer: string) {
    function Id(): Key { Key(position, operator) }
  }

  datatype CandidateEvidence = CandidateEvidence(position: string, operator: string, reason: string, disposition: Disposition) {
    function Id(): Key { Key(position, operator) }
  }

  datatype Attestation = Attestation(position: string, operator: string, reason: string, site: string) {
    function Id(): Key { Key(position, operator) }
  }

  datatype WithdrawnAttestation = WithdrawnAttestation(position: string, operator: string, priorReason: string,
                                                       reason: string, site: string) {
    function Id(): Key { Key(position, operator) }
  }

  datatype Proof = Proof(observable: bool, reason: string, strategy: string,
                         subjectPackage: string, subjectSymbol: string, evidence: string)

  /** gofresh's fingerprint: the fields the record code reads, the others held in one opaque remainder. */
  datatype Fingerprint = Fingerprint(maximalClosure: string, testVariantClosure: string, toolchain: string, buildConfig: string,
                                     observationAssertion: string, purityAssertion: string, proof: Proof,
                                     runtimeInputs: string, runtimeDigest: string, remainder: string)

  datatype SubjectEvidence = SubjectEvidence(symbol: string, fingerprint: Fingerprint, moduleBase: string,
                                             runtimeUnverifiable: bool, runtimeReason: string, runtimeAttribution: string)

  const ZERO_PROOF := Proof(false, "", "", "", "", "")
  const ZERO_FINGERPRINT := Fingerprint("", "", "", "", "", "", ZERO_PROOF, "", "", "")
  const ZERO_EVIDENCE := SubjectEvidence("", ZERO_FINGERPRINT, "", false, "", "")

  /** A shaped target's declared form; a shape may declare neither form, which the validator refuses. */
  datatype Shape = Shape(structural: Option<string>, manual: Option<string>)

  /** A recorded duration: the parsed value, or a text no duration parser accepts. */
  datatype Bound = Nanos(value: int) | Unparsed(text: string)

  /** The compartment ledger is carried as data and never read by the record code. */
  type CompartmentLedger = string

  datatype Finding = Finding(
    symbol: string, selection: string,
    bodyHash: string, operatorSet: string, budget: int,
    shape: Option<Shape>, targetEvidence: SubjectEvidence, oracleEvidence: seq<SubjectEvidence>,
    oracleTimeout: Bound, oracleTimeoutDerived: bool, oracleMemoryBytes: int, oracleCeilingDecided: bool,
    oracleExecutionPolicy: string, ledger: Option<CompartmentLedger>,
    candidateCount: int, generated: int, mutants: int, killed: int, discarded: int,
    operators: seq<OperatorSummary>, kills: seq<Kill>, survivors: seq<Survivor>,
    attested: seq<Attestation>, withdrawn: seq<WithdrawnAttestation>, candidateEvidence: seq<CandidateEvidence>,
    skipped: string, audit: string)

  const FULL_ORACLE_EXECUTION_POLICY := "gomutant/full-oracle@3"

  /** True when the record's oracle execution policy is not the admitted one. */
  predicate PolicyIssue(f: Finding) { f.oracleExecutionPolicy != FULL_ORACLE_EXECUTION_POLICY }

  /** The document key of a record: its symbol, and its selection behind a NUL when one is declared. */
  function RecordKey(symbol: string, selection: string): string {
    if selection == "" then symbol else symbol + "\0" + selection
  }

  function KeyOf(f: Finding): string { RecordKey(f.symbol, f.selection) }

  // One list discipline serves every per-mutant list of a record: identities in order, and each at most once.

  ghost predicate Distinct<T(!new)>(ids: seq<T>) {
    forall i, j :: 0 <= i < j < |ids| ==> ids[i] != ids[j]
  }

  function CandidateIds(cs: seq<Candidate>): (ids: seq<Key>)
    ensures |ids| == |cs| && forall i :: 0 <= i < |cs| ==> ids[i] == cs[i].Id()
  {
    seq(|cs|, i requires 0 <= i < |cs| => cs[i].Id())
  }

  function SurvivorIds(xs: seq<Survivor>): (ids: seq<Key>)
    ensures |ids| == |xs| && forall i :: 0 <= i < |xs| ==> ids[i] == xs[i].Id()
  {
    seq(|xs|, i requires 0 <= i < |xs| => xs[i].Id())
  }

  function KillIds(xs: seq<Kill>): (ids: seq<Key>)
    ensures |ids| == |xs| && forall i :: 0 <= i < |xs| ==> ids[i] == xs[i].Id()
  {
    seq(|xs|, i requires 0 <= i < |xs| => xs[i].Id())
  }

  function EvidenceIds(xs: seq<CandidateEvidence>): (ids: seq<Key>)
    ensures |ids| == |xs| && forall i :: 0 <= i < |xs| ==> ids[i] == xs[i].Id()
  {
    seq(|xs|, i requires 0 <= i < |xs| => xs[i].Id())
  }

  function AttestedIds(xs: seq<Attestation>): (ids: seq<Key>)
    ensures |ids| == |xs| && forall i :: 0 <= i < |xs| ==> ids[i] == xs[i].Id()
  {
    seq(|xs|, i requires 0 <= i < |xs| => xs[i].Id())
  }

  function WithdrawnIds(xs: seq<WithdrawnAttestation>): (ids: seq<Key>)
    ensures |ids| == |xs| && forall i :: 0 <= i < |xs| ==> ids[i] == xs[i].Id()
  {
    seq(|xs|, i requires 0 <= i < |xs| => xs[i].Id())
  }
}
