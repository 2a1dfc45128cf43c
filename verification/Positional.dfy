/**
 The positional interned form: a record cites its evidence rows, and a row its manifest, by table index. Its bounded
 re-validation numbers each manifest by the first index of an equal one, so equality survives repeated entries.
 */
module Positional {
  import opened Wrappers
  import opened Sorting
  import opened Records
  import opened Validator
  import opened Interned
  import opened Expanding
  import opened Placeholders

  datatype IndexedEvidence = IndexedEvidence(evidence: SubjectEvidence, runtimeInputs: int)
  datatype IndexedRow = IndexedRow(finding: Finding, target: Option<int>, oracle: seq<int>, ledger: Option<int>)
  datatype IndexedDocument = IndexedDocument(manifests: seq<string>, evidence: seq<IndexedEvidence>,
                                             ledgers: seq<CompartmentLedger>, rows: seq<IndexedRow>)

  predicate Within<T>(i: int, xs: seq<T>) { 0 <= i < |xs| }

  predicate EvidenceIndexed(doc: IndexedDocument, e: IndexedEvidence) { Within(e.runtimeInputs, doc.manifests) && Manifest(e.evidence) == "" }

  predicate RowIndexed(doc: IndexedDocument, row: IndexedRow) {
    && row.finding.oracleEvidence == [] && row.finding.ledger == None && row.finding.targetEvidence == ZERO_EVIDENCE
    && (row.target.Some? ==> Within(row.target.value, doc.evidence))
    && (forall k :: k in row.oracle ==> Within(k, doc.evidence))
    && (row.ledger.Some? ==> Within(row.ledger.value, doc.ledgers))
  }

  ghost predicate WellIndexed(doc: IndexedDocument) {
    (forall e :: e in doc.evidence ==> EvidenceIndexed(doc, e)) && (forall row :: row in doc.rows ==> RowIndexed(doc, row))
  }

  /** The row at an index, its manifest inline; a row of zero fingerprint stays zero. */
  function EvidenceAt(doc: IndexedDocument, i: int): SubjectEvidence {
    if !Within(i, doc.evidence) || !Within(doc.evidence[i].runtimeInputs, doc.manifests) then ZERO_EVIDENCE
    else
      var e := doc.evidence[i].evidence;
      if e.fingerprint == ZERO_FINGERPRINT then e else WithManifest(e, doc.manifests[doc.evidence[i].runtimeInputs])
  }

  function EvidenceAll(doc: IndexedDocument, indexes: seq<int>): (r: seq<SubjectEvidence>)
    ensures |r| == |indexes| && forall j :: 0 <= j < |indexes| ==> r[j] == EvidenceAt(doc, indexes[j])
  {
    seq(|indexes|, j requires 0 <= j < |indexes| => EvidenceAt(doc, indexes[j]))
  }

  function FindingAt(doc: IndexedDocument, row: IndexedRow): Finding {
    row.finding.(targetEvidence := match row.target case None => row.finding.targetEvidence case Some(i) => EvidenceAt(doc, i),
                 oracleEvidence := EvidenceAll(doc, row.oracle),
                 ledger := match row.ledger case None => row.finding.ledger
                           case Some(i) => Some(if Within(i, doc.ledgers) then doc.ledgers[i] else ""))
  }

  function ExpandedAt(doc: IndexedDocument): (fs: seq<Finding>)
    ensures |fs| == |doc.rows| && forall i :: 0 <= i < |doc.rows| ==> fs[i] == FindingAt(doc, doc.rows[i])
  {
    seq(|doc.rows|, i requires 0 <= i < |doc.rows| => FindingAt(doc, doc.rows[i]))
  }

  method ExpandRow(doc: IndexedDocument, row: IndexedRow) returns (r: Option<Finding>)
    requires forall e :: e in doc.evidence ==> EvidenceIndexed(doc, e)
    ensures r.Some? <==> RowIndexed(doc, row)
    ensures r.Some? ==> r.value == FindingAt(doc, row)
  {
    var f := row.finding;
    if |f.oracleEvidence| != 0 || f.ledger.Some? || f.targetEvidence != ZERO_EVIDENCE {
      return None;
    }
    if row.target.Some? {
      if !Within(row.target.value, doc.evidence) {
        return None;
      }
      f := f.(targetEvidence := EvidenceAt(doc, row.target.value));
    }
    var oracle := [];
    for j := 0 to |row.oracle|
      invariant |oracle| == j && forall k :: 0 <= k < j ==> oracle[k] == EvidenceAt(doc, row.oracle[k]) && Within(row.oracle[k], doc.evidence)
    {
      assert row.oracle[j] in row.oracle;
      if !Within(row.oracle[j], doc.evidence) {
        return None;
      }
      oracle := oracle + [EvidenceAt(doc, row.oracle[j])];
    }
    assert oracle == EvidenceAll(doc, row.oracle);
    f := f.(oracleEvidence := oracle);
    if row.ledger.Some? {
      if !Within(row.ledger.value, doc.ledgers) {
        return None;
      }
      f := f.(ledger := Some(doc.ledgers[row.ledger.value]));
    }
    r := Some(f);
  }

  method ExpandIndexed(doc: IndexedDocument) returns (r: Option<seq<Finding>>)
    ensures r.Some? <==> WellIndexed(doc)
    ensures r.Some? ==> r.value == ExpandedAt(doc)
  {
    for i := 0 to |doc.evidence|
      invariant forall j :: 0 <= j < i ==> EvidenceIndexed(doc, doc.evidence[j])
    {
      assert doc.evidence[i] in doc.evidence;
      if !Within(doc.evidence[i].runtimeInputs, doc.manifests) || Manifest(doc.evidence[i].evidence) != "" {
        return None;
      }
    }
    var fs := [];
    for i := 0 to |doc.rows|
      invariant |fs| == i && forall j :: 0 <= j < i ==> fs[j] == FindingAt(doc, doc.rows[j]) && RowIndexed(doc, doc.rows[j])
    {
      assert doc.rows[i] in doc.rows;
      var f := ExpandRow(doc, doc.rows[i]);
      if f.None? {
        return None;
      }
      fs := fs + [f.value];
    }
    assert fs == ExpandedAt(doc);
    r := Some(fs);
  }

  // ---- the canonical placeholders ----

  /** Decimal digits, as %d prints them. */
  function Digit(n: nat): char
    requires n < 10
  {
    "0123456789"[n]
  }

  function Decimal(n: nat): string { if n < 10 then [Digit(n)] else Decimal(n / 10) + [Digit(n % 10)] }

  lemma {:induction false} DecimalInjective(a: nat, b: nat)
    requires Decimal(a) == Decimal(b)
    ensures a == b
  {
    var s := Decimal(a);
    assert s[|s| - 1] == Digit(a % 10) == Digit(b % 10);
    DecimalLength(a);
    DecimalLength(b);
    if a >= 10 && b >= 10 {
      assert Decimal(a / 10) == s[..|s| - 1] == Decimal(b / 10);
      DecimalInjective(a / 10, b / 10);
    }
  }

  lemma {:induction false} DecimalLength(n: nat)
    ensures |Decimal(n)| >= 1 && (n >= 10 <==> |Decimal(n)| >= 2)
  {
    if n >= 10 {
      DecimalLength(n / 10);
    }
  }

  function FirstIndex(ms: seq<string>, m: string): nat { if ms == [] || ms[0] == m then 0 else FirstIndex(ms[1..], m) + 1 }

  function CanonicalAt(ms: seq<string>, i: nat): string
    requires i < |ms|
  {
    if ms[i] == "" then "" else PLACEHOLDER + Decimal(FirstIndex(ms, ms[i]))
  }

  function Canonical(ms: seq<string>): (r: seq<string>)
    ensures |r| == |ms| && forall i :: 0 <= i < |ms| ==> r[i] == CanonicalAt(ms, i)
  {
    seq(|ms|, i requires 0 <= i < |ms| => CanonicalAt(ms, i))
  }

  lemma {:induction false} FirstIndexFinds(ms: seq<string>, m: string, i: nat)
    requires i < |ms| && ms[i] == m
    ensures FirstIndex(ms, m) <= i && ms[FirstIndex(ms, m)] == m && forall j :: 0 <= j < FirstIndex(ms, m) ==> ms[j] != m
  {
    if ms[0] != m {
      FirstIndexFinds(ms[1..], m, i - 1);
      assert forall j :: 0 < j < FirstIndex(ms, m) ==> ms[j] == ms[1..][j - 1];
    }
  }

  lemma {:induction false} FirstIndexNew(ms: seq<string>, i: nat)
    requires i < |ms| && ms[i] !in ms[..i]
    ensures FirstIndex(ms, ms[i]) == i
  {
    assert forall k :: 0 <= k < i ==> ms[k] == ms[..i][k] && ms[k] in ms[..i];
    FirstIndexFinds(ms, ms[i], i);
  }

  /** The first index of every non-empty manifest among the first n. */
  ghost predicate CanonicalMap(ms: seq<string>, canonical: map<string, nat>, n: nat)
    requires n <= |ms|
  {
    && (forall m :: m in canonical <==> m != "" && m in ms[..n])
    && (forall m :: m in canonical ==> canonical[m] == FirstIndex(ms, m))
  }

  method CanonicalNext(ms: seq<string>, canonical: map<string, nat>, i: nat) returns (canonical': map<string, nat>,
          text: string)
    requires i < |ms| && CanonicalMap(ms, canonical, i)
    ensures CanonicalMap(ms, canonical', i + 1) && text == Canonical(ms)[i]
  {
    assert ms[..i + 1] == ms[..i] + [ms[i]];
    if ms[i] == "" {
      return canonical, "";
    }
    canonical' := canonical;
    if ms[i] !in canonical {
      FirstIndexNew(ms, i);
      canonical' := canonical[ms[i] := i];
    }
    text := PLACEHOLDER + Decimal(canonical'[ms[i]]);
  }

  method CanonicalPlaceholders(ms: seq<string>) returns (out: seq<string>)
    ensures out == Canonical(ms)
  {
    var canonical: map<string, nat> := map[];
    out := [];
    for i := 0 to |ms|
      invariant out == Canonical(ms)[..i]
      invariant CanonicalMap(ms, canonical, i)
    {
      var text;
      canonical, text := CanonicalNext(ms, canonical, i);
      out := out + [text];
    }
    assert Canonical(ms)[..|ms|] == Canonical(ms);
  }

  lemma {:induction false} CanonicalPreserves(ms: seq<string>)
    ensures Preserves(ms, Canonical(ms))
  {
    forall j, k | 0 <= j < |ms| && 0 <= k < |ms| ensures ms[j] == ms[k] <==> Canonical(ms)[j] == Canonical(ms)[k] {
      FirstIndexFinds(ms, ms[j], j);
      FirstIndexFinds(ms, ms[k], k);
      if Canonical(ms)[j] == Canonical(ms)[k] && ms[j] != "" && ms[k] != "" {
        PlaceholderInjective(Decimal(FirstIndex(ms, ms[j])), Decimal(FirstIndex(ms, ms[k])));
        DecimalInjective(FirstIndex(ms, ms[j]), FirstIndex(ms, ms[k]));
      }
    }
  }

  // ---- soundness ----

  function Small(doc: IndexedDocument): IndexedDocument { doc.(manifests := Canonical(doc.manifests)) }

  lemma {:induction false} SmallWellIndexed(doc: IndexedDocument)
    ensures WellIndexed(Small(doc)) <==> WellIndexed(doc)
  {
    assert forall e :: EvidenceIndexed(Small(doc), e) <==> EvidenceIndexed(doc, e);
    assert forall row :: RowIndexed(Small(doc), row) <==> RowIndexed(doc, row);
  }

  lemma {:induction false} EvidencePaired(doc: IndexedDocument, i: int)
    requires forall e :: e in doc.evidence ==> EvidenceIndexed(doc, e)
    ensures Paired(EvidenceAt(doc, i), EvidenceAt(Small(doc), i), doc.manifests, Canonical(doc.manifests))
  {
    if Within(i, doc.evidence) {
      assert EvidenceIndexed(doc, doc.evidence[i]);
    }
  }

  /** The positional placeholders never change the verdict on any record. */
  lemma {:induction false} PositionalIsSound(doc: IndexedDocument, i: nat)
    requires WellIndexed(doc) && i < |doc.rows|
    ensures Accepted(ExpandedAt(Small(doc))[i]) <==> Accepted(ExpandedAt(doc)[i])
    ensures EvidenceComplete(ExpandedAt(Small(doc))[i]) <==> EvidenceComplete(ExpandedAt(doc)[i])
    ensures ExpandedAt(Small(doc))[i].symbol == ExpandedAt(doc)[i].symbol && ExpandedAt(Small(doc))[i].selection == ExpandedAt(doc)[i].selection
  {
    var row := doc.rows[i];
    assert row in doc.rows && RowIndexed(doc, row);
    CanonicalPreserves(doc.manifests);
    if row.target.Some? {
      EvidencePaired(doc, row.target.value);
    }
    forall j | 0 <= j < |row.oracle|
      ensures Paired(EvidenceAt(doc, row.oracle[j]), EvidenceAt(Small(doc), row.oracle[j]), doc.manifests, Canonical(doc.manifests))
    {
      EvidencePaired(doc, row.oracle[j]);
    }
    PairedIsSubstituted(FindingAt(doc, row), FindingAt(Small(doc), row), doc.manifests, Canonical(doc.manifests));
    SubstitutionIsSound(FindingAt(doc, row), FindingAt(Small(doc), row));
  }

  /** The re-validation of a positional document decides exactly whether its real records are readable. */
  method ValidateInternedRecords(doc: IndexedDocument) returns (ok: bool)
    ensures ok <==> WellIndexed(doc) && Readable(ExpandedAt(doc), true)
  {
    var placeholders := CanonicalPlaceholders(doc.manifests);
    SmallWellIndexed(doc);
    var expanded := ExpandIndexed(doc.(manifests := placeholders));
    if expanded.None? {
      return false;
    }
    SmallReadable(doc);
    ok := ValidateEach(expanded.value, true);
  }

  lemma {:induction false} SmallReadable(doc: IndexedDocument)
    requires WellIndexed(doc)
    ensures Readable(ExpandedAt(Small(doc)), true) <==> Readable(ExpandedAt(doc), true)
  {
    forall i | 0 <= i < |doc.rows|
      ensures (Admitted(ExpandedAt(Small(doc))[i]) <==> Admitted(ExpandedAt(doc)[i]))
              && RecordName(ExpandedAt(Small(doc))[i], true) == RecordName(ExpandedAt(doc)[i], true)
    {
      PositionalIsSound(doc, i);
    }
    ReadableAt(ExpandedAt(Small(doc)), ExpandedAt(doc), true);
    ReadableAt(ExpandedAt(doc), ExpandedAt(Small(doc)), true);
  }
}
