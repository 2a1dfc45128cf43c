/**
 Decoding the interned document: every entry's key is its content's, every reference resolves, and the records come
 back whole. Decoding what the encoder wrote gives back exactly the records it was given, any hash whatever.
 */
module Expanding {
  import opened Wrappers
  import opened Sorting
  import opened Records
  import opened Interned

  datatype ExpandError = BadManifest(i: nat) | BadEvidence(i: nat) | BadLedger(i: nat) | BadFinding(i: nat)

  const PLACEHOLDER := "\0gomutant-runtime-inputs:"

  // ---- the tables ----

  function ManifestTable(ms: seq<ManifestEntry>): map<string, string> {
    if ms == [] then map[] else ManifestTable(ms[..|ms| - 1])[ms[|ms| - 1].key := ms[|ms| - 1].manifest]
  }

  /** A row's manifest comes back inline, or as its placeholder; a row of zero fingerprint stays zero. */
  function Inlined(x: EvidenceEntry, m: string, placeholder: bool): SubjectEvidence {
    if x.evidence.fingerprint == ZERO_FINGERPRINT then x.evidence
    else WithManifest(x.evidence, if placeholder && m != "" then PLACEHOLDER + x.runtimeInputs else m)
  }

  function At(table: map<string, string>, key: string): string { if key in table then table[key] else "" }

  function EvidenceTable(table: map<string, string>, xs: seq<EvidenceEntry>,
          placeholder: bool): map<string, SubjectEvidence> {
    if xs == [] then map[] else
      var x := xs[|xs| - 1];
      EvidenceTable(table, xs[..|xs| - 1], placeholder)[x.key := Inlined(x, At(table, x.runtimeInputs), placeholder)]
  }

  function LedgerTable(ls: seq<LedgerEntry>): map<string, CompartmentLedger> {
    if ls == [] then map[] else LedgerTable(ls[..|ls| - 1])[ls[|ls| - 1].key := ls[|ls| - 1].ledger]
  }

  predicate ManifestOwn(c: Codec, m: ManifestEntry) { m.key == c.hash(m.manifest) }

  predicate EvidenceOwn(c: Codec, table: map<string, string>, x: EvidenceEntry) {
    Manifest(x.evidence) == "" && x.runtimeInputs in table && x.key == c.hash(Bytes(c, x.evidence, x.runtimeInputs))
  }

  predicate LedgerOwn(c: Codec, l: LedgerEntry) { l.key == LedgerKey(c, l.ledger) }

  predicate RowResolves(row: FindingRow, keys: set<string>, ledgers: set<string>) {
    && row.finding.oracleEvidence == [] && row.finding.ledger == None && row.finding.targetEvidence == ZERO_EVIDENCE
    && (row.target.Some? ==> row.target.value in keys)
    && (forall k :: k in row.oracle ==> k in keys)
    && (row.ledger.Some? ==> row.ledger.value in ledgers)
  }

  ghost predicate WellFormed(c: Codec, doc: Document) {
    && (forall m :: m in doc.manifests ==> ManifestOwn(c, m)) && DistinctKeys(doc.manifests, ManifestId)
    && (forall x :: x in doc.evidence ==> EvidenceOwn(c, ManifestTable(doc.manifests), x)) && DistinctKeys(doc.evidence, EvidenceId)
    && (forall l :: l in doc.ledgers ==> LedgerOwn(c, l)) && DistinctKeys(doc.ledgers, LedgerId)
    && forall row :: row in doc.rows ==>
         RowResolves(row, EvidenceTable(ManifestTable(doc.manifests), doc.evidence, false).Keys, LedgerTable(doc.ledgers).Keys)
  }

  function Resolve(table: map<string, SubjectEvidence>, key: string): SubjectEvidence { if key in table then table[key] else ZERO_EVIDENCE }

  function ResolveAll(table: map<string, SubjectEvidence>, keys: seq<string>): seq<SubjectEvidence> {
    if keys == [] then [] else ResolveAll(table, keys[..|keys| - 1]) + [Resolve(table, keys[|keys| - 1])]
  }

  function ResolveLedger(table: map<string, CompartmentLedger>, key: string): CompartmentLedger { if key in table then table[key] else "" }

  function Inflated(row: FindingRow, table: map<string, SubjectEvidence>,
          ledgers: map<string, CompartmentLedger>): Finding {
    row.finding.(targetEvidence := match row.target case None => row.finding.targetEvidence case Some(k) => Resolve(table, k),
                 oracleEvidence := ResolveAll(table, row.oracle),
                 ledger := match row.ledger case None => row.finding.ledger case Some(k) => Some(ResolveLedger(ledgers, k)))
  }

  function Expanded(doc: Document, placeholder: bool): (fs: seq<Finding>)
    ensures |fs| == |doc.rows|
  {
    var table := EvidenceTable(ManifestTable(doc.manifests), doc.evidence, placeholder);
    seq(|doc.rows|, i requires 0 <= i < |doc.rows| => Inflated(doc.rows[i], table, LedgerTable(doc.ledgers)))
  }

  // ---- the loops ----

  lemma {:induction false} ManifestAbsent(xs: seq<ManifestEntry>, key: string)
    requires forall i :: 0 <= i < |xs| ==> xs[i].key != key
    ensures key !in ManifestTable(xs)
  {
    if xs != [] {
      ManifestAbsent(xs[..|xs| - 1], key);
    }
  }

  lemma {:induction false} ManifestHeld(xs: seq<ManifestEntry>, i: nat)
    requires i < |xs| && DistinctKeys(xs, ManifestId)
    ensures xs[i].key in ManifestTable(xs) && ManifestTable(xs)[xs[i].key] == xs[i].manifest
  {
    var n := |xs| - 1;
    if i < n {
      assert ManifestId(xs[i]) != ManifestId(xs[n]);
      forall j, k | 0 <= j < k < n ensures ManifestId(xs[..n][j]) != ManifestId(xs[..n][k]) {
        assert ManifestId(xs[j]) != ManifestId(xs[k]);
      }
      ManifestHeld(xs[..n], i);
    }
  }

  /** The entries a reading loop has taken: each its content's, no key twice. */
  ghost predicate ManifestsRead(c: Codec, xs: seq<ManifestEntry>) {
    xs == [] || (ManifestsRead(c, xs[..|xs| - 1]) && ManifestOwn(c, xs[|xs| - 1]) && xs[|xs| - 1].key !in ManifestTable(xs[..|xs| - 1]))
  }

  lemma {:induction false} ManifestsRefused(c: Codec, xs: seq<ManifestEntry>, n: nat)
    requires n <= |xs| && !ManifestsRead(c, xs[..n])
    ensures !ManifestsRead(c, xs)
    decreases |xs|
  {
    if n == |xs| {
      assert xs[..n] == xs;
    } else {
      assert xs[..|xs| - 1][..n] == xs[..n];
      ManifestsRefused(c, xs[..|xs| - 1], n);
    }
  }

  lemma {:induction false} ManifestsReadIff(c: Codec, xs: seq<ManifestEntry>)
    ensures ManifestsRead(c, xs) <==> (forall x :: x in xs ==> ManifestOwn(c, x)) && DistinctKeys(xs, ManifestId)
  {
    if xs != [] {
      var init, last := xs[..|xs| - 1], xs[|xs| - 1];
      ManifestsReadIff(c, init);
      assert xs == init + [last];
      assert forall x :: x in xs <==> x in init || x == last;
      ManifestsDistinctNext(xs);
    }
  }

  lemma {:induction false} ManifestsDistinctNext(xs: seq<ManifestEntry>)
    requires xs != []
    ensures DistinctKeys(xs, ManifestId) <==> DistinctKeys(xs[..|xs| - 1], ManifestId) && xs[|xs| - 1].key !in ManifestTable(xs[..|xs| - 1])
  {
    var init, n := xs[..|xs| - 1], |xs| - 1;
    if DistinctKeys(xs, ManifestId) {
      forall i | 0 <= i < n ensures init[i].key != xs[n].key {
        assert ManifestId(xs[i]) != ManifestId(xs[n]);
      }
      ManifestAbsent(init, xs[n].key);
      forall i, j | 0 <= i < j < n ensures ManifestId(init[i]) != ManifestId(init[j]) {
        assert ManifestId(xs[i]) != ManifestId(xs[j]);
      }
    }
    if DistinctKeys(init, ManifestId) && xs[n].key !in ManifestTable(init) {
      forall i | 0 <= i < n ensures xs[i].key != xs[n].key {
        ManifestHeld(init, i);
      }
      forall i, j | 0 <= i < j < |xs| ensures ManifestId(xs[i]) != ManifestId(xs[j]) {
        assert j < n ==> ManifestId(init[i]) != ManifestId(init[j]);
      }
    }
  }

  lemma {:induction false} EvidenceAbsent(table: map<string, string>, placeholder: bool, xs: seq<EvidenceEntry>,
          key: string)
    requires forall i :: 0 <= i < |xs| ==> xs[i].key != key
    ensures key !in EvidenceTable(table, xs, placeholder)
  {
    if xs != [] {
      EvidenceAbsent(table, placeholder, xs[..|xs| - 1], key);
    }
  }

  lemma {:induction false} EvidenceHeld(table: map<string, string>, placeholder: bool, xs: seq<EvidenceEntry>, i: nat)
    requires i < |xs| && DistinctKeys(xs, EvidenceId)
    ensures xs[i].key in EvidenceTable(table, xs, placeholder) && EvidenceTable(table, xs, placeholder)[xs[i].key] == Inlined(xs[i], At(table, xs[i].runtimeInputs), placeholder)
  {
    var n := |xs| - 1;
    if i < n {
      assert EvidenceId(xs[i]) != EvidenceId(xs[n]);
      forall j, k | 0 <= j < k < n ensures EvidenceId(xs[..n][j]) != EvidenceId(xs[..n][k]) {
        assert EvidenceId(xs[j]) != EvidenceId(xs[k]);
      }
      EvidenceHeld(table, placeholder, xs[..n], i);
    }
  }

  /** The entries a reading loop has taken: each its content's, no key twice. */
  ghost predicate RowsRead(c: Codec, table: map<string, string>, placeholder: bool, xs: seq<EvidenceEntry>) {
    xs == [] || (RowsRead(c, table, placeholder, xs[..|xs| - 1]) && EvidenceOwn(c, table, xs[|xs| - 1]) && xs[|xs| - 1].key !in EvidenceTable(table, xs[..|xs| - 1], placeholder))
  }

  lemma {:induction false} RowsRefused(c: Codec, table: map<string, string>, placeholder: bool, xs: seq<EvidenceEntry>,
          n: nat)
    requires n <= |xs| && !RowsRead(c, table, placeholder, xs[..n])
    ensures !RowsRead(c, table, placeholder, xs)
    decreases |xs|
  {
    if n == |xs| {
      assert xs[..n] == xs;
    } else {
      assert xs[..|xs| - 1][..n] == xs[..n];
      RowsRefused(c, table, placeholder, xs[..|xs| - 1], n);
    }
  }

  lemma {:induction false} RowsReadIff(c: Codec, table: map<string, string>, placeholder: bool, xs: seq<EvidenceEntry>)
    ensures RowsRead(c, table, placeholder, xs) <==> (forall x :: x in xs ==> EvidenceOwn(c, table, x)) && DistinctKeys(xs, EvidenceId)
  {
    if xs != [] {
      var init, last := xs[..|xs| - 1], xs[|xs| - 1];
      RowsReadIff(c, table, placeholder, init);
      assert xs == init + [last];
      assert forall x :: x in xs <==> x in init || x == last;
      RowsDistinctNext(table, placeholder, xs);
    }
  }

  lemma {:induction false} RowsDistinctNext(table: map<string, string>, placeholder: bool, xs: seq<EvidenceEntry>)
    requires xs != []
    ensures DistinctKeys(xs, EvidenceId) <==> DistinctKeys(xs[..|xs| - 1], EvidenceId) && xs[|xs| - 1].key !in EvidenceTable(table, xs[..|xs| - 1], placeholder)
  {
    var init, n := xs[..|xs| - 1], |xs| - 1;
    if DistinctKeys(xs, EvidenceId) {
      forall i | 0 <= i < n ensures init[i].key != xs[n].key {
        assert EvidenceId(xs[i]) != EvidenceId(xs[n]);
      }
      EvidenceAbsent(table, placeholder, init, xs[n].key);
      forall i, j | 0 <= i < j < n ensures EvidenceId(init[i]) != EvidenceId(init[j]) {
        assert EvidenceId(xs[i]) != EvidenceId(xs[j]);
      }
    }
    if DistinctKeys(init, EvidenceId) && xs[n].key !in EvidenceTable(table, init, placeholder) {
      forall i | 0 <= i < n ensures xs[i].key != xs[n].key {
        EvidenceHeld(table, placeholder, init, i);
      }
      forall i, j | 0 <= i < j < |xs| ensures EvidenceId(xs[i]) != EvidenceId(xs[j]) {
        assert j < n ==> EvidenceId(init[i]) != EvidenceId(init[j]);
      }
    }
  }

  lemma {:induction false} LedgerAbsent(xs: seq<LedgerEntry>, key: string)
    requires forall i :: 0 <= i < |xs| ==> xs[i].key != key
    ensures key !in LedgerTable(xs)
  {
    if xs != [] {
      LedgerAbsent(xs[..|xs| - 1], key);
    }
  }

  lemma {:induction false} LedgerHeld(xs: seq<LedgerEntry>, i: nat)
    requires i < |xs| && DistinctKeys(xs, LedgerId)
    ensures xs[i].key in LedgerTable(xs) && LedgerTable(xs)[xs[i].key] == xs[i].ledger
  {
    var n := |xs| - 1;
    if i < n {
      assert LedgerId(xs[i]) != LedgerId(xs[n]);
      forall j, k | 0 <= j < k < n ensures LedgerId(xs[..n][j]) != LedgerId(xs[..n][k]) {
        assert LedgerId(xs[j]) != LedgerId(xs[k]);
      }
      LedgerHeld(xs[..n], i);
    }
  }

  /** The entries a reading loop has taken: each its content's, no key twice. */
  ghost predicate LedgersRead(c: Codec, xs: seq<LedgerEntry>) {
    xs == [] || (LedgersRead(c, xs[..|xs| - 1]) && LedgerOwn(c, xs[|xs| - 1]) && xs[|xs| - 1].key !in LedgerTable(xs[..|xs| - 1]))
  }

  lemma {:induction false} LedgersRefused(c: Codec, xs: seq<LedgerEntry>, n: nat)
    requires n <= |xs| && !LedgersRead(c, xs[..n])
    ensures !LedgersRead(c, xs)
    decreases |xs|
  {
    if n == |xs| {
      assert xs[..n] == xs;
    } else {
      assert xs[..|xs| - 1][..n] == xs[..n];
      LedgersRefused(c, xs[..|xs| - 1], n);
    }
  }

  lemma {:induction false} LedgersReadIff(c: Codec, xs: seq<LedgerEntry>)
    ensures LedgersRead(c, xs) <==> (forall x :: x in xs ==> LedgerOwn(c, x)) && DistinctKeys(xs, LedgerId)
  {
    if xs != [] {
      var init, last := xs[..|xs| - 1], xs[|xs| - 1];
      LedgersReadIff(c, init);
      assert xs == init + [last];
      assert forall x :: x in xs <==> x in init || x == last;
      LedgersDistinctNext(xs);
    }
  }

  lemma {:induction false} LedgersDistinctNext(xs: seq<LedgerEntry>)
    requires xs != []
    ensures DistinctKeys(xs, LedgerId) <==> DistinctKeys(xs[..|xs| - 1], LedgerId) && xs[|xs| - 1].key !in LedgerTable(xs[..|xs| - 1])
  {
    var init, n := xs[..|xs| - 1], |xs| - 1;
    if DistinctKeys(xs, LedgerId) {
      forall i | 0 <= i < n ensures init[i].key != xs[n].key {
        assert LedgerId(xs[i]) != LedgerId(xs[n]);
      }
      LedgerAbsent(init, xs[n].key);
      forall i, j | 0 <= i < j < n ensures LedgerId(init[i]) != LedgerId(init[j]) {
        assert LedgerId(xs[i]) != LedgerId(xs[j]);
      }
    }
    if DistinctKeys(init, LedgerId) && xs[n].key !in LedgerTable(init) {
      forall i | 0 <= i < n ensures xs[i].key != xs[n].key {
        LedgerHeld(init, i);
      }
      forall i, j | 0 <= i < j < |xs| ensures LedgerId(xs[i]) != LedgerId(xs[j]) {
        assert j < n ==> LedgerId(init[i]) != LedgerId(init[j]);
      }
    }
  }

  method ReadManifests(c: Codec, ms: seq<ManifestEntry>) returns (r: Result<map<string, string>, ExpandError>)
    ensures r.Ok? <==> ManifestsRead(c, ms)
    ensures r.Ok? ==> r.value == ManifestTable(ms)
  {
    var table: map<string, string> := map[];
    for i := 0 to |ms|
      invariant table == ManifestTable(ms[..i]) && ManifestsRead(c, ms[..i])
    {
      assert ms[..i + 1][..i] == ms[..i];
      if ms[i].key != c.hash(ms[i].manifest) || ms[i].key in table {
        ManifestsRefused(c, ms, i + 1);
        return Err(BadManifest(i));
      }
      table := table[ms[i].key := ms[i].manifest];
    }
    assert ms[..|ms|] == ms;
    r := Ok(table);
  }

  method ReadEvidence(c: Codec, manifests: map<string, string>, xs: seq<EvidenceEntry>, placeholder: bool)
    returns (r: Result<map<string, SubjectEvidence>, ExpandError>)
    ensures r.Ok? <==> RowsRead(c, manifests, placeholder, xs)
    ensures r.Ok? ==> r.value == EvidenceTable(manifests, xs, placeholder)
  {
    var table: map<string, SubjectEvidence> := map[];
    for i := 0 to |xs|
      invariant table == EvidenceTable(manifests, xs[..i], placeholder) && RowsRead(c, manifests, placeholder, xs[..i])
    {
      assert xs[..i + 1][..i] == xs[..i];
      var x := xs[i];
      if Manifest(x.evidence) != "" || x.runtimeInputs !in manifests || x.key != c.hash(Bytes(c, x.evidence, x.runtimeInputs)) || x.key in table {
        RowsRefused(c, manifests, placeholder, xs, i + 1);
        return Err(BadEvidence(i));
      }
      var row := x.evidence;
      if row.fingerprint != ZERO_FINGERPRINT {
        var manifest := manifests[x.runtimeInputs];
        if placeholder && manifest != "" {
          row := WithManifest(row, PLACEHOLDER + x.runtimeInputs);
        } else {
          row := WithManifest(row, manifest);
        }
      }
      table := table[x.key := row];
    }
    assert xs[..|xs|] == xs;
    r := Ok(table);
  }

  method ReadLedgers(c: Codec, ls: seq<LedgerEntry>) returns (r: Result<map<string, CompartmentLedger>, ExpandError>)
    ensures r.Ok? <==> LedgersRead(c, ls)
    ensures r.Ok? ==> r.value == LedgerTable(ls)
  {
    var table: map<string, CompartmentLedger> := map[];
    for i := 0 to |ls|
      invariant table == LedgerTable(ls[..i]) && LedgersRead(c, ls[..i])
    {
      assert ls[..i + 1][..i] == ls[..i];
      if ls[i].key != LedgerKey(c, ls[i].ledger) || ls[i].key in table {
        LedgersRefused(c, ls, i + 1);
        return Err(BadLedger(i));
      }
      table := table[ls[i].key := ls[i].ledger];
    }
    assert ls[..|ls|] == ls;
    r := Ok(table);
  }

  method InflateRow(row: FindingRow, table: map<string, SubjectEvidence>, ledgers: map<string, CompartmentLedger>,
          i: nat)
    returns (r: Result<Finding, ExpandError>)
    ensures r.Ok? <==> RowResolves(row, table.Keys, ledgers.Keys)
    ensures r.Ok? ==> r.value == Inflated(row, table, ledgers)
  {
    var f := row.finding;
    if |f.oracleEvidence| != 0 || f.ledger.Some? || f.targetEvidence != ZERO_EVIDENCE {
      return Err(BadFinding(i));
    }
    if row.target.Some? {
      if row.target.value !in table {
        return Err(BadFinding(i));
      }
      f := f.(targetEvidence := table[row.target.value]);
    }
    var oracle := [];
    for j := 0 to |row.oracle|
      invariant oracle == ResolveAll(table, row.oracle[..j])
      invariant forall k :: 0 <= k < j ==> row.oracle[k] in table
    {
      assert row.oracle[..j + 1][..j] == row.oracle[..j];
      assert row.oracle[j] in row.oracle;
      if row.oracle[j] !in table {
        return Err(BadFinding(i));
      }
      oracle := oracle + [table[row.oracle[j]]];
    }
    assert row.oracle[..|row.oracle|] == row.oracle;
    f := f.(oracleEvidence := oracle);
    if row.ledger.Some? {
      if row.ledger.value !in ledgers {
        return Err(BadFinding(i));
      }
      f := f.(ledger := Some(ledgers[row.ledger.value]));
    }
    r := Ok(f);
  }

  method InflateRows(rows: seq<FindingRow>, table: map<string, SubjectEvidence>,
          ledgers: map<string, CompartmentLedger>)
    returns (r: Result<seq<Finding>, ExpandError>)
    ensures r.Ok? <==> forall row :: row in rows ==> RowResolves(row, table.Keys, ledgers.Keys)
    ensures r.Ok? ==> |r.value| == |rows| && forall j :: 0 <= j < |rows| ==> r.value[j] == Inflated(rows[j], table, ledgers)
  {
    var findings := [];
    for i := 0 to |rows|
      invariant |findings| == i && forall j :: 0 <= j < i ==> findings[j] == Inflated(rows[j], table, ledgers)
      invariant forall j :: 0 <= j < i ==> RowResolves(rows[j], table.Keys, ledgers.Keys)
    {
      var f := InflateRow(rows[i], table, ledgers, i);
      if f.Err? {
        assert rows[i] in rows;
        return Err(f.error);
      }
      findings := findings + [f.value];
    }
    r := Ok(findings);
  }

  /** The decoder's checks, in its order. */
  ghost predicate Decodes(c: Codec, doc: Document, placeholder: bool) {
    var table := EvidenceTable(ManifestTable(doc.manifests), doc.evidence, placeholder);
    && ManifestsRead(c, doc.manifests)
    && RowsRead(c, ManifestTable(doc.manifests), placeholder, doc.evidence)
    && LedgersRead(c, doc.ledgers)
    && forall row :: row in doc.rows ==> RowResolves(row, table.Keys, LedgerTable(doc.ledgers).Keys)
  }

  lemma {:induction false} DecodesIff(c: Codec, doc: Document, placeholder: bool)
    ensures Decodes(c, doc, placeholder) <==> WellFormed(c, doc)
  {
    ManifestsReadIff(c, doc.manifests);
    RowsReadIff(c, ManifestTable(doc.manifests), placeholder, doc.evidence);
    LedgersReadIff(c, doc.ledgers);
    SameKeys(ManifestTable(doc.manifests), doc.evidence, placeholder);
  }

  method ExpandDocument(c: Codec, doc: Document, placeholder: bool) returns (r: Result<seq<Finding>, ExpandError>)
    ensures r.Ok? <==> WellFormed(c, doc)
    ensures r.Ok? ==> r.value == Expanded(doc, placeholder)
  {
    DecodesIff(c, doc, placeholder);
    var manifests := ReadManifests(c, doc.manifests);
    if manifests.Err? {
      return Err(manifests.error);
    }
    var evidence := ReadEvidence(c, manifests.value, doc.evidence, placeholder);
    if evidence.Err? {
      return Err(evidence.error);
    }
    var ledgers := ReadLedgers(c, doc.ledgers);
    if ledgers.Err? {
      return Err(ledgers.error);
    }
    r := InflateRows(doc.rows, evidence.value, ledgers.value);
    if r.Ok? {
      assert r.value == Expanded(doc, placeholder);
    }
  }

  /** The placeholder changes what a key holds, never which keys there are. */
  lemma {:induction false} SameKeys(table: map<string, string>, xs: seq<EvidenceEntry>, placeholder: bool)
    ensures EvidenceTable(table, xs, placeholder).Keys == EvidenceTable(table, xs, false).Keys
  {
    if xs != [] {
      SameKeys(table, xs[..|xs| - 1], placeholder);
    }
  }

  // ---- the round trip ----

  /** A row the encoding keeps whole: it holds more than a manifest, or no manifest at all. */
  predicate Keeps(e: SubjectEvidence) { Cleared(e).fingerprint != ZERO_FINGERPRINT || Manifest(e) == "" }

  /** What decoding gives back of a row: a manifest alone is dropped. */
  function Returned(e: SubjectEvidence): SubjectEvidence { if Cleared(e).fingerprint == ZERO_FINGERPRINT then Cleared(e) else e }

  function ReturnedAll(es: seq<SubjectEvidence>): seq<SubjectEvidence> {
    if es == [] then [] else ReturnedAll(es[..|es| - 1]) + [Returned(es[|es| - 1])]
  }

  function ReturnedFinding(f: Finding): Finding {
    f.(targetEvidence := if f.shape.None? then Returned(f.targetEvidence) else f.targetEvidence, oracleEvidence := ReturnedAll(f.oracleEvidence))
  }

  lemma {:induction false} StrictIsDistinct<T>(xs: seq<T>, key: T -> string)
    requires StrictlyAscending(xs, key)
    ensures DistinctKeys(xs, key)
  {
    forall i, j | 0 <= i < j < |xs| ensures key(xs[i]) != key(xs[j]) {
      LessIrreflexive(key(xs[i]));
    }
  }

  /** Each row's key finds the row again. */
  lemma {:induction false} RowFound(c: Codec, rows: set<SubjectEvidence>, ledgers: set<CompartmentLedger>,
          doc: Document, e: SubjectEvidence)
    requires Tabled(c, rows, ledgers, doc) && e in rows
    ensures var table := EvidenceTable(ManifestTable(doc.manifests), doc.evidence, false);
            EvidenceKey(c, e) in table && table[EvidenceKey(c, e)] == Returned(e)
  {
    StrictIsDistinct(doc.manifests, ManifestId);
    StrictIsDistinct(doc.evidence, EvidenceId);
    var m := ManifestEntry(ManifestKey(c, e), Manifest(e));
    assert m in doc.manifests && EntryOf(c, e) in doc.evidence;
    var i :| 0 <= i < |doc.manifests| && doc.manifests[i] == m;
    ManifestHeld(doc.manifests, i);
    var j :| 0 <= j < |doc.evidence| && doc.evidence[j] == EntryOf(c, e);
    EvidenceHeld(ManifestTable(doc.manifests), false, doc.evidence, j);
  }

  lemma {:induction false} RowsFound(c: Codec, rows: set<SubjectEvidence>, ledgers: set<CompartmentLedger>,
          doc: Document, es: seq<SubjectEvidence>)
    requires Tabled(c, rows, ledgers, doc) && forall e :: e in es ==> e in rows
    ensures var table := EvidenceTable(ManifestTable(doc.manifests), doc.evidence, false);
            && (forall k :: k in KeyList(c, es) ==> k in table)
            && ResolveAll(table, KeyList(c, es)) == ReturnedAll(es)
  {
    if es != [] {
      var init, last := es[..|es| - 1], es[|es| - 1];
      assert last in es && forall e :: e in init ==> e in es;
      RowsFound(c, rows, ledgers, doc, init);
      RowFound(c, rows, ledgers, doc, last);
      assert KeyList(c, es)[..|KeyList(c, es)| - 1] == KeyList(c, init);
    }
  }

  lemma {:induction false} LedgerFound(c: Codec, rows: set<SubjectEvidence>, ledgers: set<CompartmentLedger>,
          doc: Document, l: CompartmentLedger)
    requires Tabled(c, rows, ledgers, doc) && l in ledgers
    ensures LedgerKey(c, l) in LedgerTable(doc.ledgers) && LedgerTable(doc.ledgers)[LedgerKey(c, l)] == l
  {
    StrictIsDistinct(doc.ledgers, LedgerId);
    assert LedgerEntry(LedgerKey(c, l), l) in doc.ledgers;
    var i :| 0 <= i < |doc.ledgers| && doc.ledgers[i] == LedgerEntry(LedgerKey(c, l), l);
    LedgerHeld(doc.ledgers, i);
  }

  lemma {:induction false} FindingFound(c: Codec, kept: seq<Finding>, doc: Document, f: Finding)
    requires Internable(c, kept) && Interns(c, kept, doc) && f in kept
    ensures var table, ledgers := EvidenceTable(ManifestTable(doc.manifests), doc.evidence, false), LedgerTable(doc.ledgers);
            RowResolves(RowOf(c, f), table.Keys, ledgers.Keys) && Inflated(RowOf(c, f), table, ledgers) == ReturnedFinding(f)
  {
    RowsExact(kept);
    assert !Stray(f);
    assert forall e :: e in f.oracleEvidence ==> e in Heavy(f);
    RowsFound(c, Rows(kept), Ledgers(kept), doc, f.oracleEvidence);
    if f.shape.None? {
      assert f.targetEvidence in Heavy(f);
      RowFound(c, Rows(kept), Ledgers(kept), doc, f.targetEvidence);
    }
    if f.ledger.Some? {
      LedgerFound(c, Rows(kept), Ledgers(kept), doc, f.ledger.value);
    }
  }

  lemma {:induction false} TablesWellFormed(c: Codec, rows: set<SubjectEvidence>, ledgers: set<CompartmentLedger>,
          doc: Document)
    requires Tabled(c, rows, ledgers, doc)
    ensures (forall m :: m in doc.manifests ==> ManifestOwn(c, m)) && DistinctKeys(doc.manifests, ManifestId)
    ensures (forall x :: x in doc.evidence ==> EvidenceOwn(c, ManifestTable(doc.manifests), x)) && DistinctKeys(doc.evidence, EvidenceId)
    ensures (forall l :: l in doc.ledgers ==> LedgerOwn(c, l)) && DistinctKeys(doc.ledgers, LedgerId)
  {
    StrictIsDistinct(doc.manifests, ManifestId);
    StrictIsDistinct(doc.evidence, EvidenceId);
    StrictIsDistinct(doc.ledgers, LedgerId);
    forall x | x in doc.evidence ensures EvidenceOwn(c, ManifestTable(doc.manifests), x) {
      var e :| e in rows && x == EntryOf(c, e);
      assert ManifestEntry(ManifestKey(c, e), Manifest(e)) in doc.manifests;
      var i :| 0 <= i < |doc.manifests| && doc.manifests[i] == ManifestEntry(ManifestKey(c, e), Manifest(e));
      ManifestHeld(doc.manifests, i);
    }
  }

  /** Decoding accepts everything the encoder writes and gives back its records, whatever the hash. */
  lemma {:induction false} RoundTrip(c: Codec, kept: seq<Finding>, doc: Document)
    requires Internable(c, kept) && Interns(c, kept, doc)
    ensures WellFormed(c, doc)
    ensures |Expanded(doc, false)| == |kept| && forall i :: 0 <= i < |kept| ==> Expanded(doc, false)[i] == ReturnedFinding(kept[i])
  {
    TablesWellFormed(c, Rows(kept), Ledgers(kept), doc);
    forall i | 0 <= i < |kept|
      ensures RowResolves(doc.rows[i], EvidenceTable(ManifestTable(doc.manifests), doc.evidence, false).Keys, LedgerTable(doc.ledgers).Keys)
      ensures Expanded(doc, false)[i] == ReturnedFinding(kept[i])
    {
      FindingFound(c, kept, doc, kept[i]);
    }
    forall row | row in doc.rows
      ensures RowResolves(row, EvidenceTable(ManifestTable(doc.manifests), doc.evidence, false).Keys, LedgerTable(doc.ledgers).Keys)
    {
      var i :| 0 <= i < |doc.rows| && doc.rows[i] == row;
    }
  }

  lemma {:induction false} ReturnedAllSame(es: seq<SubjectEvidence>)
    ensures ReturnedAll(es) == es <==> forall e :: e in es ==> Keeps(e)
    ensures |ReturnedAll(es)| == |es|
  {
    if es != [] {
      var init, last := es[..|es| - 1], es[|es| - 1];
      ReturnedAllSame(init);
      assert es == init + [last];
      assert forall e :: e in es <==> e in init || e == last;
      assert Returned(last) == last <==> Keeps(last);
      assert ReturnedAll(es)[..|init|] == ReturnedAll(init);
      assert ReturnedAll(es)[|init|] == Returned(last);
    }
  }

  /** The records come back identical exactly when no row is a manifest alone. */
  lemma {:induction false} RoundTripExact(c: Codec, kept: seq<Finding>, doc: Document)
    requires Internable(c, kept) && Interns(c, kept, doc)
    ensures Expanded(doc, false) == kept <==> forall f :: f in kept ==> forall e :: e in Heavy(f) ==> Keeps(e)
  {
    RoundTrip(c, kept, doc);
    forall f | f in kept ensures ReturnedFinding(f) == f <==> forall e :: e in Heavy(f) ==> Keeps(e) {
      ReturnedSame(f);
    }
    if Expanded(doc, false) == kept {
      forall f | f in kept ensures ReturnedFinding(f) == f {
        var i :| 0 <= i < |kept| && kept[i] == f;
      }
    }
  }

  lemma {:induction false} ReturnedSame(f: Finding)
    ensures ReturnedFinding(f) == f <==> forall e :: e in Heavy(f) ==> Keeps(e)
  {
    ReturnedAllSame(f.oracleEvidence);
    assert forall e :: e in Heavy(f) <==> (f.shape.None? && e == f.targetEvidence) || e in f.oracleEvidence;
    assert Returned(f.targetEvidence) == f.targetEvidence <==> Keeps(f.targetEvidence);
  }

  /** A record whose one evidence row is a manifest and nothing else. */
  function ManifestAlone(f: Finding, manifest: string): Finding {
    f.(shape := None, targetEvidence := WithManifest(ZERO_EVIDENCE, manifest), oracleEvidence := [], ledger := None)
  }

  lemma {:induction false} ManifestAloneInterns(c: Codec, f: Finding, manifest: string)
    ensures Internable(c, [ManifestAlone(f, manifest)])
  {
    var g := ManifestAlone(f, manifest);
    RowsExact([g]);
    assert Heavy(g) == [g.targetEvidence];
    assert forall e :: e in Rows([g]) ==> e == g.targetEvidence;
    assert Ledgers([g]) == {};
  }

  /** Whatever the hash, that record is encoded and comes back without its manifest. */
  lemma {:induction false} ManifestAloneIsLost(c: Codec, f: Finding, manifest: string, doc: Document)
    requires manifest != "" && Interns(c, [ManifestAlone(f, manifest)], doc)
    ensures WellFormed(c, doc) && Expanded(doc, false) == [ManifestAlone(f, "")] != [ManifestAlone(f, manifest)]
  {
    var g := ManifestAlone(f, manifest);
    ManifestAloneInterns(c, f, manifest);
    RoundTrip(c, [g], doc);
    assert Returned(g.targetEvidence) == WithManifest(ZERO_EVIDENCE, "");
    assert ReturnedAll([]) == [];
    assert ManifestAlone(f, "").targetEvidence != g.targetEvidence;
  }
}
