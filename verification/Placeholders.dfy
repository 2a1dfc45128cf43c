/**
 Bounded re-validation: the reader validates each record with its manifests replaced by short placeholders. The
 verdict is the real record's, since the checks read only a manifest's emptiness and its equality with others.
 */
module Placeholders {
  import opened Wrappers
  import opened Sorting
  import opened Records
  import opened Validator
  import opened Interned
  import opened Expanding

  // ---- the verdict reads emptiness and equality alone ----

  predicate RowSubstituted(a: SubjectEvidence, b: SubjectEvidence) {
    b == WithManifest(a, Manifest(b)) && (Manifest(a) == "" <==> Manifest(b) == "")
  }

  function AllRows(f: Finding): seq<SubjectEvidence> { [f.targetEvidence] + f.oracleEvidence }

  /** Row by row, manifests replaced with equality and emptiness preserved. */
  ghost predicate Substituted(f: Finding, g: Finding) {
    && g == f.(targetEvidence := g.targetEvidence, oracleEvidence := g.oracleEvidence)
    && |f.oracleEvidence| == |g.oracleEvidence|
    && (forall i :: 0 <= i < |AllRows(f)| ==> RowSubstituted(AllRows(f)[i], AllRows(g)[i]))
    && forall i, j :: 0 <= i < |AllRows(f)| && 0 <= j < |AllRows(f)| ==>
         (Manifest(AllRows(f)[i]) == Manifest(AllRows(f)[j]) <==> Manifest(AllRows(g)[i]) == Manifest(AllRows(g)[j]))
  }

  lemma {:induction false} RowVerdictKept(a: SubjectEvidence, b: SubjectEvidence)
    requires RowSubstituted(a, b)
    ensures RowVerdict(a) == RowVerdict(b)
    ensures a == ZERO_EVIDENCE <==> b == ZERO_EVIDENCE
  {
    var p, q := Pins(a), Pins(b);
    assert |p| == |q| == 12;
    assert forall i :: 0 <= i < 12 && i != 10 ==> p[i] == q[i];
    assert p[10] == Manifest(a) && q[10] == Manifest(b);
    assert "" in p <==> exists i :: 0 <= i < 12 && p[i] == "";
    assert "" in q <==> exists i :: 0 <= i < 12 && q[i] == "";
    assert forall i :: 0 <= i < 12 ==> (p[i] == "" <==> q[i] == "");
  }

  lemma {:induction false} RowAt(f: Finding, g: Finding, i: nat)
    requires Substituted(f, g) && i < |f.oracleEvidence|
    ensures RowVerdict(f.oracleEvidence[i]) == RowVerdict(g.oracleEvidence[i])
    ensures f.oracleEvidence[i].symbol == g.oracleEvidence[i].symbol
    ensures RuntimeOf(f.oracleEvidence[i]) == RuntimeOf(Anchor(f)) <==> RuntimeOf(g.oracleEvidence[i]) == RuntimeOf(Anchor(g))
  {
    assert AllRows(f)[i + 1] == f.oracleEvidence[i] && AllRows(g)[i + 1] == g.oracleEvidence[i];
    RowVerdictKept(f.oracleEvidence[i], g.oracleEvidence[i]);
    var anchor := if f.shape.Some? then 1 else 0;
    assert AllRows(f)[anchor] == Anchor(f) && AllRows(g)[anchor] == Anchor(g);
    assert RowSubstituted(Anchor(f), Anchor(g));
  }

  lemma {:induction false} RowsKept(f: Finding, g: Finding, v: Option<bool>)
    requires Substituted(f, g)
    ensures (forall e :: e in f.oracleEvidence ==> RowVerdict(e) == v) ==> (forall e :: e in g.oracleEvidence ==> RowVerdict(e) == v)
    ensures (forall e :: e in f.oracleEvidence ==> RowVerdict(e).Some?) ==> (forall e :: e in g.oracleEvidence ==> RowVerdict(e).Some?)
    ensures FindingWide(f) ==> FindingWide(g)
  {
    forall e | e in g.oracleEvidence
      ensures exists i :: 0 <= i < |f.oracleEvidence| && RowVerdict(f.oracleEvidence[i]) == RowVerdict(e)
                          && (RuntimeOf(f.oracleEvidence[i]) == RuntimeOf(Anchor(f)) <==> RuntimeOf(e) == RuntimeOf(Anchor(g)))
    {
      var i :| 0 <= i < |g.oracleEvidence| && g.oracleEvidence[i] == e;
      RowAt(f, g, i);
    }
  }

  lemma {:induction false} SubstitutedBack(f: Finding, g: Finding)
    requires Substituted(f, g)
    ensures Substituted(g, f)
  {
  }

  /** Any equality- and emptiness-preserving substitution of manifests leaves the validator's whole verdict. */
  lemma {:induction false} SubstitutionIsSound(f: Finding, g: Finding)
    requires Substituted(f, g)
    ensures EvidenceComplete(f) <==> EvidenceComplete(g)
    ensures Accepted(f) <==> Accepted(g)
  {
    EvidenceKept(f, g);
    MeasurementKept(f, g);
  }

  lemma {:induction false} EvidenceKept(f: Finding, g: Finding)
    requires Substituted(f, g)
    ensures EvidenceComplete(f) <==> EvidenceComplete(g)
    ensures EvidenceAccepted(f) <==> EvidenceAccepted(g)
  {
    SubstitutedBack(f, g);
    RowsKept(f, g, Some(true));
    RowsKept(g, f, Some(true));
    assert AllRows(f)[0] == f.targetEvidence && AllRows(g)[0] == g.targetEvidence;
    RowVerdictKept(f.targetEvidence, g.targetEvidence);
    forall i | 0 <= i < |f.oracleEvidence| ensures OracleSymbols(f)[i] == OracleSymbols(g)[i] {
      RowAt(f, g, i);
    }
    assert OracleSymbols(f) == OracleSymbols(g);
  }

  lemma {:induction false} MeasurementKept(f: Finding, g: Finding)
    requires g == f.(targetEvidence := g.targetEvidence, oracleEvidence := g.oracleEvidence)
    ensures MeasurementValid(f) <==> MeasurementValid(g)
    ensures AttestedValid(f) <==> AttestedValid(g)
    ensures WithdrawnValid(f) <==> WithdrawnValid(g)
  {
  }

  // ---- one row of a table, real and substituted ----

  /** A substitute list keeps emptiness and equality, index by index. */
  ghost predicate Preserves(inline: seq<string>, sub: seq<string>) {
    && |inline| == |sub|
    && (forall j :: 0 <= j < |inline| ==> (inline[j] == "" <==> sub[j] == ""))
    && forall j, k :: 0 <= j < |inline| && 0 <= k < |inline| ==> (inline[j] == inline[k] <==> sub[j] == sub[k])
  }

  ghost predicate Paired(a: SubjectEvidence, b: SubjectEvidence, inline: seq<string>, sub: seq<string>)
    requires |inline| == |sub|
  {
    || (a == b && Manifest(a) == "")
    || exists j :: 0 <= j < |inline| && Manifest(a) == inline[j] && b == WithManifest(a, sub[j])
  }

  lemma {:induction false} PairedSame(a: SubjectEvidence, b: SubjectEvidence, a': SubjectEvidence, b': SubjectEvidence,
          inline: seq<string>, sub: seq<string>)
    requires Preserves(inline, sub) && Paired(a, b, inline, sub) && Paired(a', b', inline, sub)
    ensures RowSubstituted(a, b)
    ensures Manifest(a) == Manifest(a') <==> Manifest(b) == Manifest(b')
  {
  }

  ghost predicate FindingPaired(f: Finding, g: Finding, inline: seq<string>, sub: seq<string>)
    requires |inline| == |sub|
  {
    && g == f.(targetEvidence := g.targetEvidence, oracleEvidence := g.oracleEvidence) && |f.oracleEvidence| == |g.oracleEvidence|
    && Paired(f.targetEvidence, g.targetEvidence, inline, sub)
    && forall i :: 0 <= i < |f.oracleEvidence| ==> Paired(f.oracleEvidence[i], g.oracleEvidence[i], inline, sub)
  }

  lemma {:induction false} PairedIsSubstituted(f: Finding, g: Finding, inline: seq<string>, sub: seq<string>)
    requires Preserves(inline, sub) && FindingPaired(f, g, inline, sub)
    ensures Substituted(f, g)
  {
    forall i | 0 <= i < |AllRows(f)| ensures Paired(AllRows(f)[i], AllRows(g)[i], inline, sub) {
      if i > 0 {
        assert AllRows(f)[i] == f.oracleEvidence[i - 1] && AllRows(g)[i] == g.oracleEvidence[i - 1];
      }
    }
    forall i, j | 0 <= i < |AllRows(f)| && 0 <= j < |AllRows(f)|
      ensures RowSubstituted(AllRows(f)[i], AllRows(g)[i])
      ensures Manifest(AllRows(f)[i]) == Manifest(AllRows(f)[j]) <==> Manifest(AllRows(g)[i]) == Manifest(AllRows(g)[j])
    {
      PairedSame(AllRows(f)[i], AllRows(g)[i], AllRows(f)[j], AllRows(g)[j], inline, sub);
    }
  }

  // ---- keyed placeholders, version 14 ----

  function RealOf(ms: seq<ManifestEntry>): (r: seq<string>)
    ensures |r| == |ms| && forall j :: 0 <= j < |ms| ==> r[j] == ms[j].manifest
  {
    seq(|ms|, j requires 0 <= j < |ms| => ms[j].manifest)
  }

  function KeyedSub(ms: seq<ManifestEntry>): (r: seq<string>)
    ensures |r| == |ms| && forall j :: 0 <= j < |ms| ==> r[j] == if ms[j].manifest == "" then "" else PLACEHOLDER + ms[j].key
  {
    seq(|ms|, j requires 0 <= j < |ms| => if ms[j].manifest == "" then "" else PLACEHOLDER + ms[j].key)
  }

  lemma {:induction false} PlaceholderInjective(a: string, b: string)
    requires PLACEHOLDER + a == PLACEHOLDER + b
    ensures a == b
  {
    assert a == (PLACEHOLDER + a)[|PLACEHOLDER|..];
    assert b == (PLACEHOLDER + b)[|PLACEHOLDER|..];
  }

  lemma {:induction false} KeyedPreserves(c: Codec, ms: seq<ManifestEntry>)
    requires (forall m :: m in ms ==> ManifestOwn(c, m)) && DistinctKeys(ms, ManifestId)
    ensures Preserves(RealOf(ms), KeyedSub(ms))
  {
    forall j, k | 0 <= j < |ms| && 0 <= k < |ms| ensures RealOf(ms)[j] == RealOf(ms)[k] <==> KeyedSub(ms)[j] == KeyedSub(ms)[k] {
      assert ms[j] in ms && ms[k] in ms;
      if KeyedSub(ms)[j] == KeyedSub(ms)[k] && ms[j].manifest != "" && ms[k].manifest != "" {
        PlaceholderInjective(ms[j].key, ms[k].key);
        if j != k {
          assert ManifestId(ms[j]) == ManifestId(ms[k]);
        }
      }
    }
  }

  lemma {:induction false} EntryPaired(c: Codec, doc: Document, x: EvidenceEntry)
    requires WellFormed(c, doc) && x in doc.evidence
    ensures var table := ManifestTable(doc.manifests); var m := At(table, x.runtimeInputs);
            Paired(Inlined(x, m, false), Inlined(x, m, true), RealOf(doc.manifests), KeyedSub(doc.manifests))
  {
    assert EvidenceOwn(c, ManifestTable(doc.manifests), x);
    ManifestIndex(doc.manifests, x.runtimeInputs);
    var j :| 0 <= j < |doc.manifests| && doc.manifests[j].key == x.runtimeInputs;
    ManifestHeld(doc.manifests, j);
  }

  lemma {:induction false} ManifestIndex(ms: seq<ManifestEntry>, key: string)
    requires key in ManifestTable(ms)
    ensures exists j :: 0 <= j < |ms| && ms[j].key == key
  {
    var n := |ms| - 1;
    if ms[n].key != key {
      ManifestIndex(ms[..n], key);
      var j :| 0 <= j < n && ms[..n][j].key == key;
      assert ms[j].key == key;
    }
  }

  lemma {:induction false} EvidenceIndex(table: map<string, string>, xs: seq<EvidenceEntry>, placeholder: bool,
          key: string)
    requires key in EvidenceTable(table, xs, placeholder)
    ensures exists j :: 0 <= j < |xs| && xs[j].key == key
  {
    var n := |xs| - 1;
    if xs[n].key != key {
      EvidenceIndex(table, xs[..n], placeholder, key);
      var j :| 0 <= j < n && xs[..n][j].key == key;
      assert xs[j].key == key;
    }
  }

  lemma {:induction false} KeyPaired(c: Codec, doc: Document, key: string)
    requires WellFormed(c, doc)
    ensures var table := ManifestTable(doc.manifests);
            Paired(Resolve(EvidenceTable(table, doc.evidence, false), key), Resolve(EvidenceTable(table, doc.evidence, true), key),
                   RealOf(doc.manifests), KeyedSub(doc.manifests))
  {
    var table := ManifestTable(doc.manifests);
    SameKeys(table, doc.evidence, true);
    if key in EvidenceTable(table, doc.evidence, false).Keys {
      EvidenceIndex(table, doc.evidence, false, key);
      var j :| 0 <= j < |doc.evidence| && doc.evidence[j].key == key;
      EvidenceHeld(table, false, doc.evidence, j);
      EvidenceHeld(table, true, doc.evidence, j);
      EntryPaired(c, doc, doc.evidence[j]);
    }
  }

  lemma {:induction false} ResolvedAt(table: map<string, SubjectEvidence>, keys: seq<string>, i: nat)
    requires i < |keys|
    ensures |ResolveAll(table, keys)| == |keys| && ResolveAll(table, keys)[i] == Resolve(table, keys[i])
  {
    ResolvedLength(table, keys);
    if i < |keys| - 1 {
      ResolvedAt(table, keys[..|keys| - 1], i);
    } else {
      ResolvedLength(table, keys[..|keys| - 1]);
    }
  }

  lemma {:induction false} ResolvedLength(table: map<string, SubjectEvidence>, keys: seq<string>)
    ensures |ResolveAll(table, keys)| == |keys|
  {
    if keys != [] {
      ResolvedLength(table, keys[..|keys| - 1]);
    }
  }

  lemma {:induction false} RowPaired(c: Codec, doc: Document, i: nat)
    requires WellFormed(c, doc) && i < |doc.rows|
    ensures FindingPaired(Expanded(doc, false)[i], Expanded(doc, true)[i], RealOf(doc.manifests), KeyedSub(doc.manifests))
  {
    var table, row := ManifestTable(doc.manifests), doc.rows[i];
    var inline, sub := EvidenceTable(table, doc.evidence, false), EvidenceTable(table, doc.evidence, true);
    assert row in doc.rows;
    assert RowResolves(row, inline.Keys, LedgerTable(doc.ledgers).Keys);
    if row.target.Some? {
      KeyPaired(c, doc, row.target.value);
    }
    ResolvedLength(inline, row.oracle);
    ResolvedLength(sub, row.oracle);
    forall j | 0 <= j < |row.oracle|
      ensures Paired(ResolveAll(inline, row.oracle)[j], ResolveAll(sub, row.oracle)[j], RealOf(doc.manifests), KeyedSub(doc.manifests))
    {
      ResolvedAt(inline, row.oracle, j);
      ResolvedAt(sub, row.oracle, j);
      KeyPaired(c, doc, row.oracle[j]);
    }
  }

  /** The keyed placeholders never change the verdict on any record of any well-formed document. */
  lemma {:induction false} KeyedIsSound(c: Codec, doc: Document, i: nat)
    requires WellFormed(c, doc) && i < |doc.rows|
    ensures Accepted(Expanded(doc, true)[i]) <==> Accepted(Expanded(doc, false)[i])
    ensures EvidenceComplete(Expanded(doc, true)[i]) <==> EvidenceComplete(Expanded(doc, false)[i])
    ensures Expanded(doc, true)[i].symbol == Expanded(doc, false)[i].symbol && Expanded(doc, true)[i].selection == Expanded(doc, false)[i].selection
  {
    KeyedPreserves(c, doc.manifests);
    RowPaired(c, doc, i);
    PairedIsSubstituted(Expanded(doc, false)[i], Expanded(doc, true)[i], RealOf(doc.manifests), KeyedSub(doc.manifests));
    SubstitutionIsSound(Expanded(doc, false)[i], Expanded(doc, true)[i]);
  }

  // ---- reading a document ----

  ghost predicate Admitted(f: Finding) { Accepted(f) && EvidenceComplete(f) }

  /** What a document may hold once: a record key, or in documents older than selections a symbol. */
  function RecordName(f: Finding, bySymbol: bool): string { if bySymbol then f.symbol else KeyOf(f) }

  ghost predicate OncePerName(fs: seq<Finding>, bySymbol: bool) {
    forall i, j :: 0 <= i < j < |fs| ==> RecordName(fs[i], bySymbol) != RecordName(fs[j], bySymbol)
  }

  ghost predicate AllAdmitted(fs: seq<Finding>) { forall f :: f in fs ==> Admitted(f) }

  ghost predicate Readable(fs: seq<Finding>, bySymbol: bool) { AllAdmitted(fs) && OncePerName(fs, bySymbol) }

  function NameSet(fs: seq<Finding>, bySymbol: bool): set<string> { if fs == [] then {} else NameSet(fs[..|fs| - 1], bySymbol) + {RecordName(fs[|fs| - 1], bySymbol)} }

  lemma {:induction false} NameSetExact(fs: seq<Finding>, bySymbol: bool, name: string)
    ensures name in NameSet(fs, bySymbol) <==> exists i :: 0 <= i < |fs| && RecordName(fs[i], bySymbol) == name
  {
    if fs != [] {
      NameSetExact(fs[..|fs| - 1], bySymbol, name);
    }
  }

  lemma {:induction false} ReadableNext(fs: seq<Finding>, bySymbol: bool, i: nat)
    requires i < |fs| && Readable(fs[..i], bySymbol)
    ensures Readable(fs[..i + 1], bySymbol) <==> Admitted(fs[i]) && RecordName(fs[i], bySymbol) !in NameSet(fs[..i], bySymbol)
    ensures NameSet(fs[..i + 1], bySymbol) == NameSet(fs[..i], bySymbol) + {RecordName(fs[i], bySymbol)}
  {
    var next := fs[..i + 1];
    assert next == fs[..i] + [fs[i]] && next[..i] == fs[..i];
    AllAdmittedNext(fs[..i], fs[i]);
    OnceNext(fs[..i], bySymbol, fs[i]);
  }

  lemma {:induction false} AllAdmittedNext(fs: seq<Finding>, x: Finding)
    ensures AllAdmitted(fs + [x]) <==> AllAdmitted(fs) && Admitted(x)
  {
    assert forall f :: f in fs + [x] <==> f in fs || f == x;
  }

  lemma {:induction false} OnceNext(fs: seq<Finding>, bySymbol: bool, x: Finding)
    requires OncePerName(fs, bySymbol)
    ensures OncePerName(fs + [x], bySymbol) <==> RecordName(x, bySymbol) !in NameSet(fs, bySymbol)
  {
    var next := fs + [x];
    NameSetExact(fs, bySymbol, RecordName(x, bySymbol));
    if OncePerName(next, bySymbol) {
      forall j | 0 <= j < |fs| ensures RecordName(fs[j], bySymbol) != RecordName(x, bySymbol) {
        assert RecordName(next[j], bySymbol) != RecordName(next[|fs|], bySymbol);
      }
    }
  }

  lemma {:induction false} NotReadable(fs: seq<Finding>, bySymbol: bool, n: nat)
    requires n <= |fs| && !Readable(fs[..n], bySymbol)
    ensures !Readable(fs, bySymbol)
  {
    assert forall f :: f in fs[..n] ==> f in fs;
    if OncePerName(fs, bySymbol) {
      forall i, j | 0 <= i < j < n ensures RecordName(fs[..n][i], bySymbol) != RecordName(fs[..n][j], bySymbol) {
        assert RecordName(fs[i], bySymbol) != RecordName(fs[j], bySymbol);
      }
    }
  }

  method ValidateEach(fs: seq<Finding>, bySymbol: bool) returns (ok: bool)
    ensures ok <==> Readable(fs, bySymbol)
  {
    var seen: set<string> := {};
    for i := 0 to |fs|
      invariant Readable(fs[..i], bySymbol)
      invariant seen == NameSet(fs[..i], bySymbol)
    {
      ReadableNext(fs, bySymbol, i);
      var verdict := ValidateFindingEncoding(fs[i]);
      if verdict != Some(true) || RecordName(fs[i], bySymbol) in seen {
        NotReadable(fs, bySymbol, i + 1);
        return false;
      }
      seen := seen + {RecordName(fs[i], bySymbol)};
    }
    assert fs[..|fs|] == fs;
    ok := true;
  }

  /** The reader: it validates the placeholder form and answers with the real one, refusing exactly what is not readable. */
  method ReadDocument(c: Codec, doc: Document, version: nat) returns (r: Option<seq<Finding>>)
    ensures r.Some? <==> WellFormed(c, doc) && Readable(Expanded(doc, false), version < 17)
    ensures r.Some? ==> r.value == Expanded(doc, false)
  {
    var expanded := ExpandDocument(c, doc, false);
    if expanded.Err? {
      return None;
    }
    var small := ExpandDocument(c, doc, true);
    SameReadable(c, doc, version);
    var ok := ValidateEach(small.value, version < 17);
    r := if ok then Some(expanded.value) else None;
  }

  lemma {:induction false} ReadableAt(fs: seq<Finding>, gs: seq<Finding>, bySymbol: bool)
    requires |fs| == |gs| && forall i :: 0 <= i < |fs| ==> (Admitted(fs[i]) <==> Admitted(gs[i])) && RecordName(fs[i], bySymbol) == RecordName(gs[i], bySymbol)
    ensures Readable(fs, bySymbol) ==> Readable(gs, bySymbol)
  {
    if Readable(fs, bySymbol) {
      forall g | g in gs ensures Admitted(g) {
        var i :| 0 <= i < |gs| && gs[i] == g;
        assert fs[i] in fs;
      }
      forall i, j | 0 <= i < j < |gs| ensures RecordName(gs[i], bySymbol) != RecordName(gs[j], bySymbol) {
        assert RecordName(fs[i], bySymbol) != RecordName(fs[j], bySymbol);
      }
    }
  }

  lemma {:induction false} SameReadable(c: Codec, doc: Document, version: nat)
    requires WellFormed(c, doc)
    ensures Readable(Expanded(doc, true), version < 17) <==> Readable(Expanded(doc, false), version < 17)
  {
    forall i | 0 <= i < |doc.rows|
      ensures (Admitted(Expanded(doc, true)[i]) <==> Admitted(Expanded(doc, false)[i]))
              && RecordName(Expanded(doc, true)[i], version < 17) == RecordName(Expanded(doc, false)[i], version < 17)
    {
      KeyedIsSound(c, doc, i);
    }
    ReadableAt(Expanded(doc, true), Expanded(doc, false), version < 17);
    ReadableAt(Expanded(doc, false), Expanded(doc, true), version < 17);
  }
}
