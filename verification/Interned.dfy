/**
 The interned document: evidence rows, manifests and ledgers live once each in tables keyed by a hash of their own
 bytes. The hash is any function at all: two contents under one key refuse, so decoding never needs it injective.
 */
module Interned {
  import opened Wrappers
  import opened Sorting
  import opened Records

  /** The hash, any function to twenty-four characters, and a marshaller of evidence rows and of ledgers that unmarshals back. */
  datatype Codec = Codec(hash: string -> string, marshal: SubjectEvidence -> string, unmarshal: string -> SubjectEvidence,
                         marshalLedger: CompartmentLedger -> string, unmarshalLedger: string -> CompartmentLedger)
  {
    ghost predicate Lawful() {
      && (forall s :: |hash(s)| == 24)
      && (forall e :: unmarshal(marshal(e)) == e)
      && (forall l :: unmarshalLedger(marshalLedger(l)) == l)
    }
  }

  datatype ManifestEntry = ManifestEntry(key: string, manifest: string)
  datatype EvidenceEntry = EvidenceEntry(key: string, evidence: SubjectEvidence, runtimeInputs: string)
  datatype LedgerEntry = LedgerEntry(key: string, ledger: CompartmentLedger)
  datatype FindingRow = FindingRow(finding: Finding, target: Option<string>, oracle: seq<string>, ledger: Option<string>)
  datatype Document = Document(manifests: seq<ManifestEntry>, evidence: seq<EvidenceEntry>, ledgers: seq<LedgerEntry>, rows: seq<FindingRow>)

  function ManifestId(m: ManifestEntry): string { m.key }
  function EvidenceId(e: EvidenceEntry): string { e.key }
  function LedgerId(l: LedgerEntry): string { l.key }

  function Manifest(e: SubjectEvidence): string { e.fingerprint.runtimeInputs }

  function WithManifest(e: SubjectEvidence, m: string): SubjectEvidence { e.(fingerprint := e.fingerprint.(runtimeInputs := m)) }

  function Cleared(e: SubjectEvidence): SubjectEvidence { WithManifest(e, "") }

  function Bytes(c: Codec, cleared: SubjectEvidence, manifestKey: string): string { manifestKey + "\n" + c.marshal(cleared) }

  function EvidenceKey(c: Codec, e: SubjectEvidence): string { c.hash(Bytes(c, Cleared(e), c.hash(Manifest(e)))) }

  function EntryOf(c: Codec, e: SubjectEvidence): EvidenceEntry { EvidenceEntry(EvidenceKey(c, e), Cleared(e), c.hash(Manifest(e))) }

  function ManifestKey(c: Codec, e: SubjectEvidence): string { c.hash(Manifest(e)) }

  function LedgerKey(c: Codec, l: CompartmentLedger): string { c.hash(c.marshalLedger(l)) }

  function Heavy(f: Finding): seq<SubjectEvidence> { (if f.shape.None? then [f.targetEvidence] else []) + f.oracleEvidence }

  function Light(f: Finding): Finding { f.(targetEvidence := ZERO_EVIDENCE, oracleEvidence := [], ledger := None) }

  function KeyList(c: Codec, es: seq<SubjectEvidence>): seq<string> {
    if es == [] then [] else KeyList(c, es[..|es| - 1]) + [EvidenceKey(c, es[|es| - 1])]
  }

  function RowOf(c: Codec, f: Finding): FindingRow {
    FindingRow(Light(f),
               if f.shape.None? then Some(EvidenceKey(c, f.targetEvidence)) else None,
               KeyList(c, f.oracleEvidence),
               match f.ledger case None => None case Some(l) => Some(LedgerKey(c, l)))
  }

  // ---- what a document's findings hold ----

  function LedgerIn(f: Finding): set<CompartmentLedger> { match f.ledger case None => {} case Some(l) => {l} }

  function WithRows(rows: set<SubjectEvidence>, es: seq<SubjectEvidence>): set<SubjectEvidence> {
    if es == [] then rows else WithRows(rows, es[..|es| - 1]) + {es[|es| - 1]}
  }

  function Rows(kept: seq<Finding>): set<SubjectEvidence> {
    if kept == [] then {} else WithRows(Rows(kept[..|kept| - 1]), Heavy(kept[|kept| - 1]))
  }

  lemma {:induction false} WithRowsExact(rows: set<SubjectEvidence>, es: seq<SubjectEvidence>, e: SubjectEvidence)
    ensures e in WithRows(rows, es) <==> e in rows || e in es
  {
    if es != [] {
      WithRowsExact(rows, es[..|es| - 1], e);
      assert es == es[..|es| - 1] + [es[|es| - 1]];
    }
  }

  function Ledgers(kept: seq<Finding>): set<CompartmentLedger> {
    if kept == [] then {} else Ledgers(kept[..|kept| - 1]) + LedgerIn(kept[|kept| - 1])
  }

  predicate Stray(f: Finding) { f.shape.Some? && f.targetEvidence != ZERO_EVIDENCE }

  /** No two rows under one manifest or evidence key differ in content. */
  ghost predicate RowsAgree(c: Codec, rows: set<SubjectEvidence>) {
    && (forall x, y :: x in rows && y in rows && ManifestKey(c, x) == ManifestKey(c, y) ==> Manifest(x) == Manifest(y))
    && (forall x, y :: x in rows && y in rows && EvidenceKey(c, x) == EvidenceKey(c, y) ==> EntryOf(c, x) == EntryOf(c, y))
  }

  ghost predicate LedgersAgree(c: Codec, ledgers: set<CompartmentLedger>) {
    forall x, y :: x in ledgers && y in ledgers && LedgerKey(c, x) == LedgerKey(c, y) ==> x == y
  }

  /** Every key names one content and no shaped finding carries a target row: the code's refusals, and no more. */
  ghost predicate Internable(c: Codec, kept: seq<Finding>) {
    (forall f :: f in kept ==> !Stray(f)) && RowsAgree(c, Rows(kept)) && LedgersAgree(c, Ledgers(kept))
  }

  /** The tables hold each content once, in key order. */
  ghost predicate Tabled(c: Codec, rows: set<SubjectEvidence>, ledgers: set<CompartmentLedger>, doc: Document) {
    && StrictlyAscending(doc.manifests, ManifestId) && StrictlyAscending(doc.evidence, EvidenceId) && StrictlyAscending(doc.ledgers, LedgerId)
    && (forall m :: m in doc.manifests <==> exists e :: e in rows && m == ManifestEntry(ManifestKey(c, e), Manifest(e)))
    && (forall x :: x in doc.evidence <==> exists e :: e in rows && x == EntryOf(c, e))
    && (forall x :: x in doc.ledgers <==> exists l :: l in ledgers && x == LedgerEntry(LedgerKey(c, l), l))
  }

  ghost predicate Interns(c: Codec, kept: seq<Finding>, doc: Document) {
    && Tabled(c, Rows(kept), Ledgers(kept), doc)
    && |doc.rows| == |kept| && forall i :: 0 <= i < |kept| ==> doc.rows[i] == RowOf(c, kept[i])
  }

  lemma {:induction false} RowsExact(kept: seq<Finding>)
    ensures forall e :: e in Rows(kept) <==> exists f :: f in kept && e in Heavy(f)
    ensures forall l :: l in Ledgers(kept) <==> exists f :: f in kept && f.ledger == Some(l)
  {
    if kept != [] {
      var init, last := kept[..|kept| - 1], kept[|kept| - 1];
      RowsExact(init);
      assert kept == init + [last];
      assert forall f :: f in kept <==> f in init || f == last;
      forall e ensures e in Rows(kept) <==> e in Rows(init) || e in Heavy(last) {
        WithRowsExact(Rows(init), Heavy(last), e);
      }
    }
  }

  /** The tables are a function of the records as a set: no order of them shows. */
  lemma {:induction false} TablesIgnoreOrder(c: Codec, kept: seq<Finding>, doc: Document, kept': seq<Finding>,
          doc': Document)
    requires Interns(c, kept, doc) && Interns(c, kept', doc') && forall f :: f in kept <==> f in kept'
    ensures doc.manifests == doc'.manifests && doc.evidence == doc'.evidence && doc.ledgers == doc'.ledgers
  {
    RowsExact(kept);
    RowsExact(kept');
    assert Rows(kept) == Rows(kept');
    assert Ledgers(kept) == Ledgers(kept');
    SortedUnique(doc.manifests, doc'.manifests, ManifestId);
    SortedUnique(doc.evidence, doc'.evidence, EvidenceId);
    SortedUnique(doc.ledgers, doc'.ledgers, LedgerId);
  }

  // ---- the encoder ----

  datatype InternError = CollidingManifests(key: string) | CollidingEvidence(key: string) | CollidingLedgers(key: string) | StrayTarget(index: nat)

  // A table of contents by key, covering exactly what was seen; a clash is two contents under one key.

  ghost predicate ManifestsSeen(c: Codec, table: map<string, string>, seen: set<SubjectEvidence>) {
    && (forall x :: x in seen ==> ManifestKey(c, x) in table && table[ManifestKey(c, x)] == Manifest(x))
    && (forall k :: k in table ==> exists x :: x in seen && ManifestKey(c, x) == k)
  }

  ghost predicate ManifestsClash(c: Codec, seen: set<SubjectEvidence>, x: SubjectEvidence) {
    exists y :: y in seen && ManifestKey(c, y) == ManifestKey(c, x) && Manifest(y) != Manifest(x)
  }

  lemma {:induction false} ManifestsSeenAdd(c: Codec, table: map<string, string>, seen: set<SubjectEvidence>,
          x: SubjectEvidence)
    requires ManifestsSeen(c, table, seen)
    ensures ManifestsClash(c, seen, x) <==> ManifestKey(c, x) in table && table[ManifestKey(c, x)] != Manifest(x)
    ensures !ManifestsClash(c, seen, x) ==> ManifestsSeen(c, table[ManifestKey(c, x) := Manifest(x)], seen + {x})
  {
    if !ManifestsClash(c, seen, x) {
      var table', seen' := table[ManifestKey(c, x) := Manifest(x)], seen + {x};
      forall k | k in table' ensures exists y :: y in seen' && ManifestKey(c, y) == k {
        if k != ManifestKey(c, x) {
          var y :| y in seen && ManifestKey(c, y) == k;
          assert y in seen';
        } else {
          assert x in seen';
        }
      }
    }
  }

  ghost predicate EntriesSeen(c: Codec, table: map<string, EvidenceEntry>, seen: set<SubjectEvidence>) {
    && (forall x :: x in seen ==> EvidenceKey(c, x) in table && table[EvidenceKey(c, x)] == EntryOf(c, x))
    && (forall k :: k in table ==> exists x :: x in seen && EvidenceKey(c, x) == k)
  }

  ghost predicate EntriesClash(c: Codec, seen: set<SubjectEvidence>, x: SubjectEvidence) {
    exists y :: y in seen && EvidenceKey(c, y) == EvidenceKey(c, x) && EntryOf(c, y) != EntryOf(c, x)
  }

  lemma {:induction false} EntriesSeenAdd(c: Codec, table: map<string, EvidenceEntry>, seen: set<SubjectEvidence>,
          x: SubjectEvidence)
    requires EntriesSeen(c, table, seen)
    ensures EntriesClash(c, seen, x) <==> EvidenceKey(c, x) in table && table[EvidenceKey(c, x)] != EntryOf(c, x)
    ensures !EntriesClash(c, seen, x) ==> EntriesSeen(c, table[EvidenceKey(c, x) := EntryOf(c, x)], seen + {x})
  {
    if !EntriesClash(c, seen, x) {
      var table', seen' := table[EvidenceKey(c, x) := EntryOf(c, x)], seen + {x};
      forall k | k in table' ensures exists y :: y in seen' && EvidenceKey(c, y) == k {
        if k != EvidenceKey(c, x) {
          var y :| y in seen && EvidenceKey(c, y) == k;
          assert y in seen';
        } else {
          assert x in seen';
        }
      }
    }
  }

  ghost predicate LedgersSeen(c: Codec, table: map<string, CompartmentLedger>, seen: set<CompartmentLedger>) {
    && (forall x :: x in seen ==> LedgerKey(c, x) in table && table[LedgerKey(c, x)] == x)
    && (forall k :: k in table ==> exists x :: x in seen && LedgerKey(c, x) == k)
  }

  ghost predicate LedgersClash(c: Codec, seen: set<CompartmentLedger>, x: CompartmentLedger) {
    exists y :: y in seen && LedgerKey(c, y) == LedgerKey(c, x) && y != x
  }

  lemma {:induction false} LedgersSeenAdd(c: Codec, table: map<string, CompartmentLedger>, seen: set<CompartmentLedger>,
          x: CompartmentLedger)
    requires LedgersSeen(c, table, seen)
    ensures LedgersClash(c, seen, x) <==> LedgerKey(c, x) in table && table[LedgerKey(c, x)] != x
    ensures !LedgersClash(c, seen, x) ==> LedgersSeen(c, table[LedgerKey(c, x) := x], seen + {x})
  {
    if !LedgersClash(c, seen, x) {
      var table', seen' := table[LedgerKey(c, x) := x], seen + {x};
      forall k | k in table' ensures exists y :: y in seen' && LedgerKey(c, y) == k {
        if k != LedgerKey(c, x) {
          var y :| y in seen && LedgerKey(c, y) == k;
          assert y in seen';
        } else {
          assert x in seen';
        }
      }
    }
  }

  /** The encoder's tables while it walks the records. */
  datatype Tables = Tables(manifests: map<string, string>, evidences: map<string, EvidenceEntry>, ledgers: map<string, CompartmentLedger>)

  /** The contents walked so far, evidence rows and ledgers. */
  datatype Walked = Walked(rows: set<SubjectEvidence>, ledgers: set<CompartmentLedger>)

  ghost predicate Holds(c: Codec, t: Tables, w: Walked) {
    ManifestsSeen(c, t.manifests, w.rows) && EntriesSeen(c, t.evidences, w.rows) && LedgersSeen(c, t.ledgers, w.ledgers)
  }

  method InternManifest(c: Codec, manifests: map<string, string>,
          m: string) returns (r: Result<map<string, string>, InternError>)
    ensures r.Ok? <==> !(c.hash(m) in manifests && manifests[c.hash(m)] != m)
    ensures r.Ok? ==> r.value == manifests[c.hash(m) := m]
  {
    var k := c.hash(m);
    if k in manifests && manifests[k] != m {
      return Err(CollidingManifests(k));
    }
    r := Ok(manifests[k := m]);
  }

  method InternEntry(c: Codec, evidences: map<string, EvidenceEntry>, e: SubjectEvidence,
          ghost rows: set<SubjectEvidence>)
    returns (r: Result<map<string, EvidenceEntry>, InternError>)
    requires c.Lawful() && EntriesSeen(c, evidences, rows)
    ensures r.Ok? <==> !(EvidenceKey(c, e) in evidences && evidences[EvidenceKey(c, e)] != EntryOf(c, e))
    ensures r.Ok? ==> r.value == evidences[EvidenceKey(c, e) := EntryOf(c, e)]
  {
    var mk := c.hash(Manifest(e));
    var b := Bytes(c, Cleared(e), mk);
    var k := c.hash(b);
    if k in evidences {
      HeldBytes(c, evidences, rows, k, e);
      if Bytes(c, evidences[k].evidence, evidences[k].runtimeInputs) != b {
        return Err(CollidingEvidence(k));
      }
    }
    r := Ok(evidences[k := EvidenceEntry(k, Cleared(e), mk)]);
  }

  method InternEvidence(c: Codec, t: Tables, e: SubjectEvidence,
          ghost w: Walked) returns (r: Result<(Tables, string), InternError>)
    requires c.Lawful() && Holds(c, t, w) && RowsAgree(c, w.rows)
    ensures r.Ok? <==> RowsAgree(c, w.rows + {e})
    ensures r.Ok? ==> Holds(c, r.value.0, w.(rows := w.rows + {e})) && r.value.1 == EvidenceKey(c, e)
  {
    AgreeNext(c, w, e);
    ManifestsSeenAdd(c, t.manifests, w.rows, e);
    EntriesSeenAdd(c, t.evidences, w.rows, e);
    var manifests := InternManifest(c, t.manifests, Manifest(e));
    if manifests.Err? {
      return Err(manifests.error);
    }
    var evidences := InternEntry(c, t.evidences, e, w.rows);
    if evidences.Err? {
      return Err(evidences.error);
    }
    r := Ok((t.(manifests := manifests.value, evidences := evidences.value), EvidenceKey(c, e)));
  }

  method InternLedger(c: Codec, t: Tables, l: CompartmentLedger,
          ghost w: Walked) returns (r: Result<Tables, InternError>)
    requires c.Lawful() && Holds(c, t, w)
    ensures r.Ok? <==> !LedgersClash(c, w.ledgers, l)
    ensures r.Ok? ==> Holds(c, r.value, w.(ledgers := w.ledgers + {l}))
  {
    LedgersSeenAdd(c, t.ledgers, w.ledgers, l);
    var b := c.marshalLedger(l);
    var k := c.hash(b);
    if k in t.ledgers && c.marshalLedger(t.ledgers[k]) != b {
      return Err(CollidingLedgers(k));
    }
    r := Ok(t.(ledgers := t.ledgers[k := l]));
  }

  lemma {:induction false} AgreeNext(c: Codec, w: Walked, e: SubjectEvidence)
    requires RowsAgree(c, w.rows)
    ensures RowsAgree(c, w.rows + {e}) <==> !ManifestsClash(c, w.rows, e) && !EntriesClash(c, w.rows, e)
  {
    assert e in w.rows + {e} && forall x :: x in w.rows ==> x in w.rows + {e};
  }

  lemma {:induction false} AgreeWithin(c: Codec, rows: set<SubjectEvidence>, all: set<SubjectEvidence>)
    requires rows <= all && RowsAgree(c, all)
    ensures RowsAgree(c, rows)
  {
  }

  /** The first n rows are in the tables, their keys listed. */
  ghost predicate RowsDone(c: Codec, t: Tables, keys: seq<string>, es: seq<SubjectEvidence>, n: nat, w: Walked)
    requires n <= |es|
  {
    Holds(c, t, w.(rows := WithRows(w.rows, es[..n]))) && RowsAgree(c, WithRows(w.rows, es[..n])) && keys == KeyList(c, es[..n])
  }

  method InternNextRow(c: Codec, t: Tables, keys: seq<string>, es: seq<SubjectEvidence>, j: nat, ghost w: Walked)
    returns (r: Result<(Tables, seq<string>), InternError>)
    requires c.Lawful() && j < |es| && RowsDone(c, t, keys, es, j, w)
    ensures r.Ok? ==> RowsDone(c, r.value.0, r.value.1, es, j + 1, w)
    ensures r.Err? ==> !RowsAgree(c, WithRows(w.rows, es))
  {
    ghost var walked := w.(rows := WithRows(w.rows, es[..j]));
    RowsNext(c, es, j, w.rows);
    var one := InternEvidence(c, t, es[j], walked);
    if one.Err? {
      RefusedRows(c, w.rows, es, j + 1);
      return Err(one.error);
    }
    r := Ok((one.value.0, keys + [one.value.1]));
    RowsDoneNext(c, r.value.0, keys, es, j, w);
  }

  lemma {:induction false} RowsNext(c: Codec, es: seq<SubjectEvidence>, j: nat, rows: set<SubjectEvidence>)
    requires j < |es|
    ensures WithRows(rows, es[..j + 1]) == WithRows(rows, es[..j]) + {es[j]}
    ensures KeyList(c, es[..j + 1]) == KeyList(c, es[..j]) + [EvidenceKey(c, es[j])]
  {
    assert es[..j + 1][..j] == es[..j];
  }

  lemma {:induction false} RowsDoneNext(c: Codec, t: Tables, keys: seq<string>, es: seq<SubjectEvidence>, j: nat,
          w: Walked)
    requires j < |es| && keys == KeyList(c, es[..j])
    requires Holds(c, t, w.(rows := WithRows(w.rows, es[..j]) + {es[j]})) && RowsAgree(c, WithRows(w.rows, es[..j]) + {es[j]})
    ensures RowsDone(c, t, keys + [EvidenceKey(c, es[j])], es, j + 1, w)
  {
    RowsNext(c, es, j, w.rows);
  }

  method InternRows(c: Codec, t: Tables, es: seq<SubjectEvidence>,
          ghost w: Walked) returns (r: Result<(Tables, seq<string>), InternError>)
    requires c.Lawful() && Holds(c, t, w) && RowsAgree(c, w.rows)
    ensures r.Ok? <==> RowsAgree(c, WithRows(w.rows, es))
    ensures r.Ok? ==> Holds(c, r.value.0, w.(rows := WithRows(w.rows, es))) && r.value.1 == KeyList(c, es)
  {
    var tables, keys := t, [];
    for j := 0 to |es|
      invariant RowsDone(c, tables, keys, es, j, w)
    {
      var next := InternNextRow(c, tables, keys, es, j, w);
      if next.Err? {
        return Err(next.error);
      }
      tables, keys := next.value.0, next.value.1;
    }
    assert es[..|es|] == es;
    r := Ok((tables, keys));
  }

  lemma {:induction false} RefusedRows(c: Codec, rows: set<SubjectEvidence>, es: seq<SubjectEvidence>, n: nat)
    requires n <= |es| && !RowsAgree(c, WithRows(rows, es[..n]))
    ensures !RowsAgree(c, WithRows(rows, es))
  {
    forall e | e in WithRows(rows, es[..n]) ensures e in WithRows(rows, es) {
      WithRowsExact(rows, es[..n], e);
      WithRowsExact(rows, es, e);
    }
    if RowsAgree(c, WithRows(rows, es)) {
      AgreeWithin(c, WithRows(rows, es[..n]), WithRows(rows, es));
    }
  }

  // ---- the records ----

  /** The first n records are interned. */
  ghost predicate Done(c: Codec, t: Tables, rows: seq<FindingRow>, kept: seq<Finding>, n: nat)
    requires n <= |kept|
  {
    && Holds(c, t, Walked(Rows(kept[..n]), Ledgers(kept[..n]))) && Internable(c, kept[..n])
    && |rows| == n && forall i :: 0 <= i < n ==> rows[i] == RowOf(c, kept[i])
  }

  method InternHeavy(c: Codec, t: Tables, f: Finding,
          ghost w: Walked) returns (r: Result<(Tables, FindingRow), InternError>)
    requires c.Lawful() && Holds(c, t, w) && RowsAgree(c, w.rows) && LedgersAgree(c, w.ledgers) && !Stray(f)
    ensures r.Ok? <==> RowsAgree(c, WithRows(w.rows, Heavy(f))) && LedgersAgree(c, w.ledgers + LedgerIn(f))
    ensures r.Ok? ==> Holds(c, r.value.0, Walked(WithRows(w.rows, Heavy(f)), w.ledgers + LedgerIn(f))) && r.value.1 == RowOf(c, f)
  {
    var heavy := InternRows(c, t, Heavy(f), w);
    if heavy.Err? {
      return Err(heavy.error);
    }
    var (tables, keys) := heavy.value;
    var row := FindingRow(Light(f), None, keys, None);
    if f.shape.None? {
      KeyListFirst(c, f.targetEvidence, f.oracleEvidence);
      row := row.(target := Some(keys[0]), oracle := keys[1..]);
    } else {
      assert Heavy(f) == f.oracleEvidence;
    }
    ghost var walked := w.(rows := WithRows(w.rows, Heavy(f)));
    if f.ledger.Some? {
      LedgersAgreeNext(c, w.ledgers, f.ledger.value);
      var ledgered := InternLedger(c, tables, f.ledger.value, walked);
      if ledgered.Err? {
        return Err(ledgered.error);
      }
      tables, row := ledgered.value, row.(ledger := Some(LedgerKey(c, f.ledger.value)));
    } else {
      assert w.ledgers + LedgerIn(f) == w.ledgers;
    }
    r := Ok((tables, row));
  }

  lemma {:induction false} KeyListFirst(c: Codec, e: SubjectEvidence, es: seq<SubjectEvidence>)
    ensures KeyList(c, [e] + es) == [EvidenceKey(c, e)] + KeyList(c, es)
  {
    if es == [] {
      assert [e] + es == [e];
      assert [e][..0] == [];
    } else {
      KeyListFirst(c, e, es[..|es| - 1]);
      assert ([e] + es)[..|[e] + es| - 1] == [e] + es[..|es| - 1];
    }
  }

  lemma {:induction false} LedgersAgreeNext(c: Codec, ledgers: set<CompartmentLedger>, l: CompartmentLedger)
    requires LedgersAgree(c, ledgers)
    ensures LedgersAgree(c, ledgers + {l}) <==> !LedgersClash(c, ledgers, l)
  {
    assert l in ledgers + {l} && forall x :: x in ledgers ==> x in ledgers + {l};
  }

  method InternFinding(c: Codec, t: Tables, rows: seq<FindingRow>, kept: seq<Finding>,
          i: nat) returns (r: Result<(Tables, seq<FindingRow>), InternError>)
    requires c.Lawful() && i < |kept| && Done(c, t, rows, kept, i)
    ensures r.Ok? ==> Done(c, r.value.0, r.value.1, kept, i + 1)
    ensures r.Err? ==> !Internable(c, kept)
  {
    assert kept[..i + 1][..i] == kept[..i];
    InternableNext(c, kept, i);
    if Stray(kept[i]) {
      RefusedFindings(c, kept, i + 1);
      return Err(StrayTarget(i));
    }
    var one := InternHeavy(c, t, kept[i], Walked(Rows(kept[..i]), Ledgers(kept[..i])));
    if one.Err? {
      RefusedFindings(c, kept, i + 1);
      return Err(one.error);
    }
    r := Ok((one.value.0, rows + [one.value.1]));
    DoneNext(c, one.value.0, rows, one.value.1, kept, i);
  }

  lemma {:induction false} DoneNext(c: Codec, t: Tables, rows: seq<FindingRow>, row: FindingRow, kept: seq<Finding>,
          i: nat)
    requires i < |kept| && Internable(c, kept[..i + 1]) && row == RowOf(c, kept[i])
    requires |rows| == i && forall j :: 0 <= j < i ==> rows[j] == RowOf(c, kept[j])
    requires Holds(c, t, Walked(WithRows(Rows(kept[..i]), Heavy(kept[i])), Ledgers(kept[..i]) + LedgerIn(kept[i])))
    ensures Done(c, t, rows + [row], kept, i + 1)
  {
    assert kept[..i + 1][..i] == kept[..i];
  }

  lemma {:induction false} InternableNext(c: Codec, kept: seq<Finding>, i: nat)
    requires i < |kept| && Internable(c, kept[..i])
    ensures Internable(c, kept[..i + 1]) <==>
              !Stray(kept[i]) && RowsAgree(c, WithRows(Rows(kept[..i]), Heavy(kept[i]))) && LedgersAgree(c, Ledgers(kept[..i]) + LedgerIn(kept[i]))
  {
    assert kept[..i + 1] == kept[..i] + [kept[i]];
    assert kept[..i + 1][..i] == kept[..i];
    assert forall f :: f in kept[..i + 1] <==> f in kept[..i] || f == kept[i];
  }

  lemma {:induction false} RefusedFindings(c: Codec, kept: seq<Finding>, n: nat)
    requires n <= |kept| && !Internable(c, kept[..n])
    ensures !Internable(c, kept)
  {
    RowsExact(kept);
    RowsExact(kept[..n]);
    assert forall f :: f in kept[..n] ==> f in kept;
    assert Rows(kept[..n]) <= Rows(kept);
    assert Ledgers(kept[..n]) <= Ledgers(kept);
  }

  // ---- the tables, emitted in key order ----

  method SortedKeys(keys: set<string>) returns (sorted: seq<string>)
    ensures StrictlyAscending(sorted, Itself) && forall k :: k in sorted <==> k in keys
  {
    var pending, listed: seq<string> := keys, [];
    while pending != {}
      invariant pending <= keys && DistinctKeys(listed, Itself)
      invariant forall k :: k in listed <==> k in keys && k !in pending
      decreases pending
    {
      var k :| k in pending;
      assert forall i :: 0 <= i < |listed| ==> listed[i] in listed;
      listed, pending := listed + [k], pending - {k};
    }
    SortByStrict(listed, Itself);
    SortByMembers(listed, Itself);
    sorted := SortBy(listed, Itself);
  }

  method EmitManifests(manifests: map<string, string>) returns (out: seq<ManifestEntry>)
    ensures StrictlyAscending(out, ManifestId)
    ensures forall m :: m in out <==> m.key in manifests && m == ManifestEntry(m.key, manifests[m.key])
  {
    var keys := SortedKeys(manifests.Keys);
    out := [];
    for i := 0 to |keys|
      invariant |out| == i && forall j :: 0 <= j < i ==> out[j] == ManifestEntry(keys[j], manifests[keys[j]])
    {
      out := out + [ManifestEntry(keys[i], manifests[keys[i]])];
    }
    forall i, j | 0 <= i < j < |out| ensures Less(ManifestId(out[i]), ManifestId(out[j])) {
      assert Less(Itself(keys[i]), Itself(keys[j]));
    }
    forall m: ManifestEntry | m.key in manifests && m == ManifestEntry(m.key, manifests[m.key]) ensures m in out {
      var i :| 0 <= i < |keys| && keys[i] == m.key;
      assert out[i] == m;
    }
  }

  method EmitEvidence(evidences: map<string, EvidenceEntry>) returns (out: seq<EvidenceEntry>)
    requires forall k :: k in evidences ==> evidences[k].key == k
    ensures StrictlyAscending(out, EvidenceId)
    ensures forall x :: x in out <==> x.key in evidences && x == evidences[x.key]
  {
    var keys := SortedKeys(evidences.Keys);
    out := [];
    for i := 0 to |keys|
      invariant |out| == i && forall j :: 0 <= j < i ==> out[j] == evidences[keys[j]]
    {
      out := out + [evidences[keys[i]]];
    }
    forall i, j | 0 <= i < j < |out| ensures Less(EvidenceId(out[i]), EvidenceId(out[j])) {
      assert Less(Itself(keys[i]), Itself(keys[j]));
    }
    forall x: EvidenceEntry | x.key in evidences && x == evidences[x.key] ensures x in out {
      var i :| 0 <= i < |keys| && keys[i] == x.key;
      assert out[i] == x;
    }
  }

  method EmitLedgers(ledgers: map<string, CompartmentLedger>) returns (out: seq<LedgerEntry>)
    ensures StrictlyAscending(out, LedgerId)
    ensures forall x :: x in out <==> x.key in ledgers && x == LedgerEntry(x.key, ledgers[x.key])
  {
    var keys := SortedKeys(ledgers.Keys);
    out := [];
    for i := 0 to |keys|
      invariant |out| == i && forall j :: 0 <= j < i ==> out[j] == LedgerEntry(keys[j], ledgers[keys[j]])
    {
      out := out + [LedgerEntry(keys[i], ledgers[keys[i]])];
    }
    forall i, j | 0 <= i < j < |out| ensures Less(LedgerId(out[i]), LedgerId(out[j])) {
      assert Less(Itself(keys[i]), Itself(keys[j]));
    }
    forall x: LedgerEntry | x.key in ledgers && x == LedgerEntry(x.key, ledgers[x.key]) ensures x in out {
      var i :| 0 <= i < |keys| && keys[i] == x.key;
      assert out[i] == x;
    }
  }

  /** The encoder: refused exactly when a key would name two contents, else the tables and rows of the records. */
  method InternDocument(c: Codec, kept: seq<Finding>) returns (r: Result<Document, InternError>)
    requires c.Lawful()
    ensures r.Ok? <==> Internable(c, kept)
    ensures r.Ok? ==> Interns(c, kept, r.value)
  {
    var t, rows := Tables(map[], map[], map[]), [];
    for i := 0 to |kept|
      invariant Done(c, t, rows, kept, i)
    {
      var next := InternFinding(c, t, rows, kept, i);
      if next.Err? {
        return Err(next.error);
      }
      t, rows := next.value.0, next.value.1;
    }
    assert kept[..|kept|] == kept;
    EntriesKeyed(c, t, Walked(Rows(kept), Ledgers(kept)));
    var manifests := EmitManifests(t.manifests);
    var evidence := EmitEvidence(t.evidences);
    var ledgers := EmitLedgers(t.ledgers);
    var doc := Document(manifests, evidence, ledgers, rows);
    EmittedIsTabled(c, t, Rows(kept), Ledgers(kept), doc);
    r := Ok(doc);
  }

  lemma {:induction false} EntriesKeyed(c: Codec, t: Tables, w: Walked)
    requires Holds(c, t, w)
    ensures forall k :: k in t.evidences ==> t.evidences[k].key == k
  {
    forall k | k in t.evidences ensures t.evidences[k].key == k {
      var e :| e in w.rows && EvidenceKey(c, e) == k;
    }
  }

  lemma {:induction false} EmittedIsTabled(c: Codec, t: Tables, rows: set<SubjectEvidence>,
          ledgers: set<CompartmentLedger>, doc: Document)
    requires Holds(c, t, Walked(rows, ledgers))
    requires StrictlyAscending(doc.manifests, ManifestId) && StrictlyAscending(doc.evidence, EvidenceId) && StrictlyAscending(doc.ledgers, LedgerId)
    requires forall m :: m in doc.manifests <==> m.key in t.manifests && m == ManifestEntry(m.key, t.manifests[m.key])
    requires forall x :: x in doc.evidence <==> x.key in t.evidences && x == t.evidences[x.key]
    requires forall x :: x in doc.ledgers <==> x.key in t.ledgers && x == LedgerEntry(x.key, t.ledgers[x.key])
    ensures Tabled(c, rows, ledgers, doc)
  {
    forall m ensures m in doc.manifests <==> exists e :: e in rows && m == ManifestEntry(ManifestKey(c, e), Manifest(e)) {
    }
    forall x ensures x in doc.evidence <==> exists e :: e in rows && x == EntryOf(c, e) {
    }
    forall x ensures x in doc.ledgers <==> exists l :: l in ledgers && x == LedgerEntry(LedgerKey(c, l), l) {
    }
  }

  /** The entry held under a row's key has the row's bytes exactly when it is the row's entry. */
  lemma {:induction false} HeldBytes(c: Codec, evidences: map<string, EvidenceEntry>, seen: set<SubjectEvidence>,
          k: string, e: SubjectEvidence)
    requires c.Lawful() && EntriesSeen(c, evidences, seen) && k in evidences && k == EvidenceKey(c, e)
    ensures Bytes(c, evidences[k].evidence, evidences[k].runtimeInputs) == Bytes(c, Cleared(e), c.hash(Manifest(e))) <==> evidences[k] == EntryOf(c, e)
  {
    var y :| y in seen && EvidenceKey(c, y) == k;
    assert evidences[k] == EntryOf(c, y);
    if Bytes(c, Cleared(y), c.hash(Manifest(y))) == Bytes(c, Cleared(e), c.hash(Manifest(e))) {
      SameBytes(c, Cleared(y), c.hash(Manifest(y)), Cleared(e), c.hash(Manifest(e)));
    }
  }

  /** Keys have one length, so an entry's bytes split one way. */
  lemma {:induction false} SameBytes(c: Codec, a: SubjectEvidence, mk: string, b: SubjectEvidence, mk': string)
    requires c.Lawful() && |mk| == |mk'| && Bytes(c, a, mk) == Bytes(c, b, mk')
    ensures a == b && mk == mk'
  {
    var s, s' := Bytes(c, a, mk), Bytes(c, b, mk');
    assert mk == s[..|mk|] == s'[..|mk|] == mk';
    assert c.marshal(a) == s[|mk| + 1..] == s'[|mk| + 1..] == c.marshal(b);
  }
}
