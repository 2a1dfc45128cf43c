/**
 Merging a run's fresh findings into the live document: a fresh record replaces its key's record with the live
 dispositions grafted on, every other record stands, and the whole is re-annotated.
 The merged records leave a Go map in no fixed order; every statement holds of any listing of them.
 */
module Merging {
  import opened Wrappers
  import opened Sorting
  import opened SelectionText
  import opened Records
  import opened Dispositions
  import opened Grafting
  import opened Annotation

  type Snapshots = Option<map<string, seq<Attestation>>>

  function ByKey(doc: seq<Finding>): map<string, Finding> {
    if doc == [] then map[] else ByKey(doc[..|doc| - 1])[KeyOf(doc[|doc| - 1]) := doc[|doc| - 1]]
  }

  /** The record's snapshot: empty when the run began without one, None when the merge has no snapshot at all. */
  function SnapshotOf(snapshots: Snapshots, key: string): Snapshot {
    match snapshots
    case None => None
    case Some(m) => Some(AttestedMap(if key in m then m[key] else []))
  }

  function GraftOnto(prior: Finding, f: Finding, snap: Snapshot): Grafted {
    GraftDispositions(prior.attested, f.attested, prior.withdrawn, f.withdrawn, f.survivors, snap)
  }

  function WithSymbol(sheds: seq<AttestationShed>, symbol: string): (r: seq<AttestationShed>)
    ensures |r| == |sheds| && forall i :: 0 <= i < |r| ==> r[i] == sheds[i].(symbol := symbol)
  {
    seq(|sheds|, i requires 0 <= i < |sheds| => sheds[i].(symbol := symbol))
  }

  datatype Merged = Merged(records: map<string, Finding>, sheds: seq<AttestationShed>)

  function MergeOne(f: Finding, m: Merged, snapshots: Snapshots): Merged {
    var key := KeyOf(f);
    if f.skipped != "" then m
    else if key !in m.records then m.(records := m.records[key := f])
    else
      var g := GraftOnto(m.records[key], f, SnapshotOf(snapshots, key));
      Merged(m.records[key := f.(attested := g.attested, withdrawn := g.withdrawn)], m.sheds + WithSymbol(g.sheds, f.symbol))
  }

  function MergeInto(run: seq<Finding>, base: map<string, Finding>, snapshots: Snapshots): Merged {
    if run == [] then Merged(base, []) else MergeOne(run[|run| - 1], MergeInto(run[..|run| - 1], base, snapshots), snapshots)
  }

  /** One listing of a keyed record map: every record once. */
  ghost predicate Lists(doc: seq<Finding>, records: map<string, Finding>) {
    && UniqueRecords(doc)
    && (forall f :: f in doc ==> KeyOf(f) in records && records[KeyOf(f)] == f)
    && (forall key :: key in records ==> records[key] in doc)
  }

  ghost predicate Keyed(records: map<string, Finding>) {
    forall key :: key in records ==> KeyOf(records[key]) == key
  }

  lemma {:induction false} ByKeyKeyed(doc: seq<Finding>)
    ensures Keyed(ByKey(doc))
    ensures forall key :: key in ByKey(doc) ==> ByKey(doc)[key] in doc
    ensures forall f :: f in doc ==> KeyOf(f) in ByKey(doc)
  {
    if doc != [] {
      ByKeyKeyed(doc[..|doc| - 1]);
      assert doc == doc[..|doc| - 1] + [doc[|doc| - 1]];
    }
  }

  lemma {:induction false} ByKeyUnique(doc: seq<Finding>)
    requires UniqueRecords(doc)
    ensures Lists(doc, ByKey(doc))
  {
    ByKeyKeyed(doc);
    if doc != [] {
      var n := |doc| - 1;
      ByKeyUnique(doc[..n]);
      forall f | f in doc ensures ByKey(doc)[KeyOf(f)] == f {
        var i :| 0 <= i < |doc| && doc[i] == f;
        if i < n {
          assert doc[..n][i] == f && f in doc[..n];
          assert KeyOf(doc[i]) != KeyOf(doc[n]);
        }
      }
    }
  }

  lemma {:induction false} MergeIntoKeyed(run: seq<Finding>, base: map<string, Finding>, snapshots: Snapshots)
    requires Keyed(base)
    ensures Keyed(MergeInto(run, base, snapshots).records)
  {
    if run != [] {
      MergeIntoKeyed(run[..|run| - 1], base, snapshots);
    }
  }

  // ---- the merge loop ----

  method ListRecords(records: map<string, Finding>) returns (doc: seq<Finding>)
    requires Keyed(records)
    ensures Lists(doc, records)
  {
    doc := [];
    var pending := records.Keys;
    while pending != {}
      invariant pending <= records.Keys
      invariant UniqueRecords(doc)
      invariant forall f :: f in doc ==> KeyOf(f) in records && records[KeyOf(f)] == f && KeyOf(f) !in pending
      invariant forall key :: key in records && key !in pending ==> records[key] in doc
      decreases pending
    {
      var key :| key in pending;
      assert forall i :: 0 <= i < |doc| ==> doc[i] in doc;
      doc := doc + [records[key]];
      pending := pending - {key};
    }
  }

  method MergeFresh(f: Finding, m: Merged, snapshots: Snapshots) returns (m': Merged)
    ensures m' == MergeOne(f, m, snapshots)
  {
    if f.skipped != "" {
      return m;
    }
    var key := KeyOf(f);
    var merged, sheds := f, m.sheds;
    if key in m.records {
      var prior := m.records[key];
      var g := GraftDispositionsAgainst(prior.attested, f.attested, prior.withdrawn, f.withdrawn, f.survivors, SnapshotOf(snapshots, key));
      merged := f.(attested := g.attested, withdrawn := g.withdrawn);
      sheds := sheds + WithSymbol(g.sheds, f.symbol);
    }
    m' := Merged(m.records[key := merged], sheds);
  }

  method MergeFindings(prior: seq<Finding>, run: seq<Finding>, snapshots: Snapshots)
    returns (out: seq<Finding>, sheds: seq<AttestationShed>, ghost listing: seq<Finding>)
    ensures Lists(listing, MergeInto(run, ByKey(prior), snapshots).records)
    ensures out == Annotated(listing)
    ensures sheds == MergeInto(run, ByKey(prior), snapshots).sheds
  {
    var base := map[];
    for i := 0 to |prior|
      invariant base == ByKey(prior[..i])
    {
      assert prior[..i + 1][..i] == prior[..i];
      base := base[KeyOf(prior[i]) := prior[i]];
    }
    assert prior[..|prior|] == prior;
    ByKeyKeyed(prior);
    var m := Merged(base, []);
    for i := 0 to |run|
      invariant m == MergeInto(run[..i], base, snapshots)
    {
      assert run[..i + 1][..i] == run[..i];
      m := MergeFresh(run[i], m, snapshots);
    }
    assert run[..|run|] == run;
    MergeIntoKeyed(run, base, snapshots);
    var doc := ListRecords(m.records);
    listing := doc;
    out := AnnotateSelectionVerdicts(doc);
    sheds := m.sheds;
  }

  /** A whole-tree merge drops only undiscovered, unshaped records of its own selection. */
  predicate Stays(f: Finding, discovered: set<string>, selection: string) {
    f.selection != selection || f.symbol in discovered || f.shape.Some?
  }

  function Staying(doc: seq<Finding>, discovered: set<string>, selection: string): seq<Finding> {
    if doc == [] then [] else
      Staying(doc[..|doc| - 1], discovered, selection)
      + if Stays(doc[|doc| - 1], discovered, selection) then [doc[|doc| - 1]] else []
  }

  method MergeWholeFindingsForSelection(prior: seq<Finding>, run: seq<Finding>, discovered: set<string>,
          snapshots: Snapshots, selection: string)
    returns (out: seq<Finding>, sheds: seq<AttestationShed>, ghost listing: seq<Finding>)
    ensures Lists(listing, MergeInto(run, ByKey(prior), snapshots).records)
    ensures out == Annotated(Staying(Annotated(listing), discovered, selection))
    ensures sheds == MergeInto(run, ByKey(prior), snapshots).sheds
  {
    var merged;
    merged, sheds, listing := MergeFindings(prior, run, snapshots);
    var kept: seq<Finding> := [];
    for i := 0 to |merged|
      invariant kept == Staying(merged[..i], discovered, selection)
    {
      assert merged[..i + 1][..i] == merged[..i];
      if Stays(merged[i], discovered, selection) {
        kept := kept + [merged[i]];
      }
    }
    assert merged[..|merged|] == merged;
    out := AnnotateSelectionVerdicts(kept);
  }

  // ---- record by record ----

  /** The run names each record key at most once among its measured findings. */
  ghost predicate OnePerKey(run: seq<Finding>) {
    forall i, j :: 0 <= i < j < |run| && run[i].skipped == "" && run[j].skipped == "" ==> KeyOf(run[i]) != KeyOf(run[j])
  }

  /** The run's measured finding for a key. */
  function Measured(run: seq<Finding>, key: string): Option<Finding> {
    if run == [] then None else
      var f := run[|run| - 1];
      if f.skipped == "" && KeyOf(f) == key then Some(f) else Measured(run[..|run| - 1], key)
  }

  function MergedRecord(f: Finding, base: map<string, Finding>, snapshots: Snapshots): Finding {
    var key := KeyOf(f);
    if key !in base then f
    else var g := GraftOnto(base[key], f, SnapshotOf(snapshots, key)); f.(attested := g.attested, withdrawn := g.withdrawn)
  }

  lemma {:induction false} MeasuredFinds(run: seq<Finding>, key: string)
    ensures Measured(run, key).Some? ==> Measured(run, key).value in run && Measured(run, key).value.skipped == "" && KeyOf(Measured(run, key).value) == key
    ensures Measured(run, key).None? ==> forall f :: f in run && f.skipped == "" ==> KeyOf(f) != key
  {
    if run != [] {
      MeasuredFinds(run[..|run| - 1], key);
      assert run == run[..|run| - 1] + [run[|run| - 1]];
    }
  }

  lemma {:induction false} NotMeasured(run: seq<Finding>, key: string)
    requires forall i :: 0 <= i < |run| && run[i].skipped == "" ==> KeyOf(run[i]) != key
    ensures Measured(run, key).None?
  {
    if run != [] {
      NotMeasured(run[..|run| - 1], key);
    }
  }

  /** A key the run measured holds its grafted record; every other key is untouched. */
  lemma {:induction false} MergeIntoAt(run: seq<Finding>, base: map<string, Finding>, snapshots: Snapshots, key: string)
    requires OnePerKey(run)
    ensures var records := MergeInto(run, base, snapshots).records;
            match Measured(run, key)
            case Some(f) => key in records && records[key] == MergedRecord(f, base, snapshots)
            case None => (key in records <==> key in base) && (key in base ==> records[key] == base[key])
  {
    if run != [] {
      var init, f := run[..|run| - 1], run[|run| - 1];
      MergeIntoAt(init, base, snapshots, key);
      if f.skipped == "" {
        MergeIntoAt(init, base, snapshots, KeyOf(f));
        NotMeasured(init, KeyOf(f));
      }
    }
  }
}
