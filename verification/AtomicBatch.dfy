/**
 The atomic edit batch over a tree: every edit is resolved against the original files, grouped by file, and each file's
 intervals are replaced at once. Success and the replaced files are functions of the edits as a multiset.
 */
module AtomicBatch {
  import opened Wrappers
  import opened Sorting
  import opened EditBatch

  datatype BatchEdit = BatchEdit(file: string, old_: Bytes, replacement: Bytes)

  datatype Replacement = Replacement(file: string, path: string, source: Bytes)

  /** The tree: a canonical file name's resolved path, if it names a file of the tree, and a path's contents. */
  datatype Tree = Tree(resolve: string -> Option<string>, read: string -> Option<Bytes>)

  datatype BatchError =
    | NoEdits | EmptyMatch(i: nat) | Identical(i: nat) | Unresolved(i: nat) | Unreadable(i: nat) | Aliased(i: nat)
    | NoMatch(i: nat) | Ambiguous(i: nat) | Overlap(path: string) | NoChange

  function FileOf(r: Replacement): string { r.file }

  // ---- one edit ----

  predicate Resolves(t: Tree, e: BatchEdit) { t.resolve(e.file).Some? && t.read(t.resolve(e.file).value).Some? }

  function PathOf(t: Tree, e: BatchEdit): string
    requires Resolves(t, e)
  {
    t.resolve(e.file).value
  }

  function SourceOf(t: Tree, path: string): Bytes { match t.read(path) case Some(s) => s case None => [] }

  /** The edit is well formed and its pattern matches at exactly one start of its file. */
  predicate Sound(t: Tree, e: BatchEdit) {
    && e.old_ != [] && e.old_ != e.replacement && Resolves(t, e)
    && StartsFrom(SourceOf(t, PathOf(t, e)), e.old_, 0) == 1
  }

  function Entry(t: Tree, e: BatchEdit): Resolved
    requires Sound(t, e)
  {
    var s := SourceOf(t, PathOf(t, e));
    IndexFinds(s, e.old_, 0);
    var start := Index(s, e.old_, 0).value;
    Resolved(start, start + |e.old_|, e.replacement)
  }

  lemma {:induction false} SoundMatches(t: Tree, e: BatchEdit)
    requires Sound(t, e)
    ensures UniqueMatch(SourceOf(t, PathOf(t, e)), e.old_, Entry(t, e).start)
    ensures Entry(t, e).start < Entry(t, e).end <= |SourceOf(t, PathOf(t, e))| && Entry(t, e).end == Entry(t, e).start + |e.old_|
  {
    var s := SourceOf(t, PathOf(t, e));
    IndexFinds(s, e.old_, 0);
    StartsCounted(s, e.old_, 0);
    CountOneIsUnique(s, e.old_);
  }

  // ---- the batch ----

  ghost predicate AllSound(t: Tree, edits: seq<BatchEdit>) { forall e :: e in edits ==> Sound(t, e) }

  /** Two names of one file are refused. */
  ghost predicate OneName(t: Tree, edits: seq<BatchEdit>) {
    forall d, e :: d in edits && e in edits && Resolves(t, d) && Resolves(t, e) && PathOf(t, d) == PathOf(t, e) ==> d.file == e.file
  }

  /** The entries of one path, in edit order. */
  function EntriesOf(t: Tree, edits: seq<BatchEdit>, path: string): seq<Resolved>
  {
    if edits == [] then [] else
      var e := edits[|edits| - 1];
      EntriesOf(t, edits[..|edits| - 1], path) + if Sound(t, e) && PathOf(t, e) == path then [Entry(t, e)] else []
  }

  function NewSource(t: Tree, edits: seq<BatchEdit>, path: string): Bytes {
    Rewritten(SourceOf(t, path), Intervals(EntriesOf(t, edits, path)), 0)
  }

  ghost predicate Touches(t: Tree, edits: seq<BatchEdit>, file: string, path: string) {
    exists e :: e in edits && Sound(t, e) && e.file == file && PathOf(t, e) == path
  }

  /** What the batch replaces: each touched file whose simultaneous replacement differs from it. */
  ghost predicate Replaces(t: Tree, edits: seq<BatchEdit>, r: Replacement) {
    Touches(t, edits, r.file, r.path) && r.source == NewSource(t, edits, r.path) && r.source != SourceOf(t, r.path)
  }

  ghost predicate AllApart(t: Tree, edits: seq<BatchEdit>) { forall path :: Disjoint(EntriesOf(t, edits, path)) }

  ghost predicate Applicable(t: Tree, edits: seq<BatchEdit>) {
    edits != [] && AllSound(t, edits) && OneName(t, edits) && AllApart(t, edits) && exists r :: Replaces(t, edits, r)
  }

  lemma {:induction false} EntriesExact(t: Tree, edits: seq<BatchEdit>, path: string)
    ensures forall x :: x in EntriesOf(t, edits, path) <==> exists e :: e in edits && Sound(t, e) && PathOf(t, e) == path && Entry(t, e) == x
    ensures Inside(EntriesOf(t, edits, path), SourceOf(t, path))
  {
    if edits != [] {
      var init, e := edits[..|edits| - 1], edits[|edits| - 1];
      EntriesExact(t, init, path);
      assert edits == init + [e];
      assert forall d :: d in edits <==> d in init || d == e;
      if Sound(t, e) {
        SoundMatches(t, e);
      }
    }
  }

  // ---- order ----

  lemma {:induction false} EntriesConcat(t: Tree, xs: seq<BatchEdit>, ys: seq<BatchEdit>, path: string)
    ensures EntriesOf(t, xs + ys, path) == EntriesOf(t, xs, path) + EntriesOf(t, ys, path)
  {
    if ys == [] {
      assert xs + ys == xs;
    } else {
      EntriesConcat(t, xs, ys[..|ys| - 1], path);
      assert (xs + ys)[..|xs + ys| - 1] == xs + ys[..|ys| - 1];
    }
  }

  lemma {:induction false} WithoutOne(edits: seq<BatchEdit>, others: seq<BatchEdit>, i: nat)
    requires edits != [] && multiset(edits) == multiset(others) && i < |others| && others[i] == edits[|edits| - 1]
    ensures multiset(edits[..|edits| - 1]) == multiset(others[..i] + others[i + 1..])
  {
    var e := others[i];
    assert edits == edits[..|edits| - 1] + [e];
    assert others == others[..i] + [e] + others[i + 1..];
    assert multiset(edits[..|edits| - 1]) == multiset(edits) - multiset{e};
    assert multiset(others[..i] + others[i + 1..]) == multiset(others) - multiset{e};
  }

  lemma {:induction false} EntriesSame(t: Tree, edits: seq<BatchEdit>, others: seq<BatchEdit>, path: string)
    requires multiset(edits) == multiset(others)
    ensures multiset(EntriesOf(t, edits, path)) == multiset(EntriesOf(t, others, path))
    decreases |edits|
  {
    if edits == [] {
      assert |multiset(edits)| == |multiset(others)|;
    } else {
      var n := |edits| - 1;
      var e := edits[n];
      assert e in multiset(edits);
      assert e in others;
      var i :| 0 <= i < |others| && others[i] == e;
      var before, after := others[..i], others[i + 1..];
      WithoutOne(edits, others, i);
      EntriesSame(t, edits[..n], before + after, path);
      SplitAt(edits, n);
      SplitAt(others, i);
      assert edits == edits[..n] + [e];
      EntriesConcat(t, edits[..n], [e], path);
      EntriesConcat(t, before, after, path);
      EntriesConcat(t, [e], after, path);
      EntriesConcat(t, before, [e] + after, path);
      MovedAside(EntriesOf(t, edits[..n], path), EntriesOf(t, before, path), EntriesOf(t, [e], path), EntriesOf(t, after, path));
    }
  }

  lemma {:induction false} SplitAt<T>(xs: seq<T>, i: nat)
    requires i < |xs|
    ensures xs == xs[..i] + ([xs[i]] + xs[i + 1..])
  {
  }

  lemma {:induction false} MovedAside<T>(rest: seq<T>, before: seq<T>, one: seq<T>, after: seq<T>)
    requires multiset(rest) == multiset(before + after)
    ensures multiset(rest + one) == multiset(before + (one + after))
  {
  }

  lemma {:induction false} SameMembers(edits: seq<BatchEdit>, others: seq<BatchEdit>)
    requires multiset(edits) == multiset(others)
    ensures forall e :: e in edits <==> e in others
    ensures edits == [] <==> others == []
  {
    forall e ensures e in edits <==> e in others {
      assert e in multiset(edits) <==> e in multiset(others);
    }
    assert |multiset(edits)| == |multiset(others)|;
  }

  lemma {:induction false} SameSource(t: Tree, edits: seq<BatchEdit>, others: seq<BatchEdit>, path: string)
    requires multiset(edits) == multiset(others) && Disjoint(EntriesOf(t, edits, path))
    ensures Disjoint(EntriesOf(t, others, path)) && NewSource(t, edits, path) == NewSource(t, others, path)
  {
    var a, b, s := EntriesOf(t, edits, path), EntriesOf(t, others, path), SourceOf(t, path);
    EntriesSame(t, edits, others, path);
    EntriesExact(t, edits, path);
    EntriesExact(t, others, path);
    DisjointSame(a, b, s);
    forall x ensures x in a <==> x in b {
      assert x in multiset(a) <==> x in multiset(b);
    }
    SameIntervals(a, b, s);
  }

  lemma {:induction false} ReplacesSame(t: Tree, edits: seq<BatchEdit>, others: seq<BatchEdit>)
    requires multiset(edits) == multiset(others) && AllApart(t, edits)
    ensures AllApart(t, others) && forall r :: Replaces(t, edits, r) <==> Replaces(t, others, r)
  {
    SameMembers(edits, others);
    forall path ensures Disjoint(EntriesOf(t, others, path)) && NewSource(t, edits, path) == NewSource(t, others, path) {
      SameSource(t, edits, others, path);
    }
  }

  /** Success does not depend on the edits' order, nor does what is replaced. */
  lemma {:induction false} OrderIrrelevant(t: Tree, edits: seq<BatchEdit>, others: seq<BatchEdit>)
    requires multiset(edits) == multiset(others)
    ensures Applicable(t, edits) <==> Applicable(t, others)
    ensures Applicable(t, edits) ==> forall r :: Replaces(t, edits, r) <==> Replaces(t, others, r)
  {
    SameMembers(edits, others);
    if AllApart(t, edits) {
      ReplacesSame(t, edits, others);
    }
    if AllApart(t, others) {
      ReplacesSame(t, others, edits);
    }
  }

  /** The output as a list is fixed by what it replaces. */
  lemma {:induction false} OutputUnique(t: Tree, edits: seq<BatchEdit>, others: seq<BatchEdit>, a: seq<Replacement>,
          b: seq<Replacement>)
    requires multiset(edits) == multiset(others) && Applicable(t, edits)
    requires StrictlyAscending(a, FileOf) && StrictlyAscending(b, FileOf)
    requires (forall r :: r in a <==> Replaces(t, edits, r)) && forall r :: r in b <==> Replaces(t, others, r)
    ensures a == b
  {
    OrderIrrelevant(t, edits, others);
    SortedUnique(a, b, FileOf);
  }

  // ---- resolution ----

  datatype Group = Group(file: string, source: Bytes, entries: seq<Resolved>)

  /** The groups after the first n edits: one per touched path, its name, its original and its entries. */
  ghost predicate Grouped(t: Tree, edits: seq<BatchEdit>, groups: map<string, Group>) {
    && (forall path :: path in groups ==> GroupFits(t, edits, groups[path], path))
    && forall e :: e in edits ==> Covered(t, groups, e)
  }

  ghost predicate GroupFits(t: Tree, edits: seq<BatchEdit>, g: Group, path: string) {
    Touches(t, edits, g.file, path) && g.source == SourceOf(t, path) && g.entries == EntriesOf(t, edits, path)
  }

  predicate Covered(t: Tree, groups: map<string, Group>, e: BatchEdit) {
    Sound(t, e) ==> PathOf(t, e) in groups && groups[PathOf(t, e)].file == e.file
  }

  lemma {:induction false} GroupNext(t: Tree, edits: seq<BatchEdit>, n: nat, groups: map<string, Group>)
    requires n < |edits| && AllSound(t, edits[..n]) && Grouped(t, edits[..n], groups) && Sound(t, edits[n])
    requires var path := PathOf(t, edits[n]); path in groups ==> groups[path].file == edits[n].file
    ensures var e := edits[n]; var path := PathOf(t, e);
            var was := if path in groups then groups[path].entries else [];
            Grouped(t, edits[..n + 1], groups[path := Group(e.file, SourceOf(t, path), was + [Entry(t, e)])])
  {
    var e, next := edits[n], edits[..n + 1];
    var path := PathOf(t, e);
    var was := if path in groups then groups[path].entries else [];
    var groups' := groups[path := Group(e.file, SourceOf(t, path), was + [Entry(t, e)])];
    assert next == edits[..n] + [e];
    GroupGrows(t, edits[..n], e, groups);
    forall p | p in groups' ensures GroupFits(t, next, groups'[p], p) {
      if p != path {
        GroupStays(t, edits[..n], e, groups[p], p);
      }
    }
    forall d | d in next ensures Covered(t, groups', d) {
      assert d in edits[..n] || d == e;
      assert d in edits[..n] ==> Covered(t, groups, d);
    }
  }

  lemma {:induction false} GroupGrows(t: Tree, edits: seq<BatchEdit>, e: BatchEdit, groups: map<string, Group>)
    requires AllSound(t, edits) && Grouped(t, edits, groups) && Sound(t, e)
    ensures var was := if PathOf(t, e) in groups then groups[PathOf(t, e)].entries else [];
            GroupFits(t, edits + [e], Group(e.file, SourceOf(t, PathOf(t, e)), was + [Entry(t, e)]), PathOf(t, e))
  {
    var path := PathOf(t, e);
    if path in groups {
      assert GroupFits(t, edits, groups[path], path);
    } else {
      forall d | d in edits && Sound(t, d) ensures PathOf(t, d) != path {
        assert Covered(t, groups, d);
      }
      NoEntries(t, edits, path);
    }
    EntriesNext(t, edits, e, path);
    assert e in edits + [e];
  }

  lemma {:induction false} GroupStays(t: Tree, edits: seq<BatchEdit>, e: BatchEdit, g: Group, p: string)
    requires GroupFits(t, edits, g, p) && Sound(t, e) && PathOf(t, e) != p
    ensures GroupFits(t, edits + [e], g, p)
  {
    EntriesNext(t, edits, e, p);
    TouchesNext(t, edits, e, g.file, p);
  }

  lemma {:induction false} EntriesNext(t: Tree, edits: seq<BatchEdit>, e: BatchEdit, p: string)
    requires Sound(t, e)
    ensures EntriesOf(t, edits + [e], p) == EntriesOf(t, edits, p) + if p == PathOf(t, e) then [Entry(t, e)] else []
  {
    assert (edits + [e])[..|edits|] == edits;
  }

  lemma {:induction false} TouchesNext(t: Tree, edits: seq<BatchEdit>, e: BatchEdit, file: string, p: string)
    requires Touches(t, edits, file, p)
    ensures Touches(t, edits + [e], file, p)
  {
    var d :| d in edits && Sound(t, d) && d.file == file && PathOf(t, d) == p;
    assert d in edits + [e];
  }

  lemma {:induction false} NoEntries(t: Tree, edits: seq<BatchEdit>, path: string)
    requires forall e :: e in edits && Sound(t, e) ==> PathOf(t, e) != path
    ensures EntriesOf(t, edits, path) == []
  {
    if edits != [] {
      assert edits[|edits| - 1] in edits;
      NoEntries(t, edits[..|edits| - 1], path);
    }
  }

  /** One edit of the batch against the original of its file. */
  method ResolveOne(t: Tree, edits: seq<BatchEdit>, i: nat,
          groups: map<string, Group>) returns (r: Result<map<string, Group>, BatchError>)
    requires i < |edits| && AllSound(t, edits[..i]) && Grouped(t, edits[..i], groups)
    ensures r.Ok? ==> Sound(t, edits[i]) && Grouped(t, edits[..i + 1], r.value)
    ensures r.Err? ==> !Sound(t, edits[i]) || !OneName(t, edits)
  {
    var e := edits[i];
    if e.old_ == [] {
      return Err(BatchError.EmptyMatch(i));
    }
    if e.old_ == e.replacement {
      return Err(Identical(i));
    }
    if t.resolve(e.file).None? {
      return Err(Unresolved(i));
    }
    var path := t.resolve(e.file).value;
    if t.read(path).None? {
      return Err(Unreadable(i));
    }
    if path in groups && groups[path].file != e.file {
      AliasFound(t, edits, i, groups);
      return Err(Aliased(i));
    }
    var source := t.read(path).value;
    var matched := MatchOnce(source, e, i);
    if matched.Err? {
      return Err(matched.error);
    }
    GroupNext(t, edits, i, groups);
    var was := if path in groups then groups[path].entries else [];
    assert matched.value == Entry(t, e);
    r := Ok(groups[path := Group(e.file, source, was + [matched.value])]);
  }

  /** The interval an edit matches in one file, refused unless its match counter reads one. */
  method MatchOnce(source: Bytes, e: BatchEdit, i: nat) returns (r: Result<Resolved, BatchError>)
    requires e.old_ != []
    ensures r.Ok? <==> StartsFrom(source, e.old_, 0) == 1
    ensures r.Ok? ==> var start := Index(source, e.old_, 0); start.Some? && r.value == Resolved(start.value, start.value + |e.old_|, e.replacement)
    ensures r.Err? ==> r.error == if StartsFrom(source, e.old_, 0) == 0 then BatchError.NoMatch(i) else BatchError.Ambiguous(i)
  {
    var count := OverlappingMatchStarts(source, e.old_);
    StartsCounted(source, e.old_, 0);
    if count != 1 {
      return Err(if count == 0 then BatchError.NoMatch(i) else BatchError.Ambiguous(i));
    }
    IndexFinds(source, e.old_, 0);
    var start := Index(source, e.old_, 0).value;
    r := Ok(Resolved(start, start + |e.old_|, e.replacement));
  }

  lemma {:induction false} AliasFound(t: Tree, edits: seq<BatchEdit>, i: nat, groups: map<string, Group>)
    requires i < |edits| && Grouped(t, edits[..i], groups) && Resolves(t, edits[i])
    requires PathOf(t, edits[i]) in groups && groups[PathOf(t, edits[i])].file != edits[i].file
    ensures !OneName(t, edits)
  {
    var path := PathOf(t, edits[i]);
    assert GroupFits(t, edits[..i], groups[path], path);
    var d :| d in edits[..i] && Sound(t, d) && d.file == groups[path].file && PathOf(t, d) == path;
    assert d in edits && edits[i] in edits;
  }

  method ResolveAll(t: Tree, edits: seq<BatchEdit>) returns (r: Result<map<string, Group>, BatchError>)
    ensures r.Ok? <==> AllSound(t, edits) && OneName(t, edits)
    ensures r.Ok? ==> Grouped(t, edits, r.value)
  {
    var groups: map<string, Group> := map[];
    for i := 0 to |edits|
      invariant AllSound(t, edits[..i]) && Grouped(t, edits[..i], groups)
    {
      assert edits[..i + 1] == edits[..i] + [edits[i]];
      assert edits[i] in edits;
      var one := ResolveOne(t, edits, i, groups);
      if one.Err? {
        return one;
      }
      groups := one.value;
    }
    assert edits[..|edits|] == edits;
    r := Ok(groups);
  }

  // ---- replacement ----

  ghost predicate Written(t: Tree, edits: seq<BatchEdit>, groups: map<string, Group>, pending: set<string>,
          out: seq<Replacement>) {
    && (forall r :: r in out <==> r.path in groups && r.path !in pending && r.file == groups[r.path].file
                                  && r.source == NewSource(t, edits, r.path) && r.source != SourceOf(t, r.path))
    && DistinctKeys(out, FileOf)
    && forall path :: path in groups && path !in pending ==> Disjoint(EntriesOf(t, edits, path))
  }

  lemma {:induction false} GroupNames(t: Tree, edits: seq<BatchEdit>, groups: map<string, Group>, p: string, q: string)
    requires Grouped(t, edits, groups) && p in groups && q in groups && groups[p].file == groups[q].file
    ensures p == q
  {
    assert GroupFits(t, edits, groups[p], p) && GroupFits(t, edits, groups[q], q);
  }

  method ReplaceGroup(t: Tree, edits: seq<BatchEdit>, groups: map<string, Group>, pending: set<string>, path: string,
          out: seq<Replacement>)
    returns (r: Result<seq<Replacement>, BatchError>)
    requires Grouped(t, edits, groups) && Written(t, edits, groups, pending, out) && path in groups && path in pending
    ensures r.Ok? ==> Written(t, edits, groups, pending - {path}, r.value)
    ensures r.Err? ==> !AllApart(t, edits)
  {
    var g := groups[path];
    assert GroupFits(t, edits, g, path);
    EntriesExact(t, edits, path);
    var replaced := ReplaceAll(g.source, g.entries);
    if replaced.None? {
      return Err(Overlap(path));
    }
    if replaced.value == g.source {
      return Ok(out);
    }
    forall k | 0 <= k < |out| ensures out[k].file != g.file {
      assert out[k] in out;
      if out[k].file == g.file {
        GroupNames(t, edits, groups, out[k].path, path);
      }
    }
    r := Ok(out + [Replacement(g.file, path, replaced.value)]);
    assert forall x :: x in r.value <==> x in out || x == Replacement(g.file, path, replaced.value);
  }

  method ReplaceGroups(t: Tree, edits: seq<BatchEdit>,
          groups: map<string, Group>) returns (r: Result<seq<Replacement>, BatchError>)
    requires Grouped(t, edits, groups)
    ensures r.Ok? <==> AllApart(t, edits)
    ensures r.Ok? ==> Written(t, edits, groups, {}, r.value)
  {
    var pending, out := groups.Keys, [];
    while pending != {}
      invariant pending <= groups.Keys && Written(t, edits, groups, pending, out)
      decreases pending
    {
      var path :| path in pending;
      var one := ReplaceGroup(t, edits, groups, pending, path, out);
      if one.Err? {
        return one;
      }
      pending, out := pending - {path}, one.value;
    }
    forall path ensures Disjoint(EntriesOf(t, edits, path)) {
      if path !in groups {
        NoEntries(t, edits, path);
      }
    }
    r := Ok(out);
  }

  lemma {:induction false} WrittenAll(t: Tree, edits: seq<BatchEdit>, groups: map<string, Group>, out: seq<Replacement>)
    requires AllSound(t, edits) && Grouped(t, edits, groups) && Written(t, edits, groups, {}, out)
    ensures forall r :: r in out <==> Replaces(t, edits, r)
  {
    forall r ensures r in out <==> Replaces(t, edits, r) {
      if r in out {
        assert GroupFits(t, edits, groups[r.path], r.path);
      }
      if Replaces(t, edits, r) {
        var e :| e in edits && Sound(t, e) && e.file == r.file && PathOf(t, e) == r.path;
        assert Covered(t, groups, e);
      }
    }
  }

  /**
   The batch: refused exactly when an edit is unsound, a file has two names, intervals overlap or nothing changes;
   otherwise the changed files, by name, each its simultaneous replacement of the original.
   */
  method PrepareEditBatch(t: Tree, edits: seq<BatchEdit>) returns (r: Result<seq<Replacement>, BatchError>)
    ensures r.Ok? <==> Applicable(t, edits)
    ensures r.Ok? ==> StrictlyAscending(r.value, FileOf) && forall x :: x in r.value <==> Replaces(t, edits, x)
  {
    if edits == [] {
      return Err(BatchError.NoEdits);
    }
    var groups := ResolveAll(t, edits);
    if groups.Err? {
      return Err(groups.error);
    }
    r := ReplaceGroups(t, edits, groups.value);
    if r.Err? {
      return;
    }
    var out := r.value;
    WrittenAll(t, edits, groups.value, out);
    if out == [] {
      return Err(NoChange);
    }
    assert out[0] in out;
    SortByMembers(out, FileOf);
    SortByStrict(out, FileOf);
    r := Ok(SortBy(out, FileOf));
  }
}
