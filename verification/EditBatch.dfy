/**
 Edits of source files by exact match. A batch resolves every edit against the original files and replaces the matched
 intervals at once; an edit list applies one after another. A match is unique only if no other start matches, overlap included.
 */
module EditBatch {
  import opened Wrappers
  import opened Sorting

  type Bytes = seq<bv8>

  // ---- matches ----

  predicate MatchesAt(s: Bytes, pattern: Bytes, i: nat) { i + |pattern| <= |s| && s[i..i + |pattern|] == pattern }

  /** strings.Index from an offset. */
  function Index(s: Bytes, pattern: Bytes, from: nat): Option<nat>
    decreases |s| - from
  {
    if from + |pattern| > |s| then None else if MatchesAt(s, pattern, from) then Some(from) else Index(s, pattern, from + 1)
  }

  /** How many start positions from an offset on match. */
  function StartsFrom(s: Bytes, pattern: Bytes, from: nat): nat
    decreases |s| - from
  {
    if from + |pattern| > |s| then 0 else (if MatchesAt(s, pattern, from) then 1 else 0) + StartsFrom(s, pattern, from + 1)
  }

  ghost function StartSet(s: Bytes, pattern: Bytes, from: nat): set<nat> {
    set i: nat | from <= i <= |s| && MatchesAt(s, pattern, i)
  }

  lemma {:induction false} StartsCounted(s: Bytes, pattern: Bytes, from: nat)
    ensures StartsFrom(s, pattern, from) == |StartSet(s, pattern, from)|
    decreases |s| - from
  {
    if from + |pattern| > |s| {
      assert StartSet(s, pattern, from) == {};
    } else {
      StartsCounted(s, pattern, from + 1);
      var rest := StartSet(s, pattern, from + 1);
      if MatchesAt(s, pattern, from) {
        assert StartSet(s, pattern, from) == rest + {from};
      } else {
        assert StartSet(s, pattern, from) == rest;
      }
    }
  }

  lemma {:induction false} IndexFinds(s: Bytes, pattern: Bytes, from: nat)
    ensures match Index(s, pattern, from)
            case None => StartsFrom(s, pattern, from) == 0 && forall i :: i >= from ==> !MatchesAt(s, pattern, i)
            case Some(i) => from <= i && MatchesAt(s, pattern, i) && (forall j :: from <= j < i ==> !MatchesAt(s, pattern, j))
                            && StartsFrom(s, pattern, from) == 1 + StartsFrom(s, pattern, i + 1)
    decreases |s| - from
  {
    if from + |pattern| <= |s| && !MatchesAt(s, pattern, from) {
      IndexFinds(s, pattern, from + 1);
    }
  }

  /** The match counter counts every start position, overlapping ones included; an empty pattern counts none. */
  method OverlappingMatchStarts(s: Bytes, pattern: Bytes) returns (count: nat)
    ensures count == if pattern == [] then 0 else |StartSet(s, pattern, 0)|
  {
    if pattern == [] {
      return 0;
    }
    StartsCounted(s, pattern, 0);
    count := 0;
    var from := 0;
    while true
      invariant count + StartsFrom(s, pattern, from) == |StartSet(s, pattern, 0)|
      invariant from <= |s| + 1
      decreases |s| + 1 - from
    {
      IndexFinds(s, pattern, from);
      var i := Index(s, pattern, from);
      if i.None? {
        return count;
      }
      count := count + 1;
      from := i.value + 1;
    }
  }

  /** The pattern matches at exactly one start. */
  ghost predicate UniqueMatch(s: Bytes, pattern: Bytes, start: nat) {
    MatchesAt(s, pattern, start) && forall i: nat :: MatchesAt(s, pattern, i) ==> i == start
  }

  lemma {:induction false} CountOneIsUnique(s: Bytes, pattern: Bytes)
    requires pattern != []
    ensures |StartSet(s, pattern, 0)| == 1 <==> Index(s, pattern, 0).Some? && UniqueMatch(s, pattern, Index(s, pattern, 0).value)
  {
    StartsCounted(s, pattern, 0);
    IndexFinds(s, pattern, 0);
    if Index(s, pattern, 0).Some? {
      var i := Index(s, pattern, 0).value;
      IndexFinds(s, pattern, i + 1);
      if |StartSet(s, pattern, 0)| == 1 {
        forall j: nat | MatchesAt(s, pattern, j) ensures j == i {
        }
      }
    }
  }

  // ---- an edit list, applied in order ----

  datatype Edit = Edit(old_: Bytes, replacement: Bytes)

  datatype EditError = NoEdits | EmptyMatch(i: nat) | NoMatch(i: nat) | Ambiguous(i: nat)

  function Replace(s: Bytes, old_: Bytes, replacement: Bytes, start: nat): Bytes
    requires start + |old_| <= |s|
  {
    s[..start] + replacement + s[start + |old_|..]
  }

  /** One edit over the text the earlier ones left. */
  function AppliedOne(s: Bytes, e: Edit, i: nat): Result<Bytes, EditError> {
    if e.old_ == [] then Err(EmptyMatch(i))
    else if StartsFrom(s, e.old_, 0) == 0 then Err(NoMatch(i))
    else if StartsFrom(s, e.old_, 0) > 1 then Err(Ambiguous(i))
    else
      IndexFinds(s, e.old_, 0);
      Ok(Replace(s, e.old_, e.replacement, Index(s, e.old_, 0).value))
  }

  function AppliedAll(src: Bytes, edits: seq<Edit>): Result<Bytes, EditError> {
    if edits == [] then Ok(src) else
      match AppliedAll(src, edits[..|edits| - 1])
      case Err(e) => Err(e)
      case Ok(s) => AppliedOne(s, edits[|edits| - 1], |edits| - 1)
  }

  lemma {:induction false} AppliedRefused(src: Bytes, edits: seq<Edit>, n: nat)
    requires n <= |edits| && AppliedAll(src, edits[..n]).Err?
    ensures AppliedAll(src, edits) == AppliedAll(src, edits[..n])
    decreases |edits|
  {
    if n == |edits| {
      assert edits[..n] == edits;
    } else {
      assert edits[..|edits| - 1][..n] == edits[..n];
      AppliedRefused(src, edits[..|edits| - 1], n);
    }
  }

  method ApplyEdits(src: Bytes, edits: seq<Edit>) returns (r: Result<Bytes, EditError>)
    ensures r == if edits == [] then Err(NoEdits) else AppliedAll(src, edits)
  {
    if edits == [] {
      return Err(NoEdits);
    }
    var out := src;
    for i := 0 to |edits|
      invariant AppliedAll(src, edits[..i]) == Ok(out)
    {
      assert edits[..i + 1][..i] == edits[..i];
      var e := edits[i];
      if e.old_ == [] {
        AppliedRefused(src, edits, i + 1);
        return Err(EmptyMatch(i));
      }
      var n := OverlappingMatchStarts(out, e.old_);
      StartsCounted(out, e.old_, 0);
      if n == 0 {
        AppliedRefused(src, edits, i + 1);
        return Err(NoMatch(i));
      }
      if n > 1 {
        AppliedRefused(src, edits, i + 1);
        return Err(Ambiguous(i));
      }
      IndexFinds(out, e.old_, 0);
      out := Replace(out, e.old_, e.replacement, Index(out, e.old_, 0).value);
    }
    assert edits[..|edits|] == edits;
    r := Ok(out);
  }

  /** Each edit of a list lands exactly where its pattern uniquely matches, or the list is refused. */
  lemma {:induction false} AppliedOneMeans(s: Bytes, e: Edit, i: nat)
    ensures AppliedOne(s, e, i).Ok? <==> e.old_ != [] && exists start: nat :: UniqueMatch(s, e.old_, start)
    ensures AppliedOne(s, e, i).Ok? ==> forall start: nat :: UniqueMatch(s, e.old_, start) ==>
              AppliedOne(s, e, i).value == Replace(s, e.old_, e.replacement, start)
  {
    if e.old_ != [] {
      StartsCounted(s, e.old_, 0);
      CountOneIsUnique(s, e.old_);
      IndexFinds(s, e.old_, 0);
    }
  }

  // ---- simultaneous replacement ----

  /** A matched interval and its replacement. */
  datatype Resolved = Resolved(start: nat, end: nat, text: Bytes)

  predicate Apart(a: Resolved, b: Resolved) { a.end <= b.start || b.end <= a.start }

  ghost predicate Disjoint(entries: seq<Resolved>) {
    forall i, j :: 0 <= i < j < |entries| ==> Apart(entries[i], entries[j])
  }

  lemma {:induction false} DisjointAt(entries: seq<Resolved>, i: nat, j: nat)
    requires Disjoint(entries) && i < |entries| && j < |entries| && i != j
    ensures Apart(entries[i], entries[j])
  {
    if j < i {
      assert Apart(entries[j], entries[i]);
    }
  }

  ghost predicate Inside(entries: seq<Resolved>, s: Bytes) { forall e :: e in entries ==> e.start < e.end <= |s| }

  /** The intervals by start. */
  function Intervals(entries: seq<Resolved>): map<nat, Resolved> {
    if entries == [] then map[] else Intervals(entries[..|entries| - 1])[entries[|entries| - 1].start := entries[|entries| - 1]]
  }

  /** One pass over the original: at an interval its replacement, elsewhere the byte itself. */
  function Rewritten(s: Bytes, at: map<nat, Resolved>, i: nat): Bytes
    decreases |s| - i
  {
    if i >= |s| then []
    else if i in at && i < at[i].end then at[i].text + Rewritten(s, at, at[i].end)
    else [s[i]] + Rewritten(s, at, i + 1)
  }

  lemma {:induction false} IntervalsExact(entries: seq<Resolved>, st: nat)
    ensures st in Intervals(entries) <==> exists e :: e in entries && e.start == st
    ensures st in Intervals(entries) ==> Intervals(entries)[st] in entries && Intervals(entries)[st].start == st
  {
    if entries != [] {
      IntervalsExact(entries[..|entries| - 1], st);
      assert entries == entries[..|entries| - 1] + [entries[|entries| - 1]];
    }
  }

  /** Disjoint non-empty intervals of one start are one interval. */
  lemma {:induction false} SameStartSame(entries: seq<Resolved>, s: Bytes, e: Resolved, d: Resolved)
    requires Disjoint(entries) && Inside(entries, s) && e in entries && d in entries && e.start == d.start
    ensures e == d
  {
    var i :| 0 <= i < |entries| && entries[i] == e;
    var j :| 0 <= j < |entries| && entries[j] == d;
    forall p: nat, q: nat | p < |entries| && q < |entries| && p != q ensures Apart(entries[p], entries[q]) {
      DisjointAt(entries, p, q);
    }
  }

  lemma {:induction false} IntervalsHold(entries: seq<Resolved>, s: Bytes, e: Resolved)
    requires Disjoint(entries) && Inside(entries, s) && e in entries
    ensures e.start in Intervals(entries) && Intervals(entries)[e.start] == e
  {
    IntervalsExact(entries, e.start);
    SameStartSame(entries, s, e, Intervals(entries)[e.start]);
  }

  /** Bytes between intervals are copied through. */
  lemma {:induction false} CopyThrough(s: Bytes, at: map<nat, Resolved>, i: nat, j: nat)
    requires i <= j <= |s| && forall k :: i <= k < j ==> k !in at
    ensures Rewritten(s, at, i) == s[i..j] + Rewritten(s, at, j)
    decreases j - i
  {
    if i < j {
      CopyThrough(s, at, i + 1, j);
      assert s[i..j] == [s[i]] + s[i + 1..j];
    }
  }

  /** Where a byte outside every interval lands. */
  function Landing(s: Bytes, at: map<nat, Resolved>, i: nat, k: nat): nat
    decreases k - i
  {
    if i >= k then 0
    else if i in at && i < at[i].end then |at[i].text| + Landing(s, at, at[i].end, k)
    else 1 + Landing(s, at, i + 1, k)
  }

  ghost predicate Outside(at: map<nat, Resolved>, k: nat) { forall st :: st in at ==> !(st <= k < at[st].end) }

  lemma {:induction false} Shifted(prefix: Bytes, rest: Bytes, k: nat)
    requires k < |rest|
    ensures (prefix + rest)[|prefix| + k] == rest[k]
  {
  }

  /** The byte stands in the rewrite where it lands. */
  predicate Lands(s: Bytes, at: map<nat, Resolved>, i: nat, k: nat)
    requires k < |s|
  {
    Landing(s, at, i, k) < |Rewritten(s, at, i)| && Rewritten(s, at, i)[Landing(s, at, i, k)] == s[k]
  }

  lemma {:induction false} LandsPast(s: Bytes, at: map<nat, Resolved>, i: nat, k: nat)
    requires k < |s| && i in at && i < at[i].end <= k && Lands(s, at, at[i].end, k)
    ensures Lands(s, at, i, k)
  {
    Shifted(at[i].text, Rewritten(s, at, at[i].end), Landing(s, at, at[i].end, k));
  }

  lemma {:induction false} LandsNext(s: Bytes, at: map<nat, Resolved>, i: nat, k: nat)
    requires i < k < |s| && !(i in at && i < at[i].end) && Lands(s, at, i + 1, k)
    ensures Lands(s, at, i, k)
  {
    Shifted([s[i]], Rewritten(s, at, i + 1), Landing(s, at, i + 1, k));
  }

  /** Every byte outside the intervals survives, and any two keep their order. */
  lemma {:induction false} BytesSurvive(s: Bytes, at: map<nat, Resolved>, i: nat, k: nat)
    requires i <= k < |s| && Outside(at, k)
    ensures Lands(s, at, i, k)
    decreases k - i
  {
    if i in at && i < at[i].end {
      BytesSurvive(s, at, at[i].end, k);
      LandsPast(s, at, i, k);
    } else if i < k {
      BytesSurvive(s, at, i + 1, k);
      LandsNext(s, at, i, k);
    }
  }

  lemma {:induction false} OrderSurvives(s: Bytes, at: map<nat, Resolved>, i: nat, k: nat, k': nat)
    requires i <= k < k' < |s| && Outside(at, k) && Outside(at, k')
    ensures Landing(s, at, i, k) < Landing(s, at, i, k')
    decreases k - i
  {
    if i in at && i < at[i].end {
      OrderSurvives(s, at, at[i].end, k, k');
    } else if i < k {
      OrderSurvives(s, at, i + 1, k, k');
    }
  }

  // ---- entries in start order ----

  function InsertByStart(e: Resolved, sorted: seq<Resolved>): seq<Resolved> {
    if sorted == [] || e.start <= sorted[0].start then [e] + sorted else [sorted[0]] + InsertByStart(e, sorted[1..])
  }

  /** sort.Slice by start; entries of one start are in no fixed order, and overlap anyway. */
  function SortByStart(entries: seq<Resolved>): seq<Resolved> {
    if entries == [] then [] else InsertByStart(entries[0], SortByStart(entries[1..]))
  }

  ghost predicate StartsAscend(entries: seq<Resolved>) { forall i, j :: 0 <= i < j < |entries| ==> entries[i].start <= entries[j].start }

  lemma {:induction false} InsertKeeps(e: Resolved, sorted: seq<Resolved>)
    ensures multiset(InsertByStart(e, sorted)) == multiset{e} + multiset(sorted)
  {
    if sorted != [] {
      InsertKeeps(e, sorted[1..]);
      assert sorted == [sorted[0]] + sorted[1..];
    }
  }

  lemma {:induction false} InsertSorts(e: Resolved, sorted: seq<Resolved>)
    requires StartsAscend(sorted)
    ensures StartsAscend(InsertByStart(e, sorted))
  {
    if sorted != [] && e.start > sorted[0].start {
      InsertSorts(e, sorted[1..]);
      InsertAbove(e, sorted[1..], sorted[0].start);
      ConsAscends(sorted[0], InsertByStart(e, sorted[1..]));
    }
  }

  lemma {:induction false} InsertAbove(e: Resolved, sorted: seq<Resolved>, bound: nat)
    requires bound <= e.start && forall j :: 0 <= j < |sorted| ==> bound <= sorted[j].start
    ensures forall d :: d in InsertByStart(e, sorted) ==> bound <= d.start
  {
    InsertKeeps(e, sorted);
    forall d | d in InsertByStart(e, sorted) ensures bound <= d.start {
      assert d in multiset(InsertByStart(e, sorted));
    }
  }

  lemma {:induction false} ConsAscends(first: Resolved, rest: seq<Resolved>)
    requires StartsAscend(rest) && forall d :: d in rest ==> first.start <= d.start
    ensures StartsAscend([first] + rest)
  {
  }

  lemma {:induction false} SortSorts(entries: seq<Resolved>)
    ensures StartsAscend(SortByStart(entries)) && multiset(SortByStart(entries)) == multiset(entries)
    ensures |SortByStart(entries)| == |entries| && forall e :: e in SortByStart(entries) <==> e in entries
  {
    if entries != [] {
      SortSorts(entries[1..]);
      InsertSorts(entries[0], SortByStart(entries[1..]));
      InsertKeeps(entries[0], SortByStart(entries[1..]));
      assert entries == [entries[0]] + entries[1..];
    }
    SameMembers(SortByStart(entries), entries);
  }

  lemma {:induction false} SameMembers(a: seq<Resolved>, b: seq<Resolved>)
    requires multiset(a) == multiset(b)
    ensures |a| == |b| && forall e :: e in a <==> e in b
  {
    assert |multiset(a)| == |multiset(b)|;
    forall e ensures e in a <==> e in b {
      assert e in multiset(a) <==> e in multiset(b);
    }
  }

  /** Disjointness speaks of the entries as a multiset: none twice, any two different apart. */
  lemma {:induction false} DisjointSame(a: seq<Resolved>, b: seq<Resolved>, s: Bytes)
    requires multiset(a) == multiset(b) && Inside(a, s) && Disjoint(a)
    ensures Disjoint(b)
  {
    forall i, j | 0 <= i < j < |b| ensures Apart(b[i], b[j]) {
      assert b[i] in multiset(b) && b[j] in multiset(b);
      assert b[i] in a && b[j] in a;
      var p :| 0 <= p < |a| && a[p] == b[i];
      var q :| 0 <= q < |a| && a[q] == b[j];
      if p == q {
        TwiceInB(b, i, j);
        TwiceInA(a, p);
      } else {
        DisjointAt(a, p, q);
      }
    }
  }

  lemma {:induction false} TwiceInB(b: seq<Resolved>, i: nat, j: nat)
    requires i < j < |b| && b[i] == b[j]
    ensures multiset(b)[b[i]] >= 2
  {
    assert b == b[..i] + [b[i]] + b[i + 1..j] + [b[j]] + b[j + 1..];
  }

  /** A disjoint list of non-empty intervals holds each once. */
  lemma {:induction false} TwiceInA(a: seq<Resolved>, p: nat)
    requires p < |a| && Disjoint(a) && a[p].start < a[p].end
    ensures multiset(a)[a[p]] == 1
  {
    forall k | 0 <= k < |a| && k != p ensures a[k] != a[p] {
      DisjointAt(a, k, p);
    }
    assert a == a[..p] + [a[p]] + a[p + 1..];
    assert a[p] !in a[..p] && a[p] !in a[p + 1..];
  }

  // ---- one file ----

  function Between(s: Bytes, i: nat, j: nat): Bytes { if i <= j <= |s| then s[i..j] else [] }

  /** The buffer and its cursor after n entries; None once an entry starts before the cursor. */
  function Emitted(s: Bytes, sorted: seq<Resolved>, n: nat): Option<(Bytes, nat)>
    requires n <= |sorted|
  {
    if n == 0 then Some(([], 0)) else
      match Emitted(s, sorted, n - 1)
      case None => None
      case Some((out, cursor)) =>
        var e := sorted[n - 1];
        if e.start < cursor then None else Some((out + Between(s, cursor, e.start) + e.text, e.end))
  }

  lemma {:induction false} EmittedNone(s: Bytes, sorted: seq<Resolved>, i: nat, n: nat)
    requires i <= n <= |sorted| && Emitted(s, sorted, i).None?
    ensures Emitted(s, sorted, n).None?
  {
    if i < n {
      EmittedNone(s, sorted, i, n - 1);
    }
  }

  /** The buffer with a moving cursor writes the simultaneous replacement, and refuses exactly overlapping intervals. */
  method ReplaceAll(s: Bytes, entries: seq<Resolved>) returns (r: Option<Bytes>)
    requires Inside(entries, s)
    ensures r.Some? <==> Disjoint(entries)
    ensures r.Some? ==> r.value == Rewritten(s, Intervals(entries), 0)
  {
    var sorted := SortByStart(entries);
    var out: Bytes, cursor: nat := [], 0;
    for i := 0 to |sorted|
      invariant Emitted(s, sorted, i) == Some((out, cursor)) && cursor <= |s|
    {
      var e := sorted[i];
      SortedInside(s, entries, i);
      if e.start < cursor {
        EmittedNone(s, sorted, i + 1, |sorted|);
        EmittedMeans(s, entries);
        return None;
      }
      out := out + s[cursor..e.start] + e.text;
      cursor := e.end;
    }
    EmittedMeans(s, entries);
    r := Some(out + s[cursor..]);
  }

  /** What the whole walk over the sorted entries leaves. */
  lemma {:induction false} EmittedMeans(s: Bytes, entries: seq<Resolved>)
    requires Inside(entries, s)
    ensures var whole := Emitted(s, SortByStart(entries), |SortByStart(entries)|);
            && (whole.Some? <==> Disjoint(entries))
            && (whole.Some? ==> whole.value.1 <= |s| && whole.value.0 + s[whole.value.1..] == Rewritten(s, Intervals(entries), 0))
  {
    var sorted := SortByStart(entries);
    SortSorts(entries);
    assert sorted[..|sorted|] == sorted;
    if Emitted(s, sorted, |sorted|).Some? {
      EmittedApart(s, sorted, |sorted|);
      EmittedEnds(s, sorted, |sorted|);
      EmittedCursor(s, sorted, |sorted|);
      EmittedRewrites(s, sorted);
      AllWritten(Emitted(s, sorted, |sorted|).value.0, s, entries, Emitted(s, sorted, |sorted|).value.1);
    } else {
      EmittedOverlap(s, sorted, |sorted|);
      if Disjoint(entries) {
        DisjointSame(entries, sorted, s);
      }
    }
  }

  /** The cursor is the last entry's end. */
  lemma {:induction false} EmittedCursor(s: Bytes, sorted: seq<Resolved>, n: nat)
    requires n <= |sorted| && Inside(sorted, s) && Emitted(s, sorted, n).Some?
    ensures Emitted(s, sorted, n).value.1 == if n == 0 then 0 else sorted[n - 1].end
    ensures Emitted(s, sorted, n).value.1 <= |s|
  {
    if n > 0 {
      assert sorted[n - 1] in sorted;
    }
  }

  /** No entry so far ends past the cursor. */
  lemma {:induction false} EmittedEnds(s: Bytes, sorted: seq<Resolved>, n: nat)
    requires n <= |sorted| && Inside(sorted, s) && Emitted(s, sorted, n).Some?
    ensures forall e :: e in sorted[..n] ==> e.end <= if n == 0 then 0 else sorted[n - 1].end
  {
    if n > 0 {
      EmittedBefore(s, sorted, n - 1, n);
      EmittedEnds(s, sorted, n - 1);
      EmittedCursor(s, sorted, n - 1);
      assert sorted[n - 1] in sorted;
      assert sorted[..n] == sorted[..n - 1] + [sorted[n - 1]];
    }
  }

  lemma {:induction false} EmittedApart(s: Bytes, sorted: seq<Resolved>, n: nat)
    requires n <= |sorted| && Inside(sorted, s) && Emitted(s, sorted, n).Some?
    ensures Disjoint(sorted[..n])
  {
    if n > 0 {
      EmittedBefore(s, sorted, n - 1, n);
      EmittedApart(s, sorted, n - 1);
      EmittedEnds(s, sorted, n - 1);
      EmittedCursor(s, sorted, n - 1);
      assert sorted[n - 1] in sorted;
      ApartNext(sorted, n - 1, if n == 1 then 0 else sorted[n - 2].end);
    }
  }

  /** One entry of the sorted list written out of the rewrites still to come, tail by tail. */
  ghost predicate Linked(s: Bytes, sorted: seq<Resolved>, tails: seq<Bytes>, i: nat)
    requires i < |sorted| && |tails| == |sorted| + 1
  {
    tails[i] == Between(s, if i == 0 then 0 else sorted[i - 1].end, sorted[i].start) + (sorted[i].text + tails[i + 1])
  }

  lemma {:induction false} Reassociate(out: Bytes, kept: Bytes, text: Bytes, tail: Bytes)
    ensures out + (kept + (text + tail)) == (out + kept + text) + tail
  {
  }

  lemma {:induction false} EmittedLinks(s: Bytes, sorted: seq<Resolved>, tails: seq<Bytes>, n: nat)
    requires n <= |sorted| && |tails| == |sorted| + 1 && Inside(sorted, s) && Emitted(s, sorted, n).Some?
    requires forall i :: 0 <= i < n ==> Linked(s, sorted, tails, i)
    ensures Emitted(s, sorted, n).value.0 + tails[n] == tails[0]
  {
    if n > 0 {
      EmittedLinks(s, sorted, tails, n - 1);
      EmittedCursor(s, sorted, n - 1);
      assert Linked(s, sorted, tails, n - 1);
      var e, out, kept := sorted[n - 1], Emitted(s, sorted, n - 1).value.0, Between(s, Emitted(s, sorted, n - 1).value.1, sorted[n - 1].start);
      Reassociate(out, kept, e.text, tails[n]);
    }
  }

  /** The rewrite from an entry's end on. */
  ghost function Tail(s: Bytes, sorted: seq<Resolved>, i: nat): Bytes
    requires i <= |sorted|
  {
    Rewritten(s, Intervals(sorted), if i == 0 then 0 else sorted[i - 1].end)
  }

  ghost function Tails(s: Bytes, sorted: seq<Resolved>): (tails: seq<Bytes>)
    ensures |tails| == |sorted| + 1 && forall i :: 0 <= i <= |sorted| ==> tails[i] == Tail(s, sorted, i)
  {
    seq(|sorted| + 1, i requires 0 <= i <= |sorted| => Tail(s, sorted, i))
  }

  /** Disjoint entries in start order link their tails. */
  lemma {:induction false} TailsLinked(s: Bytes, sorted: seq<Resolved>, i: nat)
    requires Inside(sorted, s) && StartsAscend(sorted) && Disjoint(sorted) && Emitted(s, sorted, |sorted|).Some? && i < |sorted|
    ensures Linked(s, sorted, Tails(s, sorted), i)
  {
    EmittedBefore(s, sorted, i, |sorted|);
    EmittedEnds(s, sorted, i);
    EmittedCursor(s, sorted, i);
    RewriteNext(s, sorted, i, if i == 0 then 0 else sorted[i - 1].end);
    var tails := Tails(s, sorted);
    assert tails[i] == Tail(s, sorted, i) && tails[i + 1] == Tail(s, sorted, i + 1);
  }

  lemma {:induction false} EmittedRewrites(s: Bytes, sorted: seq<Resolved>)
    requires Inside(sorted, s) && StartsAscend(sorted) && Disjoint(sorted) && Emitted(s, sorted, |sorted|).Some?
    ensures Emitted(s, sorted, |sorted|).value.0 + Tail(s, sorted, |sorted|) == Tail(s, sorted, 0)
  {
    forall i | 0 <= i < |sorted| ensures Linked(s, sorted, Tails(s, sorted), i) {
      TailsLinked(s, sorted, i);
    }
    EmittedLinks(s, sorted, Tails(s, sorted), |sorted|);
  }

  /** The walk that finishes passed every place, its cursor before the next start. */
  lemma {:induction false} EmittedBefore(s: Bytes, sorted: seq<Resolved>, i: nat, n: nat)
    requires i < n <= |sorted| && Emitted(s, sorted, n).Some?
    ensures Emitted(s, sorted, i).Some? && Emitted(s, sorted, i).value.1 <= sorted[i].start
  {
    if i < n - 1 {
      EmittedBefore(s, sorted, i, n - 1);
    }
  }

  /** A refused walk met two entries that overlap. */
  lemma {:induction false} EmittedOverlap(s: Bytes, sorted: seq<Resolved>, n: nat)
    requires n <= |sorted| && Inside(sorted, s) && StartsAscend(sorted) && Emitted(s, sorted, n).None?
    ensures !Disjoint(sorted)
  {
    if Emitted(s, sorted, n - 1).None? {
      EmittedOverlap(s, sorted, n - 1);
    } else {
      EmittedCursor(s, sorted, n - 1);
      assert sorted[n - 1] in sorted && sorted[n - 2] in sorted;
      assert !Apart(sorted[n - 2], sorted[n - 1]);
    }
  }

  lemma {:induction false} SortedInside(s: Bytes, entries: seq<Resolved>, i: nat)
    requires Inside(entries, s) && i < |SortByStart(entries)|
    ensures SortByStart(entries)[i].start < SortByStart(entries)[i].end <= |s|
  {
    SortSorts(entries);
    assert SortByStart(entries)[i] in SortByStart(entries);
  }

  lemma {:induction false} AllWritten(out: Bytes, s: Bytes, entries: seq<Resolved>, cursor: nat)
    requires Inside(entries, s) && Disjoint(SortByStart(entries)) && cursor <= |s|
    requires forall e :: e in SortByStart(entries) ==> e.end <= cursor
    requires out + Rewritten(s, Intervals(SortByStart(entries)), cursor) == Rewritten(s, Intervals(SortByStart(entries)), 0)
    ensures Disjoint(entries) && out + s[cursor..] == Rewritten(s, Intervals(entries), 0)
  {
    var sorted := SortByStart(entries);
    SortSorts(entries);
    DisjointSame(sorted, entries, s);
    SameIntervals(sorted, entries, s);
    CopyRest(s, sorted, cursor);
  }

  lemma {:induction false} ApartNext(sorted: seq<Resolved>, i: nat, cursor: nat)
    requires i < |sorted| && Disjoint(sorted[..i]) && cursor <= sorted[i].start <= sorted[i].end
    requires forall e :: e in sorted[..i] ==> e.end <= cursor
    ensures Disjoint(sorted[..i + 1]) && forall e :: e in sorted[..i + 1] ==> e.end <= sorted[i].end
  {
    var next := sorted[..i + 1];
    assert next == sorted[..i] + [sorted[i]];
    forall j, k | 0 <= j < k < i + 1 ensures Apart(next[j], next[k]) {
      assert next[j] == sorted[..i][j] && next[j] in sorted[..i];
      assert k < i ==> next[k] == sorted[..i][k];
    }
  }

  lemma {:induction false} RewriteNext(s: Bytes, sorted: seq<Resolved>, i: nat, cursor: nat)
    requires i < |sorted| && Disjoint(sorted) && StartsAscend(sorted) && Inside(sorted, s) && cursor <= sorted[i].start
    requires forall e :: e in sorted[..i] ==> e.end <= cursor
    ensures Rewritten(s, Intervals(sorted), cursor)
         == Between(s, cursor, sorted[i].start) + (sorted[i].text + Rewritten(s, Intervals(sorted), sorted[i].end))
  {
    assert sorted[i] in sorted;
    NoStartBetween(s, sorted, i, cursor);
    CopyThrough(s, Intervals(sorted), cursor, sorted[i].start);
    IntervalsHold(sorted, s, sorted[i]);
  }

  lemma {:induction false} NoStartBetween(s: Bytes, sorted: seq<Resolved>, i: nat, cursor: nat)
    requires i <= |sorted| && StartsAscend(sorted) && Inside(sorted, s) && forall e :: e in sorted[..i] ==> e.end <= cursor
    ensures forall k :: cursor <= k < (if i < |sorted| then sorted[i].start else |s|) ==> k !in Intervals(sorted)
  {
    forall k | cursor <= k < (if i < |sorted| then sorted[i].start else |s|) ensures k !in Intervals(sorted) {
      IntervalsExact(sorted, k);
      forall e | e in sorted ensures e.start != k {
        var j :| 0 <= j < |sorted| && sorted[j] == e;
        if j < i {
          assert sorted[..i][j] == e && e in sorted[..i];
        }
      }
    }
  }

  lemma {:induction false} CopyRest(s: Bytes, sorted: seq<Resolved>, cursor: nat)
    requires cursor <= |s| && StartsAscend(sorted) && Inside(sorted, s) && forall e :: e in sorted ==> e.end <= cursor
    ensures Rewritten(s, Intervals(sorted), cursor) == s[cursor..]
  {
    assert sorted[..|sorted|] == sorted;
    NoStartBetween(s, sorted, |sorted|, cursor);
    CopyThrough(s, Intervals(sorted), cursor, |s|);
    assert s[cursor..|s|] == s[cursor..];
  }

  /** Disjoint lists of the same intervals are one map of them. */
  lemma {:induction false} SameIntervals(a: seq<Resolved>, b: seq<Resolved>, s: Bytes)
    requires Disjoint(a) && Disjoint(b) && Inside(a, s) && Inside(b, s) && forall e :: e in a <==> e in b
    ensures Intervals(a) == Intervals(b)
  {
    forall st ensures st in Intervals(a) <==> st in Intervals(b) {
      IntervalsExact(a, st);
      IntervalsExact(b, st);
    }
    forall st | st in Intervals(a) ensures Intervals(a)[st] == Intervals(b)[st] {
      IntervalsExact(a, st);
      IntervalsHold(b, s, Intervals(a)[st]);
    }
  }
}
