/**
 Sorting by a string key, as the repository's sort.Slice, sort.Strings and slices.Sorted calls use it.
 The library algorithm is foreign; a sorted permutation over distinct keys is unique (SortedUnique),
 so any algorithm computes SortBy.
 */
module Sorting {
  /** Go's string order. */
  predicate Less(a: string, b: string) {
    |b| > 0 && (|a| == 0 || a[0] < b[0] || (a[0] == b[0] && Less(a[1..], b[1..])))
  }

  predicate AtMost(a: string, b: string) { a == b || Less(a, b) }

  lemma {:induction false} LessIrreflexive(a: string)
    ensures !Less(a, a)
  {
    if a != [] {
      LessIrreflexive(a[1..]);
    }
  }

  lemma {:induction false} LessTransitive(a: string, b: string, c: string)
    requires Less(a, b) && Less(b, c)
    ensures Less(a, c)
  {
    if a != [] && a[0] == b[0] == c[0] {
      LessTransitive(a[1..], b[1..], c[1..]);
    }
  }

  lemma {:induction false} LessTotal(a: string, b: string)
    ensures a == b || Less(a, b) || Less(b, a)
  {
    if a != [] && b != [] && a[0] == b[0] {
      LessTotal(a[1..], b[1..]);
      if a[1..] == b[1..] {
        assert a == [a[0]] + a[1..];
        assert b == [b[0]] + b[1..];
      }
    }
  }

  lemma {:induction false} LessAsymmetric(a: string, b: string)
    requires Less(a, b)
    ensures !Less(b, a) && a != b
  {
    LessIrreflexive(a);
    if Less(b, a) {
      LessTransitive(a, b, a);
    }
  }

  /** The key of a string sorted as itself. */
  function Itself(s: string): string { s }

  /** Keys never descend. */
  ghost predicate Ascending<T>(xs: seq<T>, key: T -> string) {
    forall i, j :: 0 <= i < j < |xs| ==> AtMost(key(xs[i]), key(xs[j]))
  }

  /** Keys strictly ascend, so they are distinct. */
  ghost predicate StrictlyAscending<T>(xs: seq<T>, key: T -> string) {
    forall i, j :: 0 <= i < j < |xs| ==> Less(key(xs[i]), key(xs[j]))
  }

  ghost predicate DistinctKeys<T>(xs: seq<T>, key: T -> string) {
    forall i, j :: 0 <= i < j < |xs| ==> key(xs[i]) != key(xs[j])
  }

  function Insert<T>(x: T, xs: seq<T>, key: T -> string): seq<T> {
    if xs == [] || AtMost(key(x), key(xs[0])) then [x] + xs else [xs[0]] + Insert(x, xs[1..], key)
  }

  function SortBy<T>(xs: seq<T>, key: T -> string): seq<T> {
    if xs == [] then [] else Insert(xs[0], SortBy(xs[1..], key), key)
  }

  lemma {:induction false} InsertKeeps<T>(x: T, xs: seq<T>, key: T -> string)
    requires Ascending(xs, key)
    ensures multiset(Insert(x, xs, key)) == multiset{x} + multiset(xs)
    ensures Ascending(Insert(x, xs, key), key)
  {
    var r := Insert(x, xs, key);
    if xs == [] {
    } else if AtMost(key(x), key(xs[0])) {
      forall i, j | 0 <= i < j < |r| ensures AtMost(key(r[i]), key(r[j])) {
        if i == 0 && j > 1 {
          assert r[j] == xs[j - 1];
          if Less(key(x), key(xs[0])) && Less(key(xs[0]), key(xs[j - 1])) {
            LessTransitive(key(x), key(xs[0]), key(xs[j - 1]));
          }
        }
      }
    } else {
      InsertKeeps(x, xs[1..], key);
      LessTotal(key(x), key(xs[0]));
      var rest := Insert(x, xs[1..], key);
      assert xs == [xs[0]] + xs[1..];
      forall j | 0 <= j < |rest| ensures AtMost(key(xs[0]), key(rest[j])) {
        assert rest[j] in multiset(rest);
        assert rest[j] == x || rest[j] in xs[1..];
      }
    }
  }

  lemma {:induction false} SortBySorts<T>(xs: seq<T>, key: T -> string)
    ensures multiset(SortBy(xs, key)) == multiset(xs)
    ensures |SortBy(xs, key)| == |xs|
    ensures Ascending(SortBy(xs, key), key)
  {
    if xs != [] {
      SortBySorts(xs[1..], key);
      InsertKeeps(xs[0], SortBy(xs[1..], key), key);
      assert xs == [xs[0]] + xs[1..];
    }
    assert |multiset(SortBy(xs, key))| == |multiset(xs)|;
  }

  lemma {:induction false} SortByMembers<T>(xs: seq<T>, key: T -> string)
    ensures forall x :: x in SortBy(xs, key) <==> x in xs
  {
    SortBySorts(xs, key);
    forall x ensures x in SortBy(xs, key) <==> x in xs {
      assert x in multiset(SortBy(xs, key)) <==> x in multiset(xs);
    }
  }

  /** Sorting items whose keys are distinct gives strictly ascending keys. */
  lemma {:induction false} SortByStrict<T(!new)>(xs: seq<T>, key: T -> string)
    requires DistinctKeys(xs, key)
    ensures StrictlyAscending(SortBy(xs, key), key)
  {
    if xs != [] {
      SortByStrict(xs[1..], key);
      var rest := SortBy(xs[1..], key);
      SortByMembers(xs[1..], key);
      forall i | 0 <= i < |rest| ensures key(rest[i]) != key(xs[0]) {
        assert rest[i] in xs[1..];
      }
      InsertStrict(xs[0], rest, key);
    }
  }

  lemma {:induction false} InsertStrict<T>(x: T, xs: seq<T>, key: T -> string)
    requires StrictlyAscending(xs, key)
    requires forall i :: 0 <= i < |xs| ==> key(xs[i]) != key(x)
    ensures StrictlyAscending(Insert(x, xs, key), key)
  {
    var r := Insert(x, xs, key);
    if xs == [] {
    } else if AtMost(key(x), key(xs[0])) {
      forall j | 1 < j < |r| ensures Less(key(x), key(r[j])) {
        LessTransitive(key(x), key(xs[0]), key(xs[j - 1]));
      }
    } else {
      InsertStrict(x, xs[1..], key);
      LessTotal(key(x), key(xs[0]));
      var rest := Insert(x, xs[1..], key);
      InsertKeeps(x, xs[1..], key);
      assert xs == [xs[0]] + xs[1..];
      forall j | 0 <= j < |rest| ensures Less(key(xs[0]), key(rest[j])) {
        assert rest[j] in multiset(rest);
        assert rest[j] == x || rest[j] in xs[1..];
      }
    }
  }

  /** Checked neighbour by neighbour, a prefix stays strictly ascending. */
  lemma {:induction false} AscendingNext<T>(xs: seq<T>, i: nat, key: T -> string)
    requires i < |xs| && StrictlyAscending(xs[..i], key) && (i > 0 ==> Less(key(xs[i - 1]), key(xs[i])))
    ensures StrictlyAscending(xs[..i + 1], key)
  {
    forall j | 0 <= j < i ensures Less(key(xs[j]), key(xs[i])) {
      if j < i - 1 {
        assert Less(key(xs[..i][j]), key(xs[..i][i - 1]));
        LessTransitive(key(xs[j]), key(xs[i - 1]), key(xs[i]));
      }
    }
    forall j, k | 0 <= j < k < i ensures Less(key(xs[j]), key(xs[k])) {
      assert Less(key(xs[..i][j]), key(xs[..i][k]));
    }
  }

  /** The first of a strictly ascending sequence precedes every other member. */
  lemma {:induction false} FirstIsLeast<T(!new)>(xs: seq<T>, key: T -> string, x: T)
    requires StrictlyAscending(xs, key) && x in xs
    ensures x == xs[0] || (Less(key(xs[0]), key(x)) && key(x) != key(xs[0]))
  {
    var i :| 0 <= i < |xs| && xs[i] == x;
    LessIrreflexive(key(x));
  }

  lemma {:induction false} SameFirst<T(!new)>(xs: seq<T>, ys: seq<T>, key: T -> string)
    requires StrictlyAscending(xs, key) && StrictlyAscending(ys, key) && xs != [] && ys != []
    requires xs[0] in ys && ys[0] in xs
    ensures xs[0] == ys[0]
  {
    FirstIsLeast(ys, key, xs[0]);
    FirstIsLeast(xs, key, ys[0]);
    if Less(key(xs[0]), key(ys[0])) {
      LessAsymmetric(key(xs[0]), key(ys[0]));
    }
  }

  lemma {:induction false} RestMember<T(!new)>(xs: seq<T>, key: T -> string, x: T)
    requires StrictlyAscending(xs, key) && xs != []
    ensures StrictlyAscending(xs[1..], key)
    ensures x in xs[1..] <==> x in xs && x != xs[0]
  {
    assert xs == [xs[0]] + xs[1..];
    if x in xs[1..] {
      var i :| 0 <= i < |xs[1..]| && xs[1..][i] == x;
      assert Less(key(xs[0]), key(xs[i + 1]));
      LessIrreflexive(key(x));
    }
  }

  lemma {:induction false} SameEmpty<T(!new)>(xs: seq<T>, ys: seq<T>)
    requires forall x :: x in xs <==> x in ys
    ensures xs == [] <==> ys == []
  {
    assert xs != [] ==> xs[0] in xs;
    assert ys != [] ==> ys[0] in ys;
  }

  /** Two strictly ascending sequences with the same members are the same sequence. */
  lemma {:induction false} SortedUnique<T(!new)>(xs: seq<T>, ys: seq<T>, key: T -> string)
    requires StrictlyAscending(xs, key) && StrictlyAscending(ys, key)
    requires forall x :: x in xs <==> x in ys
    ensures xs == ys
  {
    SameEmpty(xs, ys);
    if xs != [] {
      assert xs[0] in ys;
      assert ys[0] in xs;
      SameFirst(xs, ys, key);
      forall x ensures x in xs[1..] <==> x in ys[1..] {
        RestMember(xs, key, x);
        RestMember(ys, key, x);
      }
      RestMember(xs, key, xs[0]);
      RestMember(ys, key, ys[0]);
      SortedUnique(xs[1..], ys[1..], key);
      assert xs == [xs[0]] + xs[1..];
      assert ys == [ys[0]] + ys[1..];
    }
  }
}
