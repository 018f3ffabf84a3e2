/** Sequence operations behind the storefront's list handling: `Array.prototype.filter`,
    removing the entries with one `_id`, `new Set(...)` de-duplication, `slice` and
    `Array.prototype.sort` with a numeric comparator, as an insertion sort by key. */
module Lists {

  // ---------------------------------------------------------------------------
  // filter

  /** `xs.filter(p)`. */
  function Filter<T>(xs: seq<T>, p: T -> bool): (r: seq<T>)
    ensures |r| <= |xs|
    ensures forall i :: 0 <= i < |r| ==> p(r[i])
    ensures multiset(r) <= multiset(xs)
    decreases |xs|
  {
    if xs == [] then []
    else
      assert xs == [xs[0]] + xs[1..];
      (if p(xs[0]) then [xs[0]] else []) + Filter(xs[1..], p)
  }

  /** An element is kept exactly when it is in the input and satisfies the predicate. */
  lemma {:induction false} FilterMembership<T>(xs: seq<T>, p: T -> bool, x: T)
    ensures x in Filter(xs, p) <==> x in xs && p(x)
    decreases |xs|
  {
    if xs != [] {
      FilterMembership(xs[1..], p, x);
      assert xs == [xs[0]] + xs[1..];
    }
  }

  /** Filtering a concatenation filters each part in place: relative order is preserved. */
  lemma {:induction false} FilterConcat<T>(a: seq<T>, b: seq<T>, p: T -> bool)
    ensures Filter(a + b, p) == Filter(a, p) + Filter(b, p)
    decreases |a|
  {
    if a == [] {
      assert a + b == b;
    } else {
      assert (a + b)[0] == a[0];
      assert (a + b)[1..] == a[1..] + b;
      FilterConcat(a[1..], b, p);
    }
  }

  /** When every element passes, the filter returns its input unchanged. */
  lemma {:induction false} FilterAll<T>(xs: seq<T>, p: T -> bool)
    requires forall i :: 0 <= i < |xs| ==> p(xs[i])
    ensures Filter(xs, p) == xs
    decreases |xs|
  {
    if xs != [] {
      FilterAll(xs[1..], p);
    }
  }

  /** When no element passes, the filter returns nothing. */
  lemma {:induction false} FilterNone<T>(xs: seq<T>, p: T -> bool)
    requires forall i :: 0 <= i < |xs| ==> !p(xs[i])
    ensures Filter(xs, p) == []
    decreases |xs|
  {
    if xs != [] {
      FilterNone(xs[1..], p);
    }
  }

  /** Dropping the one failing element between two passing runs leaves the runs joined in order. */
  lemma FilterDropsOne<T>(a: seq<T>, x: T, b: seq<T>, p: T -> bool)
    requires forall i :: 0 <= i < |a| ==> p(a[i])
    requires !p(x)
    requires forall i :: 0 <= i < |b| ==> p(b[i])
    ensures Filter(a + [x] + b, p) == a + b
  {
    assert Filter(a + [x], p) == a by {
      FilterConcat(a, [x], p);
      FilterNone([x], p);
      FilterAll(a, p);
      assert a + [] == a;
    }
    assert Filter(b, p) == b by {
      FilterAll(b, p);
    }
    FilterConcat(a + [x], b, p);
  }

  /** Filtering twice with the same predicate is the same as filtering once. */
  lemma FilterIdempotent<T>(xs: seq<T>, p: T -> bool)
    ensures Filter(Filter(xs, p), p) == Filter(xs, p)
  {
    FilterAll(Filter(xs, p), p);
  }

  /** Two predicates that agree on every element give the same filter. */
  lemma {:induction false} FilterCongruent<T>(xs: seq<T>, p: T -> bool, q: T -> bool)
    requires forall i :: 0 <= i < |xs| ==> p(xs[i]) == q(xs[i])
    ensures Filter(xs, p) == Filter(xs, q)
    decreases |xs|
  {
    if xs != [] {
      FilterCongruent(xs[1..], p, q);
    }
  }

  /** Filtering by `p` and then by `q` is one filter by their conjunction. */
  lemma {:induction false} FilterCompose<T>(xs: seq<T>, p: T -> bool, q: T -> bool, both: T -> bool)
    requires forall x :: both(x) == (p(x) && q(x))
    ensures Filter(Filter(xs, p), q) == Filter(xs, both)
    decreases |xs|
  {
    if xs != [] {
      FilterCompose(xs[1..], p, q, both);
      var rest := Filter(xs[1..], p);
      if p(xs[0]) {
        assert Filter(xs, p) == [xs[0]] + rest;
        assert ([xs[0]] + rest)[0] == xs[0] && ([xs[0]] + rest)[1..] == rest;
      } else {
        assert Filter(xs, p) == rest;
      }
    }
  }

  /** Adding one more conditional stage to a filter conjoins its condition. */
  lemma StageStep<T>(xs: seq<T>, prev: T -> bool, active: bool, p: T -> bool, next: T -> bool)
    requires forall x :: next(x) == (prev(x) && (!active || p(x)))
    ensures Stage(Filter(xs, prev), active, p) == Filter(xs, next)
  {
    var q := (x: T) => !active || p(x);
    StageIsFilter(Filter(xs, prev), active, p, q);
    FilterCompose(xs, prev, q, next);
  }

  /** The `if (active) xs = xs.filter(p)` idiom: a filter that only applies when switched on. */
  function Stage<T>(xs: seq<T>, active: bool, p: T -> bool): (r: seq<T>)
    ensures !active ==> r == xs
    ensures active ==> r == Filter(xs, p)
  {
    if active then Filter(xs, p) else xs
  }

  /** A stage is a filter by "inactive, or the predicate holds". */
  lemma StageIsFilter<T>(xs: seq<T>, active: bool, p: T -> bool, q: T -> bool)
    requires forall x :: q(x) == (!active || p(x))
    ensures Stage(xs, active, p) == Filter(xs, q)
  {
    if active {
      FilterCongruent(xs, p, q);
    } else {
      FilterAll(xs, q);
    }
  }

  // ---------------------------------------------------------------------------
  // Removing every entry with one key: `xs.filter(x => x._id !== id)`

  /** Keeps the entries whose key differs from `id`, in their original order. */
  function RemoveKey<T>(xs: seq<T>, key: T -> string, id: string): (r: seq<T>)
    ensures forall i :: 0 <= i < |r| ==> key(r[i]) != id
    ensures multiset(r) <= multiset(xs)
    ensures (forall i :: 0 <= i < |xs| ==> key(xs[i]) != id) ==> r == xs
  {
    var keep := (x: T) => key(x) != id;
    if forall i :: 0 <= i < |xs| ==> key(xs[i]) != id then
      FilterAll(xs, keep);
      Filter(xs, keep)
    else
      Filter(xs, keep)
  }

  /** Every entry with another key survives the removal. */
  lemma RemoveKeyKeepsOthers<T>(xs: seq<T>, key: T -> string, id: string, x: T)
    ensures x in RemoveKey(xs, key, id) <==> x in xs && key(x) != id
  {
    FilterMembership(xs, (y: T) => key(y) != id, x);
  }

  /** Removal distributes over concatenation, so the survivors keep their relative order. */
  lemma RemoveKeyConcat<T>(a: seq<T>, b: seq<T>, key: T -> string, id: string)
    ensures RemoveKey(a + b, key, id) == RemoveKey(a, key, id) + RemoveKey(b, key, id)
  {
    FilterConcat(a, b, (x: T) => key(x) != id);
  }

  // ---------------------------------------------------------------------------
  // `[...new Set(xs)]`: distinct values in order of first appearance

  predicate NoDuplicates<T(==)>(xs: seq<T>) {
    forall i, j :: 0 <= i < j < |xs| ==> xs[i] != xs[j]
  }

  /** Index of the first occurrence of `x` in `xs`. */
  function FirstIndex<T(==)>(xs: seq<T>, x: T): (k: nat)
    requires x in xs
    ensures k < |xs| && xs[k] == x
    ensures forall j :: 0 <= j < k ==> xs[j] != x
    decreases |xs|
  {
    if xs[|xs| - 1] == x && x !in xs[..|xs| - 1] then |xs| - 1
    else FirstIndex(xs[..|xs| - 1], x)
  }

  /** Values in first-appearance order, each once. */
  function Distinct<T(==)>(xs: seq<T>): (r: seq<T>)
    ensures forall i :: 0 <= i < |r| ==> r[i] in xs
    ensures forall i :: 0 <= i < |xs| ==> xs[i] in r
    ensures NoDuplicates(r)
    decreases |xs|
  {
    if xs == [] then []
    else
      var pre := xs[..|xs| - 1];
      var front := Distinct(pre);
      assert forall i :: 0 <= i < |xs| - 1 ==> xs[i] == pre[i];
      if xs[|xs| - 1] in front then front else front + [xs[|xs| - 1]]
  }

  lemma NoDuplicatesTail<T>(xs: seq<T>)
    requires xs != [] && NoDuplicates(xs)
    ensures NoDuplicates(xs[1..]) && xs[0] !in xs[1..]
  {
    assert forall i :: 0 <= i < |xs| - 1 ==> xs[1..][i] == xs[i + 1];
  }

  lemma NoDuplicatesCons<T>(x: T, ys: seq<T>)
    requires x !in ys && NoDuplicates(ys)
    ensures NoDuplicates([x] + ys)
  {
    assert forall i :: 1 <= i < |ys| + 1 ==> ([x] + ys)[i] == ys[i - 1];
  }

  /** Filtering keeps a list free of duplicates. */
  lemma {:induction false} NoDuplicatesFilter<T>(xs: seq<T>, p: T -> bool)
    requires NoDuplicates(xs)
    ensures NoDuplicates(Filter(xs, p))
    decreases |xs|
  {
    if xs != [] {
      NoDuplicatesTail(xs);
      NoDuplicatesFilter(xs[1..], p);
      if p(xs[0]) {
        FilterMembership(xs[1..], p, xs[0]);
        NoDuplicatesCons(xs[0], Filter(xs[1..], p));
      }
    }
  }

  /** The first occurrence of a value already present in a prefix does not move when the sequence grows. */
  lemma FirstIndexPrefix<T>(xs: seq<T>, y: T, x: T)
    requires x in xs
    ensures x in xs + [y] && FirstIndex(xs + [y], x) == FirstIndex(xs, x)
  {
    var k := FirstIndex(xs, x);
    var k' := FirstIndex(xs + [y], x);
    assert (xs + [y])[k] == x;
    assert k' <= k;
    assert xs[k'] == (xs + [y])[k'];
  }

  /** `Distinct` lists values in the order of their first appearance in the input. */
  lemma {:induction false} DistinctFirstAppearanceOrder<T>(xs: seq<T>)
    ensures forall i, j :: 0 <= i < j < |Distinct(xs)| ==>
      FirstIndex(xs, Distinct(xs)[i]) < FirstIndex(xs, Distinct(xs)[j])
    decreases |xs|
  {
    if xs != [] {
      var pre := xs[..|xs| - 1];
      var last := xs[|xs| - 1];
      assert xs == pre + [last];
      DistinctFirstAppearanceOrder(pre);
      var front := Distinct(pre);
      var r := Distinct(xs);
      forall i, j | 0 <= i < j < |r|
        ensures FirstIndex(xs, r[i]) < FirstIndex(xs, r[j])
      {
        assert r[i] in front;
        FirstIndexPrefix(pre, last, r[i]);
        if j < |front| {
          assert r[j] == front[j];
          FirstIndexPrefix(pre, last, r[j]);
        } else {
          assert r[j] == last && last !in pre;
          assert FirstIndex(xs, r[j]) == |xs| - 1;
        }
      }
    }
  }

  // ---------------------------------------------------------------------------
  // `slice`

  /** A `slice` bound: a negative index counts from the end, and the result is clamped to `[0, n]`. */
  function SliceBound(i: int, n: nat): (b: nat)
    ensures b <= n
    ensures 0 <= i <= n ==> b == i
  {
    if i < 0 then (if n + i < 0 then 0 else n + i) else if i > n then n else i
  }

  /** `xs.slice(start, end)`. */
  function Slice<T>(xs: seq<T>, start: int, end: int): (r: seq<T>)
    ensures |r| <= |xs|
    ensures 0 <= start <= end <= |xs| ==> r == xs[start..end]
  {
    var s := SliceBound(start, |xs|);
    var e := SliceBound(end, |xs|);
    if s < e then xs[s..e] else []
  }

  /** `xs.slice(0, n)` for `n >= 0`: the first `n` entries, or all of them when there are fewer. */
  function Take<T>(xs: seq<T>, n: nat): (r: seq<T>)
    ensures |r| <= n && |r| <= |xs|
    ensures |xs| <= n ==> r == xs
    ensures n <= |xs| ==> |r| == n
    ensures r == xs[..|r|]
  {
    Slice(xs, 0, n)
  }

  // ---------------------------------------------------------------------------
  // Insertion sort on an integer key: `xs.sort((a, b) => key(a) - key(b))`, or the reverse
  // comparator when `descending`

  predicate InOrder<T>(key: T -> int, descending: bool, a: T, b: T) {
    if descending then key(a) >= key(b) else key(a) <= key(b)
  }

  predicate SortedBy<T>(xs: seq<T>, key: T -> int, descending: bool) {
    forall i, j :: 0 <= i < j < |xs| ==> InOrder(key, descending, xs[i], xs[j])
  }

  /** An entry that may precede every entry of a sorted list keeps it sorted when placed first. */
  lemma PrependSorted<T>(y: T, ys: seq<T>, key: T -> int, descending: bool)
    requires SortedBy(ys, key, descending)
    requires forall z :: z in multiset(ys) ==> InOrder(key, descending, y, z)
    ensures SortedBy([y] + ys, key, descending)
  {
    var r := [y] + ys;
    forall i, j | 0 <= i < j < |r| ensures InOrder(key, descending, r[i], r[j]) {
      assert r[j] == ys[j - 1] && r[j] in multiset(ys);
      if i > 0 {
        assert r[i] == ys[i - 1];
      }
    }
  }

  /** The head of a sorted list may precede everything in its tail. */
  lemma HeadPrecedesTail<T>(xs: seq<T>, key: T -> int, descending: bool)
    requires xs != [] && SortedBy(xs, key, descending)
    ensures forall z :: z in multiset(xs[1..]) ==> InOrder(key, descending, xs[0], z)
  {
    forall z | z in multiset(xs[1..]) ensures InOrder(key, descending, xs[0], z) {
      assert z in xs[1..];
      var k :| 0 <= k < |xs[1..]| && xs[1..][k] == z;
      assert xs[k + 1] == z;
    }
  }

  /** Places `x` before the first entry it may precede, i.e. after every entry it must follow. */
  function Insert<T>(x: T, xs: seq<T>, key: T -> int, descending: bool): (r: seq<T>)
    requires SortedBy(xs, key, descending)
    ensures SortedBy(r, key, descending)
    ensures multiset(r) == multiset(xs) + multiset{x}
    ensures |r| == |xs| + 1
    decreases |xs|
  {
    if xs == [] || InOrder(key, descending, x, xs[0]) then
      PrependSorted(x, xs, key, descending);
      [x] + xs
    else
      var rest := Insert(x, xs[1..], key, descending);
      assert xs == [xs[0]] + xs[1..];
      HeadPrecedesTail(xs, key, descending);
      PrependSorted(xs[0], rest, key, descending);
      [xs[0]] + rest
  }

  /** Insertion sort by key: the result is ordered and a permutation of the input. */
  function SortBy<T>(xs: seq<T>, key: T -> int, descending: bool): (r: seq<T>)
    ensures SortedBy(r, key, descending)
    ensures multiset(r) == multiset(xs)
    ensures |r| == |xs|
    decreases |xs|
  {
    if xs == [] then []
    else
      assert xs == [xs[0]] + xs[1..];
      Insert(xs[0], SortBy(xs[1..], key, descending), key, descending)
  }
}
