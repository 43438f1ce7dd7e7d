/** Sequence operations the store's queries are built from: `filter_by`,
    `first`, `order_by(... desc)`, `limit`, `count` and row-id assignment. */
module Seqs {
  import opened Common

  /** The elements of `xs` that satisfy `keep`, in their original order. */
  function Filter<T(!new)>(xs: seq<T>, keep: T -> bool): (r: seq<T>)
    ensures |r| <= |xs|
    ensures forall x :: multiset(r)[x] == if keep(x) then multiset(xs)[x] else 0
    ensures forall x :: x in r <==> x in xs && keep(x)
  {
    if |xs| == 0 then []
    else
      assert xs == [xs[0]] + xs[1..];
      if keep(xs[0]) then [xs[0]] + Filter(xs[1..], keep) else Filter(xs[1..], keep)
  }

  /** Reference definition of a row count: one for every element that satisfies `keep`. */
  function CountWhere<T>(xs: seq<T>, keep: T -> bool): nat {
    if |xs| == 0 then 0 else (if keep(xs[0]) then 1 else 0) + CountWhere(xs[1..], keep)
  }

  /** A filtered query's length is the number of rows that match it. */
  lemma {:induction false} FilterLengthIsCount<T(!new)>(xs: seq<T>, keep: T -> bool)
    ensures |Filter(xs, keep)| == CountWhere(xs, keep)
  {
    if |xs| > 0 {
      FilterLengthIsCount(xs[1..], keep);
    }
  }

  /** Index of the first element satisfying `p`, searching from position `from`. */
  function FirstIndexFrom<T>(xs: seq<T>, p: T -> bool, from: nat): (r: Option<nat>)
    requires from <= |xs|
    ensures r.Some? ==> from <= r.value < |xs| && p(xs[r.value])
    ensures r.Some? ==> forall j :: from <= j < r.value ==> !p(xs[j])
    ensures r.None? ==> forall j :: from <= j < |xs| ==> !p(xs[j])
    decreases |xs| - from
  {
    if from == |xs| then None
    else if p(xs[from]) then Some(from)
    else FirstIndexFrom(xs, p, from + 1)
  }

  /** Index of the first element satisfying `p` (`query.filter_by(...).first()`). */
  function FirstIndex<T>(xs: seq<T>, p: T -> bool): (r: Option<nat>)
    ensures r.Some? ==> r.value < |xs| && p(xs[r.value])
    ensures r.Some? ==> forall j :: 0 <= j < r.value ==> !p(xs[j])
    ensures r.None? ==> forall j :: 0 <= j < |xs| ==> !p(xs[j])
  {
    FirstIndexFrom(xs, p, 0)
  }

  /** `xs` is ordered by `key`, largest first. */
  ghost predicate SortedDesc<T>(xs: seq<T>, key: T -> int) {
    forall i, j :: 0 <= i < j < |xs| ==> key(xs[i]) >= key(xs[j])
  }

  /** Putting an element in front of a descending sequence whose keys it dominates keeps it descending. */
  lemma ConsSortedDesc<T>(a: T, rest: seq<T>, key: T -> int)
    requires SortedDesc(rest, key)
    requires forall k :: 0 <= k < |rest| ==> key(a) >= key(rest[k])
    ensures SortedDesc([a] + rest, key)
  {
    var r := [a] + rest;
    forall i, j | 0 <= i < j < |r|
      ensures key(r[i]) >= key(r[j])
    {
      if i > 0 {
        assert r[i] == rest[i - 1] && r[j] == rest[j - 1];
      } else {
        assert r[j] == rest[j - 1];
      }
    }
  }

  /** Inserts `x` into a descending sequence before the first element whose key is not larger. */
  function InsertDesc<T>(x: T, xs: seq<T>, key: T -> int): (r: seq<T>)
    requires SortedDesc(xs, key)
    ensures multiset(r) == multiset(xs) + multiset{x}
    ensures SortedDesc(r, key)
  {
    if |xs| == 0 then [x]
    else if key(x) >= key(xs[0]) then
      ConsSortedDesc(x, xs, key);
      [x] + xs
    else
      assert xs == [xs[0]] + xs[1..];
      var rest := InsertDesc(x, xs[1..], key);
      InsertedDominated(x, xs, rest, key);
      ConsSortedDesc(xs[0], rest, key);
      [xs[0]] + rest
  }

  lemma InsertedDominated<T>(x: T, xs: seq<T>, rest: seq<T>, key: T -> int)
    requires |xs| > 0 && SortedDesc(xs, key) && key(x) < key(xs[0])
    requires multiset(rest) == multiset(xs[1..]) + multiset{x}
    ensures forall k :: 0 <= k < |rest| ==> key(xs[0]) >= key(rest[k])
  {
    forall k | 0 <= k < |rest|
      ensures key(xs[0]) >= key(rest[k])
    {
      var y := rest[k];
      assert y in multiset(rest);
      if y != x {
        assert y in multiset(xs[1..]);
        var j :| 0 <= j < |xs[1..]| && xs[1..][j] == y;
        assert xs[j + 1] == y;
      }
    }
  }

  /** `order_by(key.desc())`: a permutation of `xs`, largest key first. */
  function SortDesc<T>(xs: seq<T>, key: T -> int): (r: seq<T>)
    ensures multiset(r) == multiset(xs)
    ensures SortedDesc(r, key)
  {
    if |xs| == 0 then []
    else
      assert xs == [xs[0]] + xs[1..];
      InsertDesc(xs[0], SortDesc(xs[1..], key), key)
  }

  /** `limit(n)`: the first `n` elements, or all of them when there are fewer. */
  function Take<T>(xs: seq<T>, n: nat): (r: seq<T>)
    ensures |r| == if |xs| < n then |xs| else n
    ensures r == xs[..|r|]
  {
    if |xs| < n then xs else xs[..n]
  }

  /** A prefix of a descending sequence holds its largest elements. */
  lemma {:induction false} PrefixHoldsLargest<T>(xs: seq<T>, key: T -> int, m: nat)
    requires SortedDesc(xs, key)
    requires m <= |xs|
    ensures forall x, k :: 0 <= k < m && multiset(xs[..m])[x] < multiset(xs)[x] ==> key(x) <= key(xs[k])
  {
    assert xs == xs[..m] + xs[m..];
    forall x, k | 0 <= k < m && multiset(xs[..m])[x] < multiset(xs)[x]
      ensures key(x) <= key(xs[k])
    {
      assert multiset(xs)[x] == multiset(xs[..m])[x] + multiset(xs[m..])[x];
      assert x in xs[m..];
      var j :| m <= j < |xs| && xs[j] == x;
    }
  }

  /** A prefix holds at most the elements of the whole. */
  lemma PrefixSubMultiset<T>(xs: seq<T>, m: nat)
    requires m <= |xs|
    ensures multiset(xs[..m]) <= multiset(xs)
  {
    assert xs == xs[..m] + xs[m..];
  }

  /** `r` is what `order_by(key.desc()).limit(n)` returns from `xs`: as many
      rows as the limit allows, taken from `xs`, largest key first, and no
      row left out has a larger key than one kept. */
  ghost predicate IsTop<T(!new)>(r: seq<T>, xs: seq<T>, key: T -> int, n: nat) {
    && |r| == (if |xs| < n then |xs| else n)
    && multiset(r) <= multiset(xs)
    && (|xs| <= n ==> multiset(r) == multiset(xs))
    && SortedDesc(r, key)
    && (forall x, k :: 0 <= k < |r| && multiset(r)[x] < multiset(xs)[x] ==> key(x) <= key(r[k]))
  }

  /** `order_by(key.desc()).limit(n)`: the `n` largest elements, largest first. */
  function TopDesc<T(!new)>(xs: seq<T>, key: T -> int, n: nat): (r: seq<T>)
    ensures IsTop(r, xs, key, n)
  {
    var sorted := SortDesc(xs, key);
    var r := Take(sorted, n);
    PrefixHoldsLargest(sorted, key, |r|);
    PrefixSubMultiset(sorted, |r|);
    assert |xs| <= n ==> r == sorted;
    r
  }

  /** Every `id` of `xs` is different. */
  ghost predicate DistinctIds<T>(xs: seq<T>, id: T -> nat) {
    forall i, j :: 0 <= i < j < |xs| ==> id(xs[i]) != id(xs[j])
  }

  /** The row id SQLite assigns on insert: one more than the largest id, 1 for an empty table. */
  function NextId<T(!new)>(xs: seq<T>, id: T -> nat): (r: nat)
    ensures r >= 1
    ensures forall x :: x in xs ==> id(x) < r
    ensures |xs| == 0 ==> r == 1
    ensures |xs| > 0 ==> exists x :: x in xs && id(x) + 1 == r
  {
    if |xs| == 0 then 1
    else
      var rest := NextId(xs[1..], id);
      assert forall x :: x in xs ==> x == xs[0] || x in xs[1..];
      if id(xs[0]) + 1 >= rest then id(xs[0]) + 1 else rest
  }

  /** Appending a row whose id is above every existing id keeps ids distinct. */
  lemma AppendFreshKeepsDistinct<T>(xs: seq<T>, y: T, id: T -> nat)
    requires forall x :: x in xs ==> id(x) < id(y)
    ensures DistinctIds(xs, id) ==> DistinctIds(xs + [y], id)
  {
    var ys := xs + [y];
    forall i, j | DistinctIds(xs, id) && 0 <= i < j < |ys|
      ensures id(ys[i]) != id(ys[j])
    {
      if j == |xs| {
        assert ys[i] in xs;
      }
    }
  }

  /** Replacing a row by one with the same id keeps ids distinct. */
  lemma ReplaceKeepsDistinct<T>(xs: seq<T>, i: nat, y: T, id: T -> nat)
    requires i < |xs| && id(y) == id(xs[i])
    ensures DistinctIds(xs, id) ==> DistinctIds(xs[i := y], id)
  {
  }

  /** Putting a row in front of rows with other ids keeps ids distinct. */
  lemma ConsKeepsDistinct<T>(a: T, rest: seq<T>, id: T -> nat)
    requires DistinctIds(rest, id)
    requires forall k :: 0 <= k < |rest| ==> id(rest[k]) != id(a)
    ensures DistinctIds([a] + rest, id)
  {
    var r := [a] + rest;
    forall i, j | 0 <= i < j < |r|
      ensures id(r[i]) != id(r[j])
    {
      assert r[j] == rest[j - 1];
      if i > 0 {
        assert r[i] == rest[i - 1];
      }
    }
  }

  /** Deleting rows keeps ids distinct. */
  lemma {:induction false} FilterKeepsDistinct<T(!new)>(xs: seq<T>, keep: T -> bool, id: T -> nat)
    requires DistinctIds(xs, id)
    ensures DistinctIds(Filter(xs, keep), id)
  {
    if |xs| > 0 {
      var tail := xs[1..];
      assert DistinctIds(tail, id);
      FilterKeepsDistinct(tail, keep, id);
      var rest := Filter(tail, keep);
      if keep(xs[0]) {
        forall k | 0 <= k < |rest|
          ensures id(rest[k]) != id(xs[0])
        {
          assert rest[k] in tail;
          var j :| 0 <= j < |tail| && tail[j] == rest[k];
          assert xs[j + 1] == rest[k];
        }
        ConsKeepsDistinct(xs[0], rest, id);
      }
    }
  }

  /** Deleting rows never breaks distinct ids (stated for any table). */
  lemma FilterPreservesDistinct<T(!new)>(xs: seq<T>, keep: T -> bool, id: T -> nat)
    ensures DistinctIds(xs, id) ==> DistinctIds(Filter(xs, keep), id)
  {
    if DistinctIds(xs, id) {
      FilterKeepsDistinct(xs, keep, id);
    }
  }

  /** Rows numbered in order from `base`: `stamp` writes the number into a row. */
  function Numbered<T>(xs: seq<T>, base: nat, stamp: (T, nat) -> T): (r: seq<T>)
    decreases |xs|
    ensures |r| == |xs|
    ensures forall k {:trigger xs[k]} :: 0 <= k < |xs| ==> r[k] == stamp(xs[k], base + k)
  {
    if |xs| == 0 then [] else [stamp(xs[0], base)] + Numbered(xs[1..], base + 1, stamp)
  }

  /** A suffix is its first element followed by the rest. */
  lemma DropCons<T>(xs: seq<T>, k: nat)
    requires k < |xs|
    ensures xs[k..] == [xs[k]] + xs[k + 1..]
  {
  }

  /** One step of the numbering: the first row takes `base`. */
  lemma NumberedUnfold<T>(xs: seq<T>, base: nat, stamp: (T, nat) -> T)
    requires |xs| > 0
    ensures Numbered(xs, base, stamp) == [stamp(xs[0], base)] + Numbered(xs[1..], base + 1, stamp)
  {
  }

  /** Where each row lands when a numbered block is appended. */
  lemma AppendNumbered<T>(rows: seq<T>, xs: seq<T>, base: nat, stamp: (T, nat) -> T)
    ensures var all := rows + Numbered(xs, base, stamp);
      && |all| == |rows| + |xs|
      && (forall k :: 0 <= k < |rows| ==> all[k] == rows[k])
      && (forall k :: 0 <= k < |xs| ==> all[|rows| + k] == stamp(xs[k], base + k))
  {
  }

  /** Appending rows numbered `base`, `base + 1`, ... above every existing id keeps ids distinct. */
  lemma BlockKeepsDistinct<T>(xs: seq<T>, rows: seq<T>, id: T -> nat, base: nat)
    requires forall x :: x in xs ==> id(x) < base
    requires forall k :: 0 <= k < |rows| ==> id(rows[k]) == base + k
    ensures DistinctIds(xs, id) ==> DistinctIds(xs + rows, id)
  {
    var all := xs + rows;
    forall i, j | DistinctIds(xs, id) && 0 <= i < j < |all|
      ensures id(all[i]) != id(all[j])
    {
      if j >= |xs| {
        assert all[j] == rows[j - |xs|];
        if i < |xs| {
          assert all[i] in xs;
        } else {
          assert all[i] == rows[i - |xs|];
        }
      }
    }
  }

  /** After inserting a row that took the next id, the next id is one more. */
  lemma NextIdAfterInsert<T(!new)>(xs: seq<T>, y: T, id: T -> nat)
    requires id(y) == NextId(xs, id)
    ensures NextId(xs + [y], id) == id(y) + 1
  {
    var all := xs + [y];
    assert y in all;
    var x :| x in all && id(x) + 1 == NextId(all, id);
    if x != y {
      assert x in xs;
    }
  }

  /** A block insert numbered from the next id is the first row inserted on
      its own, then the rest numbered from the id after it. */
  lemma NumberedOneByOne<T(!new)>(rows: seq<T>, xs: seq<T>, id: T -> nat, stamp: (T, nat) -> T)
    requires |xs| > 0
    requires id(stamp(xs[0], NextId(rows, id))) == NextId(rows, id)
    ensures var first := stamp(xs[0], NextId(rows, id));
      rows + Numbered(xs, NextId(rows, id), stamp)
      == (rows + [first]) + Numbered(xs[1..], NextId(rows + [first], id), stamp)
  {
    var base := NextId(rows, id);
    var first := stamp(xs[0], base);
    NextIdAfterInsert(rows, first, id);
    NumberedStep(rows, xs, base, NextId(rows + [first], id), stamp);
  }

  /** Appending a numbered block is appending its first row, then the rest
      numbered from `next`, the id after `base`. */
  lemma NumberedStep<T>(rows: seq<T>, xs: seq<T>, base: nat, next: nat, stamp: (T, nat) -> T)
    requires |xs| > 0 && next == base + 1
    ensures rows + Numbered(xs, base, stamp) == (rows + [stamp(xs[0], base)]) + Numbered(xs[1..], next, stamp)
  {
    NumberedUnfold(xs, base, stamp);
    var first := stamp(xs[0], base);
    var b := Numbered(xs[1..], next, stamp);
    assert rows + ([first] + b) == (rows + [first]) + b;
  }
}
