/** The stable descending sort that the generator obtains from
    `Array.prototype.sort((a, b) => key(b) - key(a))`, and facts about
    permutations that the rest of the model relies on. */
module Sorting {

  predicate Descending<T>(xs: seq<T>, key: T -> int) {
    forall i, j :: 0 <= i < j < |xs| ==> key(xs[i]) >= key(xs[j])
  }

  /** No two elements share a projection. */
  predicate DistinctBy<T, K(==)>(xs: seq<T>, proj: T -> K) {
    forall i, j :: 0 <= i < j < |xs| ==> proj(xs[i]) != proj(xs[j])
  }

  /** The elements whose key is `k`, in order. */
  function WithKey<T>(xs: seq<T>, key: T -> int, k: int): seq<T> {
    if xs == [] then []
    else (if key(xs[0]) == k then [xs[0]] else []) + WithKey(xs[1..], key, k)
  }

  /** Puts `x` in front of the first element whose key is not larger. */
  function Insert<T>(x: T, ys: seq<T>, key: T -> int): (r: seq<T>)
    ensures multiset(r) == multiset([x] + ys)
    ensures |r| == |ys| + 1
  {
    if ys == [] || key(ys[0]) <= key(x) then [x] + ys
    else
      assert ys == [ys[0]] + ys[1..];
      [ys[0]] + Insert(x, ys[1..], key)
  }

  lemma {:induction false} InsertDescending<T>(x: T, ys: seq<T>, key: T -> int)
    requires Descending(ys, key)
    ensures Descending(Insert(x, ys, key), key)
  {
    if ys != [] && key(ys[0]) > key(x) {
      var t := Insert(x, ys[1..], key);
      InsertDescending(x, ys[1..], key);
      var r := [ys[0]] + t;
      assert Insert(x, ys, key) == r;
      // the head of `t` is `x` or `ys[1]`, neither above `ys[0]`
      assert t[0] == x || t[0] == ys[1];
      forall i, j | 0 <= i < j < |r| ensures key(r[i]) >= key(r[j]) {
        assert r[j] == t[j - 1];
        if i > 0 {
          assert r[i] == t[i - 1];
        } else {
          assert key(t[0]) >= key(t[j - 1]);
        }
      }
    }
  }

  /** Stable sort by descending key (insertion sort). */
  function SortDesc<T>(xs: seq<T>, key: T -> int): (r: seq<T>)
    ensures multiset(r) == multiset(xs)
    ensures |r| == |xs|
    ensures Descending(r, key)
  {
    if xs == [] then []
    else
      assert xs == [xs[0]] + xs[1..];
      var t := SortDesc(xs[1..], key);
      InsertDescending(xs[0], t, key);
      Insert(xs[0], t, key)
  }

  lemma {:induction false} InsertWithKey<T>(x: T, ys: seq<T>, key: T -> int, k: int)
    requires Descending(ys, key)
    ensures WithKey(Insert(x, ys, key), key, k) == WithKey([x] + ys, key, k)
  {
    if ys == [] || key(ys[0]) <= key(x) {
    } else {
      InsertWithKey(x, ys[1..], key, k);
      var t := Insert(x, ys[1..], key);
      assert ([ys[0]] + t)[1..] == t;
      assert ([x] + ys)[1..] == ys;
      assert ([x] + ys[1..])[1..] == ys[1..];
      if key(ys[0]) == k {
        // x lands after ys[0], so the elements with key k keep their order
        assert key(x) < k;
      }
    }
  }

  /** Stability: the elements that share a key come out in their input order. */
  lemma {:induction false} SortDescStable<T>(xs: seq<T>, key: T -> int, k: int)
    ensures WithKey(SortDesc(xs, key), key, k) == WithKey(xs, key, k)
  {
    if xs != [] {
      SortDescStable(xs[1..], key, k);
      InsertWithKey(xs[0], SortDesc(xs[1..], key), key, k);
    }
  }

  /** Removing one element of a sequence with distinct projections. */
  lemma RemoveAt<T, K>(a: seq<T>, k: nat, proj: T -> K) returns (a': seq<T>)
    requires k < |a|
    requires DistinctBy(a, proj)
    ensures multiset(a') == multiset(a) - multiset{a[k]}
    ensures DistinctBy(a', proj)
    ensures forall z :: z in a' ==> proj(z) != proj(a[k])
  {
    a' := a[..k] + a[k + 1..];
    assert a == a[..k] + [a[k]] + a[k + 1..];
    forall i, j | 0 <= i < j < |a'| ensures proj(a'[i]) != proj(a'[j]) {
      var i' := if i < k then i else i + 1;
      var j' := if j < k then j else j + 1;
      assert a'[i] == a[i'] && a'[j] == a[j'];
    }
    forall z | z in a' ensures proj(z) != proj(a[k]) {
      var m :| 0 <= m < |a'| && a'[m] == z;
      var m' := if m < k then m else m + 1;
      assert a[m'] == z;
    }
  }

  /** Rearranging a sequence keeps its elements' projections pairwise distinct. */
  lemma {:induction false} PermutationKeepsDistinctBy<T, K>(a: seq<T>, b: seq<T>, proj: T -> K)
    requires multiset(a) == multiset(b)
    requires DistinctBy(a, proj)
    ensures DistinctBy(b, proj)
    decreases |b|
  {
    if b != [] {
      assert b[0] in multiset(a);
      var k :| 0 <= k < |a| && a[k] == b[0];
      var a' := RemoveAt(a, k, proj);
      assert b == [b[0]] + b[1..];
      assert multiset(a') == multiset(b[1..]);
      PermutationKeepsDistinctBy(a', b[1..], proj);
      forall z | z in b[1..] ensures proj(z) != proj(b[0]) {
        assert z in multiset(a');
      }
      ConsDistinct(b, proj);
    }
  }

  /** Appending an element whose projection is new keeps the projections distinct. */
  lemma SnocDistinct<T, K>(xs: seq<T>, x: T, proj: T -> K)
    requires DistinctBy(xs, proj)
    requires forall k :: 0 <= k < |xs| ==> proj(xs[k]) != proj(x)
    ensures DistinctBy(xs + [x], proj)
  {
    var ys := xs + [x];
    forall i, j | 0 <= i < j < |ys| ensures proj(ys[i]) != proj(ys[j]) {
      assert ys[i] == xs[i];
      if j < |xs| {
        assert ys[j] == xs[j];
      }
    }
  }

  lemma ConsDistinct<T, K>(b: seq<T>, proj: T -> K)
    requires b != []
    requires DistinctBy(b[1..], proj)
    requires forall z :: z in b[1..] ==> proj(z) != proj(b[0])
    ensures DistinctBy(b, proj)
  {
    forall i, j | 0 <= i < j < |b| ensures proj(b[i]) != proj(b[j]) {
      assert b[j] == b[1..][j - 1];
      if i > 0 {
        assert b[i] == b[1..][i - 1];
      }
    }
  }

  /** `xs` is `ys` with some elements left out and the rest kept in order. */
  predicate Subsequence<T(==)>(xs: seq<T>, ys: seq<T>)
    decreases |ys|
  {
    xs == [] || (ys != [] && ((xs[0] == ys[0] && Subsequence(xs[1..], ys[1..])) || Subsequence(xs, ys[1..])))
  }

  lemma {:induction false} SubsequenceMembers<T>(xs: seq<T>, ys: seq<T>)
    requires Subsequence(xs, ys)
    ensures forall x :: x in xs ==> x in ys
    decreases |ys|
  {
    if xs != [] {
      if xs[0] == ys[0] && Subsequence(xs[1..], ys[1..]) {
        SubsequenceMembers(xs[1..], ys[1..]);
        assert xs == [xs[0]] + xs[1..];
      } else {
        SubsequenceMembers(xs, ys[1..]);
      }
    }
  }

  /** A subsequence stays one when an element is added to the end of the
      longer sequence, and when it is added to the end of both. */
  lemma {:induction false} SubsequenceExtend<T>(xs: seq<T>, ys: seq<T>, y: T)
    requires Subsequence(xs, ys)
    ensures Subsequence(xs, ys + [y])
    ensures Subsequence(xs + [y], ys + [y])
    decreases |ys|
  {
    if ys == [] {
      assert ([] + [y])[1..] == [];
    } else {
      assert (ys + [y])[1..] == ys[1..] + [y];
      if xs == [] {
        SubsequenceExtend([], ys[1..], y);
        assert [] + [y] == [y];
      } else if xs[0] == ys[0] && Subsequence(xs[1..], ys[1..]) {
        SubsequenceExtend(xs[1..], ys[1..], y);
        assert (xs + [y])[1..] == xs[1..] + [y];
      } else {
        SubsequenceExtend(xs, ys[1..], y);
      }
    }
  }

  /** A subsequence of a prefix is a subsequence of the whole. */
  lemma {:induction false} SubsequenceOfPrefix<T>(xs: seq<T>, ys: seq<T>, i: nat)
    requires i <= |ys| && Subsequence(xs, ys[..i])
    ensures Subsequence(xs, ys)
    decreases |ys| - i
  {
    if i == |ys| {
      assert ys[..i] == ys;
    } else {
      SubsequenceExtend(xs, ys[..i], ys[i]);
      assert ys[..i] + [ys[i]] == ys[..i + 1];
      SubsequenceOfPrefix(xs, ys, i + 1);
    }
  }

  predicate Increasing(xs: seq<nat>) {
    forall a, b :: 0 <= a < b < |xs| ==> xs[a] < xs[b]
  }

  lemma IncreasingSnoc(xs: seq<nat>, x: nat)
    requires Increasing(xs) && forall k :: 0 <= k < |xs| ==> xs[k] < x
    ensures Increasing(xs + [x])
  {
  }

  /** `p` holds of each element of `xs` with the element of `ys` at the same index. */
  predicate Pairwise<A, B>(xs: seq<A>, ys: seq<B>, p: (A, B) -> bool) {
    |xs| == |ys| && forall k :: 0 <= k < |xs| ==> p(xs[k], ys[k])
  }

  lemma PairwiseSnoc<A, B>(xs: seq<A>, ys: seq<B>, p: (A, B) -> bool, x: A, y: B)
    requires Pairwise(xs, ys, p) && p(x, y)
    ensures Pairwise(xs + [x], ys + [y], p)
  {
    assert forall k :: 0 <= k < |xs| ==> (xs + [x])[k] == xs[k] && (ys + [y])[k] == ys[k];
  }

  /** A left-to-right scan of the indexes below `i`: `picked` holds, in
      increasing order, the indexes taken, each paired with its item of
      `items` by `taken`, and every index passed over satisfies `skipped`. */
  predicate Scanned<T>(items: seq<T>, picked: seq<nat>, i: nat, taken: (T, nat) -> bool, skipped: nat -> bool) {
    && Increasing(picked)
    && Pairwise(items, picked, taken)
    && (forall k :: 0 <= k < |picked| ==> picked[k] < i)
    && (forall j :: 0 <= j < i && j !in picked ==> skipped(j))
  }

  /** Taking index `i` with its item `x` extends the scan. */
  lemma ScanTake<T>(items: seq<T>, picked: seq<nat>, i: nat, taken: (T, nat) -> bool, skipped: nat -> bool, x: T)
    requires Scanned(items, picked, i, taken, skipped) && taken(x, i)
    ensures Scanned(items + [x], picked + [i], i + 1, taken, skipped)
  {
    IncreasingSnoc(picked, i);
    PairwiseSnoc(items, picked, taken, x, i);
    forall j | 0 <= j < i + 1 && j !in picked + [i] ensures skipped(j) {
      assert j !in picked;
    }
  }

  /** Passing over index `i` extends the scan. */
  lemma ScanSkip<T>(items: seq<T>, picked: seq<nat>, i: nat, taken: (T, nat) -> bool, skipped: nat -> bool)
    requires Scanned(items, picked, i, taken, skipped) && skipped(i)
    ensures Scanned(items, picked, i + 1, taken, skipped)
  {
  }
}
