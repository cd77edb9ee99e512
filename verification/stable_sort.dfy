/**
 `list.sort(key=..., reverse=True)` on integer keys: Python's sort is
 stable even when reversed, so items with equal keys keep their order. The
 sort is modelled on positions: the result lists the positions `0 .. n-1`
 of the items, largest key first, ties in their original order.
 */
module StableSort {

  /** `order` lists each of the positions `0 .. n-1` exactly once. */
  predicate Arrangement(order: seq<nat>, n: nat) {
    && |order| == n
    && (forall i :: 0 <= i < |order| ==> order[i] < n)
    && (forall i, j :: 0 <= i < j < |order| ==> order[i] != order[j])
  }

  /** Keys do not increase along `order`. */
  predicate Descending(keys: seq<int>, order: seq<nat>)
    requires forall i :: 0 <= i < |order| ==> order[i] < |keys|
  {
    forall i, j :: 0 <= i < j < |order| ==> keys[order[i]] >= keys[order[j]]
  }

  /** Positions with equal keys appear in their original order. */
  predicate TiesInOrder(keys: seq<int>, order: seq<nat>)
    requires forall i :: 0 <= i < |order| ==> order[i] < |keys|
  {
    forall i, j :: 0 <= i < j < |order| && keys[order[i]] == keys[order[j]] ==> order[i] < order[j]
  }

  /** What sorting the first `n` items stably by descending key gives. */
  predicate SortedPrefix(keys: seq<int>, n: nat, order: seq<nat>)
    requires n <= |keys|
  {
    Arrangement(order, n) && Descending(keys, order) && TiesInOrder(keys, order)
  }

  /** Where `x` goes in a descending `order`: after every key at least as large as its own. */
  function InsertAt(keys: seq<int>, x: nat, order: seq<nat>): (p: nat)
    requires x < |keys| && forall i :: 0 <= i < |order| ==> order[i] < |keys|
    ensures p <= |order|
    ensures forall i :: 0 <= i < p ==> keys[order[i]] >= keys[x]
    ensures p < |order| ==> keys[order[p]] < keys[x]
  {
    if |order| == 0 || keys[order[0]] < keys[x] then 0
    else 1 + InsertAt(keys, x, order[1..])
  }

  /** The first `n` positions inserted one after another, each new one after the keys at least as large as its own. */
  function Insertion(keys: seq<int>, n: nat): (order: seq<nat>)
    requires n <= |keys|
    ensures |order| == n && forall i :: 0 <= i < n ==> order[i] < n
  {
    if n == 0 then []
    else
      var prev := Insertion(keys, n - 1);
      var p := InsertAt(keys, n - 1, prev);
      InsertShape(n - 1, prev, p);
      prev[..p] + [n - 1] + prev[p..]
  }

  /** The positions of the first `n` items in stably sorted, descending key order. */
  function Sort(keys: seq<int>, n: nat): (order: seq<nat>)
    requires n <= |keys|
    ensures SortedPrefix(keys, n, order)
  {
    InsertionSorted(keys, n);
    Insertion(keys, n)
  }

  /** Each insertion keeps the order an arrangement, descending and stable. */
  lemma {:induction false} InsertionSorted(keys: seq<int>, n: nat)
    requires n <= |keys|
    ensures SortedPrefix(keys, n, Insertion(keys, n))
  {
    if n > 0 {
      var prev := Insertion(keys, n - 1);
      InsertionSorted(keys, n - 1);
      InsertSorted(keys, n - 1, prev, InsertAt(keys, n - 1, prev));
    }
  }

  /** Inserting the next position where `InsertAt` puts it keeps the order sorted and stable. */
  lemma InsertSorted(keys: seq<int>, x: nat, prev: seq<nat>, p: nat)
    requires x < |keys| && SortedPrefix(keys, x, prev)
    requires p == InsertAt(keys, x, prev)
    ensures SortedPrefix(keys, x + 1, prev[..p] + [x] + prev[p..])
  {
    InsertArrangement(x, prev, p);
    InsertDescending(keys, x, prev, p);
    InsertTies(keys, x, prev, p);
  }

  /** Where the elements of `prev` end up after inserting `x` at `p`. */
  lemma InsertShape(x: nat, prev: seq<nat>, p: nat)
    requires p <= |prev|
    ensures var order := prev[..p] + [x] + prev[p..];
      && |order| == |prev| + 1 && order[p] == x
      && (forall i :: 0 <= i < p ==> order[i] == prev[i])
      && (forall i :: p < i < |order| ==> order[i] == prev[i - 1])
  {
  }

  lemma InsertArrangement(x: nat, prev: seq<nat>, p: nat)
    requires Arrangement(prev, x) && p <= |prev|
    ensures Arrangement(prev[..p] + [x] + prev[p..], x + 1)
  {
    InsertShape(x, prev, p);
  }

  /** Keys after the insertion point are all smaller than the inserted one. */
  lemma AfterSmaller(keys: seq<int>, x: nat, prev: seq<nat>, p: nat)
    requires x < |keys| && SortedPrefix(keys, x, prev)
    requires p == InsertAt(keys, x, prev)
    ensures forall i :: p <= i < |prev| ==> keys[prev[i]] < keys[x]
  {
    forall i | p <= i < |prev|
      ensures keys[prev[i]] < keys[x]
    {
      assert keys[prev[i]] <= keys[prev[p]];
    }
  }

  lemma InsertDescending(keys: seq<int>, x: nat, prev: seq<nat>, p: nat)
    requires x < |keys| && SortedPrefix(keys, x, prev)
    requires p == InsertAt(keys, x, prev)
    ensures Descending(keys, prev[..p] + [x] + prev[p..])
  {
    InsertShape(x, prev, p);
    AfterSmaller(keys, x, prev, p);
  }

  lemma InsertTies(keys: seq<int>, x: nat, prev: seq<nat>, p: nat)
    requires x < |keys| && SortedPrefix(keys, x, prev)
    requires p == InsertAt(keys, x, prev)
    ensures TiesInOrder(keys, prev[..p] + [x] + prev[p..])
  {
    InsertShape(x, prev, p);
    AfterSmaller(keys, x, prev, p);
  }

  /** `order` applied to `items`: the items in sorted order. */
  function Arrange<T>(items: seq<T>, order: seq<nat>): (r: seq<T>)
    requires forall i :: 0 <= i < |order| ==> order[i] < |items|
    ensures |r| == |order| && forall i :: 0 <= i < |order| ==> r[i] == items[order[i]]
  {
    seq(|order|, i requires 0 <= i < |order| => items[order[i]])
  }

  /** `sorted(items, key=..., reverse=True)` for items whose keys are `keys`. */
  function SortDescending<T>(items: seq<T>, keys: seq<int>): (r: seq<T>)
    requires |keys| == |items|
    ensures |r| == |items|
  {
    Arrange(items, Sort(keys, |keys|))
  }

  /** Sorting the first `n` items rearranges them: the same items with the same multiplicities. */
  lemma {:induction false} InsertionPermutes<T>(items: seq<T>, keys: seq<int>, n: nat)
    requires |keys| == |items| && n <= |keys|
    ensures multiset(Arrange(items, Insertion(keys, n))) == multiset(items[..n])
  {
    if n > 0 {
      var prev := Insertion(keys, n - 1);
      var p := InsertAt(keys, n - 1, prev);
      var order := Insertion(keys, n);
      assert order == prev[..p] + [n - 1] + prev[p..];
      var a := Arrange(items, prev);
      var x := items[n - 1];
      InsertionPermutes(items, keys, n - 1);
      ArrangeInsert(items, n - 1, prev, p);
      assert Arrange(items, order) == a[..p] + [x] + a[p..];
      MultisetInsert(a, x, p);
      LastItem(items, n);
    }
  }

  lemma LastItem<T>(items: seq<T>, n: nat)
    requires 0 < n <= |items|
    ensures multiset(items[..n]) == multiset(items[..n - 1]) + multiset{items[n - 1]}
  {
    assert items[..n] == items[..n - 1] + [items[n - 1]];
  }

  /** Arranging after an insertion inserts the item at the same place. */
  lemma ArrangeInsert<T>(items: seq<T>, x: nat, prev: seq<nat>, p: nat)
    requires x < |items| && p <= |prev| && forall i :: 0 <= i < |prev| ==> prev[i] < |items|
    ensures Arrange(items, prev[..p] + [x] + prev[p..]) == Arrange(items, prev)[..p] + [items[x]] + Arrange(items, prev)[p..]
  {
    InsertShape(x, prev, p);
  }

  lemma MultisetInsert<T>(a: seq<T>, x: T, p: nat)
    requires p <= |a|
    ensures multiset(a[..p] + [x] + a[p..]) == multiset(a) + multiset{x}
  {
    assert a == a[..p] + a[p..];
  }

  /**
   `sorted(items, key=..., reverse=True)` is a permutation of the items, in
   descending key order, with items of equal key in their original order.
   */
  lemma SortDescendingSpec<T>(items: seq<T>, keys: seq<int>)
    requires |keys| == |items|
    ensures var order := Sort(keys, |keys|);
      && multiset(SortDescending(items, keys)) == multiset(items)
      && (forall i :: 0 <= i < |items| ==> SortDescending(items, keys)[i] == items[order[i]])
      && (forall i, j :: 0 <= i < j < |items| ==> keys[order[i]] >= keys[order[j]])
      && (forall i, j :: 0 <= i < j < |items| && keys[order[i]] == keys[order[j]] ==> order[i] < order[j])
  {
    InsertionPermutes(items, keys, |keys|);
    assert items[..|keys|] == items;
  }
}
