/** Go's container/heap, as replay and the record mirror use it: a binary heap in a slice, least at the root. */
module Heaps {
  type Order<!T> = (T, T) -> bool

  /** less is a strict total order. */
  ghost predicate Total<T(!new)>(less: Order<T>) {
    && (forall x :: !less(x, x))
    && (forall x, y :: less(x, y) || less(y, x) || x == y)
    && (forall x, y, z :: less(x, y) && less(y, z) ==> less(x, z))
  }

  function Parent(k: nat): nat
    requires k > 0
  {
    (k - 1) / 2
  }

  ghost predicate InPlace<T>(h: seq<T>, less: Order<T>, k: nat)
    requires 0 < k < |h|
  {
    !less(h[k], h[Parent(k)])
  }

  ghost predicate Heap<T>(h: seq<T>, less: Order<T>) {
    forall k {:trigger InPlace(h, less, k)} :: 0 < k < |h| ==> InPlace(h, less, k)
  }

  ghost predicate ChildrenInPlace<T>(h: seq<T>, less: Order<T>, hole: nat) {
    forall k {:trigger InPlace(h, less, k)} :: 0 < k < |h| && Parent(k) == hole ==> InPlace(h, less, k)
  }

  /** A heap but for the entry at hole; the entries below it still do not come before the one above it. */
  ghost predicate HeapBut<T>(h: seq<T>, less: Order<T>, hole: nat) {
    && (forall k {:trigger InPlace(h, less, k)} :: 0 < k < |h| && k != hole && Parent(k) != hole ==>
       InPlace(h, less, k))
    && (0 < hole < |h| ==>
          forall k {:trigger h[k]} :: 0 < k < |h| && Parent(k) == hole ==> !less(h[k], h[Parent(hole)]))
  }

  function Swapped<T>(h: seq<T>, a: nat, b: nat): seq<T>
    requires a < |h| && b < |h|
  {
    h[a := h[b]][b := h[a]]
  }

  lemma SwappedSame<T>(h: seq<T>, a: nat, b: nat)
    requires a < |h| && b < |h|
    ensures multiset(Swapped(h, a, b)) == multiset(h)
  {
  }

  lemma HoleUp<T(!new)>(h: seq<T>, less: Order<T>, k: nat)
    requires Total(less) && 0 < k < |h| && HeapBut(h, less, k) && ChildrenInPlace(h, less, k) && !InPlace(h, less, k)
    ensures var o := Swapped(h, k, Parent(k)); HeapBut(o, less, Parent(k)) && ChildrenInPlace(o, less, Parent(k))
  {
    var p := Parent(k);
    var o := Swapped(h, k, p);
    forall j: nat | 0 < j < |o| && j != p
      ensures InPlace(o, less, j)
      ensures Parent(j) == p && p > 0 ==> !less(o[j], o[Parent(p)])
    {
      if j != k {
        assert Parent(j) == k || InPlace(h, less, j);
      }
      if p > 0 {
        assert InPlace(h, less, p);
      }
    }
  }

  lemma HoleDown<T(!new)>(h: seq<T>, less: Order<T>, k: nat, c: nat)
    requires Total(less) && HeapBut(h, less, k) && 0 < c < |h| && Parent(c) == k && less(h[c], h[k])
    requires forall j {:trigger h[j]} :: 0 < j < |h| && Parent(j) == k ==> !less(h[j], h[c])
    ensures var o := Swapped(h, k, c);
            HeapBut(o, less, c) && (c < |o| && InPlace(o, less, c)) && (0 < k ==> InPlace(o, less, k))
  {
    var o := Swapped(h, k, c);
    forall j: nat | 0 < j < |o| && j != c
      ensures Parent(j) != c ==> InPlace(o, less, j)
      ensures Parent(j) == c ==> !less(o[j], o[k])
    {
      if j != k && Parent(j) != k {
        assert InPlace(h, less, j);
      }
    }
  }

  lemma {:induction false} RootIsLeast<T(!new)>(h: seq<T>, less: Order<T>, k: nat)
    requires Total(less) && Heap(h, less) && k < |h|
    ensures !less(h[k], h[0])
  {
    if k > 0 {
      RootIsLeast(h, less, Parent(k));
      assert InPlace(h, less, k);
    }
  }

  method Up<T(!new)>(h0: seq<T>, less: Order<T>, start: nat) returns (h: seq<T>)
    requires Total(less) && start < |h0| && HeapBut(h0, less, start) && ChildrenInPlace(h0, less, start)
    ensures Heap(h, less) && multiset(h) == multiset(h0) && |h| == |h0|
  {
    h := h0;
    var k: nat := start;
    while k > 0
      invariant k < |h| == |h0| && multiset(h) == multiset(h0) && HeapBut(h, less, k) && ChildrenInPlace(h, less, k)
    {
      var parent := (k - 1) / 2;
      if !less(h[k], h[parent]) {
        return;
      }
      HoleUp(h, less, k);
      SwappedSame(h, k, parent);
      h := h[k := h[parent]][parent := h[k]];
      k := parent;
    }
  }

  lemma HoleFilled<T(!new)>(h: seq<T>, less: Order<T>, k: nat)
    requires HeapBut(h, less, k) && ChildrenInPlace(h, less, k) && (0 < k < |h| ==> InPlace(h, less, k))
    ensures Heap(h, less)
  {
  }

  /** Which of the entry at k and its children comes first. */
  method First<T(!new)>(h: seq<T>, less: Order<T>, k: nat) returns (c: nat)
    requires Total(less) && k <= |h|
    ensures c == k ==> ChildrenInPlace(h, less, k)
    ensures c != k ==> 0 < c < |h| && Parent(c) == k && k < c && less(h[c], h[k])
    ensures c < |h| ==> forall j {:trigger h[j]} :: 0 < j < |h| && Parent(j) == k ==> !less(h[j], h[c])
  {
    c := 2 * k + 1;
    if c >= |h| {
      return k;
    }
    if c + 1 < |h| && less(h[c + 1], h[c]) {
      c := c + 1;
    }
    if !less(h[c], h[k]) {
      c := k;
    }
  }

  method Down<T(!new)>(h0: seq<T>, less: Order<T>) returns (h: seq<T>)
    requires Total(less) && HeapBut(h0, less, 0)
    ensures Heap(h, less) && multiset(h) == multiset(h0) && |h| == |h0|
  {
    h := h0;
    var k: nat := 0;
    while true
      invariant |h| == |h0| && multiset(h) == multiset(h0) && HeapBut(h, less, k)
      invariant 0 < k ==> k < |h| && InPlace(h, less, k)
      decreases |h0| - k
    {
      var c := First(h, less, k);
      if c == k {
        HoleFilled(h, less, k);
        return;
      }
      HoleDown(h, less, k, c);
      SwappedSame(h, k, c);
      h := Swapped(h, k, c);
      k := c;
    }
  }

  method Push<T(!new)>(h0: seq<T>, less: Order<T>, x: T) returns (h: seq<T>)
    requires Total(less) && Heap(h0, less)
    ensures Heap(h, less) && multiset(h) == multiset(h0) + multiset{x} && |h| == |h0| + 1
  {
    h := h0 + [x];
    forall j: nat | 0 < j < |h| && j != |h0|
      ensures InPlace(h, less, j)
    {
      assert InPlace(h0, less, j);
    }
    h := Up(h, less, |h0|);
  }

  /** Restores the order after the root changed. */
  method FixRoot<T(!new)>(h0: seq<T>, less: Order<T>, x: T) returns (h: seq<T>)
    requires Total(less) && Heap(h0, less) && h0 != []
    ensures Heap(h, less) && multiset(h) == multiset(h0) - multiset{h0[0]} + multiset{x} && |h| == |h0|
  {
    h := h0[0 := x];
    forall j: nat | 0 < j < |h| && Parent(j) != 0
      ensures InPlace(h, less, j)
    {
      assert InPlace(h0, less, j);
    }
    h := Down(h, less);
  }

  /** Takes the root away. */
  method Pop<T(!new)>(h0: seq<T>, less: Order<T>) returns (h: seq<T>)
    requires Total(less) && Heap(h0, less) && h0 != []
    ensures Heap(h, less) && multiset(h) == multiset(h0) - multiset{h0[0]} && |h| == |h0| - 1
  {
    var last := |h0| - 1;
    h := h0[0 := h0[last]][..last];
    forall j: nat | 0 < j < |h| && Parent(j) != 0
      ensures InPlace(h, less, j)
    {
      assert InPlace(h0, less, j);
    }
    assert h0 == [h0[0]] + h0[1..];
    if last > 0 {
      assert h0 == [h0[0]] + h0[1..last] + [h0[last]];
      assert h == [h0[last]] + h0[1..last];
    }
    h := Down(h, less);
  }
}
