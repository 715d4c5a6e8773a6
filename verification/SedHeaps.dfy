/** The indexed min-heap of positions by distance (server/simplify.go). */
module SedHeaps {
  function Parent(k: nat): nat
    requires k > 0
  {
    (k - 1) / 2
  }

  ghost predicate Within(order: seq<nat>, d: seq<real>) { forall k :: 0 <= k < |order| ==> order[k] < |d| }

  /** Position i comes before position j: nearer its neighbours' line, or as near and lower. */
  predicate Before(d: seq<real>, i: nat, j: nat)
    requires i < |d| && j < |d|
  {
    d[i] < d[j] || (d[i] == d[j] && i < j)
  }

  /** The entry at k does not come before its parent. */
  ghost predicate InPlace(order: seq<nat>, d: seq<real>, k: nat)
    requires Within(order, d) && 0 < k < |order|
  {
    !Before(d, order[k], order[Parent(k)])
  }

  /** Every entry whose parent is at lo or after is in place. */
  ghost predicate HeapFrom(order: seq<nat>, d: seq<real>, lo: nat)
    requires Within(order, d)
  {
    forall k {:trigger InPlace(order, d, k)} :: 0 < k < |order| && Parent(k) >= lo ==> InPlace(order, d, k)
  }

  ghost predicate ChildrenInPlace(order: seq<nat>, d: seq<real>, hole: nat)
    requires Within(order, d)
  {
    forall k {:trigger InPlace(order, d, k)} :: 0 < k < |order| && Parent(k) == hole ==> InPlace(order, d, k)
  }

  /** As HeapFrom, but for the entry at hole, whose distance may be anything; the entries below it still do not
      come before the one above it. */
  ghost predicate HeapBut(order: seq<nat>, d: seq<real>, lo: nat, hole: nat)
    requires Within(order, d)
  {
    && (forall k {:trigger InPlace(order, d, k)} ::
       0 < k < |order| && Parent(k) >= lo && k != hole && Parent(k) != hole ==> InPlace(order, d, k))
    && (0 < hole < |order| && Parent(hole) >= lo ==>
          forall k {:trigger order[k]} ::
            0 < k < |order| && Parent(k) == hole ==> !Before(d, order[k], order[Parent(hole)]))
  }

  function Swapped(order: seq<nat>, a: nat, b: nat): seq<nat>
    requires a < |order| && b < |order|
  {
    order[a := order[b]][b := order[a]]
  }

  /** An entry that comes before its parent takes its parent's place: the hole moves up. */
  lemma HoleUp(order: seq<nat>, d: seq<real>, k: nat)
    requires Within(order, d) && 0 < k < |order| && HeapBut(order, d, 0, k) && ChildrenInPlace(order, d, k)
    requires !InPlace(order, d, k)
    ensures var o := Swapped(order, k, Parent(k));
            Within(o, d) && HeapBut(o, d, 0, Parent(k)) && ChildrenInPlace(o, d, Parent(k))
  {
    var p := Parent(k);
    var o := Swapped(order, k, p);
    forall j: nat | 0 < j < |o| && j != p
      ensures InPlace(o, d, j)
      ensures Parent(j) == p && p > 0 ==> !Before(d, o[j], o[Parent(p)])
    {
      if j != k {
        assert Parent(j) == k || InPlace(order, d, j);
      }
      if p > 0 {
        assert InPlace(order, d, p);
      }
    }
  }

  /** An entry that comes after its first child takes that child's place: the hole moves down, and the child sits
      well where the hole was. */
  lemma HoleDown(order: seq<nat>, d: seq<real>, lo: nat, k: nat, c: nat)
    requires Within(order, d) && lo <= k && HeapBut(order, d, lo, k)
    requires 0 < c < |order| && Parent(c) == k && Before(d, order[c], order[k])
    requires forall j {:trigger order[j]} :: 0 < j < |order| && Parent(j) == k ==> !Before(d, order[j], order[c])
    ensures var o := Swapped(order, k, c);
            && Within(o, d) && HeapBut(o, d, lo, c) && (c < |o| && InPlace(o, d, c))
            && (0 < k && Parent(k) >= lo ==> InPlace(o, d, k))
  {
    var o := Swapped(order, k, c);
    forall j: nat | 0 < j < |o| && Parent(j) >= lo && j != c
      ensures Parent(j) != c ==> InPlace(o, d, j)
      ensures Parent(j) == c ==> !Before(d, o[j], o[k])
    {
      if j != k && Parent(j) != k {
        assert InPlace(order, d, j);
      }
    }
  }

  lemma HoleFilled(order: seq<nat>, d: seq<real>, lo: nat, k: nat)
    requires Within(order, d) && HeapBut(order, d, lo, k) && ChildrenInPlace(order, d, k)
    requires 0 < k < |order| && Parent(k) >= lo ==> InPlace(order, d, k)
    ensures HeapFrom(order, d, lo)
  {
  }

  /** The root of a heap comes before every other entry. */
  lemma {:induction false} RootIsLeast(order: seq<nat>, d: seq<real>, k: nat)
    requires Within(order, d) && HeapFrom(order, d, 0) && k < |order|
    ensures !Before(d, order[k], order[0])
  {
    if k > 0 {
      RootIsLeast(order, d, Parent(k));
      assert InPlace(order, d, k);
    }
  }

  /** Changing the distance of the position at k leaves a hole there and nothing else out of place. */
  lemma HoleWhereChanged(order: seq<nat>, d: seq<real>, k: nat, distance: real)
    requires Within(order, d) && HeapFrom(order, d, 0) && k < |order|
    requires forall j :: 0 <= j < |order| && j != k ==> order[j] != order[k]
    ensures HeapBut(order, d[order[k] := distance], 0, k)
  {
    var e := d[order[k] := distance];
    forall j: nat | 0 < j < |order|
      ensures j != k && Parent(j) != k ==> InPlace(order, e, j)
      ensures Parent(j) == k && k > 0 ==> !Before(e, order[j], order[Parent(k)])
    {
      assert InPlace(order, d, j);
      if k > 0 {
        assert InPlace(order, d, k);
      }
    }
  }

  /** The last entry moved to the root of the entries that remain is the only one out of place. */
  lemma HoleAtRoot(order: seq<nat>, d: seq<real>)
    requires Within(order, d) && HeapFrom(order, d, 0) && order != []
    ensures var o := Swapped(order, 0, |order| - 1)[..|order| - 1];
            HeapBut(o, d, 0, 0)
  {
    var o := Swapped(order, 0, |order| - 1)[..|order| - 1];
    forall j: nat | 0 < j < |o| && Parent(j) != 0
      ensures InPlace(o, d, j)
    {
      assert InPlace(order, d, j);
    }
  }

  /** Positions in heap order, the distance of each, and where in the order each sits, -1 when it does not. */
  class SedHeap {
    var order: seq<nat>
    const d: array<real>
    const at: array<int>

    constructor (n: nat)
      ensures fresh(d) && fresh(at) && d.Length == at.Length == n && order == []
      ensures forall i :: 0 <= i < n ==> at[i] == -1
    {
      order := [];
      d := new real[n];
      at := new int[n](_ => -1);
    }

    /** order and at are inverse to each other. */
    ghost predicate Valid()
      reads this, at
    {
      && d.Length == at.Length
      && (forall k :: 0 <= k < |order| ==> order[k] < at.Length && at[order[k]] == k)
      && (forall i :: 0 <= i < at.Length ==> at[i] == -1 || (0 <= at[i] < |order| && order[at[i]] == i))
    }

    /** The positions in the heap. */
    ghost function Members(): set<nat>
      reads this, at
    {
      set i | 0 <= i < at.Length && at[i] >= 0
    }

    ghost predicate Heap()
      requires Valid()
      reads this, d, at
    {
      HeapFrom(order, d[..], 0)
    }

    method Less(a: nat, b: nat) returns (r: bool)
      requires Valid() && a < |order| && b < |order|
      ensures r <==> Before(d[..], order[a], order[b])
    {
      var i, j := order[a], order[b];
      r := d[i] < d[j] || (d[i] == d[j] && i < j);
    }

    method Swap(a: nat, b: nat)
      requires Valid() && a < |order| && b < |order|
      modifies this`order, at
      ensures Valid() && Members() == old(Members()) && order == Swapped(old(order), a, b)
    {
      order := order[a := order[b]][b := order[a]];
      at[order[a]], at[order[b]] := a, b;
    }

    method Up(start: nat)
      requires Valid() && start < |order| && HeapBut(order, d[..], 0, start) && ChildrenInPlace(order, d[..], start)
      modifies this`order, at
      ensures Valid() && Heap() && Members() == old(Members()) && |order| == old(|order|)
    {
      var k: nat := start;
      while k > 0
        invariant k < |order| == old(|order|) && Valid() && Members() == old(Members())
        invariant HeapBut(order, d[..], 0, k) && ChildrenInPlace(order, d[..], k)
      {
        var parent := (k - 1) / 2;
        var less := Less(k, parent);
        if !less {
          HoleFilled(order, d[..], 0, k);
          return;
        }
        HoleUp(order, d[..], k);
        Swap(k, parent);
        k := parent;
      }
      HoleFilled(order, d[..], 0, k);
    }

    /** Which of the entry at k and its children comes first. */
    method Least(k: nat) returns (least: nat)
      requires Valid() && k <= |order|
      ensures least == k || (k < least < |order| && Parent(least) == k && Before(d[..], order[least], order[k]))
      ensures least < |order| ==> forall c {:trigger order[c]} :: 0 < c < |order| && Parent(c) == k ==>
              !Before(d[..], order[c], order[least])
    {
      var n := |order|;
      var l, r := 2 * k + 1, 2 * k + 2;
      least := k;
      if l < n {
        var less := Less(l, least);
        if less {
          least := l;
        }
      }
      if r < n {
        var less := Less(r, least);
        if less {
          least := r;
        }
      }
    }

    /** Swaps an entry with its first child until it comes before both; moved says whether it had to. */
    method Down(start: nat, ghost lo: nat) returns (moved: bool)
      requires Valid() && start <= |order| && lo <= start && HeapBut(order, d[..], lo, start)
      modifies this`order, at
      ensures Valid() && Members() == old(Members()) && |order| == old(|order|)
      ensures moved ==> HeapFrom(order, d[..], lo)
      ensures !moved ==> HeapBut(order, d[..], lo, start) && ChildrenInPlace(order, d[..], start)
    {
      var k: nat, n := start, |order|;
      while true
        invariant start <= k && (k < n || k == start) && n == |order| == old(|order|) && Valid()
                  && Members() == old(Members())
        invariant HeapBut(order, d[..], lo, k)
        invariant k > start ==> k > 0 && InPlace(order, d[..], k)
        decreases n - k
      {
        var least := Least(k);
        if least == k {
          if k != start {
            HoleFilled(order, d[..], lo, k);
          }
          return k != start;
        }
        HoleDown(order, d[..], lo, k, least);
        Swap(k, least);
        k := least;
      }
    }

    /** Adds a position at the end, in order or not. */
    method Append(i: nat, distance: real)
      requires Valid() && i < at.Length && at[i] == -1
      modifies this`order, at, d
      ensures Valid() && Members() == old(Members()) + {i} && d[..] == old(d[..])[i := distance]
    {
      d[i] := distance;
      at[i] := |order|;
      order := order + [i];
    }

    /** Orders the entries appended in any order. */
    method Init()
      requires Valid()
      modifies this`order, at
      ensures Valid() && Heap() && Members() == old(Members()) && |order| == old(|order|)
    {
      var k: nat := |order| / 2;
      while k > 0
        invariant k <= |order| == old(|order|) && Valid() && HeapFrom(order, d[..], k) && Members() == old(Members())
      {
        k := k - 1;
        var moved := Down(k, k);
        if !moved {
          HoleFilled(order, d[..], k, k);
        }
      }
    }

    /** Moves one entry, nearer or farther than it was, to where it belongs. */
    method Fix(k: nat)
      requires Valid() && k < |order| && HeapBut(order, d[..], 0, k)
      modifies this`order, at
      ensures Valid() && Heap() && Members() == old(Members()) && |order| == old(|order|)
    {
      var moved := Down(k, 0);
      if !moved {
        Up(k);
      }
    }

    method Pop() returns (top: nat)
      requires Valid() && Heap() && order != []
      modifies this`order, at
      ensures Valid() && Heap() && |order| == old(|order|) - 1
      ensures top in old(Members()) && Members() == old(Members()) - {top}
      ensures forall i :: i in old(Members()) ==> !Before(d[..], i, top)
    {
      forall i | i in Members()
        ensures !Before(d[..], i, order[0])
      {
        RootIsLeast(order, d[..], at[i]);
      }
      HoleAtRoot(order, d[..]);
      top := order[0];
      var last := |order| - 1;
      Swap(0, last);
      order := order[..last];
      at[top] := -1;
      var moved := Down(0, 0);
      if !moved {
        HoleFilled(order, d[..], 0, 0);
      }
    }
  }
}
