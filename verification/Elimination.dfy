/** Naive greedy elimination, the meaning of a rank (server/simplify.go). Distances are an arbitrary function of
    a position and its two neighbours. */
module Elimination {
  type Distance = (int, int, int) -> real  // of the line's ends and the position

  /** The tolerance a position survives: a distance, or any at all. */
  datatype Rank = Fin(off: real) | Inf

  predicate Over(r: Rank, tolerance: real) { r.Inf? || r.off > tolerance }

  /** The nearest live position below i, or -1. */
  ghost function PrevLive(live: set<nat>, i: nat): int {
    if i == 0 then -1
    else var j: nat := i - 1; if j in live then j else PrevLive(live, j)
  }

  /** The nearest live position above i, or n. */
  ghost function NextLive(live: set<nat>, n: nat, i: nat): int
    requires i < n
    decreases n - i
  {
    var j: nat := i + 1;
    if j == n then n else if j in live then j else NextLive(live, n, j)
  }

  lemma {:induction false} PrevLiveFound(live: set<nat>, i: nat)
    ensures var p := PrevLive(live, i); -1 <= p < i && (p >= 0 ==> p in live) && forall j :: j in live ==> !(p < j < i)
  {
    if i > 0 {
      PrevLiveFound(live, i - 1);
    }
  }

  lemma {:induction false} NextLiveFound(live: set<nat>, n: nat, i: nat)
    requires i < n
    ensures var q := NextLive(live, n, i); i < q <= n && (q < n ==> q in live) && forall j :: j in live ==> !(i < j < q)
    decreases n - i
  {
    if i + 1 < n {
      NextLiveFound(live, n, i + 1);
    }
  }

  /** How far position i lies off the line between its live neighbours. */
  ghost function Off(sed: Distance, live: set<nat>, n: nat, i: nat): real
    requires i < n
  {
    sed(PrevLive(live, i), NextLive(live, n, i), i)
  }

  ghost predicate Below(n: nat, s: set<nat>) { forall i :: i in s ==> i < n }

  /** i is the next position to go: the one least off its neighbours' line, the lower of two as far. */
  ghost predicate IsNext(sed: Distance, n: nat, live: set<nat>, left: set<nat>, i: nat)
    requires Below(n, left)
  {
    && i in left
    && forall j :: j in left ==>
         || Off(sed, live, n, i) < Off(sed, live, n, j)
         || (Off(sed, live, n, i) == Off(sed, live, n, j) && i <= j)
  }

  lemma NextExists(sed: Distance, n: nat, live: set<nat>, left: set<nat>)
    requires Below(n, left) && left != {}
    ensures exists i :: IsNext(sed, n, live, left, i)
  {
    var i :| i in left;
    if left == {i} {
      assert IsNext(sed, n, live, left, i);
    } else {
      NextExists(sed, n, live, left - {i});
      var j :| IsNext(sed, n, live, left - {i}, j);
      assert forall k :: k in left ==> k == i || k in left - {i};
      assert IsNext(sed, n, live, left, i) || IsNext(sed, n, live, left, j);
    }
  }

  ghost function Next(sed: Distance, n: nat, live: set<nat>, left: set<nat>): (i: nat)
    requires Below(n, left) && left != {}
    ensures IsNext(sed, n, live, left, i)
  {
    NextExists(sed, n, live, left);
    var i :| IsNext(sed, n, live, left, i);
    i
  }

  function Max(a: real, b: real): real { if a > b then a else b }

  /** The positions of left in the order greedy elimination drops them, each with the running greatest distance. */
  ghost function Dropped(sed: Distance, n: nat, live: set<nat>, left: set<nat>, floor: real): (drops: seq<(nat, real)>)
    requires Below(n, left)
    decreases |left|
  {
    if left == {} then []
    else
      var i := Next(sed, n, live, left);
      var f := Max(floor, Off(sed, live, n, i));
      [(i, f)] + Dropped(sed, n, live - {i}, left - {i}, f)
  }

  /** The rank the drops give position i, Inf when they never drop it. */
  ghost function RankIn(drops: seq<(nat, real)>, i: nat): Rank {
    if drops == [] then Inf else if drops[0].0 == i then Fin(drops[0].1) else RankIn(drops[1..], i)
  }

  ghost function All(n: nat): (all: set<nat>)
    ensures forall i: nat :: i in all <==> i < n
  {
    if n == 0 then {} else var m: nat := n - 1; All(m) + {m}
  }

  /** The first drop ranks its position at the floor it raises, and leaves every other rank to the drops after. */
  lemma FirstDrop(sed: Distance, n: nat, live: set<nat>, left: set<nat>, floor: real, j: nat)
    requires Below(n, left) && left != {}
    ensures var k := Next(sed, n, live, left);
            var f := Max(floor, Off(sed, live, n, k));
            RankIn(Dropped(sed, n, live, left, floor), j)
            == if j == k then Fin(f) else RankIn(Dropped(sed, n, live - {k}, left - {k}, f), j)
  {
  }

  /** Every position of left is dropped exactly once, and no other is. */
  lemma {:induction false} EachDroppedOnce(sed: Distance, n: nat, live: set<nat>, left: set<nat>, floor: real)
    requires Below(n, left)
    ensures |Dropped(sed, n, live, left, floor)| == |left|
    ensures forall i :: i in left <==> RankIn(Dropped(sed, n, live, left, floor), i).Fin?
    decreases |left|
  {
    if left != {} {
      var i := Next(sed, n, live, left);
      EachDroppedOnce(sed, n, live - {i}, left - {i}, Max(floor, Off(sed, live, n, i)));
    }
  }

  /** No rank is less than the floor it starts from. */
  lemma {:induction false} RanksOverFloor(sed: Distance, n: nat, live: set<nat>, left: set<nat>, floor: real, i: nat)
    requires Below(n, left)
    ensures var r := RankIn(Dropped(sed, n, live, left, floor), i); r.Fin? ==> r.off >= floor
    decreases |left|
  {
    if left != {} {
      var k := Next(sed, n, live, left);
      RanksOverFloor(sed, n, live - {k}, left - {k}, Max(floor, Off(sed, live, n, k)), i);
    }
  }

  /** The positions still standing when dropping reaches the tolerance. */
  ghost function Standing(sed: Distance, n: nat, live: set<nat>, left: set<nat>, floor: real, tolerance: real): set<nat>
    requires Below(n, left)
  {
    set i | i in live && Over(RankIn(Dropped(sed, n, live, left, floor), i), tolerance)
  }

  /** Every position that could have gone and still stands lies more than the tolerance off the line between the
      neighbours that still stand. */
  lemma {:induction false} StandingLieOff(sed: Distance, n: nat, live: set<nat>, left: set<nat>, floor: real,
          tolerance: real, i: nat)
    requires Below(n, left) && left <= live && floor <= tolerance
    requires i in left && i in Standing(sed, n, live, left, floor, tolerance)
    ensures Off(sed, Standing(sed, n, live, left, floor, tolerance), n, i) > tolerance
    decreases |left|
  {
    var standing := Standing(sed, n, live, left, floor, tolerance);
    var k := Next(sed, n, live, left);
    var f := Max(floor, Off(sed, live, n, k));
    var rest := Standing(sed, n, live - {k}, left - {k}, f, tolerance);
    forall j | j in live
      ensures f <= tolerance ==> (j in standing <==> j in rest)
      ensures f > tolerance ==> j in standing
    {
      FirstDrop(sed, n, live, left, floor, j);
      RanksOverFloor(sed, n, live - {k}, left - {k}, f, j);
    }
    if f <= tolerance {
      assert standing == rest;
      StandingLieOff(sed, n, live - {k}, left - {k}, f, tolerance, i);
    } else {
      assert standing == live;
    }
  }

  lemma PrevLiveIs(live: set<nat>, i: nat, p: int)
    requires -1 <= p < i && (p >= 0 ==> p in live) && forall j :: j in live ==> !(p < j < i)
    ensures PrevLive(live, i) == p
  {
  }

  lemma NextLiveIs(live: set<nat>, n: nat, i: nat, q: int)
    requires i < n && i < q <= n && (q < n ==> q in live) && forall j :: j in live ==> !(i < j < q)
    ensures NextLive(live, n, i) == q
  {
    NextLiveFound(live, n, i);
  }

  /** Dropping a position relinks its two neighbours and no other. */
  lemma Unlinked(live: set<nat>, n: nat, i: nat, j: nat)
    requires i in live && j in live && i != j && i < n && j < n && Below(n, live)
    ensures PrevLive(live - {i}, j) == if PrevLive(live, j) == i then PrevLive(live, i) else PrevLive(live, j)
    ensures NextLive(live - {i}, n, j) == if NextLive(live, n, j) == i then NextLive(live, n, i)
            else NextLive(live, n, j)
    ensures PrevLive(live, j) == i <==> NextLive(live, n, i) == j
    ensures NextLive(live, n, j) == i <==> PrevLive(live, i) == j
  {
    PrevLiveFound(live, i);
    PrevLiveFound(live, j);
    NextLiveFound(live, n, i);
    NextLiveFound(live, n, j);
    PrevLiveIs(live - {i}, j, if PrevLive(live, j) == i then PrevLive(live, i) else PrevLive(live, j));
    NextLiveIs(live - {i}, n, j, if NextLive(live, n, j) == i then NextLive(live, n, i) else NextLive(live, n, j));
  }
}
