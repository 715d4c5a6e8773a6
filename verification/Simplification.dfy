/** Track simplification: ranking every position with the heap and linked lists, and keeping what a limit allows
    (server/simplify.go). */
module Simplification {
  import opened Elimination
  import opened SedHeaps

  /** Position i is neither end of its segment. */
  predicate Inner(seg: seq<nat>, i: nat) {
    0 < i < |seg| - 1 && seg[i - 1] == seg[i] == seg[i + 1]
  }

  ghost function Inners(seg: seq<nat>): (s: set<nat>)
    ensures forall i :: i in s <==> Inner(seg, i)
    ensures Below(|seg|, s) && s <= All(|seg|)
  {
    set i | i in All(|seg|) && Inner(seg, i)
  }

  /** The ranks greedy elimination gives the positions of a track with these segments. */
  ghost function RankOf(sed: Distance, seg: seq<nat>, i: nat): Rank {
    RankIn(Dropped(sed, |seg|, All(|seg|), Inners(seg), 0.0), i)
  }

  ghost predicate LinkAt(prev: seq<int>, next: seq<int>, live: set<nat>, n: nat, i: nat) {
    i < n && i < |prev| && i < |next| && prev[i] == PrevLive(live, i) && next[i] == NextLive(live, n, i)
  }

  /** The lists join each live position to the live ones beside it. */
  ghost predicate Linked(prev: seq<int>, next: seq<int>, live: set<nat>, n: nat) {
    |prev| == |next| == n && forall i {:trigger LinkAt(prev, next, live, n, i)} :: i in live ==>
      LinkAt(prev, next, live, n, i)
  }

  ghost predicate MeasuredAt(d: seq<real>, sed: Distance, live: set<nat>, n: nat, i: nat) {
    i < n && i < |d| && d[i] == Off(sed, live, n, i)
  }

  /** Each position still to go is measured against the line between its live neighbours. */
  ghost predicate Measured(d: seq<real>, sed: Distance, live: set<nat>, left: set<nat>, n: nat) {
    |d| == n && forall i {:trigger MeasuredAt(d, sed, live, n, i)} :: i in left ==> MeasuredAt(d, sed, live, n, i)
  }

  lemma LinkedAtFirst(n: nat, i: nat)
    requires i < n
    ensures PrevLive(All(n), i) == i - 1 && NextLive(All(n), n, i) == i + 1
  {
    PrevLiveIs(All(n), i, i - 1);
    NextLiveIs(All(n), n, i, i + 1);
  }

  lemma RelinkedAt(prev: seq<int>, next: seq<int>, live: set<nat>, n: nat, i: nat, j: nat)
    requires Linked(prev, next, live, n) && i in live && i < n && 0 <= prev[i] && next[i] < n
    requires j in live && j != i && prev[i] < i < next[i] && Below(n, live)
    ensures j < n && PrevLive(live - {i}, j) == if j == next[i] then prev[i] else prev[j]
    ensures NextLive(live - {i}, n, j) == if j == prev[i] then next[i] else next[j]
  {
    assert LinkAt(prev, next, live, n, i) && LinkAt(prev, next, live, n, j);
    Unlinked(live, n, i, j);
  }

  /** Pointing a dropped position's neighbours at each other keeps the lists. */
  lemma Relinked(prev: seq<int>, next: seq<int>, live: set<nat>, n: nat, i: nat)
    requires Linked(prev, next, live, n) && Below(n, live) && i in live && i < n && 0 <= prev[i] < i < next[i] < n
    ensures Linked(prev[next[i] := prev[i]], next[prev[i] := next[i]], live - {i}, n)
  {
    var p, q, rest := prev[next[i] := prev[i]], next[prev[i] := next[i]], live - {i};
    forall j | j in rest
      ensures LinkAt(p, q, rest, n, j)
    {
      RelinkedAt(prev, next, live, n, i, j);
      assert LinkAt(prev, next, live, n, j);
    }
  }

  /** Only those two neighbours lie off another line than before. */
  lemma OthersMeasured(sed: Distance, live: set<nat>, n: nat, i: nat, j: nat)
    requires i in live && j in live && Below(n, live) && i != j && j != PrevLive(live, i) && j != NextLive(live, n, i)
    ensures Off(sed, live - {i}, n, j) == Off(sed, live, n, j)
  {
    Unlinked(live, n, i, j);
  }

  /** The heap's pop is the position naive elimination drops next. */
  lemma PopIsNext(d: seq<real>, sed: Distance, live: set<nat>, left: set<nat>, n: nat, i: nat)
    requires Measured(d, sed, live, left, n) && Below(n, left) && i in left
    requires forall j :: j in left ==> !Before(d, j, i)
    ensures i == Next(sed, n, live, left)
  {
    assert forall j :: j in left ==> MeasuredAt(d, sed, live, n, j);
    assert IsNext(sed, n, live, left, i);
    var k := Next(sed, n, live, left);
    assert IsNext(sed, n, live, left, k);
  }

  /** An inner position always has a live neighbour on either side: its segment's ends are never dropped. */
  lemma InnerHasNeighbours(seg: seq<nat>, live: set<nat>, i: nat)
    requires Inner(seg, i) && 0 in live && |seg| - 1 in live
    ensures 0 <= PrevLive(live, i) < i < NextLive(live, |seg|, i) < |seg|
  {
    PrevLiveFound(live, i);
    NextLiveFound(live, |seg|, i);
  }

  /** Everything linked, the segments' ends ranked, and the inner positions measured and in the heap. */
  ghost predicate Started(seg: seq<nat>, sed: Distance, i: nat, prev: seq<int>, next: seq<int>, rank: seq<Rank>,
          d: seq<real>, members: set<nat>)
    requires i <= |seg| == |prev| == |next| == |rank| == |d|
  {
    && (forall j :: 0 <= j < i ==> prev[j] == j - 1 && next[j] == j + 1)
    && (forall j :: 0 <= j < i ==> if Inner(seg, j) then j in members && d[j] == sed(j - 1, j + 1, j)
       else rank[j] == Inf)
    && (forall j :: j in members ==> j < i && Inner(seg, j))
  }

  lemma StartedMore(seg: seq<nat>, sed: Distance, i: nat, prev: seq<int>, next: seq<int>, rank: seq<Rank>,
          d: seq<real>, members: set<nat>)
    requires i < |seg| == |prev| == |next| == |rank| == |d|
    requires Started(seg, sed, i, prev, next, rank, d, members)
    ensures var prev', next' := prev[i := i - 1], next[i := i + 1];
            if Inner(seg, i) then Started(seg, sed, i + 1, prev', next', rank, d[i := sed(i - 1, i + 1, i)],
              members + {i})
            else Started(seg, sed, i + 1, prev', next', rank[i := Inf], d, members)
  {
  }

  /** One position linked, and ranked or measured and put in the heap. */
  method StartAt(seg: seq<nat>, sed: Distance, h: SedHeap, prev: array<int>, next: array<int>, rank: array<Rank>,
          i: nat)
    requires h.Valid() && i < |seg| && h.d.Length == prev.Length == next.Length == rank.Length == |seg|
    requires prev != next && prev != h.at && next != h.at
    requires Started(seg, sed, i, prev[..], next[..], rank[..], h.d[..], h.Members())
    modifies h`order, h.d, h.at, prev, next, rank
    ensures h.Valid() && Started(seg, sed, i + 1, prev[..], next[..], rank[..], h.d[..], h.Members())
  {
    var n := |seg|;
    StartedMore(seg, sed, i, prev[..], next[..], rank[..], h.d[..], h.Members());
    ghost var p, q, r := prev[..], next[..], rank[..];
    prev[i], next[i] := i - 1, i + 1;
    assert prev[..] == p[i := i - 1] && next[..] == q[i := i + 1];
    if i == 0 || i == n - 1 || seg[i - 1] != seg[i] || seg[i + 1] != seg[i] {
      rank[i] := Inf;
      assert rank[..] == r[i := Inf];
    } else {
      assert i !in h.Members();
      h.Append(i, sed(i - 1, i + 1, i));
    }
  }

  method Start(seg: seq<nat>, sed: Distance, h: SedHeap, prev: array<int>, next: array<int>, rank: array<Rank>)
    requires h.Valid() && h.order == [] && h.d.Length == prev.Length == next.Length == rank.Length == |seg|
    requires prev != next && prev != h.at && next != h.at
    modifies h`order, h.d, h.at, prev, next, rank
    ensures h.Valid() && h.Heap()
    ensures Started(seg, sed, |seg|, prev[..], next[..], rank[..], h.d[..], h.Members())
  {
    for i := 0 to |seg|
      invariant h.Valid() && Started(seg, sed, i, prev[..], next[..], rank[..], h.d[..], h.Members())
    {
      StartAt(seg, sed, h, prev, next, rank, i);
    }
    h.Init();
  }

  /** The state of the loop: what is live and still to go, and that the ranks already given and those naive
      elimination would go on to give are together the ranks it gives the whole track. */
  ghost predicate Underway(seg: seq<nat>, sed: Distance, live: set<nat>, left: set<nat>, floor: real, goal: seq<Rank>,
          rank: seq<Rank>)
  {
    var n := |seg|;
    && |rank| == |goal| == n && Below(n, live) && left <= live && (forall i :: i in left ==> Inner(seg, i))
    && (n > 0 ==> 0 in live && n - 1 in live)
    && forall i :: 0 <= i < n ==> goal[i] == if i in left then RankIn(Dropped(sed, n, live, left, floor), i)
       else rank[i]
  }

  lemma UnderwayAtFirst(seg: seq<nat>, sed: Distance, prev: seq<int>, next: seq<int>, goal: seq<Rank>, rank: seq<Rank>,
          d: seq<real>, members: set<nat>)
    requires |prev| == |next| == |goal| == |rank| == |d| == |seg|
    requires Started(seg, sed, |seg|, prev, next, rank, d, members)
    requires forall i :: 0 <= i < |seg| ==> goal[i] == RankOf(sed, seg, i)
    ensures Linked(prev, next, All(|seg|), |seg|)
    ensures Measured(d, sed, All(|seg|), members, |seg|)
    ensures Underway(seg, sed, All(|seg|), members, 0.0, goal, rank)
  {
    forall i: nat | i < |seg|
      ensures PrevLive(All(|seg|), i) == i - 1 && NextLive(All(|seg|), |seg|, i) == i + 1
    {
      LinkedAtFirst(|seg|, i);
    }
    assert members == Inners(seg);
    EachDroppedOnce(sed, |seg|, All(|seg|), members, 0.0);
  }

  lemma RankNext(seg: seq<nat>, sed: Distance, live: set<nat>, left: set<nat>, floor: real, goal: Rank, rank: Rank,
          i: nat, f: real, j: nat)
    requires Below(|seg|, left) && left != {} && i == Next(sed, |seg|, live, left) && i < |seg|
    requires f == Max(floor, Off(sed, live, |seg|, i))
    requires goal == if j in left then RankIn(Dropped(sed, |seg|, live, left, floor), j) else rank
    ensures goal == if j in left - {i} then RankIn(Dropped(sed, |seg|, live - {i}, left - {i}, f), j)
            else if j == i then Fin(f) else rank
  {
    FirstDrop(sed, |seg|, live, left, floor, j);
  }

  lemma UnderwayNext(seg: seq<nat>, sed: Distance, live: set<nat>, left: set<nat>, floor: real, goal: seq<Rank>,
          rank: seq<Rank>, i: nat, f: real)
    requires Underway(seg, sed, live, left, floor, goal, rank) && left != {} && i == Next(sed, |seg|, live, left)
    requires f == Max(floor, Off(sed, live, |seg|, i))
    ensures Underway(seg, sed, live - {i}, left - {i}, f, goal, rank[i := Fin(f)])
  {
    assert Inner(seg, i);
    forall j: nat | j < |seg|
      ensures goal[j] == if j in left - {i} then RankIn(Dropped(sed, |seg|, live - {i}, left - {i}, f), j)
              else rank[i := Fin(f)][j]
    {
      RankNext(seg, sed, live, left, floor, goal[j], rank[j], i, f, j);
    }
  }

  /** Measures a neighbour of a dropped position again and moves it in the heap, unless it is a segment's end. */
  method Remeasure(h: SedHeap, sed: Distance, prev: array<int>, next: array<int>, j: nat)
    requires h.Valid() && h.Heap() && j < h.d.Length == prev.Length == next.Length
    requires prev != h.at && next != h.at
    modifies h`order, h.at, h.d
    ensures h.Valid() && h.Heap() && h.Members() == old(h.Members())
    ensures h.d[..] == if j in h.Members() then old(h.d[..])[j := sed(prev[j], next[j], j)] else old(h.d[..])
  {
    if h.at[j] >= 0 {
      var off := sed(prev[j], next[j], j);
      HoleWhereChanged(h.order, h.d[..], h.at[j], off);
      h.d[j] := off;
      h.Fix(h.at[j]);
    }
  }

  lemma MeasuredNext(d: seq<real>, d': seq<real>, sed: Distance, prev: seq<int>, next: seq<int>, live: set<nat>,
          left: set<nat>, n: nat, i: nat)
    requires Measured(d, sed, live, left, n) && i in left && left <= live && |d'| == n
    requires Below(n, live) && Linked(prev, next, live - {i}, n)
    requires forall j {:trigger d'[j]} :: j in left - {i} ==>
                           d'[j] == if j == PrevLive(live, i) || j == NextLive(live, n, i)
                             then sed(prev[j], next[j], j) else d[j]
    ensures Measured(d', sed, live - {i}, left - {i}, n)
  {
    var rest := live - {i};
    forall j | j in left - {i}
      ensures MeasuredAt(d', sed, rest, n, j)
    {
      assert MeasuredAt(d, sed, live, n, j) && LinkAt(prev, next, rest, n, j);
      if j != PrevLive(live, i) && j != NextLive(live, n, i) {
        OthersMeasured(sed, live, n, i, j);
      }
    }
  }

  /** Points the live neighbours of position i at each other. */
  method Unlink(prev: array<int>, next: array<int>, i: nat, ghost live: set<nat>) returns (p: nat, q: nat)
    requires prev != next && prev.Length == next.Length && Linked(prev[..], next[..], live, prev.Length)
             && Below(prev.Length, live)
    requires i in live && 0 <= PrevLive(live, i) < i < prev.Length && i < NextLive(live, prev.Length, i) < prev.Length
    modifies prev, next
    ensures Linked(prev[..], next[..], live - {i}, prev.Length)
    ensures p == PrevLive(live, i) && q == NextLive(live, prev.Length, i)
  {
    assert LinkAt(prev[..], next[..], live, prev.Length, i);
    Relinked(prev[..], next[..], live, prev.Length, i);
    p, q := prev[i], next[i];
    ghost var prev0, next0 := prev[..], next[..];
    next[p], prev[q] := q, p;
    assert prev[..] == prev0[q := p] && next[..] == next0[p := q];
  }

  method RemeasureBoth(h: SedHeap, sed: Distance, prev: array<int>, next: array<int>, p: nat, q: nat)
    requires h.Valid() && h.Heap() && p < q < h.d.Length == prev.Length == next.Length
    requires prev != h.at && next != h.at
    modifies h`order, h.at, h.d
    ensures h.Valid() && h.Heap() && h.Members() == old(h.Members())
    ensures forall j :: j in h.Members() ==> h.d[..][j] == if j == p || j == q then sed(prev[..][j], next[..][j], j)
            else old(h.d[..])[j]
  {
    Remeasure(h, sed, prev, next, p);
    Remeasure(h, sed, prev, next, q);
  }

  /** Joins the neighbours of a dropped position, and measures them again. */
  method Close(h: SedHeap, sed: Distance, prev: array<int>, next: array<int>, i: nat, ghost live: set<nat>,
          ghost left: set<nat>)
    requires h.Valid() && h.Heap() && h.Members() == left - {i} && i in left && left <= live && Below(prev.Length, live)
    requires i < h.d.Length == prev.Length == next.Length
    requires prev != next && prev != h.at && next != h.at
    requires 0 <= PrevLive(live, i) < i && i < NextLive(live, prev.Length, i) < prev.Length
    requires Linked(prev[..], next[..], live, prev.Length) && Measured(h.d[..], sed, live, left, prev.Length)
    modifies h`order, h.at, h.d, prev, next
    ensures h.Valid() && h.Heap() && h.Members() == left - {i}
    ensures Linked(prev[..], next[..], live - {i}, prev.Length)
            && Measured(h.d[..], sed, live - {i}, left - {i}, prev.Length)
  {
    ghost var d := h.d[..];
    var p, q := Unlink(prev, next, i, live);
    RemeasureBoth(h, sed, prev, next, p, q);
    MeasuredNext(d, h.d[..], sed, prev[..], next[..], live, left, prev.Length, i);
  }

  /** One turn of the loop: drops the position least off its neighbours' line and ranks it. */
  method DropNext(h: SedHeap, seg: seq<nat>, sed: Distance, prev: array<int>, next: array<int>, rank: array<Rank>,
                  floor: real, ghost live: set<nat>, ghost left: set<nat>) returns (i: nat, f: real)
    requires h.Valid() && h.Heap() && h.order != [] && left == h.Members() && left <= live && Below(|seg|, live)
    requires h.d.Length == prev.Length == next.Length == rank.Length == |seg|
    requires prev != next && prev != h.at && next != h.at
    requires 0 in live && |seg| - 1 in live && (forall j :: j in left ==> Inner(seg, j))
    requires Linked(prev[..], next[..], live, |seg|) && Measured(h.d[..], sed, live, left, |seg|)
    modifies h`order, h.at, h.d, prev, next, rank
    ensures left != {} && i == Next(sed, |seg|, live, left) && f == Max(floor, Off(sed, live, |seg|, i))
    ensures rank[..] == old(rank[..])[i := Fin(f)]
    ensures h.Valid() && h.Heap() && h.Members() == left - {i}
    ensures Linked(prev[..], next[..], live - {i}, |seg|) && Measured(h.d[..], sed, live - {i}, left - {i}, |seg|)
  {
    i := h.Pop();
    PopIsNext(h.d[..], sed, live, left, |seg|, i);
    assert MeasuredAt(h.d[..], sed, live, |seg|, i);
    f := if h.d[i] > floor then h.d[i] else floor;
    rank[i] := Fin(f);
    InnerHasNeighbours(seg, live, i);
    Close(h, sed, prev, next, i, live, left);
  }

  ghost predicate Running(h: SedHeap, seg: seq<nat>, sed: Distance, prev: array<int>, next: array<int>,
          rank: array<Rank>,
                          goal: seq<Rank>, floor: real, live: set<nat>, left: set<nat>)
    reads h, h.d, h.at, prev, next, rank
  {
    && h.Valid() && h.Heap() && left == h.Members()
    && h.d.Length == prev.Length == next.Length == rank.Length == |seg|
    && prev != next && prev != h.at && next != h.at
    && Linked(prev[..], next[..], live, |seg|) && Measured(h.d[..], sed, live, left, |seg|)
    && Underway(seg, sed, live, left, floor, goal, rank[..])
  }

  method Turn(h: SedHeap, seg: seq<nat>, sed: Distance, prev: array<int>, next: array<int>, rank: array<Rank>,
              ghost goal: seq<Rank>, floor: real, ghost live: set<nat>, ghost left: set<nat>)
    returns (f: real, ghost live': set<nat>, ghost left': set<nat>)
    requires Running(h, seg, sed, prev, next, rank, goal, floor, live, left) && h.order != []
    modifies h`order, h.at, h.d, prev, next, rank
    ensures Running(h, seg, sed, prev, next, rank, goal, f, live', left') && |left'| < |left|
  {
    ghost var before := rank[..];
    assert h.order[0] in left;
    var i: nat;
    i, f := DropNext(h, seg, sed, prev, next, rank, floor, live, left);
    UnderwayNext(seg, sed, live, left, floor, goal, before, i, f);
    live', left' := live - {i}, left - {i};
  }

  method DropAll(h: SedHeap, seg: seq<nat>, sed: Distance, prev: array<int>, next: array<int>, rank: array<Rank>,
          ghost goal: seq<Rank>)
    requires h.Valid() && h.Heap()
    requires h.d.Length == prev.Length == next.Length == rank.Length == |goal| == |seg|
    requires prev != next && prev != h.at && next != h.at
    requires Linked(prev[..], next[..], All(|seg|), |seg|) && Measured(h.d[..], sed, All(|seg|), h.Members(), |seg|)
    requires Underway(seg, sed, All(|seg|), h.Members(), 0.0, goal, rank[..])
    modifies h`order, h.at, h.d, prev, next, rank
    ensures rank[..] == goal
  {
    var floor := 0.0;
    ghost var live, left := All(|seg|), h.Members();
    while |h.order| > 0
      invariant Running(h, seg, sed, prev, next, rank, goal, floor, live, left)
      decreases |left|
    {
      floor, live, left := Turn(h, seg, sed, prev, next, rank, goal, floor, live, left);
    }
    assert left == {};
  }

  method RankPositions(seg: seq<nat>, sed: Distance) returns (rank: array<Rank>)
    ensures fresh(rank) && rank.Length == |seg|
    ensures forall i :: 0 <= i < |seg| ==> rank[i] == RankOf(sed, seg, i)
  {
    var n := |seg|;
    rank := new Rank[n](_ => Fin(0.0));
    var prev, next := new int[n], new int[n];
    var h := new SedHeap(n);
    Start(seg, sed, h, prev, next, rank);
    ghost var goal := seq(n, i requires 0 <= i < n => RankOf(sed, seg, i));
    UnderwayAtFirst(seg, sed, prev[..], next[..], goal, rank[..], h.d[..], h.Members());
    DropAll(h, seg, sed, prev, next, rank, goal);
    assert forall i :: 0 <= i < n ==> rank[..][i] == goal[i];
  }
}
