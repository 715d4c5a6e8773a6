/** What a track is reduced to: the positions a limit allows, and where its segments start (server/simplify.go). */
module TrackShape {
  import opened Elimination
  import opened Simplification

  /** The tolerance, in meters, a track is drawn with when it fits the limit. */
  const SHAPE_TOLERANCE: real := 15.0

  datatype TrackPoint = TrackPoint(ts: int, lat6: int, lon6: int)

  datatype Shape = Shape(points: seq<TrackPoint>, more: bool, breaks: seq<nat>, tolerance: real)

  // ---- ranks in order ----

  predicate Greater(a: Rank, b: Rank) { b.Fin? && (a.Inf? || a.off > b.off) }

  predicate Descending(s: seq<Rank>) { forall i, j :: 0 <= i < j < |s| ==> !Greater(s[j], s[i]) }

  /** How many ranks are over t, or, with orAt, over it or at it. */
  function Counted(s: seq<Rank>, t: Rank, orAt: bool): (n: nat)
    ensures n <= |s|
  {
    if s == [] then 0 else Counted(s[1..], t, orAt) + if Greater(s[0], t) || (orAt && s[0] == t) then 1 else 0
  }

  lemma {:induction false} CountedConcat(a: seq<Rank>, b: seq<Rank>, t: Rank, orAt: bool)
    ensures Counted(a + b, t, orAt) == Counted(a, t, orAt) + Counted(b, t, orAt)
  {
    if a == [] {
      assert a + b == b;
    } else {
      assert (a + b)[1..] == a[1..] + b;
      CountedConcat(a[1..], b, t, orAt);
    }
  }

  lemma WithoutMiddle(x: seq<Rank>, m: Rank, y: seq<Rank>)
    ensures multiset(x + [m] + y) == multiset(x + y) + multiset{m}
  {
  }

  lemma Without(b: seq<Rank>, i: nat)
    requires i < |b|
    ensures multiset(b[..i] + b[i + 1..]) == multiset(b) - multiset{b[i]}
  {
    WithoutMiddle(b[..i], b[i], b[i + 1..]);
    assert b == b[..i] + [b[i]] + b[i + 1..];
  }

  lemma CountedWithout(b: seq<Rank>, i: nat, t: Rank, orAt: bool)
    requires i < |b|
    ensures Counted(b, t, orAt) == Counted(b[..i] + b[i + 1..], t, orAt)
            + if Greater(b[i], t) || (orAt && b[i] == t) then 1 else 0
  {
    CountedConcat(b[..i], b[i + 1..], t, orAt);
    CountedConcat(b[..i], b[i..], t, orAt);
    assert b[..i] + b[i..] == b;
  }

  lemma Find(r: Rank, b: seq<Rank>) returns (i: nat)
    requires r in multiset(b)
    ensures i < |b| && b[i] == r
  {
    i :| 0 <= i < |b| && b[i] == r;
  }

  lemma EmptyPermuted(b: seq<Rank>)
    requires multiset(b) == multiset{}
    ensures b == []
  {
    assert |b| == |multiset(b)|;
  }

  /** Leaving out one entry that is in both. */
  lemma WithoutBoth(a: seq<Rank>, b: seq<Rank>, i: nat)
    requires a != [] && multiset(a) == multiset(b) && i < |b| && b[i] == a[0]
    ensures multiset(a[1..]) == multiset(b[..i] + b[i + 1..])
  {
    Without(a, 0);
    Without(b, i);
    assert a[..0] + a[1..] == a[1..];
  }

  lemma {:induction false} CountedPermuted(a: seq<Rank>, b: seq<Rank>, t: Rank, orAt: bool)
    requires multiset(a) == multiset(b)
    ensures Counted(a, t, orAt) == Counted(b, t, orAt)
    decreases |a|
  {
    if a == [] {
      EmptyPermuted(b);
    } else {
      assert a[0] in multiset(a);
      var i := Find(a[0], b);
      WithoutBoth(a, b, i);
      CountedPermuted(a[1..], b[..i] + b[i + 1..], t, orAt);
      CountedWithout(b, i, t, orAt);
    }
  }

  lemma {:induction false} CountedNone(s: seq<Rank>, t: Rank, orAt: bool)
    requires forall i :: 0 <= i < |s| ==> !Greater(s[i], t) && !(orAt && s[i] == t)
    ensures Counted(s, t, orAt) == 0
  {
    if s != [] {
      CountedNone(s[1..], t, orAt);
    }
  }

  lemma {:induction false} CountedAll(s: seq<Rank>, t: Rank)
    requires forall i :: 0 <= i < |s| ==> s[i] == t
    ensures Counted(s, t, true) == |s|
  {
    if s != [] {
      CountedAll(s[1..], t);
    }
  }

  lemma {:induction false} CountedOver(s: seq<Rank>, t: Rank)
    requires forall i :: 0 <= i < |s| ==> Greater(s[i], t)
    ensures Counted(s, t, false) == |s|
  {
    if s != [] {
      CountedOver(s[1..], t);
    }
  }

  /** Any tolerance below the rank at limit keeps more than limit. */
  lemma LessDoesNotFit(s: seq<Rank>, limit: nat, t: Rank)
    requires Descending(s) && limit < |s| && Greater(s[limit], t)
    ensures Counted(s, t, false) > limit
  {
    assert s == s[..limit + 1] + s[limit + 1..];
    assert forall i :: 0 <= i < limit ==> !Greater(s[limit], s[i]);
    CountedOver(s[..limit + 1], t);
    CountedConcat(s[..limit + 1], s[limit + 1..], t, false);
  }

  lemma CountedSplit(s: seq<Rank>, k: nat, t: Rank, ends: bool)
    requires k <= |s|
    ensures Counted(s, t, ends) == Counted(s[..k], t, ends) + Counted(s[k..], t, ends)
  {
    assert s == s[..k] + s[k..];
    CountedConcat(s[..k], s[k..], t, ends);
  }

  lemma OverAtLimit(s: seq<Rank>, limit: nat)
    requires Descending(s) && limit < |s|
    ensures Counted(s, s[limit], false) <= limit
  {
    CountedSplit(s, limit, s[limit], false);
    CountedNone(s[limit..], s[limit], false);
  }

  lemma EndsAtLimit(s: seq<Rank>, limit: nat)
    requires Descending(s) && limit < |s|
    ensures s[limit].Inf? <==> Counted(s, Inf, true) > limit
  {
    if s[limit].Inf? {
      InfBefore(s, limit + 1);
      CountedSplit(s, limit + 1, Inf, true);
      CountedAll(s[..limit + 1], Inf);
    } else {
      NoneInfAfter(s, limit);
      CountedSplit(s, limit, Inf, true);
      CountedNone(s[limit..], Inf, true);
    }
  }

  /** At most limit ranks are over the one at limit, and it is Inf exactly when more than limit are. */
  lemma AtLimit(s: seq<Rank>, limit: nat)
    requires Descending(s) && limit < |s|
    ensures Counted(s, s[limit], false) <= limit
    ensures s[limit].Inf? <==> Counted(s, Inf, true) > limit
  {
    OverAtLimit(s, limit);
    EndsAtLimit(s, limit);
  }

  lemma InfBefore(s: seq<Rank>, n: nat)
    requires Descending(s) && 0 < n <= |s| && s[n - 1].Inf?
    ensures forall i :: 0 <= i < |s[..n]| ==> s[..n][i] == Inf
  {
    forall i | 0 <= i < n - 1
      ensures s[i].Inf?
    {
      assert !Greater(s[n - 1], s[i]);
    }
  }

  lemma NoneInfAfter(s: seq<Rank>, k: nat)
    requires Descending(s) && k < |s| && !s[k].Inf?
    ensures forall i :: 0 <= i < |s[k..]| ==> s[k..][i] != Inf
  {
    forall i | k < i < |s|
      ensures !s[i].Inf?
    {
      assert !Greater(s[i], s[k]);
    }
  }

  lemma Inserted(s: seq<Rank>, r: Rank, k: nat)
    requires Descending(s) && k <= |s|
    requires (forall j :: 0 <= j < k ==> !Greater(r, s[j])) && (k < |s| ==> Greater(r, s[k]))
    ensures Descending(s[..k] + [r] + s[k..])
    ensures multiset(s[..k] + [r] + s[k..]) == multiset(s) + multiset{r}
  {
    WithoutMiddle(s[..k], r, s[k..]);
    assert s == s[..k] + s[k..];
    forall j | k < j < |s|
      ensures !Greater(s[j], r)
    {
      assert !Greater(s[j], s[k]);
    }
  }

  method SortDescending(a: seq<Rank>) returns (s: seq<Rank>)
    ensures Descending(s) && multiset(s) == multiset(a)
  {
    s := [];
    for i := 0 to |a|
      invariant Descending(s) && multiset(s) == multiset(a[..i])
    {
      var k := 0;
      while k < |s| && !Greater(a[i], s[k])
        invariant 0 <= k <= |s| && forall j :: 0 <= j < k ==> !Greater(a[i], s[j])
      {
        k := k + 1;
      }
      Inserted(s, a[i], k);
      assert a[..i + 1] == a[..i] + [a[i]];
      s := s[..k] + [a[i]] + s[k..];
    }
    assert a[..|a|] == a;
  }

  // ---- segments ----

  /** Position i follows a silence. */
  predicate Gap(points: seq<TrackPoint>, silence: int, i: nat) {
    0 < i < |points| && points[i].ts - points[i - 1].ts > silence
  }

  ghost predicate Numbered(points: seq<TrackPoint>, silence: int, seg: seq<nat>, j: nat)
    requires j < |seg|
  {
    if j == 0 then seg[j] == 0 else seg[j] == seg[j - 1] + (if Gap(points, silence, j) then 1 else 0)
  }

  /** The segment of each position: the silences before it. */
  ghost predicate IsSegmented(points: seq<TrackPoint>, silence: int, seg: seq<nat>) {
    forall j: nat :: j < |seg| ==> Numbered(points, silence, seg, j)
  }

  method Segments(points: seq<TrackPoint>, silence: int) returns (seg: seq<nat>)
    ensures |seg| == |points| && IsSegmented(points, silence, seg)
  {
    seg := [];
    for i := 0 to |points|
      invariant |seg| == i && IsSegmented(points, silence, seg)
    {
      ghost var was := seg;
      if i == 0 {
        seg := [0];
      } else if points[i].ts - points[i - 1].ts > silence {
        seg := seg + [seg[i - 1] + 1];
      } else {
        seg := seg + [seg[i - 1]];
      }
      forall j: nat | j < |seg|
        ensures Numbered(points, silence, seg, j)
      {
        assert j < i ==> Numbered(points, silence, was, j);
      }
    }
  }

  ghost predicate SilenceBetween(points: seq<TrackPoint>, silence: int, a: nat, b: nat) {
    exists j: nat :: a < j <= b && Gap(points, silence, j)
  }

  /** Two positions are in different segments exactly when a silence lies between them. */
  lemma {:induction false} SegmentsDiffer(points: seq<TrackPoint>, silence: int, seg: seq<nat>, a: nat, b: nat)
    requires IsSegmented(points, silence, seg) && a <= b < |seg|
    ensures seg[a] <= seg[b]
    ensures seg[a] != seg[b] <==> SilenceBetween(points, silence, a, b)
    decreases b
  {
    if a < b {
      var c: nat := b - 1;
      SegmentsDiffer(points, silence, seg, a, c);
      assert Numbered(points, silence, seg, b);
      if seg[a] != seg[c] {
        var j :| a < j <= c && Gap(points, silence, j);
      } else if seg[c] != seg[b] {
        assert Gap(points, silence, b);
      }
    }
  }

  // ---- what is kept ----

  predicate Ascending(keep: seq<nat>) { forall i, j :: 0 <= i < j < |keep| ==> keep[i] < keep[j] }

  ghost predicate Kept(rank: seq<Rank>, t: Rank, n: nat, keep: seq<nat>)
    requires n <= |rank|
  {
    && Ascending(keep) && (forall k :: 0 <= k < |keep| ==> keep[k] < n)
    && forall i: nat :: i < n ==> (i in keep <==> Greater(rank[i], t))
  }

  /** The positions over a tolerance, in order. */
  method KeepOver(rank: seq<Rank>, t: Rank) returns (keep: seq<nat>)
    ensures Kept(rank, t, |rank|, keep) && |keep| == Counted(rank, t, false)
  {
    keep := [];
    for i := 0 to |rank|
      invariant Kept(rank, t, i, keep) && |keep| == Counted(rank[..i], t, false)
    {
      assert rank[..i + 1] == rank[..i] + [rank[i]];
      CountedConcat(rank[..i], [rank[i]], t, false);
      if Greater(rank[i], t) {
        keep := keep + [i];
      }
    }
    assert rank[..|rank|] == rank;
  }

  /** The segments' ends, in order. */
  method Ends(rank: seq<Rank>) returns (ends: seq<nat>)
    ensures Ascending(ends) && |ends| == Counted(rank, Inf, true)
    ensures forall i: nat :: i in ends <==> i < |rank| && rank[i].Inf?
  {
    ends := [];
    for i := 0 to |rank|
      invariant Ascending(ends) && |ends| == Counted(rank[..i], Inf, true)
                && forall k :: 0 <= k < |ends| ==> ends[k] < i
      invariant forall j: nat :: j in ends <==> j < i && rank[j].Inf?
    {
      assert rank[..i + 1] == rank[..i] + [rank[i]];
      CountedConcat(rank[..i], [rank[i]], Inf, true);
      if rank[i].Inf? {
        ends := ends + [i];
      }
    }
    assert rank[..|rank|] == rank;
  }

  function Spread(k: nat, ends: nat, limit: nat): nat
    requires ends > 0
  {
    var m := if limit - 1 > 1 then limit - 1 else 1;
    k * (ends - 1) / m
  }

  lemma Scaled(a: nat, b: nat, m: nat)
    requires a <= b
    ensures a * m <= b * m
  {
  }

  lemma Cancelled(a: nat, b: nat, m: nat)
    requires a * m < b * m
    ensures a < b
  {
  }

  lemma DivAtMost(x: nat, y: nat, m: nat)
    requires m > 0 && x <= y * m
    ensures x / m <= y
  {
  }

  lemma DivExact(m: nat, e: nat)
    requires m > 0
    ensures m * e / m == e
  {
    var q := m * e / m;
    assert m * e == q * m + m * e % m;
    DivAtMost(m * e, e, m);
    Cancelled(e, q + 1, m);
  }

  lemma SpreadWithin(k: nat, ends: nat, limit: nat)
    requires ends > limit > 0 && k < limit
    ensures Spread(k, ends, limit) < ends
  {
    var m: nat := if limit - 1 > 1 then limit - 1 else 1;
    Scaled(k, m, ends - 1);
    DivAtMost(k * (ends - 1), ends - 1, m);
  }

  lemma SpreadAscends(k: nat, ends: nat, limit: nat)
    requires ends > limit > 0 && k + 1 < limit
    ensures Spread(k, ends, limit) < Spread(k + 1, ends, limit)
  {
  }

  lemma SpreadToLast(ends: nat, limit: nat)
    requires ends > limit >= 2
    ensures Spread(limit - 1, ends, limit) == ends - 1
  {
    DivExact(limit - 1, ends - 1);
  }

  /** Pick k of limit is the end that k steps of equal length, from the first end to the last, have come to. */
  ghost predicate EvenlyAt(ends: seq<nat>, limit: nat, k: nat, pick: nat, e: nat) {
    e < |ends| && pick == ends[e] && e * (limit - 1) <= k * (|ends| - 1) < (e + 1) * (limit - 1)
  }

  ghost predicate EvenPick(ends: seq<nat>, limit: nat, k: nat, pick: nat) {
    exists e :: EvenlyAt(ends, limit, k, pick, e)
  }

  ghost predicate Evenly(ends: seq<nat>, keep: seq<nat>) {
    forall k: nat :: k < |keep| ==> EvenPick(ends, |keep|, k, keep[k])
  }

  /** The picks are those the source's division gives. */
  ghost predicate Spreads(ends: seq<nat>, limit: nat, keep: seq<nat>)
    requires |ends| > limit
  {
    forall k: nat :: k < |keep| ==> Spread(k, |ends|, limit) < |ends| && keep[k] == ends[Spread(k, |ends|, limit)]
  }

  lemma SpreadEvenly(ends: seq<nat>, limit: nat, k: nat)
    requires |ends| > limit >= 2 && k < limit
    ensures var e := Spread(k, |ends|, limit); e < |ends| && EvenPick(ends, limit, k, ends[e])
  {
    SpreadWithin(k, |ends|, limit);
    var x, m := k * (|ends| - 1), limit - 1;
    assert x == x / m * m + x % m;
    assert EvenlyAt(ends, limit, k, ends[Spread(k, |ends|, limit)], Spread(k, |ends|, limit));
  }

  lemma {:induction false} SpreadRises(j: nat, k: nat, ends: nat, limit: nat)
    requires ends > limit > k > j
    ensures Spread(j, ends, limit) < Spread(k, ends, limit)
    decreases k
  {
    SpreadAscends(k - 1, ends, limit);
    if j < k - 1 {
      SpreadRises(j, k - 1, ends, limit);
    }
  }

  lemma SpreadInOrder(ends: seq<nat>, limit: nat, keep: seq<nat>)
    requires Ascending(ends) && |ends| > limit == |keep| && Spreads(ends, limit, keep)
    ensures Ascending(keep) && forall i :: i in keep ==> i in ends
  {
    forall j, k | 0 <= j < k < |keep|
      ensures keep[j] < keep[k]
    {
      SpreadRises(j, k, |ends|, limit);
    }
  }

  lemma SpreadOut(ends: seq<nat>, limit: nat, keep: seq<nat>)
    requires |ends| > limit == |keep| && limit >= 2 && Spreads(ends, limit, keep)
    ensures Evenly(ends, keep)
  {
    forall k: nat | k < limit
      ensures EvenPick(ends, limit, k, keep[k])
    {
      SpreadEvenly(ends, limit, k);
    }
  }

  lemma SpreadOutermost(ends: seq<nat>, limit: nat, keep: seq<nat>)
    requires |ends| > limit == |keep| && Spreads(ends, limit, keep)
    ensures limit >= 1 ==> keep[0] == ends[0]
    ensures limit >= 2 ==> keep[limit - 1] == ends[|ends| - 1]
  {
    if limit >= 2 {
      SpreadToLast(|ends|, limit);
    }
  }

  method SpreadOver(ends: seq<nat>, limit: nat) returns (keep: seq<nat>)
    requires |ends| > limit
    ensures |keep| == limit && Spreads(ends, limit, keep)
  {
    keep := [];
    for k := 0 to limit
      invariant |keep| == k && Spreads(ends, limit, keep)
    {
      SpreadWithin(k, |ends|, limit);
      keep := keep + [ends[Spread(k, |ends|, limit)]];
    }
  }

  /** More ends than the limit holds: the limit's worth, spread evenly. */
  method PickEnds(ends: seq<nat>, limit: nat) returns (keep: seq<nat>)
    requires Ascending(ends) && |ends| > limit
    ensures |keep| == limit && Ascending(keep) && forall i :: i in keep ==> i in ends
    ensures limit >= 1 ==> keep[0] == ends[0]
    ensures limit >= 2 ==> keep[limit - 1] == ends[|ends| - 1] && Evenly(ends, keep)
  {
    keep := SpreadOver(ends, limit);
    SpreadInOrder(ends, limit, keep);
    SpreadOutermost(ends, limit, keep);
    if limit >= 2 {
      SpreadOut(ends, limit, keep);
    }
  }

  /** The neighbours still standing are the ones kept on either side. */
  lemma KeptNeighbours(seg: seq<nat>, live: set<nat>, keep: seq<nat>, k: nat)
    requires Ascending(keep) && k < |keep| && (forall i: nat :: i in live <==> i in keep) && Below(|seg|, live)
    requires Inner(seg, keep[k]) && (forall i: nat :: i < |seg| && !Inner(seg, i) ==> i in keep)
    ensures 0 < k < |keep| - 1
    ensures PrevLive(live, keep[k]) == keep[k - 1] && NextLive(live, |seg|, keep[k]) == keep[k + 1]
  {
    assert 0 in keep && |seg| - 1 in keep;
    var first :| 0 <= first < |keep| && keep[first] == 0;
    var last :| 0 <= last < |keep| && keep[last] == |seg| - 1;
    assert first < k < last;
    assert keep[k - 1] in keep && keep[k + 1] in keep;
    forall j | j in live
      ensures !(keep[k - 1] < j < keep[k]) && !(keep[k] < j < keep[k + 1])
    {
      var m :| 0 <= m < |keep| && keep[m] == j;
    }
    PrevLiveIs(live, keep[k], keep[k - 1]);
    NextLiveIs(live, |seg|, keep[k], keep[k + 1]);
  }

  /** Every inner position kept lies more than the tolerance off the line between the two kept beside it. */
  lemma KeptLieOff(seg: seq<nat>, sed: Distance, keep: seq<nat>, tolerance: real)
    requires tolerance >= 0.0 && Ascending(keep)
    requires forall i: nat :: i in keep <==> i < |seg| && Over(RankOf(sed, seg, i), tolerance)
    ensures forall i: nat :: i < |seg| && !Inner(seg, i) ==> i in keep
    ensures forall k :: 0 <= k < |keep| && Inner(seg, keep[k]) ==>
                          0 < k < |keep| - 1 && sed(keep[k - 1], keep[k + 1], keep[k]) > tolerance
  {
    var n := |seg|;
    var live := Standing(sed, n, All(n), Inners(seg), 0.0, tolerance);
    EachDroppedOnce(sed, n, All(n), Inners(seg), 0.0);
    forall i: nat | i < n && !Inner(seg, i)
      ensures i in keep
    {
      assert i !in Inners(seg) && !RankOf(sed, seg, i).Fin?;
    }
    forall i: nat
      ensures i in live <==> i in keep
    {
    }
    forall k | 0 <= k < |keep| && Inner(seg, keep[k])
      ensures 0 < k < |keep| - 1 && sed(keep[k - 1], keep[k + 1], keep[k]) > tolerance
    {
      assert keep[k] in keep;
      StandingLieOff(sed, n, All(n), Inners(seg), 0.0, tolerance, keep[k]);
      KeptNeighbours(seg, live, keep, k);
    }
  }

  /** The kept position at k starts a segment. */
  ghost predicate Starts(points: seq<TrackPoint>, silence: int, keep: seq<nat>, k: nat) {
    0 < k < |keep| && SilenceBetween(points, silence, keep[k - 1], keep[k])
  }

  /** The kept positions, and the indexes among them that start a segment. */
  method Collect(points: seq<TrackPoint>, silence: int, seg: seq<nat>, keep: seq<nat>)
    returns (kept: seq<TrackPoint>, breaks: seq<nat>)
    requires |seg| == |points| && IsSegmented(points, silence, seg) && Ascending(keep)
             && forall k :: 0 <= k < |keep| ==> keep[k] < |seg|
    ensures |kept| == |keep| && forall k :: 0 <= k < |keep| ==> kept[k] == points[keep[k]]
    ensures Ascending(breaks) && forall k: nat :: k in breaks <==> Starts(points, silence, keep, k)
  {
    kept, breaks := [], [];
    for k := 0 to |keep|
      invariant |kept| == k && forall j :: 0 <= j < k ==> kept[j] == points[keep[j]]
      invariant Ascending(breaks) && forall b :: 0 <= b < |breaks| ==> breaks[b] < k
      invariant forall b: nat :: b in breaks <==> b < k && Starts(points, silence, keep, b)
    {
      if k > 0 {
        SegmentsDiffer(points, silence, seg, keep[k - 1], keep[k]);
        if seg[keep[k]] != seg[keep[k - 1]] {
          breaks := breaks + [k];
        }
      }
      kept := kept + [points[keep[k]]];
    }
  }

  ghost function Ranks(seg: seq<nat>, sed: Distance): seq<Rank> {
    seq(|seg|, i requires 0 <= i < |seg| => RankOf(sed, seg, i))
  }

  /** How many ends the segments have between them. */
  ghost function EndCount(seg: seq<nat>, sed: Distance): nat {
    Counted(Ranks(seg, sed), Inf, true)
  }

  /** The answer in the ordinary case: every end kept, and of the rest those that lie off the line. */
  ghost predicate ByShape(s: Shape, seg: seq<nat>, sed: Distance, keep: seq<nat>) {
    && (forall i: nat :: i in keep <==> i < |seg| && Over(RankOf(sed, seg, i), s.tolerance))
    && (forall i: nat :: i < |seg| && !Inner(seg, i) ==> i in keep)
    && forall k :: 0 <= k < |keep| && Inner(seg, keep[k]) ==>
                     0 < k < |keep| - 1 && sed(keep[k - 1], keep[k + 1], keep[k]) > s.tolerance
  }

  /** These are the segments' ends, in order. */
  ghost predicate AreEnds(seg: seq<nat>, ends: seq<nat>) {
    Ascending(ends) && forall i: nat :: i in ends <==> i < |seg| && !Inner(seg, i)
  }

  /** The answer when the ends alone are too many: some of them, spread evenly, the first and last among them. */
  ghost predicate ByEnds(seg: seq<nat>, keep: seq<nat>, limit: nat) {
    && |keep| == limit && (forall i :: i in keep ==> i < |seg| && !Inner(seg, i))
    && (limit >= 2 ==> exists ends :: AreEnds(seg, ends) && Evenly(ends, keep))
    && (limit >= 1 ==> keep[0] == 0)
    && (limit >= 2 ==> keep[limit - 1] == |seg| - 1)
  }

  ghost predicate TopRank(rank: seq<Rank>, n: nat, tolerance: real)
    requires n <= |rank|
  {
    && (forall i :: 0 <= i < n && rank[i].Fin? ==> rank[i].off <= tolerance)
    && (tolerance == SHAPE_TOLERANCE || exists i :: 0 <= i < n && rank[i] == Fin(tolerance))
  }

  /** The tolerance reported, and whether positions were left out for it: shapeTolerance where that fits, else the
      least that does, or, when the ends alone are too many, the least no inner position lies over. */
  ghost predicate Fitted(rank: seq<Rank>, limit: nat, tolerance: real, more: bool) {
    && (more <==> Counted(rank, Fin(15.0), false) > limit)
    && tolerance >= 15.0 && (!more ==> tolerance == 15.0)
    && if Counted(rank, Inf, true) > limit then TopRank(rank, |rank|, tolerance)
       else more ==> forall t: real {:trigger Counted(rank, Fin(t), false)} :: t < tolerance ==>
         Counted(rank, Fin(t), false) > limit
  }

  ghost predicate Answers(s: Shape, points: seq<TrackPoint>, silence: int, seg: seq<nat>, sed: Distance, limit: nat,
          keep: seq<nat>)
  {
    && |keep| == |s.points| <= limit && Ascending(keep)
    && (forall k :: 0 <= k < |keep| ==> keep[k] < |points| && s.points[k] == points[keep[k]])
    && |seg| == |points|
    && Fitted(Ranks(seg, sed), limit, s.tolerance, s.more)
    && (if EndCount(seg, sed) > limit then ByEnds(seg, keep, limit) else ByShape(s, seg, sed, keep))
    && Ascending(s.breaks) && forall k: nat :: k in s.breaks <==> Starts(points, silence, keep, k)
  }

  /** When the rank at limit is not over t, at most limit ranks are. */
  lemma TailNotOver(s: seq<Rank>, limit: nat, t: Rank)
    requires Descending(s) && limit < |s| && !Greater(s[limit], t)
    ensures Counted(s, t, false) <= limit
  {
    assert s == s[..limit] + s[limit..];
    CountedConcat(s[..limit], s[limit..], t, false);
    forall i | 0 <= i < |s[limit..]|
      ensures !Greater(s[limit..][i], t)
    {
      assert i > 0 ==> !Greater(s[limit + i], s[limit]);
    }
    CountedNone(s[limit..], t, false);
  }

  lemma {:induction false} InfsAreOver(s: seq<Rank>)
    ensures Counted(s, Inf, true) <= Counted(s, Fin(SHAPE_TOLERANCE), false)
  {
    if s != [] {
      InfsAreOver(s[1..]);
    }
  }

  /** The tolerance that fits the limit: shapeTolerance, or the first rank past the limit. */
  method Fit(rank: seq<Rank>, limit: nat) returns (t: Rank, more: bool)
    ensures t.Inf? <==> Counted(rank, Inf, true) > limit
    ensures t.Fin? ==> Counted(rank, t, false) <= limit && t.off >= SHAPE_TOLERANCE
    ensures !more ==> t == Fin(SHAPE_TOLERANCE)
    ensures more <==> Counted(rank, Fin(SHAPE_TOLERANCE), false) > limit
    ensures more ==> forall r {:trigger Counted(rank, r, false)} :: Greater(t, r) ==> Counted(rank, r, false) > limit
  {
    t, more := Fin(SHAPE_TOLERANCE), false;
    var kept := 0;
    for i := 0 to |rank|
      invariant kept == Counted(rank[..i], t, false)
    {
      assert rank[..i + 1] == rank[..i] + [rank[i]];
      CountedConcat(rank[..i], [rank[i]], t, false);
      if Greater(rank[i], t) {
        kept := kept + 1;
      }
    }
    assert rank[..|rank|] == rank;
    if kept > limit {
      var sorted := SortDescending(rank);
      CountedPermuted(sorted, rank, Inf, true);
      CountedPermuted(sorted, rank, Fin(SHAPE_TOLERANCE), false);
      CountedPermuted(sorted, rank, sorted[limit], false);
      AtLimit(sorted, limit);
      if !Greater(sorted[limit], Fin(SHAPE_TOLERANCE)) {
        TailNotOver(sorted, limit, Fin(SHAPE_TOLERANCE));
      }
      forall r | Greater(sorted[limit], r)
        ensures Counted(rank, r, false) > limit
      {
        LessDoesNotFit(sorted, limit, r);
        CountedPermuted(sorted, rank, r, false);
      }
      t, more := sorted[limit], true;
    } else {
      InfsAreOver(rank);
    }
  }

  lemma EndsOutermost(seg: seq<nat>, sed: Distance, ends: seq<nat>)
    requires Ascending(ends) && ends != [] && forall i: nat :: i in ends <==> i < |seg| && RankOf(sed, seg, i).Inf?
    ensures ends[0] == 0 && ends[|ends| - 1] == |seg| - 1 && AreEnds(seg, ends)
  {
    EachDroppedOnce(sed, |seg|, All(|seg|), Inners(seg), 0.0);
    assert ends[0] in ends && ends[|ends| - 1] in ends;
    assert 0 !in Inners(seg) && |seg| - 1 !in Inners(seg);
    assert 0 in ends && |seg| - 1 in ends;
  }

  /** More ends than the limit holds: the ends kept. */
  method ChooseEnds(rank: seq<Rank>, ghost seg: seq<nat>, ghost sed: Distance, limit: nat) returns (keep: seq<nat>)
    requires |rank| == |seg| && (forall i :: 0 <= i < |seg| ==> rank[i] == RankOf(sed, seg, i))
             && Counted(rank, Inf, true) > limit
    ensures ByEnds(seg, keep, limit) && Ascending(keep)
  {
    var ends := Ends(rank);
    EndsOutermost(seg, sed, ends);
    keep := PickEnds(ends, limit);
  }

  /** The tolerance reported with them: the greatest rank, or shapeTolerance. */
  method TopTolerance(rank: seq<Rank>) returns (tolerance: real)
    ensures tolerance >= SHAPE_TOLERANCE && TopRank(rank, |rank|, tolerance)
  {
    tolerance := SHAPE_TOLERANCE;
    for i := 0 to |rank|
      invariant tolerance >= SHAPE_TOLERANCE && TopRank(rank, i, tolerance)
    {
      if rank[i].Fin? && rank[i].off > tolerance {
        tolerance := rank[i].off;
      }
    }
  }

  /** The ranks kept and the tolerance reported. */
  method Choose(rank: seq<Rank>, ghost seg: seq<nat>, ghost sed: Distance, limit: nat)
    returns (keep: seq<nat>, tolerance: real, more: bool)
    requires |rank| == |seg| && forall i :: 0 <= i < |seg| ==> rank[i] == RankOf(sed, seg, i)
    ensures |keep| <= limit && Ascending(keep) && forall k :: 0 <= k < |keep| ==> keep[k] < |seg|
    ensures Fitted(rank, limit, tolerance, more)
    ensures if Counted(rank, Inf, true) > limit then ByEnds(seg, keep, limit)
            else ByShape(Shape([], more, [], tolerance), seg, sed, keep)
  {
    var t: Rank;
    t, more := Fit(rank, limit);
    if t.Inf? {
      keep := ChooseEnds(rank, seg, sed, limit);
      assert forall k :: 0 <= k < |keep| ==> keep[k] in keep;
      tolerance := TopTolerance(rank);
    } else {
      tolerance := t.off;
      keep := KeepOver(rank, t);
      assert forall k :: 0 <= k < |keep| ==> keep[k] in keep;
      KeptLieOff(seg, sed, keep, tolerance);
    }
  }

  /** At most limit positions, in order, chosen by shape or, when the ends alone are too many, by spreading them. */
  method Simplify(points: seq<TrackPoint>, silence: int, limit: nat, sed: Distance) returns (s: Shape)
    ensures |s.points| <= limit && s.tolerance >= SHAPE_TOLERANCE
    ensures exists seg, keep ::
              && |seg| == |points| && IsSegmented(points, silence, seg)
              && Answers(s, points, silence, seg, sed, limit, keep)
  {
    var seg := Segments(points, silence);
    var ranks := RankPositions(seg, sed);
    assert ranks[..] == Ranks(seg, sed);
    var keep, tolerance, more := Choose(ranks[..], seg, sed, limit);
    var kept, breaks := Collect(points, silence, seg, keep);
    s := Shape(kept, more, breaks, tolerance);
    assert ByShape(Shape([], more, [], tolerance), seg, sed, keep) ==> ByShape(s, seg, sed, keep);
    assert Answers(s, points, silence, seg, sed, limit, keep);
  }
}
