/** Loading an archive file's rows: each a copy of the nearest live transmission, or one of its own
    (server/history.go). */
module History {
  import opened ByteNames

  /** A staged row: a live transmission, or a row of the file. Times are in nanoseconds, positions in wire units. */
  datatype Row = Row(live: bool, ts: int, lat6: int, lon6: int, disc: Byte, bad: bool)

  /** A reception written: what transmission it is of, and its verdicts. */
  datatype Point = Point(ts: int, txAt: int, disc: Byte, dup: bool, implausible: bool)

  const RECENT_KEEP := 300_000_000_000
  const RECENT_NEAR := 4

  function Abs(x: int): (a: int)
    ensures a >= 0 && (a == x || a == -x)
  {
    if x < 0 then -x else x
  }

  function UnixMilli(ts: int): (ms: int)
    ensures ms * 1_000_000 <= ts < (ms + 1) * 1_000_000
  {
    ts / 1_000_000
  }

  ghost predicate InTime(rows: seq<Row>) { forall i, j :: 0 <= i < j < |rows| ==> rows[i].ts <= rows[j].ts }

  /** The rows of one kind, in order. */
  function Of(rows: seq<Row>, live: bool): seq<Row> {
    if rows == [] then []
    else Of(rows[..|rows| - 1], live) + if rows[|rows| - 1].live == live then [rows[|rows| - 1]] else []
  }

  lemma {:induction false} OfIn(rows: seq<Row>, live: bool)
    ensures forall r :: r in Of(rows, live) ==> r in rows
  {
    if rows != [] {
      OfIn(rows[..|rows| - 1], live);
    }
  }

  lemma InTimeMore(some: seq<Row>, rows: seq<Row>, r: Row)
    requires InTime(some) && InTime(rows + [r]) && forall x :: x in some ==> x in rows
    ensures InTime(some + [r])
  {
    forall i | 0 <= i < |some|
      ensures some[i].ts <= r.ts
    {
      assert some[i] in rows;
      var j :| 0 <= j < |rows| && rows[j] == some[i];
      assert (rows + [r])[j] == rows[j] && (rows + [r])[|rows|] == r;
    }
  }

  lemma {:induction false} OfInTime(rows: seq<Row>, live: bool)
    requires InTime(rows)
    ensures InTime(Of(rows, live))
  {
    if rows != [] {
      var n := |rows| - 1;
      OfInTime(rows[..n], live);
      OfIn(rows[..n], live);
      assert rows == rows[..n] + [rows[n]];
      InTimeMore(Of(rows[..n], live), rows[..n], rows[n]);
    }
  }

  /** The rows of one kind are those at these places, all of them and in order. */
  ghost predicate PartAt(rows: seq<Row>, live: bool, part: seq<Row>, at: seq<nat>) {
    && |at| == |part|
    && (forall k :: 0 <= k < |at| ==> at[k] < |rows| && part[k] == rows[at[k]])
    && (forall i, j :: 0 <= i < j < |at| ==> at[i] < at[j])
    && forall i: nat :: i in at <==> i < |rows| && rows[i].live == live
  }

  lemma {:induction false} OfAt(rows: seq<Row>, live: bool) returns (at: seq<nat>)
    ensures PartAt(rows, live, Of(rows, live), at)
  {
    if rows == [] {
      return [];
    }
    var n := |rows| - 1;
    at := OfAt(rows[..n], live);
    forall k | 0 <= k < |at|
      ensures at[k] < n
    {
      assert at[k] in at;
    }
    at := at + if rows[n].live == live then [n] else [];
  }

  lemma OfMore(front: seq<Row>, x: Row, live: bool)
    ensures multiset(Of(front + [x], live)) == multiset(Of(front, live))
            + if x.live == live then multiset{x} else multiset{}
  {
    assert (front + [x])[..|front|] == front;
  }

  /** Together the two kinds are all the rows. */
  lemma {:induction false} OfBoth(rows: seq<Row>)
    ensures multiset(Of(rows, true)) + multiset(Of(rows, false)) == multiset(rows)
  {
    if rows != [] {
      var front, x := rows[..|rows| - 1], rows[|rows| - 1];
      assert rows == front + [x];
      OfBoth(front);
      OfMore(front, x, true);
      OfMore(front, x, false);
      assert multiset(front + [x]) == multiset(front) + multiset{x};
    }
  }

  // ---- the nearest live transmission ----

  /** A live transmission a row may repeat: good, near it, and within reach in time. */
  predicate Near(l: Row, r: Row) {
    !l.bad && Abs(l.ts - r.ts) < 300 * 1_000_000_000 && Abs(l.lat6 - r.lat6) <= 4 && Abs(l.lon6 - r.lon6) <= 4
  }

  ghost predicate Repeats(live: seq<Row>, r: Row) { exists j :: 0 <= j < |live| && Near(live[j], r) }

  /** What a scan of every live transmission finds: the nearest in time, the first of equals. */
  ghost predicate Nearest(live: seq<Row>, r: Row, m: nat) {
    && m < |live| && Near(live[m], r)
    && forall j :: 0 <= j < |live| && Near(live[j], r) ==>
         Abs(live[m].ts - r.ts) < Abs(live[j].ts - r.ts) || (Abs(live[m].ts - r.ts) == Abs(live[j].ts - r.ts) && m <= j)
  }

  /** Live rows before lo are too old for a row, and for those after it. */
  ghost predicate Past(live: seq<Row>, lo: nat, r: Row) {
    lo <= |live| && forall j :: 0 <= j < lo ==> r.ts - live[j].ts >= RECENT_KEEP
  }

  lemma BestOfMore(live: seq<Row>, r: Row, j: nat, m: int, best: int)
    requires BestOf(live, r, j, m, best) && j < |live| && Abs(live[j].ts - r.ts) < RECENT_KEEP
    ensures if Near(live[j], r) && Abs(live[j].ts - r.ts) < best then BestOf(live, r, j + 1, j, Abs(live[j].ts - r.ts))
            else BestOf(live, r, j + 1, m, best)
  {
  }

  lemma RestOutOfReach(live: seq<Row>, r: Row, j: nat, m: int)
    requires InTime(live) && j <= |live| && (j < |live| ==> live[j].ts - r.ts >= RECENT_KEEP) && m < j
    requires if m < 0 then !Repeats(live[..j], r) else Nearest(live[..j], r, m)
    ensures if m < 0 then !Repeats(live, r) else Nearest(live, r, m)
  {
  }

  method SearchFrom(live: seq<Row>, r: Row, lo: nat) returns (m: int)
    requires InTime(live) && Past(live, lo, r) && (lo < |live| ==> r.ts - live[lo].ts < RECENT_KEEP)
    ensures if m < 0 then !Repeats(live, r) else Nearest(live, r, m)
  {
    m := -1;
    var best := RECENT_KEEP;
    var j := lo;
    while j < |live| && live[j].ts - r.ts < RECENT_KEEP
      invariant lo <= j && BestOf(live, r, j, m, best)
    {
      assert live[lo].ts <= live[j].ts;
      BestOfMore(live, r, j, m, best);
      var dt := Abs(live[j].ts - r.ts);
      if !live[j].bad && dt < best && Abs(live[j].lat6 - r.lat6) <= RECENT_NEAR
        && Abs(live[j].lon6 - r.lon6) <= RECENT_NEAR {
        m, best := j, dt;
      }
      j := j + 1;
    }
    RestOutOfReach(live, r, j, m);
  }

  /** Looks only at the live rows within reach in time, from where the last search began. */
  method Match(live: seq<Row>, r: Row, lo0: nat) returns (lo: nat, m: int)
    requires InTime(live) && Past(live, lo0, r)
    ensures Past(live, lo, r)
    ensures if m < 0 then !Repeats(live, r) else Nearest(live, r, m)
  {
    lo := lo0;
    while lo < |live| && r.ts - live[lo].ts >= RECENT_KEEP
      invariant Past(live, lo, r)
    {
      lo := lo + 1;
    }
    m := SearchFrom(live, r, lo);
  }

  /** The best of the rows before j, best its distance in time, or the reach for none. */
  ghost predicate BestOf(live: seq<Row>, r: Row, j: nat, m: int, best: int) {
    && j <= |live| && m < j
    && if m < 0 then best == RECENT_KEEP && !Repeats(live[..j], r)
       else best == Abs(live[m].ts - r.ts) && Nearest(live[..j], r, m)
  }

  // ---- names ----

  /** The byte of an own row's id. */
  type IdByte = Row -> Byte

  /** The names the live transmissions hold. */
  function LiveNames(live: seq<Row>): Used {
    if live == [] then map[]
    else Take(LiveNames(live[..|live| - 1]), UnixMilli(live[|live| - 1].ts), live[|live| - 1].disc)
  }

  lemma {:induction false} LiveNamesHeld(live: seq<Row>, ms: int, d: Byte)
    ensures d in At(LiveNames(live), ms) <==> exists l :: l in live && UnixMilli(l.ts) == ms && l.disc == d
  {
    if live != [] {
      var n := |live| - 1;
      LiveNamesHeld(live[..n], ms, d);
      assert live == live[..n] + [live[n]];
    }
  }

  /** What the rows that repeat no live transmission ask for. */
  ghost function Asks(live: seq<Row>, own: seq<Row>, idByte: IdByte): seq<Ask> {
    if own == [] then []
    else
      var r := own[|own| - 1];
      Asks(live, own[..|own| - 1], idByte) + if Repeats(live, r) then [] else [Ask(UnixMilli(r.ts), idByte(r))]
  }

  /** The bytes those rows were given. */
  ghost function Given(live: seq<Row>, own: seq<Row>, out: seq<Point>): seq<Byte>
    requires |own| == |out|
  {
    if own == [] then []
    else
      var n := |own| - 1;
      Given(live, own[..n], out[..n]) + if Repeats(live, own[n]) then [] else [out[n].disc]
  }

  /** Point i: a copy of the nearest live transmission, or one of its own. */
  ghost predicate PointOf(live: seq<Row>, own: seq<Row>, i: nat, pt: Point, jumps: (Row, Row) -> bool)
    requires i < |own|
  {
    if Repeats(live, own[i])
    then exists m: nat ::
           && Nearest(live, own[i], m)
           && pt == Point(own[i].ts, live[m].ts, live[m].disc, true, live[m].bad)
    else pt == Point(own[i].ts, own[i].ts, pt.disc, false,
                     0 < i < |own| - 1 && jumps(own[i - 1], own[i]) && jumps(own[i], own[i + 1]))
  }

  ghost predicate PointsUpTo(live: seq<Row>, own: seq<Row>, n: nat, out: seq<Point>, jumps: (Row, Row) -> bool) {
    |out| == n <= |own| && forall k {:trigger PointOf(live, own, k, out[k], jumps)} :: 0 <= k < n ==>
      PointOf(live, own, k, out[k], jumps)
  }

  lemma OneMorePoint(live: seq<Row>, own: seq<Row>, out: seq<Point>, jumps: (Row, Row) -> bool, pt: Point)
    requires PointsUpTo(live, own, |out|, out, jumps) && |out| < |own| && PointOf(live, own, |out|, pt, jumps)
    ensures PointsUpTo(live, own, |out| + 1, out + [pt], jumps)
  {
  }

  // ---- the points' own names ----

  /** The own rows of a millisecond that repeat no live transmission. */
  ghost function OwnIn(live: seq<Row>, own: seq<Row>, ms: int): set<nat> {
    set k: nat | k < |own| && !Repeats(live, own[k]) && UnixMilli(own[k].ts) == ms
  }

  /** The bytes live transmissions hold in a millisecond. */
  function LiveBytes(live: seq<Row>, ms: int): set<Byte> { set l | l in live && UnixMilli(l.ts) == ms :: l.disc }

  /** No millisecond's own rows and live bytes come to over 256. */
  ghost predicate RoomFor(live: seq<Row>, own: seq<Row>) {
    forall ms {:trigger OwnIn(live, own, ms)} :: OwnIn(live, own, ms) != {} ==>
      |LiveBytes(live, ms)| + |OwnIn(live, own, ms)| <= 256
  }

  predicate ApartFrom(x: Point, y: Point) {
    !x.dup && !y.dup && UnixMilli(x.txAt) == UnixMilli(y.txAt) ==> x.disc != y.disc
  }

  predicate ApartFromLive(x: Point, l: Row) {
    !x.dup && UnixMilli(x.txAt) == UnixMilli(l.ts) ==> x.disc != l.disc
  }

  /** Points that are no copies are named apart from each other and from every live transmission. */
  ghost predicate NamedApart(live: seq<Row>, out: seq<Point>) {
    && (forall i, j :: 0 <= i < j < |out| ==> ApartFrom(out[i], out[j]))
    && (forall i, l :: 0 <= i < |out| && l in live ==> ApartFromLive(out[i], l))
  }

  /** Where the rows that ask for a name are. */
  ghost function Askers(live: seq<Row>, own: seq<Row>): seq<nat> {
    if own == [] then []
    else Askers(live, own[..|own| - 1]) + if Repeats(live, own[|own| - 1]) then [] else [|own| - 1]
  }

  /** Ask j is the row's at place at[j], and so is the name given. */
  ghost predicate AskerAt(live: seq<Row>, own: seq<Row>, out: seq<Point>, at: seq<nat>, asks: seq<Ask>,
          given: seq<Byte>, j: int)
  {
    0 <= j < |at| && j < |asks| && j < |given| ==>
      && at[j] < |own| && at[j] < |out| && !Repeats(live, own[at[j]])
      && asks[j].ms == UnixMilli(own[at[j]].ts) && given[j] == out[at[j]].disc
  }

  ghost predicate AskersFit(live: seq<Row>, own: seq<Row>, out: seq<Point>, at: seq<nat>, asks: seq<Ask>,
          given: seq<Byte>)
  {
    && |at| == |asks| == |given|
    && (forall j {:trigger AskerAt(live, own, out, at, asks, given, j)} :: AskerAt(live, own, out, at, asks, given, j))
    && (forall k {:trigger k in at} :: k in at <==> 0 <= k < |own| && !Repeats(live, own[k]))
    && (forall i, j :: 0 <= i < j < |at| ==> at[i] < at[j])
  }

  lemma AskersMore(live: seq<Row>, own: seq<Row>, out: seq<Point>, idByte: IdByte, at: seq<nat>, asks: seq<Ask>,
          given: seq<Byte>)
    requires own != [] && |own| == |out| && AskersFit(live, own[..|own| - 1], out[..|own| - 1], at, asks, given)
    ensures var n := |own| - 1;
            if Repeats(live, own[n]) then AskersFit(live, own, out, at + [], asks + [], given + [])
            else AskersFit(live, own, out, at + [n], asks + [Ask(UnixMilli(own[n].ts), idByte(own[n]))],
              given + [out[n].disc])
  {
    var n, more := |own| - 1, !Repeats(live, own[|own| - 1]);
    var at' := at + if more then [n] else [];
    var asks' := asks + if more then [Ask(UnixMilli(own[n].ts), idByte(own[n]))] else [];
    var given' := given + if more then [out[n].disc] else [];
    forall j
      ensures AskerAt(live, own, out, at', asks', given', j)
    {
      assert AskerAt(live, own[..n], out[..n], at, asks, given, j);
    }
    forall k
      ensures k in at' <==> 0 <= k < |own| && !Repeats(live, own[k])
    {
      assert k in at <==> 0 <= k < n && !Repeats(live, own[..n][k]);
    }
    assert forall i :: 0 <= i < |at| ==> at[i] in at;
  }

  lemma {:induction false} AskersAre(live: seq<Row>, own: seq<Row>, out: seq<Point>, idByte: IdByte)
    requires |own| == |out|
    ensures AskersFit(live, own, out, Askers(live, own), Asks(live, own, idByte), Given(live, own, out))
  {
    if own != [] {
      var n := |own| - 1;
      AskersAre(live, own[..n], out[..n], idByte);
      AskersMore(live, own, out, idByte, Askers(live, own[..n]), Asks(live, own[..n], idByte),
        Given(live, own[..n], out[..n]));
    }
  }

  lemma {:induction false} OwnCounts(live: seq<Row>, own: seq<Row>, idByte: IdByte, ms: int)
    ensures Count(Asks(live, own, idByte), ms) == |OwnIn(live, own, ms)|
  {
    if own != [] {
      var n := |own| - 1;
      var front := own[..n];
      OwnCounts(live, front, idByte, ms);
      CountMore(Asks(live, front, idByte), Ask(UnixMilli(own[n].ts), idByte(own[n])), ms);
      var was := OwnIn(live, front, ms);
      assert OwnIn(live, own, ms) == if !Repeats(live, own[n]) && UnixMilli(own[n].ts) == ms then was + {n} else was;
      assert Asks(live, front, idByte) + [] == Asks(live, front, idByte);
    }
  }

  lemma RoomExactly(live: seq<Row>, own: seq<Row>, idByte: IdByte)
    ensures Room(LiveNames(live), Asks(live, own, idByte)) <==> RoomFor(live, own)
  {
    forall ms
      ensures Count(Asks(live, own, idByte), ms) == |OwnIn(live, own, ms)|
      ensures Bytes(At(LiveNames(live), ms)) == LiveBytes(live, ms)
    {
      OwnCounts(live, own, idByte, ms);
      forall d: Byte
        ensures d in Bytes(At(LiveNames(live), ms)) <==> d in LiveBytes(live, ms)
      {
        LiveNamesHeld(live, ms, d);
      }
    }
  }

  lemma PointsAre(live: seq<Row>, own: seq<Row>, out: seq<Point>, jumps: (Row, Row) -> bool)
    requires PointsUpTo(live, own, |own|, out, jumps)
    ensures Marked(live, own, out)
  {
    forall k | 0 <= k < |own|
      ensures (out[k].dup <==> Repeats(live, own[k])) && (!out[k].dup ==> out[k].txAt == own[k].ts)
    {
      assert PointOf(live, own, k, out[k], jumps);
    }
  }

  lemma ApartIsDistinct(live: seq<Row>, own: seq<Row>, out: seq<Point>, idByte: IdByte)
    requires Marked(live, own, out) && NamedApart(live, out)
    ensures |Asks(live, own, idByte)| == |Given(live, own, out)|
    ensures Distinct(LiveNames(live), Asks(live, own, idByte), Given(live, own, out))
  {
    var asks, given, at := Asks(live, own, idByte), Given(live, own, out), Askers(live, own);
    AskersAre(live, own, out, idByte);
    forall j | 0 <= j < |asks|
      ensures given[j] !in At(LiveNames(live), asks[j].ms)
    {
      assert AskerAt(live, own, out, at, asks, given, j);
      LiveNamesHeld(live, asks[j].ms, given[j]);
      assert forall l :: l in live ==> ApartFromLive(out[at[j]], l);
    }
    forall i, j | 0 <= i < j < |asks| && asks[i].ms == asks[j].ms
      ensures given[i] != given[j]
    {
      assert AskerAt(live, own, out, at, asks, given, i) && AskerAt(live, own, out, at, asks, given, j);
      assert ApartFrom(out[at[i]], out[at[j]]);
    }
  }

  lemma DistinctIsApart(live: seq<Row>, own: seq<Row>, out: seq<Point>, idByte: IdByte)
    requires Marked(live, own, out) && |Asks(live, own, idByte)| == |Given(live, own, out)|
    requires Distinct(LiveNames(live), Asks(live, own, idByte), Given(live, own, out))
    ensures NamedApart(live, out)
  {
    var asks, given, at := Asks(live, own, idByte), Given(live, own, out), Askers(live, own);
    AskersAre(live, own, out, idByte);
    forall x, y | 0 <= x < y < |out|
      ensures ApartFrom(out[x], out[y])
    {
      if !out[x].dup && !out[y].dup {
        assert x in at && y in at;
        var i :| 0 <= i < |at| && at[i] == x;
        var j :| 0 <= j < |at| && at[j] == y;
        assert AskerAt(live, own, out, at, asks, given, i) && AskerAt(live, own, out, at, asks, given, j);
        assert i < j;
      }
    }
    forall x, l | 0 <= x < |out| && l in live
      ensures ApartFromLive(out[x], l)
    {
      if !out[x].dup {
        assert x in at;
        var i :| 0 <= i < |at| && at[i] == x;
        assert AskerAt(live, own, out, at, asks, given, i);
        LiveNamesHeld(live, asks[i].ms, given[i]);
      }
    }
  }

  lemma ApartExactly(live: seq<Row>, own: seq<Row>, out: seq<Point>, idByte: IdByte, jumps: (Row, Row) -> bool)
    requires PointsUpTo(live, own, |own|, out, jumps)
    ensures |Asks(live, own, idByte)| == |Given(live, own, out)|
    ensures NamedApart(live, out) <==> Distinct(LiveNames(live), Asks(live, own, idByte), Given(live, own, out))
  {
    AskersAre(live, own, out, idByte);
    PointsAre(live, own, out, jumps);
    if NamedApart(live, out) {
      ApartIsDistinct(live, own, out, idByte);
    }
    if Distinct(LiveNames(live), Asks(live, own, idByte), Given(live, own, out)) {
      DistinctIsApart(live, own, out, idByte);
    }
  }

  /** The points of rows that ask for a name are the ones that are no copies. */
  ghost predicate Marked(live: seq<Row>, own: seq<Row>, out: seq<Point>) {
    |own| == |out| && forall k :: 0 <= k < |own| ==>
      (out[k].dup <==> Repeats(live, own[k])) && (!out[k].dup ==> out[k].txAt == own[k].ts)
  }

  lemma StillPast(live: seq<Row>, lo: nat, r: Row, next: Row)
    requires Past(live, lo, r) && r.ts <= next.ts
    ensures Past(live, lo, next)
  {
  }

  /** The bytes given so far, and those in use, are the search's. */
  ghost predicate NamedUpTo(live: seq<Row>, own: seq<Row>, idByte: IdByte, out: seq<Point>, used: Used) {
    && |out| <= |own|
    && Given(live, own[..|out|], out) == Assign(LiveNames(live), Asks(live, own[..|out|], idByte))
    && used == After(LiveNames(live), Asks(live, own[..|out|], idByte))
  }

  method UsedNames(live: seq<Row>) returns (used: Used)
    ensures used == LiveNames(live)
  {
    used := map[];
    for i := 0 to |live|
      invariant used == LiveNames(live[..i])
    {
      assert live[..i + 1][..i] == live[..i];
      var ms := UnixMilli(live[i].ts);
      used := used[ms := At(used, ms) + [live[i].disc]];
    }
    assert live[..|live|] == live;
  }

  lemma CopyNamesNothing(live: seq<Row>, own: seq<Row>, idByte: IdByte, out: seq<Point>, used: Used, pt: Point)
    requires NamedUpTo(live, own, idByte, out, used) && |out| < |own| && Repeats(live, own[|out|])
    ensures NamedUpTo(live, own, idByte, out + [pt], used)
  {
    var i := |out|;
    assert own[..i + 1][..i] == own[..i] && own[..i + 1][i] == own[i] && (out + [pt])[..i] == out;
    var asks, given := Asks(live, own[..i], idByte), Given(live, own[..i], out);
    assert asks + [] == asks && given + [] == given;
  }

  lemma OwnIsNamed(live: seq<Row>, own: seq<Row>, idByte: IdByte, out: seq<Point>, used: Used, pt: Point)
    requires NamedUpTo(live, own, idByte, out, used) && |out| < |own| && !Repeats(live, own[|out|])
    requires pt.disc == Probe(idByte(own[|out|]), At(used, UnixMilli(own[|out|].ts)), 256)
    ensures NamedUpTo(live, own, idByte, out + [pt], Take(used, UnixMilli(own[|out|].ts), pt.disc))
  {
    var i := |out|;
    assert own[..i + 1][..i] == own[..i] && (out + [pt])[..i] == out;
    AssignMore(LiveNames(live), Asks(live, own[..i], idByte), Ask(UnixMilli(own[i].ts), idByte(own[i])));
  }

  /** One own row: it takes its match's name and verdict, or a free byte and its own. */
  method Convert(live: seq<Row>, own: seq<Row>, i: nat, m: int, used: Used, idByte: IdByte, jumps: (Row, Row) -> bool,
          ghost out: seq<Point>)
    returns (pt: Point, now: Used)
    requires i < |own| && |out| == i && if m < 0 then !Repeats(live, own[i]) else Nearest(live, own[i], m)
    requires NamedUpTo(live, own, idByte, out, used)
    ensures PointOf(live, own, i, pt, jumps) && NamedUpTo(live, own, idByte, out + [pt], now)
  {
    var r := own[i];
    now := used;
    if m >= 0 {
      var l := live[m];
      pt := Point(r.ts, l.ts, l.disc, true, l.bad);
      assert Near(live[m], r);
      CopyNamesNothing(live, own, idByte, out, used, pt);
    } else {
      var ms := UnixMilli(r.ts);
      var d := FreeByte(idByte(r), At(used, ms));
      now := used[ms := At(used, ms) + [d]];
      var implausible := i > 0 && i < |own| - 1 && jumps(own[i - 1], own[i]) && jumps(own[i], own[i + 1]);
      pt := Point(r.ts, r.ts, d, false, implausible);
      OwnIsNamed(live, own, idByte, out, used, pt);
    }
  }

  method OwnPoints(live: seq<Row>, own: seq<Row>, idByte: IdByte, jumps: (Row, Row) -> bool) returns (out: seq<Point>)
    requires InTime(live) && InTime(own)
    ensures PointsUpTo(live, own, |own|, out, jumps)
    ensures Given(live, own, out) == Assign(LiveNames(live), Asks(live, own, idByte))
  {
    var used := UsedNames(live);
    out := [];
    var lo: nat := 0;
    for i := 0 to |own|
      invariant lo <= |live| && (i < |own| ==> Past(live, lo, own[i]))
      invariant PointsUpTo(live, own, i, out, jumps)
      invariant NamedUpTo(live, own, idByte, out, used)
    {
      var m: int;
      lo, m := Match(live, own[i], lo);
      var pt;
      pt, used := Convert(live, own, i, m, used, idByte, jumps, out);
      OneMorePoint(live, own, out, jumps, pt);
      out := out + [pt];
      if i + 1 < |own| {
        StillPast(live, lo, own[i], own[i + 1]);
      }
    }
    assert own[..|own|] == own;
  }

  ghost predicate IsPart(rows: seq<Row>, live: bool, part: seq<Row>) { exists at :: PartAt(rows, live, part, at) }

  lemma PartsAre(rows: seq<Row>)
    ensures IsPart(rows, true, Of(rows, true)) && IsPart(rows, false, Of(rows, false))
  {
    var liveAt := OfAt(rows, true);
    var ownAt := OfAt(rows, false);
  }

  /** These are the places of the file's own rows, and the points at them have their times. */
  ghost predicate TimedAt(rows: seq<Row>, out: seq<Point>, at: seq<nat>) {
    && |out| == |at| && (forall i, j :: 0 <= i < j < |at| ==> at[i] < at[j])
    && (forall i: nat :: i in at <==> i < |rows| && !rows[i].live)
    && forall k :: 0 <= k < |at| ==> at[k] < |rows| && out[k].ts == rows[at[k]].ts
  }

  ghost predicate PointPerRow(rows: seq<Row>, out: seq<Point>) { exists at :: TimedAt(rows, out, at) }

  lemma PointsPerRow(rows: seq<Row>, out: seq<Point>, jumps: (Row, Row) -> bool)
    requires var live, own := Of(rows, true), Of(rows, false); PointsUpTo(live, own, |own|, out, jumps)
    ensures PointPerRow(rows, out)
  {
    var live, own := Of(rows, true), Of(rows, false);
    var at := OfAt(rows, false);
    forall k | 0 <= k < |out|
      ensures out[k].ts == own[k].ts
    {
      assert PointOf(live, own, k, out[k], jumps);
    }
    assert TimedAt(rows, out, at);
  }

  /** Turns one vessel's staged rows into receptions, a point for each row of the file. A row that repeats no live
      transmission is named by the search, and those are named apart from each other and every live one exactly where
      no millisecond's come to over 256. */
  method HistoryVessel(rows: seq<Row>, idByte: IdByte, jumps: (Row, Row) -> bool) returns (out: seq<Point>)
    requires forall i, j :: 0 <= i < j < |rows| ==> rows[i].ts <= rows[j].ts
    ensures var live, own := Of(rows, true), Of(rows, false);
            && PointsUpTo(live, own, |own|, out, jumps)
            && Given(live, own, out) == Assign(LiveNames(live), Asks(live, own, idByte))
            && (NamedApart(live, out) <==> RoomFor(live, own))
    ensures IsPart(rows, true, Of(rows, true)) && IsPart(rows, false, Of(rows, false)) && PointPerRow(rows, out)
  {
    var live, own := Of(rows, true), Of(rows, false);
    OfInTime(rows, true);
    OfInTime(rows, false);
    out := OwnPoints(live, own, idByte, jumps);
    NamesExactly(LiveNames(live), Asks(live, own, idByte));
    RoomExactly(live, own, idByte);
    ApartExactly(live, own, out, idByte, jumps);
    PartsAre(rows);
    PointsPerRow(rows, out, jumps);
  }
}
