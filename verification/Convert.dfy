/** Converting a vessel's stored rows: each transmission's accepted copy, its name, and the stale sweep
    (server/convert.go). */
module Convert {
  import opened ByteNames

  type Tx = nat

  /** An arrival as stored, in nanoseconds after the zero time, which no column can hold. */
  type Arrival = t: int | 0 < t witness 1

  datatype Row = Row(tx: Tx, ts: int, recv: Arrival, accepted: bool, implausible: bool)

  /** What a transmission is named by: the copy accepted first. */
  datatype First = First(ts: int, recv: Arrival, accepted: bool)

  const SECOND := 1_000_000_000

  function UnixMilli(ts: int): (ms: int)
    ensures ms * 1_000_000 <= ts < (ms + 1) * 1_000_000
  {
    ts / 1_000_000
  }

  function FirstOf(r: Row): First { First(r.ts, r.recv, r.accepted) }

  // ---- the accepted copy ----

  /** Row i is its transmission's earliest-arriving accepted copy, or, where none is accepted, its earliest copy,
      among the first n. */
  ghost predicate Earliest(rows: seq<Row>, n: nat, i: nat)
    requires i < n <= |rows|
  {
    forall j {:trigger rows[j]} :: 0 <= j < n && rows[j].tx == rows[i].tx ==>
      if rows[i].accepted then rows[j].accepted ==>
        rows[i].recv < rows[j].recv || (rows[i].recv == rows[j].recv && i <= j)
      else !rows[j].accepted && (rows[i].ts < rows[j].ts || (rows[i].ts == rows[j].ts && i <= j))
  }

  ghost predicate FirstCopies(rows: seq<Row>, n: nat, at: map<Tx, First>, src: map<Tx, nat>)
    requires n <= |rows|
  {
    && at.Keys == src.Keys
    && (forall j :: 0 <= j < n ==> rows[j].tx in at)
    && (forall x :: x in at ==>
          && src[x] < n && rows[src[x]].tx == x
          && at[x] == FirstOf(rows[src[x]]) && Earliest(rows, n, src[x]))
  }

  /** Whether a row takes the place of the copy held of its transmission. */
  predicate Replaces(r: Row, at: map<Tx, First>) {
    r.tx !in at || (r.accepted && (!at[r.tx].accepted || r.recv < at[r.tx].recv))
    || (!r.accepted && !at[r.tx].accepted && r.ts < at[r.tx].ts)
  }

  lemma OneMoreCopy(rows: seq<Row>, n: nat, at: map<Tx, First>, src: map<Tx, nat>)
    requires n < |rows| && FirstCopies(rows, n, at, src)
    ensures forall x :: x in at && (x != rows[n].tx || !Replaces(rows[n], at)) ==> Earliest(rows, n + 1, src[x])
    ensures Replaces(rows[n], at) ==> Earliest(rows, n + 1, n)
  {
  }

  /** A transmission's accepted copy, of these rows. */
  ghost predicate IsFirst(rows: seq<Row>, x: Tx, f: First) {
    exists i :: 0 <= i < |rows| && rows[i].tx == x && f == FirstOf(rows[i]) && Earliest(rows, |rows|, i)
  }

  /** What the copy held of a row's transmission is to the row: accepted if it is, and then no later to arrive; where
      none is accepted, no later. */
  predicate FirstOver(r: Row, f: First) {
    if f.accepted then r.accepted ==> f.recv <= r.recv else !r.accepted && f.ts <= r.ts
  }

  lemma FirstsOver(rows: seq<Row>, at: map<Tx, First>, src: map<Tx, nat>)
    requires FirstCopies(rows, |rows|, at, src)
    ensures forall j :: 0 <= j < |rows| ==> rows[j].tx in at && FirstOver(rows[j], at[rows[j].tx])
  {
    forall j | 0 <= j < |rows|
      ensures rows[j].tx in at && FirstOver(rows[j], at[rows[j].tx])
    {
      assert Earliest(rows, |rows|, src[rows[j].tx]);
    }
  }

  /** Finds each transmission's accepted copy in one pass. */
  method FindFirsts(rows: seq<Row>) returns (at: map<Tx, First>)
    ensures forall x :: x in at <==> exists j :: 0 <= j < |rows| && rows[j].tx == x
    ensures forall x :: x in at ==> IsFirst(rows, x, at[x])
    ensures forall j :: 0 <= j < |rows| ==> FirstOver(rows[j], at[rows[j].tx])
  {
    at := map[];
    ghost var src: map<Tx, nat> := map[];
    for i := 0 to |rows|
      invariant FirstCopies(rows, i, at, src)
    {
      var r := rows[i];
      OneMoreCopy(rows, i, at, src);
      if Replaces(r, at) {
        at, src := at[r.tx := First(r.ts, r.recv, r.accepted)], src[r.tx := i];
      }
    }
    FirstsOver(rows, at, src);
  }

  // ---- the order they are named in ----

  predicate Before(at: map<Tx, First>, x: Tx, y: Tx)
    requires x in at && y in at
  {
    at[x].recv < at[y].recv || (at[x].recv == at[y].recv && x < y)
  }

  /** Received earlier, or at the same time under a lower id. */
  ghost predicate Sooner(at: map<Tx, First>, x: Tx, y: Tx) {
    x in at && y in at && at[x].recv <= at[y].recv && (at[x].recv < at[y].recv || x < y)
  }

  /** Every transmission once, the sooner first. */
  ghost predicate InOrder(at: map<Tx, First>, order: seq<Tx>) {
    && (forall x :: x in order <==> x in at)
    && (forall i, j :: 0 <= i < j < |order| ==> Sooner(at, order[i], order[j]))
  }

  method Soonest(at: map<Tx, First>, left: set<Tx>) returns (x: Tx)
    requires left != {} && left <= at.Keys
    ensures x in left && forall y :: y in left && y != x ==> Before(at, x, y)
  {
    x :| x in left;
    var rest := left - {x};
    while rest != {}
      invariant x in left && rest <= left - {x} && forall y :: y in left && y !in rest && y != x ==> Before(at, x, y)
      decreases |rest|
    {
      var y :| y in rest;
      rest := rest - {y};
      if Before(at, y, x) {
        x := y;
      }
    }
  }

  /** The transmissions in the order they were accepted. */
  method Order(at: map<Tx, First>) returns (order: seq<Tx>)
    ensures InOrder(at, order)
  {
    order := [];
    var left := at.Keys;
    while left != {}
      invariant left <= at.Keys && (forall x :: x in order <==> x in at && x !in left)
      invariant forall i, j :: 0 <= i < j < |order| ==> Before(at, order[i], order[j])
      invariant forall x, y :: x in order && y in left ==> Before(at, x, y)
      decreases |left|
    {
      var x := Soonest(at, left);
      order := order + [x];
      left := left - {x};
    }
  }

  lemma Tail(at: map<Tx, First>, a: seq<Tx>)
    requires InOrder(at, a) && a != []
    ensures InOrder(at - {a[0]}, a[1..])
  {
  }

  /** That order is one, whatever order the map gave the transmissions in. */
  lemma {:induction false} OrderUnique(at: map<Tx, First>, a: seq<Tx>, b: seq<Tx>)
    requires InOrder(at, a) && InOrder(at, b)
    ensures a == b
    decreases |a|
  {
    if a == [] {
      assert forall i :: 0 <= i < |b| ==> b[i] in a;
    } else {
      assert a[0] in b;
      assert b[0] in a;
      var i :| 0 <= i < |b| && b[i] == a[0];
      var j :| 0 <= j < |a| && a[j] == b[0];
      assert i == 0;
      var rest := at - {a[0]};
      Tail(at, a);
      Tail(at, b);
      OrderUnique(rest, a[1..], b[1..]);
      assert a == [a[0]] + a[1..] && b == [b[0]] + b[1..];
    }
  }

  // ---- their names ----

  /** The byte tried first: the id's low byte, mixed with the millisecond's. */
  type IdByte = (Tx, int) -> Byte

  function AskOf(at: map<Tx, First>, x: Tx, idByte: IdByte): Ask
    requires x in at
  {
    var ms := UnixMilli(at[x].ts);
    Ask(ms, idByte(x, ms))
  }

  function Asks(at: map<Tx, First>, order: seq<Tx>, idByte: IdByte): (r: seq<Ask>)
    requires forall x :: x in order ==> x in at
    ensures |r| == |order|
  {
    if order == [] then []
    else Asks(at, order[..|order| - 1], idByte) + [AskOf(at, order[|order| - 1], idByte)]
  }

  lemma {:induction false} AsksAt(at: map<Tx, First>, order: seq<Tx>, idByte: IdByte, i: nat)
    requires (forall x :: x in order ==> x in at) && i < |order|
    ensures Asks(at, order, idByte)[i] == AskOf(at, order[i], idByte)
  {
    if i < |order| - 1 {
      AsksAt(at, order[..|order| - 1], idByte, i);
    }
  }

  /** Each transmission's byte is the one the search gives it in this order. */
  ghost predicate Named(at: map<Tx, First>, order: seq<Tx>, idByte: IdByte, disc: map<Tx, Byte>)
    requires forall x :: x in order ==> x in at
  {
    && (forall x :: x in disc <==> x in order)
    && forall i {:trigger order[i]} :: 0 <= i < |order| ==> disc[order[i]] == Assign(map[], Asks(at, order, idByte))[i]
  }

  lemma NamesMore(order: seq<Tx>, n: nat, disc: map<Tx, Byte>, d: Byte, names: seq<Byte>)
    requires n < |order| && |names| == n && order[n] !in order[..n] && (forall x :: x in disc <==> x in order[..n])
    requires forall i {:trigger order[..n][i]} :: 0 <= i < n ==> disc[order[..n][i]] == names[i]
    ensures var more, now := disc[order[n] := d], order[..n + 1];
            (forall x :: x in more <==> x in now)
              && forall i {:trigger now[i]} :: 0 <= i < n + 1 ==> more[now[i]] == (names + [d])[i]
  {
  }

  lemma NamedMore(at: map<Tx, First>, order: seq<Tx>, n: nat, idByte: IdByte, disc: map<Tx, Byte>, d: Byte)
    requires InOrder(at, order) && n < |order| && Named(at, order[..n], idByte, disc)
    requires var ask := AskOf(at, order[n], idByte);
             d == Probe(ask.first, At(After(map[], Asks(at, order[..n], idByte)), ask.ms), 256)
    ensures Named(at, order[..n + 1], idByte, disc[order[n] := d])
    ensures var ask := AskOf(at, order[n], idByte);
            After(map[], Asks(at, order[..n + 1], idByte)) ==
              Take(After(map[], Asks(at, order[..n], idByte)), ask.ms, d)
  {
    AsksMore(at, order, n, idByte);
    AssignMore(map[], Asks(at, order[..n], idByte), AskOf(at, order[n], idByte));
    NamesMore(order, n, disc, d, Assign(map[], Asks(at, order[..n], idByte)));
  }

  /** Names the transmissions in turn, each by the search from the byte of its id. */
  method Name(at: map<Tx, First>, order: seq<Tx>, idByte: IdByte) returns (disc: map<Tx, Byte>)
    requires InOrder(at, order)
    ensures Named(at, order, idByte, disc)
  {
    disc := map[];
    var used: Used := map[];
    for n := 0 to |order|
      invariant Named(at, order[..n], idByte, disc) && used == After(map[], Asks(at, order[..n], idByte))
    {
      var x := order[n];
      var ms := UnixMilli(at[x].ts);
      var d := FreeByte(idByte(x, ms), At(used, ms));
      assert x !in order[..n];
      NamedMore(at, order, n, idByte, disc, d);
      used := used[ms := At(used, ms) + [d]];
      disc := disc[x := d];
    }
    assert order[..|order|] == order;
  }

  lemma AsksMore(at: map<Tx, First>, order: seq<Tx>, n: nat, idByte: IdByte)
    requires (forall x :: x in order ==> x in at) && n < |order|
    ensures Asks(at, order[..n + 1], idByte) == Asks(at, order[..n], idByte) + [AskOf(at, order[n], idByte)]
  {
    assert order[..n + 1][..n] == order[..n];
  }

  /** The names are the same whatever order the map gave the transmissions in. */
  lemma NamesDetermined(at: map<Tx, First>, a: seq<Tx>, b: seq<Tx>, idByte: IdByte, p: map<Tx, Byte>, q: map<Tx, Byte>)
    requires InOrder(at, a) && InOrder(at, b) && Named(at, a, idByte, p) && Named(at, b, idByte, q)
    ensures p == q
  {
    OrderUnique(at, a, b);
    forall x | x in p
      ensures x in q && p[x] == q[x]
    {
      var i :| 0 <= i < |a| && a[i] == x;
    }
  }

  function InMs(at: map<Tx, First>, ms: int): set<Tx> { set x | x in at && UnixMilli(at[x].ts) == ms }

  ghost predicate NamesDiffer(at: map<Tx, First>, disc: map<Tx, Byte>)
    requires disc.Keys == at.Keys
  {
    forall x, y :: x in at && y in at && x != y && UnixMilli(at[x].ts) == UnixMilli(at[y].ts) ==> disc[x] != disc[y]
  }

  function OrderInMs(at: map<Tx, First>, order: seq<Tx>, ms: int): set<Tx>
    requires forall x :: x in order ==> x in at
  {
    set x | x in order && UnixMilli(at[x].ts) == ms
  }

  lemma OneMoreInMs(at: map<Tx, First>, front: seq<Tx>, x: Tx, ms: int)
    requires x in at && (forall y :: y in front ==> y in at) && x !in front
    ensures |OrderInMs(at, front + [x], ms)| == |OrderInMs(at, front, ms)| + if UnixMilli(at[x].ts) == ms then 1 else 0
  {
    var was := OrderInMs(at, front, ms);
    assert OrderInMs(at, front + [x], ms) == if UnixMilli(at[x].ts) == ms then was + {x} else was;
  }

  lemma {:induction false} CountsInMs(at: map<Tx, First>, order: seq<Tx>, idByte: IdByte, ms: int)
    requires forall x :: x in order ==> x in at
    requires forall i, j :: 0 <= i < j < |order| ==> order[i] != order[j]
    ensures Count(Asks(at, order, idByte), ms) == |OrderInMs(at, order, ms)|
  {
    if order != [] {
      var n := |order| - 1;
      var x, front := order[n], order[..n];
      CountsInMs(at, front, idByte, ms);
      CountMore(Asks(at, front, idByte), AskOf(at, x, idByte), ms);
      OneMoreInMs(at, front, x, ms);
      assert order == front + [x];
    }
  }

  lemma RoomInMs(at: map<Tx, First>, asks: seq<Ask>)
    requires forall ms {:trigger InMs(at, ms)} {:trigger Count(asks, ms)} :: Count(asks, ms) == |InMs(at, ms)|
    ensures Room(map[], asks) <==> forall ms :: |InMs(at, ms)| <= 256
  {
  }

  lemma DifferInOrder(at: map<Tx, First>, order: seq<Tx>, disc: map<Tx, Byte>, asks: seq<Ask>, names: seq<Byte>)
    requires InOrder(at, order) && disc.Keys == at.Keys && |asks| == |names| == |order|
    requires forall i :: 0 <= i < |order| ==>
                           order[i] in at && asks[i].ms == UnixMilli(at[order[i]].ts) && disc[order[i]] == names[i]
    ensures NamesDiffer(at, disc) <==> Distinct(map[], asks, names)
  {
    if NamesDiffer(at, disc) {
      forall i, j | 0 <= i < j < |asks| && asks[i].ms == asks[j].ms
        ensures names[i] != names[j]
      {
        assert order[i] != order[j];
      }
    }
    if Distinct(map[], asks, names) {
      forall x, y | x in at && y in at && x != y && UnixMilli(at[x].ts) == UnixMilli(at[y].ts)
        ensures disc[x] != disc[y]
      {
        var i :| 0 <= i < |order| && order[i] == x;
        var j :| 0 <= j < |order| && order[j] == y;
        assert if i < j then names[i] != names[j] else names[j] != names[i];
      }
    }
  }

  lemma DifferIsDistinct(at: map<Tx, First>, order: seq<Tx>, idByte: IdByte, disc: map<Tx, Byte>)
    requires InOrder(at, order) && Named(at, order, idByte, disc) && disc.Keys == at.Keys
    ensures NamesDiffer(at, disc) <==> Distinct(map[], Asks(at, order, idByte), Assign(map[], Asks(at, order, idByte)))
  {
    var asks := Asks(at, order, idByte);
    var names := Assign(map[], asks);
    forall i | 0 <= i < |order|
      ensures asks[i].ms == UnixMilli(at[order[i]].ts) && disc[order[i]] == names[i]
    {
      AsksAt(at, order, idByte, i);
    }
    DifferInOrder(at, order, disc, asks, names);
  }

  /** Transmissions of a millisecond are named apart exactly when no millisecond has more than 256 of them. */
  lemma NamesDifferExactly(at: map<Tx, First>, order: seq<Tx>, idByte: IdByte, disc: map<Tx, Byte>)
    requires InOrder(at, order) && Named(at, order, idByte, disc)
    ensures disc.Keys == at.Keys
    ensures NamesDiffer(at, disc) <==> forall ms :: |InMs(at, ms)| <= 256
  {
    var asks := Asks(at, order, idByte);
    var names := Assign(map[], asks);
    NamesExactly(map[], asks);
    assert forall i, j :: 0 <= i < j < |order| ==> order[i] != order[j];
    forall ms
      ensures Count(asks, ms) == |InMs(at, ms)|
    {
      CountsInMs(at, order, idByte, ms);
      assert InMs(at, ms) == OrderInMs(at, order, ms);
    }
    RoomInMs(at, asks);
    DifferIsDistinct(at, order, idByte, disc);
  }

  // ---- the stale sweep ----

  ghost predicate InTime(rows: seq<Row>) { forall i, j :: 0 <= i < j < |rows| ==> rows[i].ts <= rows[j].ts }

  /** Some accepted, plausible row stamped over a second later arrived earlier: a scan of every pair. */
  ghost predicate Stale(rows: seq<Row>, i: nat)
    requires i < |rows|
  {
    exists j :: 0 <= j < |rows| && rows[j].accepted && !rows[j].implausible && rows[j].ts > rows[i].ts + 1_000_000_000
      && rows[j].recv < rows[i].recv
  }

  /** The first arrival among the accepted, plausible rows from k on, 0 for none. */
  ghost predicate FirstArrival(rows: seq<Row>, k: nat, earliest: int)
    requires k <= |rows|
  {
    && 0 <= earliest
    && (earliest == 0 <==> forall j :: k <= j < |rows| && rows[j].accepted ==> rows[j].implausible)
    && (earliest > 0 ==>
          && (exists j :: k <= j < |rows| && rows[j].accepted && !rows[j].implausible && rows[j].recv == earliest)
          && forall j :: k <= j < |rows| && rows[j].accepted && !rows[j].implausible ==> earliest <= rows[j].recv)
  }

  /** Moves the index past every row stamped over a second after row i. */
  method Pass(rows: seq<Row>, i: nat, earliest0: int, k0: nat) returns (earliest: int, k: nat)
    requires InTime(rows) && i < |rows| && k0 <= |rows| && FirstArrival(rows, k0, earliest0)
    requires forall j :: k0 <= j < |rows| ==> rows[j].ts > rows[i].ts + SECOND
    ensures k <= |rows| && FirstArrival(rows, k, earliest)
    ensures forall j :: 0 <= j < |rows| ==> (rows[j].ts > rows[i].ts + SECOND <==> k <= j)
  {
    earliest, k := earliest0, k0;
    while k > 0 && rows[k - 1].ts > rows[i].ts + SECOND
      invariant k <= |rows| && FirstArrival(rows, k, earliest)
      invariant forall j :: k <= j < |rows| ==> rows[j].ts > rows[i].ts + SECOND
    {
      k := k - 1;
      if rows[k].accepted && !rows[k].implausible && (earliest == 0 || rows[k].recv < earliest) {
        earliest := rows[k].recv;
      }
    }
    assert forall j :: 0 <= j < k ==> rows[j].ts <= rows[k - 1].ts;
  }

  lemma StaleByFirst(rows: seq<Row>, i: nat, k: nat, earliest: int)
    requires i < |rows| && k <= |rows| && FirstArrival(rows, k, earliest)
    requires forall j :: 0 <= j < |rows| ==> (rows[j].ts > rows[i].ts + SECOND <==> k <= j)
    ensures Stale(rows, i) <==> earliest != 0 && earliest < rows[i].recv
  {
  }

  /** One backward pass with a moving index marks exactly the rows a scan of every pair would. */
  method SweepStale(rows: seq<Row>) returns (stale: array<bool>)
    requires InTime(rows)
    ensures fresh(stale) && stale.Length == |rows| && forall i :: 0 <= i < |rows| ==> (stale[i] <==> Stale(rows, i))
  {
    stale := new bool[|rows|];
    var earliest, k: nat := 0, |rows|;
    var i := |rows| - 1;
    while i >= 0
      invariant -1 <= i < |rows| && stale.Length == |rows| && k <= |rows| && FirstArrival(rows, k, earliest)
      invariant i + 1 < |rows| ==> forall j :: k <= j < |rows| ==> rows[j].ts > rows[i + 1].ts + SECOND
      invariant i + 1 == |rows| ==> k == |rows|
      invariant forall j :: i < j < |rows| ==> (stale[j] <==> Stale(rows, j))
    {
      assert i + 1 < |rows| ==> rows[i].ts <= rows[i + 1].ts;
      earliest, k := Pass(rows, i, earliest, k);
      StaleByFirst(rows, i, k, earliest);
      stale[i] := earliest != 0 && earliest < rows[i].recv;
      i := i - 1;
    }
  }

  /** One vessel's rows: each transmission's accepted copy and name, and which rows are stale. */
  method ConvertVessel(rows: seq<Row>, idByte: IdByte)
    returns (at: map<Tx, First>, disc: map<Tx, Byte>, stale: array<bool>)
    requires forall i, j :: 0 <= i < j < |rows| ==> rows[i].ts <= rows[j].ts
    ensures forall x :: x in at <==> exists j :: 0 <= j < |rows| && rows[j].tx == x
    ensures forall x :: x in at ==> IsFirst(rows, x, at[x])
    ensures forall j :: 0 <= j < |rows| ==> FirstOver(rows[j], at[rows[j].tx])
    ensures exists order :: InOrder(at, order) && Named(at, order, idByte, disc)
    ensures fresh(stale) && stale.Length == |rows| && forall i :: 0 <= i < |rows| ==> (stale[i] <==> Stale(rows, i))
  {
    at := FindFirsts(rows);
    var order := Order(at);
    disc := Name(at, order, idByte);
    stale := SweepStale(rows);
  }
}
