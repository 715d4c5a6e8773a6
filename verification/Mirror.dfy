/** The record mirror: vessels by MMSI, by the cell of their position, and by IMO number (server/mirror.go). */
module Mirror {
  import opened Cells
  import Heaps
  import opened Options

  type Mmsi = nat

  /** What the mirror files of a vessel. Times are Unix milliseconds; 0 is unset. */
  datatype Entry = Entry(hasPos: bool, lat: real, lon: real, imo: nat, seen: int, firstSeen: int, name: string)

  datatype Query = Query(mmsis: Option<set<Mmsi>>, imos: Option<set<nat>>, boxes: seq<Box>, hasPos: bool,
                         since: int, before: int, filter: Option<Entry -> bool>, limit: int)

  datatype Record = Record(mmsi: Mmsi, entry: Entry)

  predicate Match(q: Query, mmsi: Mmsi, v: Entry) {
    !(|| (q.mmsis.Some? && mmsi !in q.mmsis.value)
      || (q.imos.Some? && v.imo !in q.imos.value)
      || (q.hasPos && !v.hasPos)
      || (q.since != 0 && v.seen < q.since)
      || (q.before != 0 && v.seen >= q.before)
      || (|q.boxes| > 0 && !(v.hasPos && InAny(q.boxes, v.lat, v.lon)))
      || (q.filter.Some? && !q.filter.value(v)))
  }

  /** What a query asks of a vessel: to be listed where it lists any, heard from since on and before before, and
      inside a box where it has any. */
  ghost predicate Meets(q: Query, mmsi: Mmsi, v: Entry) {
    && (q.mmsis.Some? ==> mmsi in q.mmsis.value) && (q.imos.Some? ==> v.imo in q.imos.value)
    && (q.hasPos ==> v.hasPos)
    && (q.since == 0 || q.since <= v.seen) && (q.before == 0 || v.seen < q.before)
    && (q.boxes != [] ==> v.hasPos && Inside(q.boxes, v.lat, v.lon))
    && (q.filter.Some? ==> q.filter.value(v))
  }

  lemma MatchMeets(q: Query, mmsi: Mmsi, v: Entry)
    ensures Match(q, mmsi, v) <==> Meets(q, mmsi, v)
  {
    InsideExactly(q.boxes, v.lat, v.lon);
  }

  /** A time parts what a query matches: from it on, or before it, and never both. */
  lemma TimeParts(q: Query, t: int, mmsi: Mmsi, v: Entry)
    requires t != 0
    ensures var all, since, before := q.(since := 0, before := 0), q.(since := t, before := 0),
                                      q.(since := 0, before := t);
            && (Match(all, mmsi, v) <==> Match(since, mmsi, v) || Match(before, mmsi, v))
            && !(Match(since, mmsi, v) && Match(before, mmsi, v))
  {
  }

  /** A match as it is ranked: most recently heard first, the lower MMSI on a tie. */
  datatype Hit = Hit(mmsi: Mmsi, seen: int)

  predicate Before(a: Hit, b: Hit) { a.seen > b.seen || (a.seen == b.seen && a.mmsi < b.mmsi) }

  // ---- ranking ----

  ghost function Ranks(out: seq<Record>): seq<Hit> {
    seq(|out|, i requires 0 <= i < |out| => Hit(out[i].mmsi, out[i].entry.seen))
  }

  /** Sorting all the hits and taking limit, or all of them. */
  ghost predicate IsTop(hits: seq<Hit>, all: set<Hit>, limit: int) {
    && (forall i, j :: 0 <= i < j < |hits| ==> Before(hits[i], hits[j]))
    && (forall h :: h in hits ==> h in all)
    && |hits| == (if limit <= 0 || |all| <= limit then |all| else limit)
    && forall h, a :: h in hits && a in all && a !in hits ==> Before(h, a)
  }

  ghost function HitsOf(es: map<Mmsi, Entry>, found: seq<Mmsi>): set<Hit>
    requires forall m :: m in found ==> m in es
  {
    set m | m in found :: Hit(m, es[m].seen)
  }

  method OfferFound(es: map<Mmsi, Entry>, found: seq<Mmsi>, i: nat, was: seq<Hit>, limit: int) returns (hits: seq<Hit>)
    requires i < |found| && Distinct(found) && (forall m :: m in found ==> m in es)
             && forall m :: m in found[..i] ==> m in es
    requires Best(was, HitsOf(es, found[..i]), limit) && Heaps.Heap(was, WorstFirst())
    ensures forall m :: m in found[..i + 1] ==> m in es
    ensures Best(hits, HitsOf(es, found[..i + 1]), limit) && Heaps.Heap(hits, WorstFirst())
  {
    OneMoreHit(es, found, i);
    hits := Offer(was, HitsOf(es, found[..i]), Hit(found[i], es[found[i]].seen), limit);
  }

  /** A heap of the best so far, the worst of them on top, so a better hit takes its place. */
  method TopOf(es: map<Mmsi, Entry>, found: seq<Mmsi>, limit: int) returns (hits: seq<Hit>)
    requires Distinct(found) && forall m :: m in found ==> m in es
    ensures Best(hits, HitsOf(es, found), limit)
  {
    hits := [];
    for i := 0 to |found|
      invariant Best(hits, HitsOf(es, found[..i]), limit) && Heaps.Heap(hits, WorstFirst())
    {
      hits := OfferFound(es, found, i, hits, limit);
    }
    assert found[..|found|] == found;
  }

  method Sort(a: seq<Hit>) returns (s: seq<Hit>)
    requires forall h :: multiset(a)[h] <= 1
    ensures multiset(s) == multiset(a) && |s| == |a| && InRank(s)
  {
    s := [];
    for i := 0 to |a|
      invariant multiset(s) == multiset(a[..i]) && |s| == i && InRank(s)
    {
      var k := 0;
      while k < |s| && Before(s[k], a[i])
        invariant 0 <= k <= |s| && forall j :: 0 <= j < k ==> Before(s[j], a[i])
      {
        k := k + 1;
      }
      NotBefore(a, i);
      assert a[i] !in s by {
        assert a[i] !in multiset(s);
      }
      InsertedInRank(s, a[i], k);
      InsertedSame(s, a[i], k);
      assert a[..i + 1] == a[..i] + [a[i]];
      s := s[..k] + [a[i]] + s[k..];
    }
    assert a[..|a|] == a;
  }

  lemma SortedTop(sorted: seq<Hit>, hits: seq<Hit>, all: set<Hit>, limit: int)
    requires Best(hits, all, limit) && multiset(sorted) == multiset(hits) && |sorted| == |hits|
    requires forall i, j :: 0 <= i < j < |sorted| ==> Before(sorted[i], sorted[j])
    ensures IsTop(sorted, all, limit) && forall h :: h in sorted <==> h in hits
  {
    assert forall x :: x in hits <==> x in multiset(hits);
    assert forall x :: x in sorted <==> x in multiset(sorted);
  }

  ghost function Filed(entries: map<Mmsi, Entry>, recs: seq<Record>): map<Mmsi, Entry> {
    if recs == [] then entries
    else Filed(entries, recs[..|recs| - 1])[recs[|recs| - 1].mmsi := recs[|recs| - 1].entry]
  }

  // ---- the indexes, as values ----

  ghost predicate CellsValid(entries: map<Mmsi, Entry>, cells: map<Cell, map<Mmsi, Entry>>) {
    && (forall k :: k in cells ==> cells[k] != map[])
    && (forall k, m :: k in cells && m in cells[k] ==>
                         m in entries && cells[k][m] == entries[m] && entries[m].hasPos
                           && CellOf(entries[m].lat, entries[m].lon) == k)
    && (forall m :: m in entries && entries[m].hasPos ==>
       var k := CellOf(entries[m].lat, entries[m].lon); k in cells && m in cells[k])
  }

  ghost predicate ImosValid(entries: map<Mmsi, Entry>, imos: map<nat, set<Mmsi>>) {
    && 0 !in imos
    && (forall i :: i in imos ==> imos[i] != {})
    && (forall i, m :: i in imos && m in imos[i] ==> m in entries && entries[m].imo == i)
    && (forall m :: m in entries && entries[m].imo != 0 ==> entries[m].imo in imos && m in imos[entries[m].imo])
  }

  function Without(cells: map<Cell, map<Mmsi, Entry>>, k: Cell, mmsi: Mmsi): map<Cell, map<Mmsi, Entry>> {
    if k !in cells then cells
    else
      var c := cells[k] - {mmsi};
      if |c| == 0 then cells - {k} else cells[k := c]
  }

  lemma TakenOut(entries: map<Mmsi, Entry>, cells: map<Cell, map<Mmsi, Entry>>, mmsi: Mmsi)
    requires CellsValid(entries, cells) && mmsi in entries
    ensures CellsValid(entries - {mmsi}, if entries[mmsi].hasPos
            then Without(cells, CellOf(entries[mmsi].lat, entries[mmsi].lon), mmsi) else cells)
  {
  }

  lemma ImoTakenOut(entries: map<Mmsi, Entry>, imos: map<nat, set<Mmsi>>, mmsi: Mmsi)
    requires ImosValid(entries, imos) && mmsi in entries
    ensures ImosValid(entries - {mmsi}, WithoutImo(imos, entries[mmsi].imo, mmsi))
  {
  }

  lemma PutIn(entries: map<Mmsi, Entry>, cells: map<Cell, map<Mmsi, Entry>>, mmsi: Mmsi, v: Entry)
    requires CellsValid(entries, cells) && mmsi !in entries
    ensures var k := CellOf(v.lat, v.lon);
            CellsValid(entries[mmsi := v], if v.hasPos
              then cells[k := (if k in cells then cells[k] else map[])[mmsi := v]] else cells)
  {
    var k := CellOf(v.lat, v.lon);
    var c: map<Mmsi, Entry> := if k in cells then cells[k] else map[];
    assert mmsi in c[mmsi := v];
  }

  lemma ImoPutIn(entries: map<Mmsi, Entry>, imos: map<nat, set<Mmsi>>, mmsi: Mmsi, v: Entry)
    requires ImosValid(entries, imos) && mmsi !in entries
    ensures ImosValid(entries[mmsi := v], if v.imo == 0 then imos
            else imos[v.imo := (if v.imo in imos then imos[v.imo] else {}) + {mmsi}])
  {
  }

  class RecordMirror {
    var entries: map<Mmsi, Entry>
    var cells: map<Cell, map<Mmsi, Entry>>
    var imos: map<nat, set<Mmsi>>

    /** The two indexes hold exactly the vessels filed, each under its cell and its IMO number, and no empty set. */
    ghost predicate Valid()
      reads this
    {
      CellsValid(entries, cells) && ImosValid(entries, imos)
    }

    constructor ()
      ensures Valid() && entries == map[]
    {
      entries, cells, imos := map[], map[], map[];
    }

    /** A vessel the IMO plan cannot reach: the index leaves IMO number 0, none reported, out. */
    ghost predicate Unlisted(q: Query, m: Mmsi)
      requires m in entries
      reads this
    {
      q.mmsis.None? && q.imos.Some? && entries[m].imo == 0
    }

    ghost function Matches(q: Query): set<Hit>
      reads this
    {
      set m | m in entries && Meets(q, m, entries[m]) && !Unlisted(q, m) :: Hit(m, entries[m].seen)
    }

    method EachOfImos(q: Query) returns (out: seq<Mmsi>)
      requires Valid() && q.imos.Some?
      ensures Distinct(out)
      ensures forall m :: m in out <==> m in entries && Meets(q, m, entries[m]) && entries[m].imo != 0
    {
      out := [];
      var left := q.imos.value;
      while left != {}
        invariant left <= q.imos.value && Distinct(out)
        invariant forall m :: m in out <==>
                  m in entries && Meets(q, m, entries[m]) && entries[m].imo != 0 && entries[m].imo !in left
        decreases |left|
      {
        var imo := Pick(left);
        left := left - {imo};
        if imo in imos {
          var listed := map m | m in imos[imo] && m in entries :: entries[m];
          out := Visit(q, listed, out);
        }
      }
    }

    /** Walks the occupied cells. */
    method EachInCells(q: Query, occupied: set<Cell>) returns (out: seq<Mmsi>)
      requires Valid() && |q.boxes| > 0 && occupied == cells.Keys
      ensures Distinct(out) && forall m :: m in out <==> m in entries && Meets(q, m, entries[m])
    {
      out := [];
      var left := occupied;
      while left != {}
        invariant left <= occupied && Distinct(out)
        invariant forall m :: m in out <==>
                  m in entries && Meets(q, m, entries[m]) && CellOf(entries[m].lat, entries[m].lon) !in left
        decreases |left|
      {
        var k := Pick(left);
        out := VisitCell(q, k, out);
        left := left - {k};
      }
    }

    /** Walks the cells the boxes touch. */
    method EachInBoxes(q: Query) returns (out: seq<Mmsi>)
      requires Valid() && |q.boxes| > 0
      ensures Distinct(out) && forall m :: m in out <==> m in entries && Meets(q, m, entries[m])
    {
      var walk := Walk(q.boxes, true);
      out := [];
      for i := 0 to |walk|
        invariant Distinct(out)
        invariant forall m :: m in out <==>
                  m in entries && Meets(q, m, entries[m]) && CellOf(entries[m].lat, entries[m].lon) in walk[..i]
      {
        assert walk[..i + 1] == walk[..i] + [walk[i]];
        assert walk[i] !in walk[..i];
        out := VisitCell(q, walk[i], out);
      }
      assert walk[..|walk|] == walk;
      forall m | m in entries && Meets(q, m, entries[m])
        ensures CellOf(entries[m].lat, entries[m].lon) in walk
      {
        BoxesTouchTheirCells(q.boxes, entries[m].lat, entries[m].lon);
      }
    }

    /** Every match, once each, whichever plan runs. */
    method Each(q: Query) returns (out: seq<Mmsi>)
      requires Valid()
      ensures Distinct(out)
      ensures forall m :: m in out <==> m in entries && Meets(q, m, entries[m]) && !Unlisted(q, m)
    {
      out := [];
      if q.mmsis.Some? {
        var listed := map m | m in q.mmsis.value && m in entries :: entries[m];
        out := Visit(q, listed, []);
      } else if q.imos.Some? {
        out := EachOfImos(q);
      } else if |q.boxes| > 0 {
        if Span(q.boxes) > |cells| {
          out := EachInCells(q, cells.Keys);
        } else {
          out := EachInBoxes(q);
        }
      } else {
        out := Visit(q, entries, []);
      }
    }

    /** The best limit of the matches, best first; a limit of 0 or less takes them all. */
    method Find(q: Query) returns (out: seq<Record>)
      requires Valid()
      ensures forall i :: 0 <= i < |out| ==> out[i].mmsi in entries && out[i].entry == entries[out[i].mmsi]
      ensures IsTop(Ranks(out), Matches(q), q.limit)
      ensures forall i :: 0 <= i < |out| ==> Meets(q, out[i].mmsi, out[i].entry)
      // most recently heard first, the lower MMSI on a tie
      ensures forall i, j :: 0 <= i < j < |out| ==>
                out[i].entry.seen > out[j].entry.seen
                || (out[i].entry.seen == out[j].entry.seen && out[i].mmsi < out[j].mmsi)
    {
      var found := Each(q);
      var hits := TopOf(entries, found, q.limit);
      assert HitsOf(entries, found) == Matches(q);
      var sorted := Sort(hits);
      SortedTop(sorted, hits, Matches(q), q.limit);
      forall i | 0 <= i < |sorted|
        ensures sorted[i].mmsi in entries && entries[sorted[i].mmsi].seen == sorted[i].seen
      {
        assert sorted[i] in Matches(q);
      }
      out := seq(|sorted|, i requires 0 <= i < |sorted| && sorted[i].mmsi in entries reads this =>
        Record(sorted[i].mmsi, entries[sorted[i].mmsi]));
      assert Ranks(out) == sorted;
      forall i | 0 <= i < |out|
        ensures Meets(q, out[i].mmsi, out[i].entry)
      {
        assert sorted[i] in Matches(q);
      }
      forall i, j | 0 <= i < j < |out|
        ensures Before(sorted[i], sorted[j])
      {
      }
    }

    /** Takes a vessel out of the cell it is filed under. */
    method UnfileCell(mmsi: Mmsi, k: Cell)
      modifies this`cells
      ensures cells == Without(old(cells), k, mmsi)
    {
      if k in cells {
        var c := cells[k] - {mmsi};
        if |c| == 0 {
          cells := cells - {k};
        } else {
          cells := cells[k := c];
        }
      }
    }

    /** Takes a vessel out of both indexes. */
    method TakeOut(mmsi: Mmsi)
      requires Valid() && mmsi in entries
      modifies this`cells, this`imos
      ensures CellsValid(entries - {mmsi}, cells) && ImosValid(entries - {mmsi}, imos)
    {
      ghost var c0, i0 := cells, imos;
      var was := entries[mmsi];
      if was.hasPos {
        UnfileCell(mmsi, CellOf(was.lat, was.lon));
      }
      if was.imo in imos {
        var others := imos[was.imo] - {mmsi};
        if |others| == 0 {
          imos := imos - {was.imo};
        } else {
          imos := imos[was.imo := others];
        }
      }
      TakenOut(entries, c0, mmsi);
      ImoTakenOut(entries, i0, mmsi);
    }

    /** Puts a vessel in both. */
    method PutBack(mmsi: Mmsi, v: Entry, ghost others: map<Mmsi, Entry>)
      requires CellsValid(others, cells) && ImosValid(others, imos) && others == entries - {mmsi}
      modifies this
      ensures entries == old(entries)[mmsi := v]
      ensures CellsValid(others[mmsi := v], cells) && ImosValid(others[mmsi := v], imos)
    {
      PutIn(others, cells, mmsi, v);
      ImoPutIn(others, imos, mmsi, v);
      entries := entries[mmsi := v];
      if v.imo != 0 {
        imos := imos[v.imo := (if v.imo in imos then imos[v.imo] else {}) + {mmsi}];
      }
      if v.hasPos {
        var k := CellOf(v.lat, v.lon);
        cells := cells[k := (if k in cells then cells[k] else map[])[mmsi := v]];
      }
    }

    method FileOne(r: Record)
      requires Valid()
      modifies this
      ensures Valid() && entries == old(entries)[r.mmsi := r.entry]
    {
      ghost var was := entries;
      if r.mmsi in entries {
        TakeOut(r.mmsi);
      }
      PutBack(r.mmsi, r.entry, was - {r.mmsi});
      assert (was - {r.mmsi})[r.mmsi := r.entry] == was[r.mmsi := r.entry];
    }

    /** Files records, each in place of what the mirror held for its vessel. */
    method File(recs: seq<Record>)
      requires Valid()
      modifies this
      ensures Valid() && entries == Filed(old(entries), recs)
    {
      ghost var was := entries;
      for i := 0 to |recs|
        invariant Valid() && entries == Filed(was, recs[..i])
      {
        FileOne(recs[i]);
        assert recs[..i + 1][..i] == recs[..i];
      }
      assert recs[..|recs|] == recs;
    }

    /** Calls back for each of these vessels that matches, in any order. */
    method Visit(q: Query, vessels: map<Mmsi, Entry>, out0: seq<Mmsi>) returns (out: seq<Mmsi>)
      requires Distinct(out0) && forall m :: m in vessels ==> m !in out0
      ensures Distinct(out) && forall m :: m in out <==> m in out0 || (m in vessels && Meets(q, m, vessels[m]))
    {
      out := out0;
      var left := vessels.Keys;
      while left != {}
        invariant left <= vessels.Keys && Distinct(out)
        invariant forall m :: m in out <==> m in out0 || (m in vessels && m !in left && Meets(q, m, vessels[m]))
        decreases |left|
      {
        var m := Pick(left);
        left := left - {m};
        MatchMeets(q, m, vessels[m]);
        if Match(q, m, vessels[m]) {
          out := out + [m];
        }
      }
    }

    ghost predicate InCell(m: Mmsi, k: Cell)
      requires m in entries
      reads this
    {
      entries[m].hasPos && CellOf(entries[m].lat, entries[m].lon) == k
    }

    /** The vessels of one cell that match. */
    method VisitCell(q: Query, k: Cell, out0: seq<Mmsi>) returns (out: seq<Mmsi>)
      requires Valid() && Distinct(out0) && forall m :: m in out0 ==> m in entries && !InCell(m, k)
      ensures Distinct(out) && forall m :: m in out <==>
              m in out0 || (m in entries && InCell(m, k) && Meets(q, m, entries[m]))
    {
      out := out0;
      if k in cells {
        out := Visit(q, cells[k], out);
      }
    }
  }

  function WorstFirst(): Heaps.Order<Hit> { (a: Hit, b: Hit) => Before(b, a) }

  lemma WorstFirstTotal()
    ensures Heaps.Total(WorstFirst())
  {
  }

  /** The same, in no order. */
  ghost predicate Best(hits: seq<Hit>, all: set<Hit>, limit: int) {
    && (forall h :: multiset(hits)[h] <= 1)
    && (forall h :: h in hits ==> h in all)
    && |hits| == (if limit <= 0 || |all| <= limit then |all| else limit)
    && forall h, a :: h in hits && a in all && a !in hits ==> Before(h, a)
  }

  /** With the ranks before it the same, b's i-th is not better than a's. */
  lemma NotAfter(a: seq<Hit>, b: seq<Hit>, all: set<Hit>, limit: int, i: nat)
    requires IsTop(a, all, limit) && IsTop(b, all, limit) && i < |a| && |a| == |b|
    requires forall j :: 0 <= j < i ==> a[j] == b[j]
    ensures !Before(b[i], a[i])
  {
    assert b[i] in b && a[i] in a;
    assert forall j :: 0 <= j < i ==> Before(a[j], b[i]);
    assert forall j :: i < j < |a| ==> Before(a[i], a[j]);
  }

  lemma {:induction false} SameAt(a: seq<Hit>, b: seq<Hit>, all: set<Hit>, limit: int, i: nat)
    requires IsTop(a, all, limit) && IsTop(b, all, limit) && i < |a|
    ensures forall j :: 0 <= j <= i ==> a[j] == b[j]
    decreases i
  {
    if i > 0 {
      SameAt(a, b, all, limit, i - 1);
    }
    NotAfter(a, b, all, limit, i);
    NotAfter(b, a, all, limit, i);
  }

  /** What Find returns is determined: it is the same whatever order the matches came in. */
  lemma {:induction false} TopUnique(a: seq<Hit>, b: seq<Hit>, all: set<Hit>, limit: int)
    requires IsTop(a, all, limit) && IsTop(b, all, limit)
    ensures a == b
  {
    forall i | 0 <= i < |a|
      ensures a[i] == b[i]
    {
      SameAt(a, b, all, limit, i);
    }
  }

  lemma {:induction false} DistinctSize(s: seq<Hit>)
    requires forall i, j :: 0 <= i < j < |s| ==> Before(s[i], s[j])
    ensures |set h | h in s| == |s|
  {
    if s != [] {
      var rest := s[1..];
      DistinctSize(rest);
      SetOfFront(s);
      assert s[0] !in rest;
    }
  }

  /** Ranks with no two alike, as many as there are, are all of them. */
  lemma WholeHasAll(whole: seq<Hit>, all: set<Hit>)
    requires IsTop(whole, all, 0)
    ensures forall a :: a in all ==> a in whole
  {
    var held := set h | h in whole;
    DistinctSize(whole);
    assert held <= all;
    if held != all {
      assert |all| == |held| + |all - held|;
    }
  }

  /** A limit takes the front of the whole order. */
  lemma TopIsPrefix(hits: seq<Hit>, whole: seq<Hit>, all: set<Hit>, limit: int)
    requires IsTop(hits, all, limit) && IsTop(whole, all, 0)
    ensures hits <= whole && |hits| == if limit <= 0 || |whole| <= limit then |whole| else limit
  {
    var front := whole[..|hits|];
    forall h, a | h in front && a in all && a !in front
      ensures Before(h, a)
    {
      var i :| 0 <= i < |hits| && whole[i] == h;
      assert a in whole by {
        WholeHasAll(whole, all);
      }
      assert forall k :: 0 <= k < |hits| ==> whole[k] in front;
      var j :| |hits| <= j < |whole| && whole[j] == a;
    }
    assert forall h :: h in front ==> h in whole;
    TopUnique(hits, front, all, limit);
  }

  lemma SetOfFront(s: seq<Hit>)
    requires s != []
    ensures (set h | h in s) == (set h | h in s[1..]) + {s[0]}
  {
  }

  lemma RootIsWorst(hits: seq<Hit>, all: set<Hit>, limit: int)
    requires Best(hits, all, limit) && Heaps.Heap(hits, WorstFirst()) && hits != []
    ensures forall h :: h in hits ==> h == hits[0] || Before(h, hits[0])
  {
    WorstFirstTotal();
    forall k | 0 <= k < |hits|
      ensures hits[k] == hits[0] || Before(hits[k], hits[0])
    {
      Heaps.RootIsLeast(hits, WorstFirst(), k);
    }
  }

  lemma {:induction false} OnceSize(s: seq<Hit>)
    requires forall h :: multiset(s)[h] <= 1
    ensures |set h | h in s| == |s|
  {
    if s != [] {
      var rest := s[1..];
      assert s == [s[0]] + rest;
      HeadApart(s[0], rest);
      OnceSize(rest);
      assert (set h | h in s) == (set h | h in rest) + {s[0]};
      assert s[0] !in multiset(rest);
    }
  }

  /** While there is room nothing has been left out. */
  lemma SizeGap(hits: seq<Hit>, all: set<Hit>, limit: int, a: Hit)
    requires Best(hits, all, limit) && |hits| == |all| && a in all
    ensures a in hits
  {
    OnceSize(hits);
    var held := set h | h in hits;
    assert held <= all;
    if held != all {
      assert |all| == |held| + |all - held|;
    }
  }

  lemma PushedBest(was: seq<Hit>, hits: seq<Hit>, all: set<Hit>, h: Hit, limit: int)
    requires Best(was, all, limit) && h !in all && multiset(hits) == multiset(was) + multiset{h} && |hits| == |was| + 1
    requires limit <= 0 || |was| < limit
    ensures Best(hits, all + {h}, limit)
  {
    assert forall x :: x in hits <==> x in multiset(hits);
    assert forall x :: x in was <==> x in multiset(was);
    assert |all + {h}| == |all| + 1;
    if a :| a in all && a !in was {
      SizeGap(was, all, limit, a);
    }
  }

  lemma HeadApart(h: Hit, rest: seq<Hit>)
    requires forall x :: multiset([h] + rest)[x] <= 1
    ensures forall x :: multiset(rest)[x] <= 1
    ensures h !in multiset(rest)
  {
    forall x
      ensures multiset([h] + rest)[x] == (if x == h then 1 else 0) + multiset(rest)[x]
    {
      assert multiset([h] + rest) == multiset{h} + multiset(rest);
    }
    assert multiset([h] + rest)[h] == 1 + multiset(rest)[h];
    forall x
      ensures multiset(rest)[x] <= 1
    {
      assert multiset([h] + rest)[x] == (if x == h then 1 else 0) + multiset(rest)[x];
    }
  }

  lemma ReplacedBest(was: seq<Hit>, hits: seq<Hit>, all: set<Hit>, h: Hit, limit: int)
    requires Best(was, all, limit) && h !in all && limit > 0 && |was| == limit == |hits|
    requires multiset(hits) == multiset(was) - multiset{was[0]} + multiset{h}
    requires forall x :: x in was ==> x == was[0] || Before(x, was[0])
    requires Before(h, was[0])
    ensures Best(hits, all + {h}, limit)
  {
    assert forall x :: x in hits <==> x in multiset(hits);
    assert forall x :: x in was <==> x in multiset(was);
    assert |all + {h}| == |all| + 1;
    assert was[0] in was;
  }

  lemma SkippedBest(hits: seq<Hit>, all: set<Hit>, h: Hit, limit: int)
    requires Best(hits, all, limit) && h !in all && limit > 0 && |hits| == limit
    requires forall x :: x in hits ==> x == hits[0] || Before(x, hits[0])
    requires !Before(h, hits[0])
    ensures Best(hits, all + {h}, limit)
  {
  }

  ghost predicate InRank(s: seq<Hit>) { forall i, j :: 0 <= i < j < |s| ==> Before(s[i], s[j]) }

  lemma InsertedInRank(s: seq<Hit>, h: Hit, k: nat)
    requires InRank(s) && k <= |s| && h !in s
    requires (forall j :: 0 <= j < k ==> Before(s[j], h)) && (k < |s| ==> !Before(s[k], h))
    ensures InRank(s[..k] + [h] + s[k..])
  {
  }

  lemma InsertedSame(s: seq<Hit>, h: Hit, k: nat)
    requires k <= |s|
    ensures multiset(s[..k] + [h] + s[k..]) == multiset(s) + multiset{h}
  {
    assert s == s[..k] + s[k..];
  }

  /** What comes later in a slice with no repeats is not among what came before. */
  lemma NotBefore(a: seq<Hit>, i: nat)
    requires i < |a| && forall h :: multiset(a)[h] <= 1
    ensures a[i] !in multiset(a[..i])
  {
    assert a == a[..i] + [a[i]] + a[i + 1..];
    assert multiset(a)[a[i]] == multiset(a[..i])[a[i]] + 1 + multiset(a[i + 1..])[a[i]];
  }

  /** One more match for the heap: pushed while there is room, or in place of the worst. */
  method Offer(was: seq<Hit>, ghost seen: set<Hit>, h: Hit, limit: int) returns (hits: seq<Hit>)
    requires Best(was, seen, limit) && Heaps.Heap(was, WorstFirst()) && h !in seen
    ensures Best(hits, seen + {h}, limit) && Heaps.Heap(hits, WorstFirst())
  {
    WorstFirstTotal();
    hits := was;
    if limit <= 0 || |hits| < limit {
      hits := Heaps.Push(hits, WorstFirst(), h);
      PushedBest(was, hits, seen, h, limit);
    } else {
      RootIsWorst(hits, seen, limit);
      if Before(h, hits[0]) {
        hits := Heaps.FixRoot(hits, WorstFirst(), h);
        ReplacedBest(was, hits, seen, h, limit);
      } else {
        SkippedBest(hits, seen, h, limit);
      }
    }
  }

  lemma OneMoreHit(es: map<Mmsi, Entry>, found: seq<Mmsi>, i: nat)
    requires i < |found| && Distinct(found) && forall m :: m in found ==> m in es
    ensures (forall m :: m in found[..i + 1] ==> m in es) && (forall m :: m in found[..i] ==> m in es)
    ensures var h := Hit(found[i], es[found[i]].seen);
            h !in HitsOf(es, found[..i]) && HitsOf(es, found[..i + 1]) == HitsOf(es, found[..i]) + {h}
  {
  }

  function WithoutImo(imos: map<nat, set<Mmsi>>, i: nat, mmsi: Mmsi): map<nat, set<Mmsi>> {
    if i !in imos then imos
    else
      var s := imos[i] - {mmsi};
      if |s| == 0 then imos - {i} else imos[i := s]
  }
}
