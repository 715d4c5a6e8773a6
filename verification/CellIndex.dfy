/** The spatial index over the vessel cache (server/index.go): vessels that have a position, by the cell it is in. */
module CellIndex {
  import opened Cells

  type Mmsi = nat

  /** What the index reads and writes of a cached vessel. */
  class Vessel {
    var hasPos: bool
    var lat: real
    var lon: real
    var cell: Cell
    var indexed: bool
    var seen: int

    constructor (hasPos: bool, lat: real, lon: real, seen: int)
      ensures this.hasPos == hasPos && this.lat == lat && this.lon == lon && this.seen == seen && !indexed
    {
      this.hasPos, this.lat, this.lon, this.seen, indexed := hasPos, lat, lon, seen, false;
    }
  }

  /** A subscription: everything, or the vessels inside its boxes and those it follows by MMSI. */
  datatype Sub = Sub(everything: bool, boxes: seq<Box>, mmsi: set<Mmsi>)

  predicate In(cells: map<Cell, map<Mmsi, Vessel>>, k: Cell, m: Mmsi) { k in cells && m in cells[k] }

  /** Vessel m is in cell k exactly when that is where it is filed. */
  ghost predicate At(cells: map<Cell, map<Mmsi, Vessel>>, place: map<Mmsi, Cell>, vessels: map<Mmsi, Vessel>, k: Cell,
          m: Mmsi)
  {
    && (In(cells, k, m) <==> m in place && place[m] == k)
    && (In(cells, k, m) ==> m in vessels && cells[k][m] == vessels[m])
  }

  ghost predicate NoneEmpty(cells: map<Cell, map<Mmsi, Vessel>>, k: Cell) { k in cells ==> cells[k] != map[] }

  /** Each filed vessel is in its cell, a cell holds no other, and none is empty. */
  ghost predicate Holds(cells: map<Cell, map<Mmsi, Vessel>>, place: map<Mmsi, Cell>, vessels: map<Mmsi, Vessel>) {
    && (forall k, m {:trigger At(cells, place, vessels, k, m)} :: At(cells, place, vessels, k, m))
    && (forall k {:trigger NoneEmpty(cells, k)} :: NoneEmpty(cells, k))
    && place.Keys <= vessels.Keys
  }

  lemma TakenOut(cells: map<Cell, map<Mmsi, Vessel>>, place: map<Mmsi, Cell>, vessels: map<Mmsi, Vessel>, mmsi: Mmsi)
    requires Holds(cells, place, vessels) && mmsi in place
    ensures place[mmsi] in cells
    ensures var k := place[mmsi];
            var c := cells[k] - {mmsi};
            Holds(if |c| == 0 then cells - {k} else cells[k := c], place - {mmsi}, vessels)
  {
    var k := place[mmsi];
    assert At(cells, place, vessels, k, mmsi);
    var c := cells[k] - {mmsi};
    assert |c| == 0 <==> c == map[];
    var now := if |c| == 0 then cells - {k} else cells[k := c];
    forall j, m
      ensures At(now, place - {mmsi}, vessels, j, m)
    {
      assert At(cells, place, vessels, j, m);
    }
    forall j
      ensures NoneEmpty(now, j)
    {
      assert NoneEmpty(cells, j);
    }
  }

  lemma PutIn(cells: map<Cell, map<Mmsi, Vessel>>, place: map<Mmsi, Cell>, vessels: map<Mmsi, Vessel>, mmsi: Mmsi,
          k: Cell)
    requires Holds(cells, place, vessels) && mmsi in vessels && mmsi !in place
    ensures var c: map<Mmsi, Vessel> := if k in cells then cells[k] else map[];
            Holds(cells[k := c[mmsi := vessels[mmsi]]], place[mmsi := k], vessels)
  {
    var c: map<Mmsi, Vessel> := if k in cells then cells[k] else map[];
    assert mmsi in c[mmsi := vessels[mmsi]];
    var now, there := cells[k := c[mmsi := vessels[mmsi]]], place[mmsi := k];
    forall j, m
      ensures At(now, there, vessels, j, m)
    {
      assert At(cells, place, vessels, j, m);
    }
    forall j
      ensures NoneEmpty(now, j)
    {
      assert NoneEmpty(cells, j);
    }
  }

  lemma Forgotten(cells: map<Cell, map<Mmsi, Vessel>>, place: map<Mmsi, Cell>, vessels: map<Mmsi, Vessel>, mmsi: Mmsi)
    requires Holds(cells, place, vessels) && mmsi !in place
    ensures Holds(cells, place, vessels - {mmsi})
  {
    forall j, m
      ensures At(cells, place, vessels - {mmsi}, j, m)
    {
      assert At(cells, place, vessels, j, m);
    }
  }

  lemma Cached(cells: map<Cell, map<Mmsi, Vessel>>, place: map<Mmsi, Cell>, vessels: map<Mmsi, Vessel>, mmsi: Mmsi,
          v: Vessel)
    requires Holds(cells, place, vessels) && mmsi !in place
    ensures Holds(cells, place, vessels[mmsi := v])
  {
    var more := vessels[mmsi := v];
    forall j, m
      ensures At(cells, place, more, j, m)
    {
      assert At(cells, place, vessels, j, m);
    }
  }

  /** Another vessel filed where the one of its MMSI was. */
  lemma Replaced(cells: map<Cell, map<Mmsi, Vessel>>, place: map<Mmsi, Cell>, vessels: map<Mmsi, Vessel>, mmsi: Mmsi,
          v: Vessel)
    requires Holds(cells, place, vessels) && mmsi in place
    ensures place[mmsi] in cells
    ensures var c: map<Mmsi, Vessel> := cells[place[mmsi]];
            Holds(cells[place[mmsi] := c[mmsi := v]], place, vessels[mmsi := v])
  {
    var k, more := place[mmsi], vessels[mmsi := v];
    assert At(cells, place, vessels, k, mmsi);
    var was: map<Mmsi, Vessel> := cells[k];
    var c: map<Mmsi, Vessel> := was[mmsi := v];
    assert mmsi in c;
    var now := cells[k := c];
    forall j, m
      ensures At(now, place, more, j, m)
    {
      assert At(cells, place, vessels, j, m);
    }
    forall j
      ensures NoneEmpty(now, j)
    {
      assert NoneEmpty(cells, j);
    }
  }

  /** A vessel replaced but left filed is held by a cell though it is not cached. */
  lemma StrayLeft(was: map<Cell, map<Mmsi, Vessel>>, there: map<Mmsi, Cell>, vessels: map<Mmsi, Vessel>, mmsi: Mmsi,
          v: Vessel,
        cells: map<Cell, map<Mmsi, Vessel>>, place: map<Mmsi, Cell>)
    requires Holds(was, there, vessels) && mmsi in there && vessels[mmsi] != v
    requires there[mmsi] in was ==> there[mmsi] in cells && cells[there[mmsi]] == was[there[mmsi]]
    ensures !Holds(cells, place, vessels[mmsi := v])
  {
    assert At(was, there, vessels, there[mmsi], mmsi);
    assert !At(cells, place, vessels[mmsi := v], there[mmsi], mmsi);
  }

  class VesselCache {
    var vessels: map<Mmsi, Vessel>
    var cells: map<Cell, map<Mmsi, Vessel>>
    ghost var place: map<Mmsi, Cell> // the cell of each vessel filed

    /** A vessel is filed, once, in the cell of its position, exactly when it has one. */
    ghost predicate Valid()
      reads this, vessels.Values
    {
      Filed() && forall m :: m in vessels ==> Placed(m)
    }

    constructor ()
      ensures Valid() && vessels == map[]
    {
      vessels, cells, place := map[], map[], map[];
    }

    ghost predicate Marked(m: Mmsi)
      requires m in vessels
      reads this, vessels[m]
    {
      vessels[m].indexed == (m in place) && (m in place ==> vessels[m].cell == place[m])
    }

    /** Cells hold exactly the vessels marked as filed in them, no two cached vessels are one, and no cell is empty. */
    ghost predicate Filed()
      reads this, vessels.Values
    {
      && (forall m, n :: m in vessels && n in vessels && m != n ==> vessels[m] != vessels[n])
      && (forall m :: m in vessels ==> Marked(m))
      && Holds(cells, place, vessels)
    }

    ghost predicate Placed(m: Mmsi)
      requires m in vessels
      reads this, vessels[m]
    {
      var v := vessels[m];
      v.indexed == v.hasPos && (v.hasPos ==> v.cell == CellOf(v.lat, v.lon))
    }

    method UnindexLocked(mmsi: Mmsi, v: Vessel)
      requires Filed() && mmsi in vessels && vessels[mmsi] == v
      modifies this`cells, this`place, v`indexed
      ensures Filed() && !v.indexed
    {
      if !v.indexed {
        return;
      }
      assert Marked(mmsi);
      TakenOut(cells, place, vessels, mmsi);
      var c := cells[v.cell] - {mmsi};
      if |c| == 0 {
        cells := cells - {v.cell};
      } else {
        cells := cells[v.cell := c];
      }
      v.indexed, place := false, place - {mmsi};
    }

    /** The cells with a vessel added to one. */
    function AddedTo(c: Cell, mmsi: Mmsi, v: Vessel): map<Cell, map<Mmsi, Vessel>>
      reads this
    {
      var m: map<Mmsi, Vessel> := if c in cells then cells[c] else map[];
      cells[c := m[mmsi := v]]
    }

    /** indexLocked's end: the vessel, filed nowhere, is filed in the cell. */
    method FileIn(mmsi: Mmsi, v: Vessel, c: Cell)
      requires mmsi in vessels && vessels[mmsi] == v && !v.indexed
      modifies this`cells, this`place, v`indexed, v`cell
      ensures v.indexed && v.cell == c && cells == old(AddedTo(c, mmsi, v)) && place == old(place)[mmsi := c]
    {
      var m: map<Mmsi, Vessel> := if c in cells then cells[c] else map[];
      cells := cells[c := m[mmsi := v]];
      v.cell, v.indexed, place := c, true, place[mmsi := c];
    }

    method IndexLocked(mmsi: Mmsi, v: Vessel)
      requires Filed() && mmsi in vessels && vessels[mmsi] == v
      modifies this`cells, this`place, v`indexed, v`cell
      ensures Filed() && v.indexed && v.cell == CellOf(v.lat, v.lon)
    {
      var c := CellOf(v.lat, v.lon);
      if v.indexed {
        if v.cell == c {
          return;
        }
        UnindexLocked(mmsi, v);
      }
      assert Marked(mmsi);
      PutIn(cells, place, vessels, mmsi, c);
      FileIn(mmsi, v, c);
    }

    /** Nothing is filed under the MMSI but where this vessel would be. */
    ghost predicate MayPut(mmsi: Mmsi, v: Vessel)
      reads this, v
    {
      mmsi in place ==> v.hasPos && place[mmsi] == CellOf(v.lat, v.lon)
    }

    /** Where the maps stand once a vessel is put, its fields with them. */
    ghost predicate PutOver(was: map<Cell, map<Mmsi, Vessel>>, there: map<Mmsi, Cell>, filed: map<Mmsi, Vessel>,
            mmsi: Mmsi, v: Vessel)
      reads this, v
    {
      var c := CellOf(v.lat, v.lon);
      var m: map<Mmsi, Vessel> := if c in was then was[c] else map[];
      && vessels == filed[mmsi := v] && v.indexed == v.hasPos && (v.hasPos ==> v.cell == c)
      && cells == (if v.hasPos then was[c := m[mmsi := v]] else was)
      && place == if v.hasPos then there[mmsi := c] else there
    }

    /** Caches a vessel, and files it when it has a position. */
    method Put(mmsi: Mmsi, v: Vessel)
      requires !v.indexed
      modifies this, v`indexed, v`cell
      ensures PutOver(old(cells), old(place), old(vessels), mmsi, v)
    {
      vessels := vessels[mmsi := v];
      if v.hasPos {
        FileIn(mmsi, v, CellOf(v.lat, v.lon));
      }
    }

    /** The others are cached as they were, each a vessel of its own. */
    ghost predicate OthersPlaced(mmsi: Mmsi)
      reads this, vessels.Values
    {
      && (forall m, n :: m in vessels && n in vessels && m != n ==> vessels[m] != vessels[n])
      && (forall m :: m in vessels && m != mmsi ==> Marked(m) && Placed(m))
    }

    lemma KeptExactly(was: map<Cell, map<Mmsi, Vessel>>, there: map<Mmsi, Cell>, filed: map<Mmsi, Vessel>, mmsi: Mmsi,
            v: Vessel)
      requires Holds(was, there, filed) && PutOver(was, there, filed, mmsi, v) && OthersPlaced(mmsi)
      requires mmsi in filed ==> filed[mmsi] != v
      ensures Valid() <==> (mmsi in there ==> v.hasPos && there[mmsi] == CellOf(v.lat, v.lon))
    {
      if mmsi !in there {
        Cached(was, there, filed, mmsi, v);
        if v.hasPos {
          PutIn(was, there, vessels, mmsi, CellOf(v.lat, v.lon));
        }
      } else if v.hasPos && there[mmsi] == CellOf(v.lat, v.lon) {
        Replaced(was, there, filed, mmsi, v);
        assert place == there;
      } else {
        StrayLeft(was, there, filed, mmsi, v, cells, place);
      }
    }

    /** Caches a vessel not yet cached. Under an MMSI cached before the index is kept exactly where the vessel there
        was not filed, or was filed in the cell the new one is put in. */
    method PutVesselLocked(mmsi: Mmsi, v: Vessel)
      requires Valid() && v !in vessels.Values && !v.indexed
      modifies this, v`indexed, v`cell
      ensures vessels == old(vessels)[mmsi := v]
      ensures Valid() <==> old(MayPut(mmsi, v))
    {
      ghost var was, there, filed := cells, place, vessels;
      Put(mmsi, v);
      KeptExactly(was, there, filed, mmsi, v);
    }

    /** A report moves a vessel: its position changes and it is filed anew. */
    method Move(mmsi: Mmsi, lat: real, lon: real)
      requires Valid() && mmsi in vessels
      modifies this`cells, this`place, vessels[mmsi]
      ensures Valid() && vessels[mmsi].hasPos && vessels[mmsi].lat == lat && vessels[mmsi].lon == lon
    {
      var v := vessels[mmsi];
      v.hasPos, v.lat, v.lon := true, lat, lon;
      IndexLocked(mmsi, v);
    }

    method DropLocked(mmsi: Mmsi, v: Vessel)
      requires Valid() && mmsi in vessels && vessels[mmsi] == v
      modifies this, v`indexed
      ensures Valid() && vessels == old(vessels) - {mmsi}
      ensures forall m :: m in vessels ==> vessels[m] != v
    {
      UnindexLocked(mmsi, v);
      Forgotten(cells, place, vessels, mmsi);
      vessels := vessels - {mmsi};
    }

    /** Of the vessels cached at first, those seen since cutoff and those left to look at are cached. */
    ghost predicate Sweeping(all: map<Mmsi, Vessel>, left: set<Mmsi>, cutoff: int)
      reads this, all.Values
    {
      && left <= vessels.Keys <= all.Keys
      && (forall m :: m in vessels ==> vessels[m] == all[m])
      && forall m :: m in all && m !in left ==> (m in vessels <==> !(all[m].seen < cutoff))
    }

    method SweepOne(m: Mmsi, v: Vessel, cutoff: int, ghost all: map<Mmsi, Vessel>, ghost left: set<Mmsi>)
      requires Valid() && Sweeping(all, left, cutoff) && m in left && vessels[m] == v
      modifies this, v`indexed
      ensures Valid() && Sweeping(all, left - {m}, cutoff)
    {
      if v.seen < cutoff {
        DropLocked(m, v);
      }
    }

    /** The sweep drops every vessel unseen since cutoff from the index and the cache. */
    method SweepLocked(cutoff: int)
      requires Valid()
      modifies this, vessels.Values`indexed
      ensures Valid()
      ensures forall m :: m in vessels <==> m in old(vessels) && !(old(vessels)[m].seen < cutoff)
      ensures forall m :: m in vessels ==> vessels[m] == old(vessels)[m]
    {
      ghost var all := vessels;
      var left := vessels.Keys;
      while left != {}
        invariant Valid() && Sweeping(all, left, cutoff)
        decreases |left|
      {
        var m := Pick(left);
        SweepOne(m, vessels[m], cutoff, all, left);
        left := left - {m};
      }
    }

    ghost predicate InBoxes(boxes: seq<Box>, m: Mmsi)
      requires m in vessels
      reads this, vessels.Values
    {
      vessels[m].hasPos && Inside(boxes, vessels[m].lat, vessels[m].lon)
    }

    /** What a scan of the whole cache finds: everything, a followed vessel, or one inside a box. */
    ghost predicate Matches(s: Sub, m: Mmsi)
      requires m in vessels
      reads this, vessels.Values
    {
      s.everything || m in s.mmsi || InBoxes(s.boxes, m)
    }

    /** Calls back, in any order, for each vessel of one cell that lies in a box. */
    method VisitCell(boxes: seq<Box>, k: Cell, called0: seq<Mmsi>) returns (called: seq<Mmsi>)
      requires Valid() && Distinct(called0)
      requires forall m :: m in called0 ==> m in vessels && vessels[m].cell != k
      ensures Distinct(called)
      ensures forall m :: m in called <==> m in called0 || (m in vessels && InBoxes(boxes, m) && vessels[m].cell == k)
    {
      called := called0;
      forall m
        ensures In(cells, k, m) <==> m in vessels && vessels[m].hasPos && vessels[m].cell == k
        ensures In(cells, k, m) ==> cells[k][m] == vessels[m]
      {
        assert At(cells, place, vessels, k, m);
      }
      if k in cells {
        var left := cells[k].Keys;
        while left != {}
          invariant left <= cells[k].Keys && Distinct(called)
          invariant forall m :: m in called <==>
                    m in called0 || (m in cells[k] && m !in left && Inside(boxes, cells[k][m].lat, cells[k][m].lon))
          decreases |left|
        {
          var m := Pick(left);
          left := left - {m};
          InsideExactly(boxes, cells[k][m].lat, cells[k][m].lon);
          if InAny(boxes, cells[k][m].lat, cells[k][m].lon) {
            called := called + [m];
          }
        }
      }
    }

    method VesselsInOccupied(boxes: seq<Box>) returns (called: seq<Mmsi>)
      requires Valid()
      ensures Distinct(called) && forall m :: m in called <==> m in vessels && InBoxes(boxes, m)
    {
      called := [];
      forall m | m in vessels && vessels[m].hasPos
        ensures vessels[m].cell in cells
      {
        assert At(cells, place, vessels, vessels[m].cell, m);
      }
      var left := cells.Keys;
      while left != {}
        invariant left <= cells.Keys && Distinct(called)
        invariant forall m :: m in called <==> m in vessels && InBoxes(boxes, m) && vessels[m].cell !in left
        decreases |left|
      {
        var k := Pick(left);
        called := VisitCell(boxes, k, called);
        left := left - {k};
      }
    }

    method VesselsInCells(boxes: seq<Box>, walk: seq<Cell>) returns (called: seq<Mmsi>)
      requires Valid() && Distinct(walk) && forall k :: k in walk <==> InRects(boxes, k)
      ensures Distinct(called) && forall m :: m in called <==> m in vessels && InBoxes(boxes, m)
    {
      called := [];
      for i := 0 to |walk|
        invariant Distinct(called)
        invariant forall m :: m in called <==> m in vessels && InBoxes(boxes, m) && vessels[m].cell in walk[..i]
      {
        assert walk[..i + 1] == walk[..i] + [walk[i]];
        assert walk[i] !in walk[..i];
        called := VisitCell(boxes, walk[i], called);
      }
      assert walk[..|walk|] == walk;
      forall m | m in vessels && InBoxes(boxes, m)
        ensures vessels[m].cell in walk
      {
        BoxesTouchTheirCells(boxes, vessels[m].lat, vessels[m].lon);
      }
    }

    /** Calls back once for each vessel whose position lies inside a box: by the occupied cells, or those the boxes
        touch. */
    method VesselsIn(boxes: seq<Box>) returns (called: seq<Mmsi>)
      requires Valid()
      ensures Distinct(called) && forall m :: m in called <==> m in vessels && InBoxes(boxes, m)
    {
      if Span(boxes) > |cells| {
        called := VesselsInOccupied(boxes);
      } else {
        var walk := Walk(boxes, |boxes| > 1);
        called := VesselsInCells(boxes, walk);
      }
    }

    method Everything() returns (called: seq<Mmsi>)
      ensures Distinct(called) && forall m :: m in called <==> m in vessels
    {
      called := [];
      var left := vessels.Keys;
      while left != {}
        invariant left <= vessels.Keys && Distinct(called)
        invariant forall m :: m in called <==> m in vessels && m !in left
        decreases |left|
      {
        var m := Pick(left);
        left := left - {m};
        called := called + [m];
      }
    }

    /** The followed vessels the pass over the boxes has not called. */
    method Followed(s: Sub, boxed: seq<Mmsi>) returns (called: seq<Mmsi>)
      requires Distinct(boxed) && forall m :: m in boxed <==> m in vessels && InBoxes(s.boxes, m)
      ensures Distinct(called)
      ensures forall m :: m in called <==> m in vessels && (m in s.mmsi || InBoxes(s.boxes, m))
    {
      called := boxed;
      var left := s.mmsi;
      while left != {}
        invariant left <= s.mmsi && Distinct(called)
        invariant forall m :: m in called <==> m in vessels && (InBoxes(s.boxes, m) || (m in s.mmsi && m !in left))
        decreases |left|
      {
        var m := Pick(left);
        left := left - {m};
        if m in vessels {
          var v := vessels[m];
          InsideExactly(s.boxes, v.lat, v.lon);
          if !(v.hasPos && InAny(s.boxes, v.lat, v.lon)) {
            called := called + [m];
          }
        }
      }
    }

    /** Calls back once for each vessel the subscription matches. */
    method EachMatch(s: Sub) returns (called: seq<Mmsi>)
      requires Valid()
      ensures Distinct(called) && forall m :: m in called <==> m in vessels && Matches(s, m)
    {
      if s.everything {
        called := Everything();
      } else {
        called := VesselsIn(s.boxes);
        called := Followed(s, called);
      }
    }
  }
}
