/** One-degree cells, boxes of coordinates, and the walk over the cells a set of boxes touches (server/index.go). */
module Cells {
  type Cell = int

  /** A box of coordinates, its edges included. One whose minimum is past its maximum holds nothing. */
  datatype Box = Box(minLat: real, minLon: real, maxLat: real, maxLon: real) {
    predicate Contains(lat: real, lon: real) {
      minLat <= lat <= maxLat && minLon <= lon <= maxLon
    }
  }

  function Clamp(x: int, lo: int, hi: int): int {
    if x < lo then lo else if x > hi then hi else x
  }

  /** A latitude's row is its degree's, the poles and what is past them in the outermost rows. */
  function Row(lat: real): (r: int)
    ensures 0 <= r < 180
    ensures -90.0 <= lat < 90.0 ==> (r - 90) as real <= lat < (r - 89) as real
    ensures (lat < -90.0 ==> r == 0) && (lat >= 90.0 ==> r == 179)
  {
    Clamp(lat.Floor + 90, 0, 179)
  }

  function Col(lon: real): (c: int)
    ensures 0 <= c < 360
    ensures -180.0 <= lon < 180.0 ==> (c - 180) as real <= lon < (c - 179) as real
    ensures (lon < -180.0 ==> c == 0) && (lon >= 180.0 ==> c == 359)
  {
    Clamp(lon.Floor + 180, 0, 359)
  }

  function Key(r: int, c: int): Cell { r * 360 + c }

  function CellOf(lat: real, lon: real): Cell { Key(Row(lat), Col(lon)) }

  /** Cells are numbered row by row, so positions share one exactly when they share its row and its column. */
  lemma CellsExactly(lat: real, lon: real, lat': real, lon': real)
    ensures CellOf(lat, lon) / 360 == Row(lat) && CellOf(lat, lon) % 360 == Col(lon)
    ensures CellOf(lat, lon) == CellOf(lat', lon') <==> Row(lat) == Row(lat') && Col(lon) == Col(lon')
  {
  }

  predicate InAny(boxes: seq<Box>, lat: real, lon: real) {
    exists i :: 0 <= i < |boxes| && boxes[i].Contains(lat, lon)
  }

  /** A box reaches from its least to its greatest latitude and longitude, and both are inside. */
  ghost predicate Inside(boxes: seq<Box>, lat: real, lon: real) {
    exists i :: 0 <= i < |boxes| && boxes[i].minLat <= lat <= boxes[i].maxLat
                && boxes[i].minLon <= lon <= boxes[i].maxLon
  }

  lemma InsideExactly(boxes: seq<Box>, lat: real, lon: real)
    ensures InAny(boxes, lat, lon) <==> Inside(boxes, lat, lon)
  {
    if i :| 0 <= i < |boxes| && boxes[i].Contains(lat, lon) {
      assert boxes[i].minLat <= lat;
    }
    if i :| 0 <= i < |boxes| && boxes[i].minLat <= lat <= boxes[i].maxLat && boxes[i].minLon <= lon <= boxes[i].maxLon {
      assert boxes[i].Contains(lat, lon);
    }
  }

  /** Cell k is in the rows and columns a box touches. */
  ghost predicate InRect(b: Box, k: Cell) {
    exists r, c :: k == Key(r, c) && Row(b.minLat) <= r <= Row(b.maxLat) && Col(b.minLon) <= c <= Col(b.maxLon)
  }

  ghost predicate InRects(boxes: seq<Box>, k: Cell) { exists i :: 0 <= i < |boxes| && InRect(boxes[i], k) }

  lemma BoxesTouchTheirCells(boxes: seq<Box>, lat: real, lon: real)
    requires Inside(boxes, lat, lon)
    ensures InRects(boxes, CellOf(lat, lon))
  {
  }

  /** What ranging over a Go map comes to next: any of the keys left. */
  method Pick<T(==)>(left: set<T>) returns (x: T)
    requires left != {}
    ensures x in left
  {
    x :| x in left;
  }

  ghost predicate Distinct<T>(s: seq<T>) { forall i, j :: 0 <= i < j < |s| ==> s[i] != s[j] }

  /** How many cells the boxes touch, overlaps counted again: what decides between the two plans. */
  function Span(boxes: seq<Box>): int {
    if boxes == [] then 0
    else
      var b := boxes[0];
      (Row(b.maxLat) - Row(b.minLat) + 1) * (Col(b.maxLon) - Col(b.minLon) + 1) + Span(boxes[1..])
  }

  /** Cell k comes before row r and column c in the walk of a box, row by row. */
  ghost predicate Walked(b: Box, r: int, c: int, k: Cell) {
    exists s, d :: k == Key(s, d) && Row(b.minLat) <= s <= Row(b.maxLat) && Col(b.minLon) <= d <= Col(b.maxLon)
                   && (s < r || (s == r && d < c))
  }

  lemma WalkedOne(b: Box, r: int, c: int, k: Cell)
    requires Row(b.minLat) <= r <= Row(b.maxLat) && Col(b.minLon) <= c <= Col(b.maxLon)
    ensures Walked(b, r, c + 1, k) <==> Walked(b, r, c, k) || k == Key(r, c)
    ensures !Walked(b, r, c, Key(r, c))
  {
  }

  lemma WalkedRow(b: Box, r: int, k: Cell)
    requires Row(b.minLat) <= r <= Row(b.maxLat)
    ensures Walked(b, r, Col(b.maxLon) + 1, k) <==> Walked(b, r + 1, Col(b.minLon), k)
  {
  }

  lemma WalkedAll(b: Box, r: int, k: Cell)
    requires r > Row(b.maxLat) || Col(b.minLon) > Col(b.maxLon)
    ensures Walked(b, r, Col(b.minLon), k) <==> InRect(b, k)
  {
  }

  /** A box that is not the wrong way round. */
  predicate Upright(b: Box) { Row(b.minLat) <= Row(b.maxLat) && Col(b.minLon) <= Col(b.maxLon) }

  lemma OneMore(n: int, w: int)
    ensures n * w + w == (n + 1) * w
  {
  }

  /** Adds a row's cells of a box to the walk, skipping those already on it when track is set. */
  method WalkRow(b: Box, r: int, walk0: seq<Cell>, track: bool, ghost before: seq<Cell>) returns (walk: seq<Cell>)
    requires Row(b.minLat) <= r <= Row(b.maxLat) && Distinct(walk0) && (track || before == [])
    requires forall k :: k in walk0 <==> k in before || Walked(b, r, Col(b.minLon), k)
    ensures Distinct(walk)
    ensures forall k :: k in walk <==> k in before || Walked(b, r + 1, Col(b.minLon), k)
    ensures before == [] && Col(b.minLon) <= Col(b.maxLon) ==>
              |walk| == |walk0| + Col(b.maxLon) - Col(b.minLon) + 1
  {
    walk := walk0;
    var c := Col(b.minLon);
    while c <= Col(b.maxLon)
      invariant Col(b.minLon) <= c && (c <= Col(b.maxLon) + 1 || c == Col(b.minLon)) && Distinct(walk)
      invariant forall k :: k in walk <==> k in before || Walked(b, r, c, k)
      invariant before == [] ==> |walk| == |walk0| + c - Col(b.minLon)
    {
      var k := Key(r, c);
      forall j
        ensures Walked(b, r, c + 1, j) <==> Walked(b, r, c, j) || j == k
        ensures !Walked(b, r, c, k)
      {
        WalkedOne(b, r, c, j);
      }
      if !(track && k in walk) {
        walk := walk + [k];
      }
      c := c + 1;
    }
    forall k
      ensures Walked(b, r, c, k) <==> Walked(b, r + 1, Col(b.minLon), k)
    {
      WalkedRow(b, r, k);
    }
  }

  method WalkBox(b: Box, walk0: seq<Cell>, track: bool) returns (walk: seq<Cell>)
    requires Distinct(walk0) && (track || walk0 == [])
    ensures Distinct(walk) && forall k :: k in walk <==> k in walk0 || InRect(b, k)
    ensures walk0 == [] && Upright(b) ==> |walk| == Span([b])
  {
    walk := walk0;
    var r := Row(b.minLat);
    var cols := Col(b.maxLon) - Col(b.minLon) + 1;
    while r <= Row(b.maxLat)
      invariant Row(b.minLat) <= r && Distinct(walk)
      invariant forall k :: k in walk <==> k in walk0 || Walked(b, r, Col(b.minLon), k)
      invariant Upright(b) ==> r <= Row(b.maxLat) + 1 && (walk0 == [] ==> |walk| == (r - Row(b.minLat)) * cols)
    {
      OneMore(r - Row(b.minLat), cols);
      walk := WalkRow(b, r, walk, track, walk0);
      r := r + 1;
    }
    forall k
      ensures Walked(b, r, Col(b.minLon), k) <==> InRect(b, k)
    {
      WalkedAll(b, r, k);
    }
  }

  /** The cells the boxes touch, each once, though boxes overlap; a single box needs no record of those walked, and
      there are as many as it spans. */
  method Walk(boxes: seq<Box>, track: bool) returns (walk: seq<Cell>)
    requires track || |boxes| <= 1
    ensures Distinct(walk) && forall k :: k in walk <==> InRects(boxes, k)
    ensures |boxes| == 1 && Upright(boxes[0]) ==> |walk| == Span(boxes)
  {
    walk := [];
    for i := 0 to |boxes|
      invariant Distinct(walk) && (i == 0 ==> walk == [])
      invariant forall k :: k in walk <==> exists j :: 0 <= j < i && InRect(boxes[j], k)
      invariant i == |boxes| == 1 && Upright(boxes[0]) ==> |walk| == Span(boxes)
    {
      assert |boxes| == 1 ==> boxes == [boxes[0]];
      walk := WalkBox(boxes[i], walk, track);
    }
  }
}
