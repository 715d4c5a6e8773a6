/** What one hour of receptions aggregates to, and the tables that hold it (server/stationseries.go). */
module SeriesTables {
  type Hour = nat     // hours since the epoch
  type Version = nat  // milliseconds; 0 is the zero time
  type Stamp = nat    // a marker's time in milliseconds, on ClickHouse's clock; 0 is no marker

  /** How long a marker waits before a rebuild may take it in. */
  const SETTLE: nat := 60_000

  const HOURS_PER_DAY: nat := 24

  function DayOf(h: Hour): (day: nat)
    ensures day * 24 <= h < (day + 1) * 24
  {
    h / HOURS_PER_DAY
  }

  datatype Reception = Reception(station: string, source: string, mmsi: nat, ts: nat,
                                 accepted: bool, stale: bool, usable: bool)

  datatype HourRow = HourRow(station: string, source: string, receptions: nat, first: nat)

  datatype VesselRow = VesselRow(station: string, source: string, mmsi: nat, receptions: nat, lastTs: nat)

  /** The receptions one column of one row counts. */
  datatype Group =
    | Heard(station: string, source: string)
    | FirstHeard(station: string, source: string)
    | Vessel(station: string, source: string, mmsi: nat)
  {
    predicate Holds(r: Reception) {
      && r.usable && r.station == station && r.source == source
      && match this
         case Heard(_, _) => true
         case FirstHeard(_, _) => r.accepted
         case Vessel(_, _, m) => !r.stale && r.mmsi == m
    }
  }

  function Tally(rs: seq<Reception>, g: Group): nat {
    if rs == [] then 0 else (if g.Holds(rs[0]) then 1 else 0) + Tally(rs[1..], g)
  }

  function Latest(rs: seq<Reception>, g: Group): nat {
    if rs == [] then 0
    else
      var rest := Latest(rs[1..], g);
      if g.Holds(rs[0]) && rs[0].ts > rest then rs[0].ts else rest
  }

  /** The station_hours rows of an hour: per station and source, its usable receptions and how many came first. */
  function HourRows(rs: seq<Reception>): set<HourRow> {
    set r | r in rs && r.usable ::
      HourRow(r.station, r.source, Tally(rs, Heard(r.station, r.source)), Tally(rs, FirstHeard(r.station, r.source)))
  }

  /** The station_vessels rows of an hour: per station, source, and vessel, its usable receptions not stale. */
  function VesselRows(rs: seq<Reception>): set<VesselRow> {
    set r | r in rs && r.usable && !r.stale ::
      VesselRow(r.station, r.source, r.mmsi,
                Tally(rs, Vessel(r.station, r.source, r.mmsi)), Latest(rs, Vessel(r.station, r.source, r.mmsi)))
  }

  ghost function Places(rs: seq<Reception>, g: Group): set<nat> {
    set i: nat | i < |rs| && g.Holds(rs[i])
  }

  lemma PlacesMore(front: seq<Reception>, r: Reception, g: Group)
    ensures Places(front + [r], g) == if g.Holds(r) then Places(front, g) + {|front|} else Places(front, g)
    ensures |front| !in Places(front, g)
  {
    forall i: nat
      ensures i in Places(front + [r], g) <==> i in Places(front, g) || (i == |front| && g.Holds(r))
    {
      if i < |front| {
        assert (front + [r])[i] == front[i];
      }
    }
  }

  lemma {:induction false} TallyMore(front: seq<Reception>, r: Reception, g: Group)
    ensures Tally(front + [r], g) == Tally(front, g) + if g.Holds(r) then 1 else 0
  {
    if front == [] {
      assert [r][1..] == [];
    } else {
      assert (front + [r])[1..] == front[1..] + [r];
      TallyMore(front[1..], r, g);
    }
  }

  lemma {:induction false} TallyCounts(rs: seq<Reception>, g: Group)
    ensures Tally(rs, g) == |Places(rs, g)|
  {
    if rs != [] {
      var front, r := rs[..|rs| - 1], rs[|rs| - 1];
      assert rs == front + [r];
      TallyCounts(front, g);
      TallyMore(front, r, g);
      PlacesMore(front, r, g);
    }
  }

  lemma {:induction false} LatestBounds(rs: seq<Reception>, g: Group, i: nat)
    requires i < |rs| && g.Holds(rs[i])
    ensures rs[i].ts <= Latest(rs, g)
  {
    if i > 0 {
      LatestBounds(rs[1..], g, i - 1);
    }
  }

  lemma {:induction false} LatestOfNone(rs: seq<Reception>, g: Group)
    requires forall k :: 0 <= k < |rs| ==> !g.Holds(rs[k])
    ensures Latest(rs, g) == 0
  {
    if rs != [] {
      LatestOfNone(rs[1..], g);
    }
  }

  lemma {:induction false} LatestHeld(rs: seq<Reception>, g: Group, j: nat) returns (i: nat)
    requires j < |rs| && g.Holds(rs[j])
    ensures i < |rs| && g.Holds(rs[i]) && rs[i].ts == Latest(rs, g)
    decreases |rs|
  {
    i := 0;
    assert j > 0 ==> rs[1..][j - 1] == rs[j];
    if k: nat :| k < |rs| - 1 && g.Holds(rs[1..][k]) {
      var l := LatestHeld(rs[1..], g, k);
      if !(g.Holds(rs[0]) && rs[0].ts > Latest(rs[1..], g)) {
        i := l + 1;
      }
    } else {
      LatestOfNone(rs[1..], g);
    }
  }

  /** Where the hour's usable receptions of a station and source are. */
  ghost function HeardAt(rs: seq<Reception>, station: string, source: string): set<nat> {
    set i: nat | i < |rs| && rs[i].usable && rs[i].station == station && rs[i].source == source
  }

  /** An hour's rows are one for each station and source with a usable reception, of how many it has and how many of
      them were accepted. */
  lemma HourRowsExactly(rs: seq<Reception>, x: HourRow)
    ensures var heard := HeardAt(rs, x.station, x.source);
            x in HourRows(rs) <==>
            heard != {} && x.receptions == |heard| && x.first == |set i | i in heard && rs[i].accepted|
  {
    var heard := HeardAt(rs, x.station, x.source);
    var all, first := Heard(x.station, x.source), FirstHeard(x.station, x.source);
    TallyCounts(rs, all);
    TallyCounts(rs, first);
    assert Places(rs, all) == heard;
    assert Places(rs, first) == set i | i in heard && rs[i].accepted;
    if x in HourRows(rs) {
      var r :| r in rs && r.usable && r.station == x.station && r.source == x.source;
      var i :| 0 <= i < |rs| && rs[i] == r;
      assert i in heard;
    }
    if i :| i in heard {
      assert rs[i] in rs;
      assert HourRow(x.station, x.source, Tally(rs, all), Tally(rs, first)) in HourRows(rs);
    }
  }

  /** Where those of a vessel, not stale, are. */
  ghost function VesselAt(rs: seq<Reception>, station: string, source: string, mmsi: nat): set<nat> {
    set i | i in HeardAt(rs, station, source) && !rs[i].stale && rs[i].mmsi == mmsi
  }

  /** And one for each station, source, and vessel with a usable reception not stale, of how many it has and the time
      of the latest. */
  lemma VesselRowsExactly(rs: seq<Reception>, x: VesselRow)
    ensures var heard := VesselAt(rs, x.station, x.source, x.mmsi);
            x in VesselRows(rs) <==>
            && heard != {} && x.receptions == |heard|
            && (forall i :: i in heard ==> rs[i].ts <= x.lastTs) && exists i :: i in heard && rs[i].ts == x.lastTs
  {
    var heard := VesselAt(rs, x.station, x.source, x.mmsi);
    var all := Vessel(x.station, x.source, x.mmsi);
    TallyCounts(rs, all);
    assert Places(rs, all) == heard;
    forall i | i in heard
      ensures rs[i].ts <= Latest(rs, all)
    {
      LatestBounds(rs, all, i);
    }
    if x in VesselRows(rs) {
      var r :| r in rs && r.usable && !r.stale && r.station == x.station && r.source == x.source && r.mmsi == x.mmsi;
      var i :| 0 <= i < |rs| && rs[i] == r;
      assert i in heard;
    }
    if i :| i in heard {
      assert rs[i] in rs;
      var l := LatestHeld(rs, all, i);
      assert l in heard;
      assert VesselRow(x.station, x.source, x.mmsi, Tally(rs, all), Latest(rs, all)) in VesselRows(rs);
    }
  }

  /** What one statement does to the receptions of one hour. */
  datatype Effect = Insert(rows: seq<Reception>) | Delete(gone: set<Reception>)

  function Without(rs: seq<Reception>, gone: set<Reception>): seq<Reception> {
    if rs == [] then [] else (if rs[0] in gone then [] else [rs[0]]) + Without(rs[1..], gone)
  }

  function Applied(e: Effect, rs: seq<Reception>): seq<Reception> {
    match e
    case Insert(rows) => rs + rows
    case Delete(gone) => Without(rs, gone)
  }

  lemma {:induction false} WithoutExactly(rs: seq<Reception>, gone: set<Reception>, x: Reception)
    ensures multiset(Without(rs, gone))[x] == if x in gone then 0 else multiset(rs)[x]
  {
    if rs != [] {
      WithoutExactly(rs[1..], gone, x);
      assert rs == [rs[0]] + rs[1..];
    }
  }

  /** An insert adds its rows to the hour's, and a delete takes away every row it is of, and no other. */
  lemma AppliedExactly(e: Effect, rs: seq<Reception>, x: Reception)
    ensures multiset(Applied(e, rs))[x] ==
            match e
            case Insert(rows) => multiset(rs)[x] + multiset(rows)[x]
            case Delete(gone) => if x in gone then 0 else multiset(rs)[x]
  {
    if e.Delete? {
      WithoutExactly(rs, e.gone, x);
    }
  }

  /** An insert or a delete on one hour: whether its rows are visible, the time its marker carries, and
      whether that marker is visible in station_dirty. */
  datatype Change = Change(effect: Effect, landed: bool, stamp: Stamp, shown: bool)

  /** What a binning read for a version: the receptions when station_hours was filled, those when
      station_vessels was, and whether the hour was young enough for station_vessels to keep. */
  datatype Read = Read(hours: seq<Reception>, vessels: seq<Reception>, keep: bool)

  /** Everything the database holds about one hour, with the changes to it and the reads of it. */
  datatype Tables = Tables(
    rows: seq<Reception>,
    changes: map<nat, Change>,
    markers: set<Stamp>,
    queried: set<Stamp>,
    built: Stamp,
    hourRows: map<Version, multiset<HourRow>>,
    vesselRows: map<Version, multiset<VesselRow>>,
    versions: set<Version>,
    read: map<Version, Read>)

  const NO_TABLES := Tables([], map[], {}, {}, 0, map[], map[], {}, map[])

  function Held<R>(m: map<Version, multiset<R>>, v: Version): multiset<R> {
    if v in m then m[v] else multiset{}
  }

  ghost predicate IsNewest(t: Tables, v: Version) {
    v in t.versions && forall u :: u in t.versions ==> u <= v
  }

  lemma NewestExists(vs: set<Version>) returns (v: Version)
    requires vs != {}
    ensures v in vs && forall u :: u in vs ==> u <= v
  {
    v :| v in vs;
    if vs != {v} {
      var w := NewestExists(vs - {v});
      assert forall u :: u in vs ==> u == v || u in vs - {v};
      v := if w > v then w else v;
    }
  }

  /** The whole rows a version of this read stands for in each table. */
  ghost predicate HoursWhole(t: Tables, v: Version) {
    v in t.read && Held(t.hourRows, v) == multiset(HourRows(t.read[v].hours))
  }

  ghost predicate VesselsWhole(t: Tables, v: Version) {
    && v in t.read
    && Held(t.vesselRows, v) == if t.read[v].keep then multiset(VesselRows(t.read[v].vessels)) else multiset{}
  }

  /** The receptions x a binning read are still the hour's, or a change landed since whose marker a rebuild
      recorded up to b has not taken in. */
  ghost predicate Fresh(t: Tables, x: seq<Reception>, b: Stamp) {
    || x == t.rows
    || exists c :: c in t.changes && t.changes[c].landed && (t.changes[c].stamp == 0 || t.changes[c].stamp > b)
  }

  ghost predicate FreshRead(t: Tables, v: Version, b: Stamp) {
    && v in t.read
    && Fresh(t, t.read[v].hours, b)
    && (t.read[v].keep ==> Fresh(t, t.read[v].vessels, b))
  }

  /** Some marker is newer than the built record, so the next settled query rebuilds the hour. */
  ghost predicate Marked(t: Tables) { exists m :: m in t.markers && m > t.built }

  /** A change is visible whose marker is not yet. */
  ghost predicate Owing(t: Tables) { exists c :: c in t.changes && t.changes[c].landed && !t.changes[c].shown }

  /** The newest recorded version says something else than the hour's receptions do now. */
  ghost predicate Differs(t: Tables, v: Version) {
    || Held(t.hourRows, v) != multiset(HourRows(t.rows))
    || (v in t.read && t.read[v].keep && Held(t.vesselRows, v) != multiset(VesselRows(t.rows)))
  }
}
