/** A run of the rebuild protocol from an insert to the rebuilt hour that serves it (server/stationseries.go). */
module SeriesRun {
  import opened SeriesTables
  import opened SeriesProtocol

  ghost function Last(b: seq<State>): State
    requires b != []
  {
    b[|b| - 1]
  }

  lemma OneMoreStep(b: seq<State>, a: Action, s': State) returns (more: seq<State>)
    requires Behaviour(b) && Step(a, Last(b), s')
    ensures Behaviour(more) && Last(more) == s'
  {
    more := b + [s'];
    forall k | 0 <= k < |more| - 1
      ensures NextAt(more, k)
    {
      if k < |b| - 1 {
        assert NextAt(b, k);
      } else {
        assert Step(a, more[k], more[k + 1]);
      }
    }
  }

  /** The database holds these tables for hour 0 and nothing for any other. */
  function Hour0(t: Tables): Hour -> Tables {
    (h: Hour) => if h == 0 then t else NO_TABLES
  }

  /** An hour whose receptions and marker are visible. */
  function Inserted(rows: seq<Reception>, m: Stamp): Tables {
    NO_TABLES.(rows := rows, changes := map[0 := Change(Insert(rows), true, m, true)], markers := {m})
  }

  const BEGUN: Stamp := 100_000
  const SETTLED: Stamp := 160_001

  /** Receptions are inserted. */
  lemma Landing(rows: seq<Reception>) returns (b: seq<State>)
    ensures Behaviour(b)
    ensures Last(b) == State(BEGUN, 0, map[], Hour0(NO_TABLES.(rows := rows, changes :=
                             map[0 := Change(Insert(rows), true, 0, false)])))
  {
    var begun := NO_TABLES.(changes := map[0 := Change(Insert(rows), false, 0, false)]);
    var landed := begun.(changes := map[0 := Change(Insert(rows), true, 0, false)], rows := rows);
    assert [] + rows == rows;
    b := OneMoreStep([State(BEGUN, 0, map[], (h: Hour) => NO_TABLES)], Begin(0, 0, Insert(rows)),
                     State(BEGUN, 0, map[], Hour0(begun)));
    b := OneMoreStep(b, Land(0, 0), State(BEGUN, 0, map[], Hour0(landed)));
  }

  /** They are marked, and the marker settles. */
  lemma Inserting(rows: seq<Reception>) returns (b: seq<State>)
    ensures Behaviour(b) && Last(b) == State(SETTLED, 0, map[], Hour0(Inserted(rows, BEGUN)))
  {
    b := Landing(rows);
    var stamped := NO_TABLES.(rows := rows, changes := map[0 := Change(Insert(rows), true, BEGUN, false)]);
    b := OneMoreStep(b, Mark(0, 0), State(BEGUN, 0, map[], Hour0(stamped)));
    b := OneMoreStep(b, Show(0, 0), State(BEGUN, 0, map[], Hour0(Inserted(rows, BEGUN))));
    b := OneMoreStep(b, Tick(SETTLED), State(SETTLED, 0, map[], Hour0(Inserted(rows, BEGUN))));
  }

  /** What the rebuild of such an hour leaves as version v. */
  function Rebuilt(rows: seq<Reception>, m: Stamp, v: Version): Tables {
    Inserted(rows, m).(queried := {m}, built := m, hourRows := map[v := multiset(HourRows(rows))],
                       vesselRows := map[v := multiset(VesselRows(rows))], versions := {v},
                       read := map[v := Read(rows, rows, true)])
  }

  function RunAt(v: Version, phase: Phase): Run { Run({0}, v, true, map[0 := BEGUN], phase) }

  /** The job's query finds the marker, and a run takes version v. */
  lemma Taking(rows: seq<Reception>, v: Version) returns (b: seq<State>)
    requires v > 0
    ensures Behaviour(b)
    ensures Last(b) == State(SETTLED, v, map[0 := RunAt(v, Versioned)],
                             Hour0(Inserted(rows, BEGUN).(queried := {BEGUN})))
  {
    b := Inserting(rows);
    var t := Inserted(rows, BEGUN).(queried := {BEGUN});
    b := OneMoreStep(b, Query(0, BEGUN), State(SETTLED, 0, map[], Hour0(t)));
    b := OneMoreStep(b, TakeVersion(0, RunAt(v, Versioned)),
                     State(SETTLED, v, map[0 := RunAt(v, Versioned)], Hour0(t)));
  }

  /** The hour's tables with one of them filled. */
  function HalfFilled(rows: seq<Reception>, v: Version): Tables {
    Inserted(rows, BEGUN).(queried := {BEGUN}, hourRows := map[v := multiset(HourRows(rows))],
                           read := map[v := Read(rows, [], true)])
  }

  lemma FirstFilled(rows: seq<Reception>, v: Version)
    ensures Step(InsertHours(0),
                 State(SETTLED, v, map[0 := RunAt(v, Versioned)], Hour0(Inserted(rows, BEGUN).(queried := {BEGUN}))),
                 State(SETTLED, v, map[0 := RunAt(v, HoursIn)], Hour0(HalfFilled(rows, v))))
  {
    var t := Inserted(rows, BEGUN).(queried := {BEGUN});
    assert Held(t.hourRows, v) + multiset(HourRows(rows)) == multiset(HourRows(rows));
    assert HoursInserted(t, HalfFilled(rows, v), RunAt(v, Versioned));
  }

  lemma SecondHalf(rows: seq<Reception>, v: Version)
    ensures VesselsInserted(HalfFilled(rows, v), Rebuilt(rows, BEGUN, v).(built := 0, versions := {}),
                            RunAt(v, HoursIn))
  {
    var t := HalfFilled(rows, v);
    assert Held(t.vesselRows, v) + multiset(VesselRows(rows)) == multiset(VesselRows(rows));
  }

  lemma FilledIsStep(t: Tables, t': Tables, v: Version)
    requires v in t.read && VesselsInserted(t, t', RunAt(v, HoursIn))
    ensures Step(InsertVessels(0), State(SETTLED, v, map[0 := RunAt(v, HoursIn)], Hour0(t)),
                 State(SETTLED, v, map[0 := RunAt(v, VesselsIn)], Hour0(t')))
  {
  }

  lemma SecondFilled(rows: seq<Reception>, v: Version)
    ensures Step(InsertVessels(0), State(SETTLED, v, map[0 := RunAt(v, HoursIn)], Hour0(HalfFilled(rows, v))),
                 State(SETTLED, v, map[0 := RunAt(v, VesselsIn)],
                       Hour0(Rebuilt(rows, BEGUN, v).(built := 0, versions := {}))))
  {
    var t, t' := HalfFilled(rows, v), Rebuilt(rows, BEGUN, v).(built := 0, versions := {});
    SecondHalf(rows, v);
    FilledIsStep(t, t', v);
  }

  /** Both tables are filled. */
  lemma Filling(rows: seq<Reception>, v: Version) returns (b: seq<State>)
    requires v > 0
    ensures Behaviour(b)
    ensures Last(b) == State(SETTLED, v, map[0 := RunAt(v, VesselsIn)],
                             Hour0(Rebuilt(rows, BEGUN, v).(built := 0, versions := {})))
  {
    b := Taking(rows, v);
    FirstFilled(rows, v);
    b := OneMoreStep(b, InsertHours(0), State(SETTLED, v, map[0 := RunAt(v, HoursIn)], Hour0(HalfFilled(rows, v))));
    SecondFilled(rows, v);
    b := OneMoreStep(b, InsertVessels(0), State(SETTLED, v, map[0 := RunAt(v, VesselsIn)],
                                                Hour0(Rebuilt(rows, BEGUN, v).(built := 0, versions := {}))));
  }

  lemma RecordedIsStep(t: Tables, v: Version)
    ensures Step(RecordVersions(0), State(SETTLED, v, map[0 := RunAt(v, VesselsIn)], Hour0(t)),
                 State(SETTLED, v, map[0 := RunAt(v, Recorded)], Hour0(t.(versions := t.versions + {v}))))
  {
  }

  lemma CleanIsStep(t: Tables, v: Version)
    requires t.versions == {v} && t.hourRows.Keys == {v} && t.vesselRows.Keys == {v}
    ensures Step(FinishDeletes(0), State(SETTLED, v, map[0 := RunAt(v, Recorded)], Hour0(t)),
                 State(SETTLED, v, map[0 := RunAt(v, Cleaned)], Hour0(t)))
  {
  }

  /** The version is recorded, and nothing older is left. */
  lemma Recording(rows: seq<Reception>, v: Version) returns (b: seq<State>)
    requires v > 0
    ensures Behaviour(b)
    ensures Last(b) == State(SETTLED, v, map[0 := RunAt(v, Cleaned)], Hour0(Rebuilt(rows, BEGUN, v).(built := 0)))
  {
    b := Filling(rows, v);
    var t := Rebuilt(rows, BEGUN, v).(built := 0);
    RecordedIsStep(t.(versions := {}), v);
    assert t.(versions := {}).(versions := {} + {v}) == t;
    b := OneMoreStep(b, RecordVersions(0), State(SETTLED, v, map[0 := RunAt(v, Recorded)], Hour0(t)));
    CleanIsStep(t, v);
    b := OneMoreStep(b, FinishDeletes(0), State(SETTLED, v, map[0 := RunAt(v, Cleaned)], Hour0(t)));
  }

  lemma RebuiltServes(rows: seq<Reception>, v: Version)
    requires v > 0
    ensures var t := Rebuilt(rows, BEGUN, v);
            && t.rows == rows && IsNewest(t, v) && !Differs(t, v) && !Marked(t) && !Owing(t)
            && Held(t.hourRows, v) == multiset(HourRows(rows)) && Held(t.vesselRows, v) == multiset(VesselRows(rows))
  {
  }

  /** Receptions are inserted, and the hour is rebuilt: its newest version is their aggregates, and nothing marks it. */
  lemma HourServed(rows: seq<Reception>, v: Version) returns (b: seq<State>)
    requires v > 0
    ensures Behaviour(b)
    ensures var t := Last(b).tables(0);
            && t.rows == rows && IsNewest(t, v) && !Differs(t, v) && !Marked(t) && !Owing(t)
            && Held(t.hourRows, v) == multiset(HourRows(rows)) && Held(t.vesselRows, v) == multiset(VesselRows(rows))
  {
    b := Recording(rows, v);
    b := OneMoreStep(b, RecordBuilt(0, {0}), State(SETTLED, v, map[], Hour0(Rebuilt(rows, BEGUN, v))));
    RebuiltServes(rows, v);
  }
}
