/** The rebuild protocol as a state machine: every statement of the inserting, deleting, and rebuilding paths is
    a step, any binning may stop after any of them, and steps of different days interleave freely. */
module SeriesProtocol {
  import opened SeriesTables

  datatype Phase = Versioned | HoursIn | VesselsIn | Recorded | Cleaned

  /** One binning of consecutive hours of a day, holding the day's lock. marks is empty for the backfill. */
  datatype Run = Run(hours: set<Hour>, built: Version, keep: bool, marks: map<Hour, Stamp>, phase: Phase)

  datatype State = State(now: Stamp, last: Version, runs: map<nat, Run>, tables: Hour -> Tables)

  datatype Action =
    | Tick(to: Stamp)
    | Begin(h: Hour, id: nat, effect: Effect)
    | Land(h: Hour, id: nat)
    | Mark(h: Hour, id: nat)
    | Show(h: Hour, id: nat)
    | Query(h: Hour, m: Stamp)
    | TakeVersion(day: nat, run: Run)
    | InsertHours(day: nat)
    | InsertHoursPart(day: nat)
    | InsertVessels(day: nat)
    | InsertVesselsPart(day: nat)
    | RecordVersions(day: nat)
    | RecordSome(day: nat)
    | DeleteOlder(day: nat)
    | FinishDeletes(day: nat)
    | RecordBuilt(day: nat, some: set<Hour>)
    | Unlock(day: nat)
    | Restart
  {
    /** A step of the run that holds a day's lock. */
    predicate OfRun() {
      !(Tick? || Begin? || Land? || Mark? || Show? || Query? || TakeVersion? || Restart?)
    }
  }

  /** The run that is binning h, if one is. */
  ghost predicate Binning(s: State, h: Hour) {
    DayOf(h) in s.runs && h in s.runs[DayOf(h)].hours
  }

  function MarkOf(r: Run, h: Hour): Stamp { if h in r.marks then r.marks[h] else 0 }

  ghost predicate Initial(s: State) {
    s.now > SETTLE && s.last == 0 && s.runs == map[] && forall h :: s.tables(h) == NO_TABLES
  }

  /** Every version any table holds for the hour is below v. */
  ghost predicate Above(t: Tables, v: Version) {
    && (forall u :: u in t.hourRows ==> u < v)
    && (forall u :: u in t.vesselRows ==> u < v)
    && (forall u :: u in t.versions ==> u < v)
  }

  // ---- what a step does to one hour's tables ----

  ghost predicate Changed(t: Tables, t': Tables, id: nat, c: Change) { t' == t.(changes := t.changes[id := c]) }

  ghost predicate Landed(t: Tables, t': Tables, id: nat) {
    && id in t.changes && !t.changes[id].landed
    && t' == t.(changes := t.changes[id := t.changes[id].(landed := true)],
                rows := Applied(t.changes[id].effect, t.rows))
  }

  /** A marker takes the clock's time; a delete's is written only once the delete is done. */
  ghost predicate Stamped(t: Tables, t': Tables, id: nat, now: Stamp) {
    && id in t.changes && t.changes[id].stamp == 0
    && (t.changes[id].effect.Delete? ==> t.changes[id].landed)
    && Changed(t, t', id, t.changes[id].(stamp := now))
  }

  ghost predicate Shown(t: Tables, t': Tables, id: nat) {
    && id in t.changes && t.changes[id].stamp != 0 && !t.changes[id].shown
    && t' == t.(changes := t.changes[id := t.changes[id].(shown := true)], markers := t.markers + {t.changes[id].stamp})
  }

  /** The job's query: the hour's newest settled marker, when it is newer than the built record. */
  ghost predicate Queried(t: Tables, t': Tables, m: Stamp, now: Stamp) {
    && m in t.markers && m + SETTLE < now && m > t.built
    && (forall n :: n in t.markers && n + SETTLE < now ==> n <= m)
    && t' == t.(queried := t.queried + {m})
  }

  ghost predicate HoursInserted(t: Tables, t': Tables, r: Run) {
    t' == t.(hourRows := t.hourRows[r.built := Held(t.hourRows, r.built) + multiset(HourRows(t.rows))],
             read := t.read[r.built := Read(t.rows, [], r.keep)])
  }

  ghost predicate HoursPartInserted(t: Tables, t': Tables, r: Run) {
    exists part: multiset<HourRow> :: part <= multiset(HourRows(t.rows)) &&
      t' == t.(hourRows := t.hourRows[r.built := Held(t.hourRows, r.built) + part])
  }

  ghost predicate VesselsInserted(t: Tables, t': Tables, r: Run)
    requires r.built in t.read
  {
    && var read := t.read[r.built := t.read[r.built].(vessels := t.rows)];
    t' == if r.keep then t.(vesselRows :=
      t.vesselRows[r.built := Held(t.vesselRows, r.built) + multiset(VesselRows(t.rows))], read := read)
          else t.(read := read)
  }

  ghost predicate VesselsPartInserted(t: Tables, t': Tables, r: Run) {
    exists part: multiset<VesselRow> :: part <= multiset(VesselRows(t.rows)) &&
      t' == t.(vesselRows := t.vesselRows[r.built := Held(t.vesselRows, r.built) + part])
  }

  /** A delete, whole or cut short, of rows older than v. */
  ghost predicate OlderDeleted(t: Tables, t': Tables, v: Version) {
    && t' == t.(hourRows := t'.hourRows, vesselRows := t'.vesselRows, versions := t'.versions)
    && (forall u: Version ::
          && Held(t'.hourRows, u) <= Held(t.hourRows, u)
          && (u >= v ==> Held(t'.hourRows, u) == Held(t.hourRows, u)))
    && (forall u: Version ::
          && Held(t'.vesselRows, u) <= Held(t.vesselRows, u)
          && (u >= v ==> Held(t'.vesselRows, u) == Held(t.vesselRows, u)))
    && t'.hourRows.Keys <= t.hourRows.Keys && t'.vesselRows.Keys <= t.vesselRows.Keys
    && t'.versions <= t.versions && (forall u :: u in t.versions && u >= v ==> u in t'.versions)
  }

  function Max(a: nat, b: nat): nat { if a > b then a else b }

  // ---- steps of the whole system ----

  ghost predicate OnlyHour(s: State, s': State, h: Hour) {
    s'.now == s.now && s'.last == s.last && s'.runs == s.runs && forall g :: g != h ==> s'.tables(g) == s.tables(g)
  }

  /** The run of day moves to another phase, or ends and unlocks the day. */
  ghost predicate Moved(s: State, s': State, day: nat, phase: Phase)
    requires day in s.runs
  {
    s'.now == s.now && s'.last == s.last && s'.runs == s.runs[day := s.runs[day].(phase := phase)]
  }

  ghost predicate Ended(s: State, s': State, day: nat) {
    s'.now == s.now && s'.last == s.last && s'.runs == s.runs - {day}
  }

  ghost predicate Untouched(s: State, s': State) { forall h :: s'.tables(h) == s.tables(h) }

  ghost predicate InPhase(s: State, day: nat, phase: Phase) { day in s.runs && s.runs[day].phase == phase }

  ghost predicate Step(a: Action, s: State, s': State) {
    match a
    case Tick(to) =>
      // A change's rows are visible by the time its marker settles: an insert is bounded well inside it.
      && to >= s.now
      && (forall h, c :: c in s.tables(h).changes && !s.tables(h).changes[c].landed && s.tables(h).changes[c].stamp != 0
                         ==> to <= s.tables(h).changes[c].stamp + SETTLE)
      && s'.now == to && s'.last == s.last && s'.runs == s.runs && Untouched(s, s')
    case Begin(h, id, effect) =>
      && id !in s.tables(h).changes
      && OnlyHour(s, s', h) && Changed(s.tables(h), s'.tables(h), id, Change(effect, false, 0, false))
    case Land(h, id) => OnlyHour(s, s', h) && Landed(s.tables(h), s'.tables(h), id)
    case Mark(h, id) => OnlyHour(s, s', h) && Stamped(s.tables(h), s'.tables(h), id, s.now)
    case Show(h, id) => OnlyHour(s, s', h) && Shown(s.tables(h), s'.tables(h), id)
    case Query(h, m) => OnlyHour(s, s', h) && Queried(s.tables(h), s'.tables(h), m, s.now)
    case TakeVersion(day, run) =>
      && day !in s.runs && run.phase == Versioned
      && run.built > s.last
      && (forall h :: h in run.hours ==> DayOf(h) == day && Above(s.tables(h), run.built))
      && (forall h :: h in run.marks ==> h in run.hours && run.marks[h] in s.tables(h).queried)
      && s'.now == s.now && s'.last == run.built && s'.runs == s.runs[day := run] && Untouched(s, s')
    case InsertHours(day) =>
      && InPhase(s, day, Versioned) && Moved(s, s', day, HoursIn)
      && forall h :: if h in s.runs[day].hours then HoursInserted(s.tables(h), s'.tables(h), s.runs[day])
         else s'.tables(h) == s.tables(h)
    case InsertHoursPart(day) =>
      && InPhase(s, day, Versioned) && Ended(s, s', day)
      && forall h :: if h in s.runs[day].hours then HoursPartInserted(s.tables(h), s'.tables(h), s.runs[day])
         else s'.tables(h) == s.tables(h)
    case InsertVessels(day) =>
      && InPhase(s, day, HoursIn) && Moved(s, s', day, VesselsIn)
      && forall h :: if h in s.runs[day].hours
                     then s.runs[day].built in s.tables(h).read
                       && VesselsInserted(s.tables(h), s'.tables(h), s.runs[day])
                     else s'.tables(h) == s.tables(h)
    case InsertVesselsPart(day) =>
      && InPhase(s, day, HoursIn) && Ended(s, s', day)
      && forall h :: if h in s.runs[day].hours then VesselsPartInserted(s.tables(h), s'.tables(h), s.runs[day])
         else s'.tables(h) == s.tables(h)
    case RecordVersions(day) =>
      && InPhase(s, day, VesselsIn) && Moved(s, s', day, Recorded)
      && forall h :: s'.tables(h) == if h in s.runs[day].hours
         then s.tables(h).(versions := s.tables(h).versions + {s.runs[day].built})
                                     else s.tables(h)
    case RecordSome(day) =>
      && InPhase(s, day, VesselsIn) && Ended(s, s', day)
      && forall h :: s'.tables(h) == s.tables(h)
                     || (h in s.runs[day].hours && s'.tables(h) ==
                        s.tables(h).(versions := s.tables(h).versions + {s.runs[day].built}))
    case DeleteOlder(day) =>
      && InPhase(s, day, Recorded) && Moved(s, s', day, Recorded)
      && forall h :: if h in s.runs[day].hours then OlderDeleted(s.tables(h), s'.tables(h), s.runs[day].built)
         else s'.tables(h) == s.tables(h)
    case FinishDeletes(day) =>
      && InPhase(s, day, Recorded) && Moved(s, s', day, Cleaned) && Untouched(s, s')
      && forall h :: h in s.runs[day].hours ==>
                       && s.tables(h).versions <= {s.runs[day].built}
                       && forall u: Version :: u < s.runs[day].built ==>
                          Held(s.tables(h).hourRows, u) == multiset{} && Held(s.tables(h).vesselRows, u) == multiset{}
    case RecordBuilt(day, some) =>
      && InPhase(s, day, Cleaned) && Ended(s, s', day)
      && forall h :: s'.tables(h) == if h in s.runs[day].hours && h in some
                                     then s.tables(h).(built := Max(s.tables(h).built, MarkOf(s.runs[day], h)))
                                     else s.tables(h)
    case Unlock(day) => day in s.runs && Ended(s, s', day) && Untouched(s, s')
    case Restart => s'.now == s.now && s'.last == 0 && s'.runs == map[] && Untouched(s, s')
  }

  ghost predicate Next(s: State, s': State) { exists a :: Step(a, s, s') }

  ghost predicate NextAt(b: seq<State>, k: nat)
    requires k + 1 < |b|
  {
    Next(b[k], b[k + 1])
  }

  /** A run of the system: consecutive states, each a step from the one before. */
  ghost predicate Behaviour(b: seq<State>) {
    |b| > 0 && Initial(b[0]) && forall k {:trigger NextAt(b, k)} :: 0 <= k < |b| - 1 ==> NextAt(b, k)
  }

  // ---- the invariant, hour by hour ----

  ghost predicate ChangesInv(t: Tables, now: Stamp) {
    forall c :: c in t.changes ==>
      && t.changes[c].stamp <= now
      && (t.changes[c].stamp != 0 && !t.changes[c].landed ==> now <= t.changes[c].stamp + SETTLE)
      && (t.changes[c].shown ==> t.changes[c].stamp != 0 && t.changes[c].stamp in t.markers)
  }

  ghost predicate SettledInv(t: Tables, now: Stamp) {
    && now > SETTLE && t.built + SETTLE < now
    && forall m :: m in t.queried ==> m + SETTLE < now
  }

  ghost predicate NewestInv(t: Tables) {
    forall v :: IsNewest(t, v) ==> HoursWhole(t, v) && VesselsWhole(t, v) && FreshRead(t, v, t.built)
  }

  /** What holds of an hour a run is binning, phase by phase. */
  ghost predicate RunInv(t: Tables, r: Run, h: Hour, now: Stamp) {
    && MarkOf(r, h) + SETTLE < now
    && match r.phase
       case Versioned => Above(t, r.built)
       case HoursIn =>
         && (forall u :: u in t.hourRows ==> u <= r.built)
         && (forall u :: u in t.vesselRows ==> u < r.built)
         && (forall u :: u in t.versions ==> u < r.built)
         && HoursWhole(t, r.built) && t.read[r.built].keep == r.keep
         && Fresh(t, t.read[r.built].hours, Max(t.built, MarkOf(r, h)))
       case VesselsIn =>
         && (forall u :: u in t.hourRows ==> u <= r.built)
         && (forall u :: u in t.vesselRows ==> u <= r.built)
         && (forall u :: u in t.versions ==> u < r.built)
         && HoursWhole(t, r.built) && VesselsWhole(t, r.built)
         && FreshRead(t, r.built, Max(t.built, MarkOf(r, h)))
       case _ =>
         && IsNewest(t, r.built)
         && HoursWhole(t, r.built) && VesselsWhole(t, r.built)
         && FreshRead(t, r.built, Max(t.built, MarkOf(r, h)))
  }

  ghost predicate TablesInv(t: Tables, now: Stamp) { ChangesInv(t, now) && SettledInv(t, now) && NewestInv(t) }

  ghost predicate HourInv(s: State, h: Hour) {
    && TablesInv(s.tables(h), s.now)
    && (Binning(s, h) ==> RunInv(s.tables(h), s.runs[DayOf(h)], h, s.now))
  }

  ghost predicate LocksInv(s: State) {
    forall d :: d in s.runs ==> s.runs[d].built <= s.last && forall h :: h in s.runs[d].hours ==> DayOf(h) == d
  }

  ghost predicate Inv(s: State) { LocksInv(s) && forall h :: HourInv(s, h) }

  // ---- each kind of step keeps it ----

  lemma FreshKept(t: Tables, t': Tables, x: seq<Reception>, b: Stamp)
    requires Fresh(t, x, b)
    requires t'.rows == t.rows && t.changes.Keys <= t'.changes.Keys
    requires forall c :: c in t.changes ==>
             t'.changes[c].landed == t.changes[c].landed
               && (t'.changes[c].stamp == t.changes[c].stamp || t'.changes[c].stamp > b)
    ensures Fresh(t', x, b)
  {
    if x != t.rows {
      var c :| c in t.changes && t.changes[c].landed && (t.changes[c].stamp == 0 || t.changes[c].stamp > b);
      assert c in t'.changes;
    }
  }

  /** A change lands: its marker, written or still to be, is newer than every marker taken in so far. */
  lemma FreshLanded(t: Tables, t': Tables, id: nat, x: seq<Reception>, b: Stamp, now: Stamp)
    requires Landed(t, t', id) && ChangesInv(t, now) && b + SETTLE < now
    ensures Fresh(t', x, b)
  {
    assert id in t'.changes && t'.changes[id].landed;
  }

  lemma LandKeeps(s: State, s': State, h: Hour, id: nat)
    requires Inv(s) && Step(Land(h, id), s, s')
    ensures HourInv(s', h)
  {
    var t, t' := s.tables(h), s'.tables(h);
    assert HourInv(s, h);
    forall v | IsNewest(t', v)
      ensures HoursWhole(t', v) && VesselsWhole(t', v) && FreshRead(t', v, t'.built)
    {
      assert IsNewest(t, v);
      FreshLanded(t, t', id, t.read[v].hours, t.built, s.now);
      FreshLanded(t, t', id, t.read[v].vessels, t.built, s.now);
    }
    if Binning(s, h) {
      var r := s.runs[DayOf(h)];
      if r.phase != Versioned {
        FreshLanded(t, t', id, t.read[r.built].hours, Max(t.built, MarkOf(r, h)), s.now);
        FreshLanded(t, t', id, t.read[r.built].vessels, Max(t.built, MarkOf(r, h)), s.now);
      }
    }
  }

  /** The receptions and the series tables are as they were, and a marker written since is the newest. */
  ghost predicate Bookkept(t: Tables, t': Tables, now: Stamp) {
    && t'.rows == t.rows && t'.hourRows == t.hourRows && t'.vesselRows == t.vesselRows
    && t'.versions == t.versions && t'.read == t.read && t'.built == t.built
    && t.changes.Keys <= t'.changes.Keys
    && forall c :: c in t.changes ==>
                     && t'.changes[c].landed == t.changes[c].landed
                     && (t'.changes[c].stamp == t.changes[c].stamp || t'.changes[c].stamp == now)
  }

  lemma SeriesKept(t: Tables, t': Tables, v: Version, b: Stamp, now: Stamp)
    requires Bookkept(t, t', now) && FreshRead(t, v, b) && b < now
    ensures FreshRead(t', v, b)
  {
    FreshKept(t, t', t.read[v].hours, b);
    if t.read[v].keep {
      FreshKept(t, t', t.read[v].vessels, b);
    }
  }

  lemma BookkeepingKeeps(s: State, s': State, h: Hour)
    requires HourInv(s, h) && s'.now >= s.now && s'.runs == s.runs
    requires Bookkept(s.tables(h), s'.tables(h), s.now)
    requires ChangesInv(s'.tables(h), s'.now) && SettledInv(s'.tables(h), s'.now)
    ensures HourInv(s', h)
  {
    var t, t' := s.tables(h), s'.tables(h);
    forall v | IsNewest(t', v)
      ensures HoursWhole(t', v) && VesselsWhole(t', v) && FreshRead(t', v, t'.built)
    {
      assert IsNewest(t, v);
      SeriesKept(t, t', v, t.built, s.now);
    }
    if Binning(s, h) {
      var r := s.runs[DayOf(h)];
      var b := Max(t.built, MarkOf(r, h));
      if r.phase == HoursIn {
        FreshKept(t, t', t.read[r.built].hours, b);
      } else if r.phase != Versioned {
        SeriesKept(t, t', r.built, b, s.now);
      }
    }
  }

  /** Tables that differ only at a version no one reads yet, older rows aside, serve the same newest version. */
  lemma NewestKept(t: Tables, t': Tables)
    requires NewestInv(t)
    requires t'.rows == t.rows && t'.changes == t.changes && t'.built == t.built
    requires forall v :: IsNewest(t', v) ==>
                           && IsNewest(t, v) && v in t.read && v in t'.read && t'.read[v] == t.read[v]
                           && Held(t'.hourRows, v) == Held(t.hourRows, v)
                              && Held(t'.vesselRows, v) == Held(t.vesselRows, v)
    ensures NewestInv(t')
  {
    forall v | IsNewest(t', v)
      ensures HoursWhole(t', v) && VesselsWhole(t', v) && FreshRead(t', v, t'.built)
    {
      assert HoursWhole(t, v) && VesselsWhole(t, v) && FreshRead(t, v, t.built);
    }
  }

  lemma HoursInsertedKeeps(t: Tables, t': Tables, r: Run, h: Hour, now: Stamp)
    requires TablesInv(t, now) && RunInv(t, r, h, now) && r.phase == Versioned && HoursInserted(t, t', r)
    ensures TablesInv(t', now) && RunInv(t', r.(phase := HoursIn), h, now)
  {
    assert r.built !in t.hourRows;
    forall v | IsNewest(t', v)
      ensures IsNewest(t, v) && v != r.built && v in t.read && Held(t'.hourRows, v) == Held(t.hourRows, v)
    {
      assert v in t.versions;
      assert IsNewest(t, v);
      assert HoursWhole(t, v);
    }
    NewestKept(t, t');
  }

  lemma HoursPartKeeps(t: Tables, t': Tables, r: Run, h: Hour, now: Stamp)
    requires TablesInv(t, now) && RunInv(t, r, h, now) && r.phase == Versioned && HoursPartInserted(t, t', r)
    ensures TablesInv(t', now)
  {
    var part :| t' == t.(hourRows := t.hourRows[r.built := Held(t.hourRows, r.built) + part]);
    forall v | IsNewest(t', v)
      ensures IsNewest(t, v) && v != r.built && v in t.read && Held(t'.hourRows, v) == Held(t.hourRows, v)
    {
      assert v in t.versions;
      assert IsNewest(t, v);
      assert HoursWhole(t, v);
    }
    NewestKept(t, t');
  }

  /** While a run fills the vessels of its version, the newest version is another and stays whole. */
  lemma VesselsInsertedNewest(t: Tables, t': Tables, r: Run, h: Hour, now: Stamp)
    requires NewestInv(t) && RunInv(t, r, h, now) && r.phase == HoursIn && r.built in t.read
             && VesselsInserted(t, t', r)
    ensures NewestInv(t')
  {
    forall v | IsNewest(t', v)
      ensures IsNewest(t, v) && v != r.built && v in t.read && v in t'.read && t'.read[v] == t.read[v]
      ensures Held(t'.hourRows, v) == Held(t.hourRows, v) && Held(t'.vesselRows, v) == Held(t.vesselRows, v)
    {
      assert v in t.versions;
      assert IsNewest(t, v);
      assert HoursWhole(t, v);
    }
    NewestKept(t, t');
  }

  /** The run's own version then has both its tables whole. */
  lemma VesselsInsertedRun(t: Tables, t': Tables, r: Run, h: Hour, now: Stamp)
    requires RunInv(t, r, h, now) && r.phase == HoursIn && r.built in t.read && VesselsInserted(t, t', r)
    ensures RunInv(t', r.(phase := VesselsIn), h, now)
  {
    assert r.built !in t.vesselRows;
    var b := Max(t.built, MarkOf(r, h));
    assert Fresh(t, t.read[r.built].hours, b) ==> Fresh(t', t'.read[r.built].hours, b);
  }

  lemma VesselsInsertedKeeps(t: Tables, t': Tables, r: Run, h: Hour, now: Stamp)
    requires TablesInv(t, now) && RunInv(t, r, h, now) && r.phase == HoursIn && r.built in t.read
             && VesselsInserted(t, t', r)
    ensures TablesInv(t', now) && RunInv(t', r.(phase := VesselsIn), h, now)
  {
    VesselsInsertedNewest(t, t', r, h, now);
    VesselsInsertedRun(t, t', r, h, now);
  }

  lemma VesselsPartKeeps(t: Tables, t': Tables, r: Run, h: Hour, now: Stamp)
    requires TablesInv(t, now) && RunInv(t, r, h, now) && r.phase == HoursIn && VesselsPartInserted(t, t', r)
    ensures TablesInv(t', now)
  {
    var part :| t' == t.(vesselRows := t.vesselRows[r.built := Held(t.vesselRows, r.built) + part]);
    forall v | IsNewest(t', v)
      ensures IsNewest(t, v) && v != r.built && v in t.read
    {
      assert v in t.versions;
      assert IsNewest(t, v);
      assert HoursWhole(t, v);
    }
    NewestKept(t, t');
  }

  lemma RecordKeeps(t: Tables, t': Tables, r: Run, h: Hour, now: Stamp)
    requires TablesInv(t, now) && RunInv(t, r, h, now) && r.phase == VesselsIn
    requires t' == t.(versions := t.versions + {r.built})
    ensures TablesInv(t', now) && RunInv(t', r.(phase := Recorded), h, now)
  {
    var b := Max(t.built, MarkOf(r, h));
    assert Fresh(t, t.read[r.built].hours, b) ==> Fresh(t', t.read[r.built].hours, t.built);
    assert IsNewest(t', r.built);
    assert forall v :: IsNewest(t', v) ==> v == r.built;
  }

  lemma DeleteKeeps(t: Tables, t': Tables, r: Run, h: Hour, now: Stamp)
    requires TablesInv(t, now) && RunInv(t, r, h, now) && r.phase == Recorded && OlderDeleted(t, t', r.built)
    ensures TablesInv(t', now) && RunInv(t', r, h, now)
  {
    assert IsNewest(t', r.built);
    assert forall v :: IsNewest(t', v) ==> v == r.built;
    NewestKept(t, t');
  }

  lemma BuiltKeeps(t: Tables, t': Tables, r: Run, h: Hour, now: Stamp)
    requires TablesInv(t, now) && RunInv(t, r, h, now) && r.phase == Cleaned
    requires t' == t.(built := Max(t.built, MarkOf(r, h)))
    ensures TablesInv(t', now)
  {
    assert IsNewest(t, r.built);
    assert forall v :: IsNewest(t', v) ==> v == r.built;
    assert FreshRead(t', r.built, t'.built);
  }

  lemma FillStepKeeps(a: Action, s: State, s': State, h: Hour)
    requires Inv(s) && Step(a, s, s')
    requires a.InsertHours? || a.InsertHoursPart? || a.InsertVessels? || a.InsertVesselsPart?
    requires h in s.runs[a.day].hours
    ensures HourInv(s', h)
  {
    var t, t', r := s.tables(h), s'.tables(h), s.runs[a.day];
    assert HourInv(s, h) && Binning(s, h);
    match a
    case InsertHours(_) => HoursInsertedKeeps(t, t', r, h, s.now);
    case InsertHoursPart(_) => HoursPartKeeps(t, t', r, h, s.now);
    case InsertVessels(_) => VesselsInsertedKeeps(t, t', r, h, s.now);
    case InsertVesselsPart(_) => VesselsPartKeeps(t, t', r, h, s.now);
  }

  lemma RecordStepKeeps(a: Action, s: State, s': State, h: Hour)
    requires Inv(s) && Step(a, s, s')
    requires a.RecordVersions? || a.RecordSome? || a.DeleteOlder? || a.FinishDeletes? || a.RecordBuilt? || a.Unlock?
    requires h in s.runs[a.day].hours
    ensures HourInv(s', h)
  {
    var t, t', r := s.tables(h), s'.tables(h), s.runs[a.day];
    assert HourInv(s, h) && Binning(s, h);
    match a
    case RecordVersions(_) => RecordKeeps(t, t', r, h, s.now);
    case RecordSome(_) => if t' != t { RecordKeeps(t, t', r, h, s.now); }
    case DeleteOlder(_) => DeleteKeeps(t, t', r, h, s.now);
    case RecordBuilt(_, some) => if h in some { BuiltKeeps(t, t', r, h, s.now); }
    case _ =>
  }

  lemma RunStepKeeps(a: Action, s: State, s': State, h: Hour)
    requires Inv(s) && Step(a, s, s') && a.OfRun()
    ensures HourInv(s', h)
  {
    assert HourInv(s, h);
    if h in s.runs[a.day].hours {
      if a.InsertHours? || a.InsertHoursPart? || a.InsertVessels? || a.InsertVesselsPart? {
        FillStepKeeps(a, s, s', h);
      } else {
        RecordStepKeeps(a, s, s', h);
      }
    }
  }

  lemma LocksKept(a: Action, s: State, s': State)
    requires Inv(s) && Step(a, s, s')
    ensures LocksInv(s')
  {
  }

  lemma ChangeStepKeeps(a: Action, s: State, s': State, h: Hour)
    requires Inv(s) && Step(a, s, s')
    requires a.Begin? || a.Land? || a.Mark? || a.Show? || a.Query?
    ensures HourInv(s', h)
  {
    assert HourInv(s, h);
    if h == a.h {
      if a.Land? {
        LandKeeps(s, s', h, a.id);
      } else {
        BookkeepingKeeps(s, s', h);
      }
    }
  }

  lemma TickKeeps(to: Stamp, s: State, s': State, h: Hour)
    requires Inv(s) && Step(Tick(to), s, s')
    ensures HourInv(s', h)
  {
    assert HourInv(s, h);
    BookkeepingKeeps(s, s', h);
  }

  lemma StepKeeps(a: Action, s: State, s': State)
    requires Inv(s) && Step(a, s, s')
    ensures Inv(s')
  {
    LocksKept(a, s, s');
    forall h
      ensures HourInv(s', h)
    {
      assert HourInv(s, h);
      if a.Tick? {
        TickKeeps(a.to, s, s', h);
      } else if a.OfRun() {
        RunStepKeeps(a, s, s', h);
      } else if !a.TakeVersion? && !a.Restart? {
        ChangeStepKeeps(a, s, s', h);
      }
    }
  }

  lemma BehaviourInv(b: seq<State>, k: nat)
    requires Behaviour(b) && k < |b|
    ensures Inv(b[k])
  {
    if k > 0 {
      BehaviourInv(b, k - 1);
      assert NextAt(b, k - 1);
      var a :| Step(a, b[k - 1], b[k]);
      StepKeeps(a, b[k - 1], b[k]);
    }
  }

  // ---- what the protocol promises ----

  /** An hour whose series says something else than its receptions is marked again, or a change to it has its
      marker still to come, in every state any interleaving reaches. */
  lemma StaleHoursAreMarked(b: seq<State>, k: nat, h: Hour, v: Version)
    requires Behaviour(b) && k < |b|
    requires IsNewest(b[k].tables(h), v) && Differs(b[k].tables(h), v)
    ensures Marked(b[k].tables(h)) || Owing(b[k].tables(h))
  {
    BehaviourInv(b, k);
    var t := b[k].tables(h);
    assert HourInv(b[k], h);
    assert HoursWhole(t, v) && VesselsWhole(t, v) && FreshRead(t, v, t.built);
    var c :| c in t.changes && t.changes[c].landed && (t.changes[c].stamp == 0 || t.changes[c].stamp > t.built);
    if t.changes[c].shown {
      assert t.changes[c].stamp in t.markers;
    }
  }

  ghost predicate ReadAgain(t: Tables, t': Tables, v: Version) {
    v in t'.read ==>
      if v in t.read
      then
        && (t'.read[v].hours == t.read[v].hours || t'.read[v].hours == t.rows)
        && (t'.read[v].vessels == t.read[v].vessels || t'.read[v].vessels == t.rows || t'.read[v].vessels == [])
      else t'.read[v].hours == t.rows && t'.read[v].vessels == []
  }

  /** A step that changes what a version read reads the hour as it stands. */
  lemma ReadStep(a: Action, s: State, s': State, h: Hour, v: Version)
    requires Step(a, s, s')
    ensures ReadAgain(s.tables(h), s'.tables(h), v)
  {
    if a.OfRun() && h in s.runs[a.day].hours {
      match a
      case InsertHoursPart(_) =>
        var part: multiset<HourRow> :| s'.tables(h) ==
          s.tables(h).(hourRows := s.tables(h).hourRows[s.runs[a.day].built :=
            Held(s.tables(h).hourRows, s.runs[a.day].built) + part]);
      case InsertVesselsPart(_) =>
        var part: multiset<VesselRow> :| s'.tables(h) ==
          s.tables(h).(vesselRows := s.tables(h).vesselRows[s.runs[a.day].built :=
            Held(s.tables(h).vesselRows, s.runs[a.day].built) + part]);
      case _ =>
    }
  }

  /** The hour held exactly these receptions in some state up to the k-th. */
  ghost predicate Once(b: seq<State>, k: nat, h: Hour, rows: seq<Reception>)
    requires k < |b|
  {
    exists j :: 0 <= j <= k && rows == b[j].tables(h).rows
  }

  lemma ReadNext(b: seq<State>, k: nat, h: Hour, v: Version)
    requires Behaviour(b) && 0 < k < |b|
    ensures ReadAgain(b[k - 1].tables(h), b[k].tables(h), v)
  {
    assert NextAt(b, k - 1);
    var a :| Step(a, b[k - 1], b[k]);
    ReadStep(a, b[k - 1], b[k], h, v);
  }

  lemma OnceStill(b: seq<State>, k: nat, h: Hour, rows: seq<Reception>)
    requires 0 < k < |b|
    ensures Once(b, k - 1, h, rows) ==> Once(b, k, h, rows)
  {
  }

  lemma PastNext(b: seq<State>, k: nat, h: Hour, v: Version)
    requires 0 < k < |b| && v in b[k].tables(h).read && ReadAgain(b[k - 1].tables(h), b[k].tables(h), v)
    requires v in b[k - 1].tables(h).read ==>
               var r := b[k - 1].tables(h).read[v];
               Once(b, k - 1, h, r.hours) && (r.vessels == [] || Once(b, k - 1, h, r.vessels))
    ensures Once(b, k, h, b[k].tables(h).read[v].hours)
    ensures b[k].tables(h).read[v].vessels == [] || Once(b, k, h, b[k].tables(h).read[v].vessels)
  {
    assert Once(b, k, h, b[k - 1].tables(h).rows);
    if v in b[k - 1].tables(h).read {
      OnceStill(b, k, h, b[k - 1].tables(h).read[v].hours);
      OnceStill(b, k, h, b[k - 1].tables(h).read[v].vessels);
    }
  }

  /** What a binning read for a version is what the hour held in some earlier state. */
  lemma ReadsArePast(b: seq<State>, k: nat, h: Hour, v: Version)
    requires Behaviour(b) && k < |b| && v in b[k].tables(h).read
    ensures Once(b, k, h, b[k].tables(h).read[v].hours)
    ensures b[k].tables(h).read[v].vessels == [] || Once(b, k, h, b[k].tables(h).read[v].vessels)
    decreases k
  {
    if k > 0 {
      ReadNext(b, k, h, v);
      if v in b[k - 1].tables(h).read {
        ReadsArePast(b, k - 1, h, v);
      }
      PastNext(b, k, h, v);
    }
  }

  /** A read by newest recorded version sees, in each table, the rows of one binning and every one of them once:
      the aggregate of the hour's receptions as they stood in one earlier state. */
  lemma ReadsSeeOneWholeVersion(b: seq<State>, k: nat, h: Hour, v: Version)
    requires Behaviour(b) && k < |b| && IsNewest(b[k].tables(h), v)
    ensures exists rows :: Once(b, k, h, rows) && Held(b[k].tables(h).hourRows, v) == multiset(HourRows(rows))
    ensures v in b[k].tables(h).read
    ensures if b[k].tables(h).read[v].keep
            then exists rows :: Once(b, k, h, rows) && Held(b[k].tables(h).vesselRows, v) == multiset(VesselRows(rows))
            else Held(b[k].tables(h).vesselRows, v) == multiset{}
  {
    BehaviourInv(b, k);
    var t := b[k].tables(h);
    assert HourInv(b[k], h);
    assert HoursWhole(t, v) && VesselsWhole(t, v);
    ReadsArePast(b, k, h, v);
    if t.read[v].vessels == [] {
      assert b[0].tables(h).rows == [] && Once(b, k, h, []);
    }
  }

  /** One step drops a recorded version only for a newer one, and adds one only above all the others. */
  lemma VersionsStep(a: Action, s: State, s': State, h: Hour)
    requires Inv(s) && Step(a, s, s')
    ensures forall v :: v in s.tables(h).versions && v !in s'.tables(h).versions ==>
                          exists u :: u in s'.tables(h).versions && u > v
    ensures forall v :: v in s'.tables(h).versions && v !in s.tables(h).versions ==>
                          && (forall u :: u in s.tables(h).versions ==> u < v)
                          && (forall u :: u in s.tables(h).hourRows || u in s.tables(h).vesselRows ==> u <= v)
  {
    assert HourInv(s, h);
    if a.OfRun() && h in s.runs[a.day].hours {
      assert Binning(s, h);
      var t, t', r := s.tables(h), s'.tables(h), s.runs[a.day];
      match a
      case DeleteOlder(_) => assert r.built in t'.versions;
      case InsertHoursPart(_) =>
        var part :| t' == t.(hourRows := t.hourRows[r.built := Held(t.hourRows, r.built) + part]);
      case InsertVesselsPart(_) =>
        var part :| t' == t.(vesselRows := t.vesselRows[r.built := Held(t.vesselRows, r.built) + part]);
      case _ =>
    }
  }

  /** Once a version is recorded the hour always has one, and the newest never gets older. */
  lemma RecordedStays(b: seq<State>, j: nat, k: nat, h: Hour, v: Version)
    requires Behaviour(b) && j <= k < |b| && v in b[j].tables(h).versions
    ensures exists u :: u in b[k].tables(h).versions && u >= v
    decreases k - j
  {
    if j < k {
      BehaviourInv(b, j);
      assert NextAt(b, j);
      var a :| Step(a, b[j], b[j + 1]);
      VersionsStep(a, b[j], b[j + 1], h);
      var u :| u in b[j + 1].tables(h).versions && u >= v;
      RecordedStays(b, j + 1, k, h, u);
    }
  }

  /** A recorded version is above every version the hour ever recorded before, and no row a failed binning left
      is above it, whatever the clock did and however often the process restarted. */
  lemma RecordedOutranks(b: seq<State>, k: nat, h: Hour, v: Version)
    requires Behaviour(b) && k + 1 < |b|
    requires v in b[k + 1].tables(h).versions && v !in b[k].tables(h).versions
    ensures forall j, u :: 0 <= j <= k && u in b[j].tables(h).versions ==> u < v
    ensures forall u :: u in b[k].tables(h).hourRows || u in b[k].tables(h).vesselRows ==> u <= v
  {
    assert NextAt(b, k);
    var a :| Step(a, b[k], b[k + 1]);
    BehaviourInv(b, k);
    VersionsStep(a, b[k], b[k + 1], h);
    forall j, u | 0 <= j <= k && u in b[j].tables(h).versions
      ensures u < v
    {
      RecordedStays(b, j, k, h, u);
    }
  }

  /** Why markHours waits for the delete: had the marker been written, settled, and taken in first, the delete
      would leave the series stale with nothing to rebuild it. */
  lemma MarkingFirstLosesTheHour(t: Tables, t': Tables, id: nat, v: Version)
    requires Landed(t, t', id) && t.changes[id].shown
    requires !Marked(t) && !Owing(t)
    requires IsNewest(t, v) && Held(t.hourRows, v) == multiset(HourRows(t.rows))
             && HourRows(t'.rows) != HourRows(t.rows)
    ensures IsNewest(t', v) && Differs(t', v) && !Marked(t') && !Owing(t')
  {
    assert forall c :: c in t'.changes && c != id ==> t'.changes[c] == t.changes[c];
    var x :| (x in HourRows(t.rows)) != (x in HourRows(t'.rows));
    assert multiset(HourRows(t.rows))[x] != multiset(HourRows(t'.rows))[x];
  }
}
