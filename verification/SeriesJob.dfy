/** The rebuilding code itself, statement by statement, each one a step of the protocol (server/stationseries.go). */
module SeriesJob {
  import opened SeriesTables
  import opened SeriesProtocol

  /** Where a binning stops: nowhere, or at the statement that fails, and what that statement did before failing. */
  datatype Outcome =
    | Whole
    | FailsFirst                               // before the first insert
    | FailsInHours(hourRows: set<HourRow>)
    | FailsInVessels(vesselRows: set<VesselRow>)
    | FailsInRecord(recorded: set<Hour>)
    | FailsInDeletes(done: nat)                // how many of the three deletes finished
    | FailsInBuilt(recorded: set<Hour>)

  ghost predicate Path(p: seq<State>) {
    |p| > 0 && forall k :: 0 <= k < |p| - 1 ==> Next(p[k], p[k + 1])
  }

  /** Steps of the protocol lead from s to s'. */
  ghost predicate Leads(s: State, s': State) {
    exists p: seq<State> :: Path(p) && p[0] == s && p[|p| - 1] == s'
  }

  lemma LeadsHere(s: State)
    ensures Leads(s, s)
  {
    assert Path([s]) && [s][0] == s && [s][|[s]| - 1] == s;
  }

  lemma LeadsOn(s: State, m: State, a: Action, s': State)
    requires Leads(s, m) && Step(a, m, s')
    ensures Leads(s, s')
  {
    var p: seq<State> :| Path(p) && p[0] == s && p[|p| - 1] == m;
    var q := p + [s'];
    assert Path(q) by {
      forall k | 0 <= k < |q| - 1
        ensures Next(q[k], q[k + 1])
      {
        if k < |p| - 1 {
          assert Next(p[k], p[k + 1]);
        }
      }
    }
    assert q[0] == s && q[|q| - 1] == s';
  }

  lemma LeadsAll(s: State, m: State, s': State)
    requires Leads(s, m) && Leads(m, s')
    ensures Leads(s, s')
  {
    var p: seq<State> :| Path(p) && p[0] == s && p[|p| - 1] == m;
    var q: seq<State> :| Path(q) && q[0] == m && q[|q| - 1] == s';
    var r := p + q[1..];
    assert Path(r) by {
      forall k | 0 <= k < |r| - 1
        ensures Next(r[k], r[k + 1])
      {
        if k < |p| - 1 {
          assert Next(p[k], p[k + 1]);
        } else {
          var j := k - (|p| - 1);
          assert r[k] == q[j] && r[k + 1] == q[j + 1];
          assert Next(q[j], q[j + 1]);
        }
      }
    }
    assert r[0] == s && r[|r| - 1] == s';
  }

  lemma PathInv(p: seq<State>)
    requires Path(p) && Inv(p[0])
    ensures Inv(p[|p| - 1])
    decreases |p|
  {
    if |p| > 1 {
      var q := p[..|p| - 1];
      assert Path(q) by {
        forall k | 0 <= k < |q| - 1 ensures Next(q[k], q[k + 1]) { assert Next(p[k], p[k + 1]); }
      }
      PathInv(q);
      var k := |p| - 2;
      assert Next(p[k], p[k + 1]);
      var a :| Step(a, p[k], p[k + 1]);
      StepKeeps(a, p[k], p[k + 1]);
    }
  }

  lemma LeadsInv(s: State, s': State)
    requires Leads(s, s') && Inv(s)
    ensures Inv(s')
  {
    var p: seq<State> :| Path(p) && p[0] == s && p[|p| - 1] == s';
    PathInv(p);
  }

  /** The first hour of the run of consecutive hours h belongs to. */
  function RunStart(hours: set<Hour>, h: Hour): (first: Hour)
    ensures first <= h
  {
    if h == 0 then h else var g: Hour := h - 1; if g in hours then RunStart(hours, g) else h
  }

  lemma RunStartIs(hours: set<Hour>, first: Hour, h: Hour)
    requires first <= h && (forall g: Hour :: first <= g <= h ==> g in hours)
    requires first > 0 ==> var g: Hour := first - 1; g !in hours
    ensures RunStart(hours, h) == first
    decreases h - first
  {
  }

  /** The last hour of that run. */
  function RunStop(hours: set<Hour>, h: Hour): (last: Hour)
    requires h in hours
    ensures last >= h
    decreases hours
  {
    if h + 1 in hours then RunStop(hours - {h}, h + 1) else h
  }

  lemma {:induction false} RunStopIs(hours: set<Hour>, h: Hour, last: Hour)
    requires h <= last && (forall g: Hour :: h <= g <= last ==> g in hours) && last + 1 !in hours
    ensures RunStop(hours, h) == last
    decreases last - h
  {
    if h < last {
      RunStopIs(hours - {h}, h + 1, last);
    }
  }

  /** station_vessels keeps its hours this long, in milliseconds. */
  const VESSELS_KEPT: nat := 35 * 24 * 3_600_000

  function With(s: State, hours: set<Hour>, f: Tables -> Tables): State {
    s.(tables := (h: Hour) => if h in hours then f(s.tables(h)) else s.tables(h))
  }

  function HoursFilled(t: Tables, r: Run): Tables {
    t.(hourRows := t.hourRows[r.built := Held(t.hourRows, r.built) + multiset(HourRows(t.rows))],
       read := t.read[r.built := Read(t.rows, [], r.keep)])
  }

  function HoursPartFilled(t: Tables, r: Run, landed: set<HourRow>): Tables {
    t.(hourRows := t.hourRows[r.built := Held(t.hourRows, r.built) + multiset(HourRows(t.rows) * landed)])
  }

  function VesselsFilled(t: Tables, r: Run): Tables
  {
    var was := if r.built in t.read then t.read[r.built] else Read([], [], r.keep);
    var read := t.read[r.built := was.(vessels := t.rows)];
    if r.keep then t.(vesselRows := t.vesselRows[r.built :=
      Held(t.vesselRows, r.built) + multiset(VesselRows(t.rows))], read := read)
    else t.(read := read)
  }

  function VesselsPartFilled(t: Tables, r: Run, landed: set<VesselRow>): Tables {
    t.(vesselRows := t.vesselRows[r.built := Held(t.vesselRows, r.built) + multiset(VesselRows(t.rows) * landed)])
  }

  /** The tables once the first n of the three deletes of versions before v are done. */
  function Trimmed(t: Tables, v: Version, n: nat): Tables {
    t.(hourRows := if n >= 1 then map u | u in t.hourRows && u >= v :: t.hourRows[u] else t.hourRows,
       vesselRows := if n >= 2 then map u | u in t.vesselRows && u >= v :: t.vesselRows[u] else t.vesselRows,
       versions := if n >= 3 then set u | u in t.versions && u >= v else t.versions)
  }

  function At(s: State, day: nat, phase: Phase): State
    requires day in s.runs
  {
    s.(runs := s.runs[day := s.runs[day].(phase := phase)])
  }

  function Released(s: State, day: nat): State { s.(runs := s.runs - {day}) }

  /** The tables after each statement that succeeds in turn: both inserts, the record, and the deletes. */
  function Recording(t: Tables, v: Version): Tables { t.(versions := t.versions + {v}) }

  /** One hour's tables once the inserts are done, or stopped where the outcome says. */
  function Filled(t: Tables, r: Run, outcome: Outcome): Tables {
    match outcome
    case FailsInHours(rows) => HoursPartFilled(t, r, rows)
    case FailsInVessels(rows) => VesselsPartFilled(HoursFilled(t, r), r, rows)
    case _ => VesselsFilled(HoursFilled(t, r), r)
  }

  /** And once the version is recorded and the older ones deleted, or stopped where the outcome says. */
  function Finished(t: Tables, r: Run, h: Hour, outcome: Outcome): Tables {
    match outcome
    case FailsInRecord(hours) => if h in hours then Recording(t, r.built) else t
    case FailsInDeletes(done) => Trimmed(Recording(t, r.built), r.built, done)
    case _ => Trimmed(Recording(t, r.built), r.built, 3)
  }

  lemma InsertHoursIsStep(s: State, s': State, day: nat)
    requires InPhase(s, day, Versioned)
    requires Moved(s, s', day, HoursIn)
    requires forall h :: s'.tables(h) == if h in s.runs[day].hours then HoursFilled(s.tables(h), s.runs[day])
             else s.tables(h)
    ensures Step(InsertHours(day), s, s')
  {
  }

  lemma InsertHoursPartIsStep(s: State, s': State, day: nat, rows: set<HourRow>)
    requires InPhase(s, day, Versioned)
    requires Ended(s, s', day)
    requires forall h :: s'.tables(h) == if h in s.runs[day].hours
             then HoursPartFilled(s.tables(h), s.runs[day], rows) else s.tables(h)
    ensures Step(InsertHoursPart(day), s, s')
  {
  }

  lemma InsertVesselsIsStep(s: State, s': State, day: nat)
    requires InPhase(s, day, HoursIn) && forall h :: h in s.runs[day].hours ==> s.runs[day].built in s.tables(h).read
    requires Moved(s, s', day, VesselsIn)
    requires forall h :: s'.tables(h) == if h in s.runs[day].hours then VesselsFilled(s.tables(h), s.runs[day])
             else s.tables(h)
    ensures Step(InsertVessels(day), s, s')
  {
  }

  lemma InsertVesselsPartIsStep(s: State, s': State, day: nat, rows: set<VesselRow>)
    requires InPhase(s, day, HoursIn)
    requires Ended(s, s', day)
    requires forall h :: s'.tables(h) == if h in s.runs[day].hours
             then VesselsPartFilled(s.tables(h), s.runs[day], rows) else s.tables(h)
    ensures Step(InsertVesselsPart(day), s, s')
  {
  }

  lemma TrimmedIsDelete(t: Tables, v: Version, n: nat)
    ensures OlderDeleted(t, Trimmed(t, v, n), v)
    ensures n >= 1 ==> forall u: Version :: u < v ==> Held(Trimmed(t, v, n).hourRows, u) == multiset{}
    ensures n >= 2 ==> forall u: Version :: u < v ==> Held(Trimmed(t, v, n).vesselRows, u) == multiset{}
    ensures n < 1 ==> Trimmed(t, v, n).hourRows == t.hourRows
    ensures n < 2 ==> Trimmed(t, v, n).vesselRows == t.vesselRows
    ensures n < 3 ==> Trimmed(t, v, n).versions == t.versions
  {
  }

  lemma DeleteIsStep(s: State, s': State, day: nat, deletes: nat)
    requires InPhase(s, day, Recorded)
    requires Moved(s, s', day, Recorded)
    requires forall h :: s'.tables(h) == if h in s.runs[day].hours
             then Trimmed(s.tables(h), s.runs[day].built, deletes) else s.tables(h)
    ensures Step(DeleteOlder(day), s, s')
  {
    forall h | h in s.runs[day].hours
      ensures OlderDeleted(s.tables(h), s'.tables(h), s.runs[day].built)
    {
      TrimmedIsDelete(s.tables(h), s.runs[day].built, deletes);
    }
  }

  lemma RecordIsStep(s: State, s': State, day: nat)
    requires InPhase(s, day, VesselsIn) && Moved(s, s', day, Recorded)
    requires forall h :: s'.tables(h) == if h in s.runs[day].hours then Recording(s.tables(h), s.runs[day].built)
             else s.tables(h)
    ensures Step(RecordVersions(day), s, s')
  {
  }

  lemma RecordSomeIsStep(s: State, s': State, day: nat, some: set<Hour>)
    requires InPhase(s, day, VesselsIn) && Ended(s, s', day)
    requires forall h :: s'.tables(h) == if h in s.runs[day].hours * some
             then Recording(s.tables(h), s.runs[day].built) else s.tables(h)
    ensures Step(RecordSome(day), s, s')
  {
  }

  lemma FinishIsStep(r: Run, b: State, s: State, s': State, day: nat)
    requires InPhase(s, day, Recorded) && Moved(s, s', day, Cleaned) && Untouched(s, s')
             && s.runs[day].built == r.built && s.runs[day].hours == r.hours
    requires forall h :: h in r.hours ==> s.tables(h) == Trimmed(b.tables(h), r.built, 3)
    requires forall h, u :: h in r.hours && u in b.tables(h).versions ==> u <= r.built
    ensures Step(FinishDeletes(day), s, s')
  {
  }

  /** One hour's tables after a binning with this outcome. */
  function BinnedBy(t: Tables, r: Run, h: Hour, outcome: Outcome): Tables {
    match outcome
    case FailsFirst => t
    case FailsInHours(_) => Filled(t, r, outcome)
    case FailsInVessels(_) => Filled(t, r, outcome)
    case _ => Finished(Filled(t, r, outcome), r, h, outcome)
  }

  /** Only rows and what was read for them differ. */
  ghost predicate Unread(t: Tables, f: Tables) {
    && f.rows == t.rows && f.changes == t.changes && f.markers == t.markers && f.queried == t.queried
    && f.built == t.built && f.versions == t.versions
  }

  /** Both inserts whole: the new version's rows are the aggregates, and nothing else has changed. */
  lemma FilledWhole(t: Tables, r: Run)
    requires Above(t, r.built)
    ensures var f := VesselsFilled(HoursFilled(t, r), r);
            && Held(f.hourRows, r.built) == multiset(HourRows(t.rows))
            && Held(f.vesselRows, r.built) == (if r.keep then multiset(VesselRows(t.rows)) else multiset{})
            && Unread(t, f)
  {
    assert Held(t.hourRows, r.built) == multiset{} && Held(t.vesselRows, r.built) == multiset{};
  }

  /** A version recorded above the others is the newest, and any of the deletes leave its rows. */
  lemma RecordedServes(f: Tables, v: Version, n: nat)
    requires forall u :: u in f.versions ==> u < v
    ensures var t' := Trimmed(Recording(f, v), v, n);
            && IsNewest(t', v) && (n >= 3 ==> t'.versions == {v})
            && Held(t'.hourRows, v) == Held(f.hourRows, v) && Held(t'.vesselRows, v) == Held(f.vesselRows, v)
            && t'.rows == f.rows && t'.changes == f.changes && t'.markers == f.markers && t'.queried == f.queried
            && t'.built == f.built
  {
  }

  /** The version of this hour was recorded before the run stopped. */
  predicate Reached(outcome: Outcome, h: Hour) {
    outcome.Whole? || outcome.FailsInBuilt? || outcome.FailsInDeletes?
      || (outcome.FailsInRecord? && h in outcome.recorded)
  }

  /** Wherever a binning stops, the hour's receptions, markers and built record are as they were. */
  ghost predicate Bystanding(t: Tables, t': Tables) {
    && t'.rows == t.rows && t'.changes == t.changes && t'.markers == t.markers && t'.queried == t.queried
    && t'.built == t.built
  }

  /** Reads see this version, not there before, with every row of the hour's receptions once. */
  ghost predicate ServesTheNew(t: Tables, t': Tables, v: Version, keep: bool) {
    && IsNewest(t', v) && v !in t.versions
    && Held(t'.hourRows, v) == multiset(HourRows(t.rows))
    && Held(t'.vesselRows, v) == if keep then multiset(VesselRows(t.rows)) else multiset{}
  }

  /** Every recorded version and its rows are as they were. */
  ghost predicate ServesTheOld(t: Tables, t': Tables) {
    && t'.versions == t.versions
    && forall v :: v in t.versions ==>
                     Held(t'.hourRows, v) == Held(t.hourRows, v) && Held(t'.vesselRows, v) == Held(t.vesselRows, v)
  }

  /** One that stops once its version is recorded serves that version, whole in both tables, whatever older rows are
      left; one that succeeds leaves no other version. */
  lemma BinnedServesTheNew(t: Tables, r: Run, h: Hour, outcome: Outcome)
    requires Above(t, r.built) && Reached(outcome, h)
    ensures var t' := BinnedBy(t, r, h, outcome);
            && ServesTheNew(t, t', r.built, r.keep) && Bystanding(t, t')
            && (outcome.Whole? || outcome.FailsInBuilt? ==> t'.versions == {r.built})
  {
    var f := VesselsFilled(HoursFilled(t, r), r);
    var n := if outcome.FailsInRecord? then 0 else if outcome.FailsInDeletes? then outcome.done else 3;
    FilledWhole(t, r);
    RecordedServes(f, r.built, n);
    assert Trimmed(Recording(f, r.built), r.built, 0) == Recording(f, r.built);
    assert BinnedBy(t, r, h, outcome) == Trimmed(Recording(f, r.built), r.built, n);
  }

  /** One that fails before leaves every recorded version and its rows as they were. */
  lemma FailedBinningServesTheOld(t: Tables, r: Run, h: Hour, outcome: Outcome)
    requires Above(t, r.built) && !Reached(outcome, h)
    ensures var t' := BinnedBy(t, r, h, outcome);
            ServesTheOld(t, t') && Bystanding(t, t')
  {
    match outcome
    case FailsInHours(rows) =>
    case FailsInVessels(rows) => assert Bystanding(t, HoursFilled(t, r));
    case FailsInRecord(hours) => FilledWhole(t, r);
    case FailsFirst =>
  }

  /** One hour's tables after its run of hours was binned as version v, and its marker taken in. */
  function RebuiltAs(t: Tables, v: Version, keep: bool, h: Hour, mark: Stamp, outcome: Outcome): Tables {
    var b := BinnedBy(t, Run({h}, v, keep, map[h := mark], Versioned), h, outcome);
    if outcome.Whole? || (outcome.FailsInBuilt? && h in outcome.recorded) then b.(built := Max(b.built, mark)) else b
  }

  /** What one hour of a marked day is left with, when its run of hours ended with this outcome: what a binning of a
      version above all it held leaves there. */
  ghost predicate HourRebuilt(t: Tables, t': Tables, keep: bool, h: Hour, mark: Stamp, outcome: Outcome) {
    exists v: Version :: Above(t, v) && t' == RebuiltAs(t, v, keep, h, mark, outcome)
  }

  /** Recording a marker as taken in changes nothing reads see. */
  lemma TakenIn(t: Tables, b: Tables, v: Version, keep: bool, mark: Stamp)
    requires ServesTheNew(t, b, v, keep) && Bystanding(t, b)
    ensures ServesTheNew(t, b.(built := mark), v, keep) && Bystanding(t, b.(built := mark).(built := t.built))
  {
  }

  lemma ReachedReads(t: Tables, v: Version, keep: bool, h: Hour, mark: Stamp, outcome: Outcome)
    requires Above(t, v) && Reached(outcome, h)
    ensures var t' := RebuiltAs(t, v, keep, h, mark, outcome);
            ServesTheNew(t, t', v, keep) && Bystanding(t, t'.(built := t.built))
              && (t'.built == t.built || t'.built == mark)
  {
    var r := Run({h}, v, keep, map[h := mark], Versioned);
    BinnedServesTheNew(t, r, h, outcome);
    TakenIn(t, BinnedBy(t, r, h, outcome), v, keep, Max(t.built, mark));
  }

  lemma UnreachedReads(t: Tables, v: Version, keep: bool, h: Hour, mark: Stamp, outcome: Outcome)
    requires Above(t, v) && !Reached(outcome, h)
    ensures var t' := RebuiltAs(t, v, keep, h, mark, outcome); ServesTheOld(t, t') && Bystanding(t, t')
  {
    FailedBinningServesTheOld(t, Run({h}, v, keep, map[h := mark], Versioned), h, outcome);
  }

  /** Wherever a rebuild stops, reads of the hour are left with the new version, whole in both tables, once it is
      recorded, and with the one they had until then; the marker is taken in only once it is. */
  lemma RebuiltReads(t: Tables, t': Tables, keep: bool, h: Hour, mark: Stamp, outcome: Outcome)
    requires HourRebuilt(t, t', keep, h, mark, outcome)
    ensures if Reached(outcome, h) then exists v :: ServesTheNew(t, t', v, keep) else ServesTheOld(t, t')
    ensures t'.built != t.built ==> Reached(outcome, h) && t'.built == mark
    ensures Bystanding(t, t'.(built := t.built))
  {
    var v: Version :| Above(t, v) && t' == RebuiltAs(t, v, keep, h, mark, outcome);
    if Reached(outcome, h) {
      ReachedReads(t, v, keep, h, mark, outcome);
    } else {
      UnreachedReads(t, v, keep, h, mark, outcome);
    }
  }

  lemma RebuiltHour(t: Tables, t': Tables, r: Run, h: Hour, outcome: Outcome)
    requires Above(t, r.built)
    requires var b := BinnedBy(t, r, h, outcome);
             match outcome
             case Whole => t' == b.(built := Max(b.built, MarkOf(r, h)))
             case FailsInBuilt(some) => t' == if h in some then b.(built := Max(b.built, MarkOf(r, h))) else b
             case _ => t' == b
    ensures HourRebuilt(t, t', r.keep, h, MarkOf(r, h), outcome)
  {
    assert BinnedBy(t, r, h, outcome) ==
           BinnedBy(t, Run({h}, r.built, r.keep, map[h := MarkOf(r, h)], Versioned), h, outcome);
    assert t' == RebuiltAs(t, r.built, r.keep, h, MarkOf(r, h), outcome);
  }

  /** Every hour of a run once it was binned and, where that succeeded, its markers recorded for some hours. */
  lemma RunRebuilt(was: State, binned: State, s: State, r: Run, some: set<Hour>, outcome: Outcome)
    requires some == if outcome.FailsInBuilt? then outcome.recorded else r.hours
    requires forall h :: h in r.hours ==> Above(was.tables(h), r.built)
    requires forall h :: h in r.hours ==> binned.tables(h) == BinnedBy(was.tables(h), r, h, outcome)
    requires forall h :: s.tables(h) == if h in r.hours && h in some && (outcome.Whole? || outcome.FailsInBuilt?)
                                        then binned.tables(h).(built := Max(binned.tables(h).built, MarkOf(r, h)))
                                        else binned.tables(h)
    ensures forall h :: h in r.hours ==> HourRebuilt(was.tables(h), s.tables(h), r.keep, h, MarkOf(r, h), outcome)
  {
    forall h | h in r.hours
      ensures HourRebuilt(was.tables(h), s.tables(h), r.keep, h, MarkOf(r, h), outcome)
    {
      RebuiltHour(was.tables(h), s.tables(h), r, h, outcome);
    }
  }

  /** The first index past the run of consecutive hours that starts at start. */
  method RunEnd(hs: seq<Hour>, start: nat) returns (end: nat)
    requires start < |hs|
    ensures start < end <= |hs|
    ensures forall k :: start <= k < end ==> hs[k] == hs[start] + (k - start)
    ensures end < |hs| ==> hs[end] != hs[end - 1] + 1
  {
    end := start + 1;
    while end < |hs| && hs[end] == hs[end - 1] + 1
      invariant start < end <= |hs|
      invariant forall k :: start <= k < end ==> hs[k] == hs[start] + (k - start)
    {
      end := end + 1;
    }
  }

  ghost predicate Ascending(hs: seq<Hour>) { forall i, j :: 0 <= i < j < |hs| ==> hs[i] < hs[j] }

  /** The hours of a maximal run all start at its first hour. */
  lemma RunsStart(hours: set<Hour>, hs: seq<Hour>, start: nat, end: nat)
    requires Ascending(hs) && (forall h :: h in hs <==> h in hours) && start < end <= |hs|
    requires forall k :: start <= k < end ==> hs[k] == hs[start] + (k - start)
    requires 0 < start ==> hs[start] != hs[start - 1] + 1
    requires end < |hs| ==> hs[end] != hs[end - 1] + 1
    ensures forall k :: start <= k < end ==>
                          && RunStart(hours, hs[k]) == hs[start] && RunStop(hours, hs[k]) == hs[end - 1]
                          && hs[k] !in hs[..start]
  {
    forall i | 0 <= i < |hs|
      ensures hs[i] != hs[end - 1] + 1
    {
      assert i > end ==> hs[i] > hs[end];
    }
    forall k | start <= k < end
      ensures RunStart(hours, hs[k]) == hs[start] && RunStop(hours, hs[k]) == hs[end - 1] && hs[k] !in hs[..start]
    {
      forall g: Hour | hs[k] <= g <= hs[end - 1]
        ensures g in hours
      {
        assert hs[start + (g - hs[start])] == g;
      }
      RunStopIs(hours, hs[k], hs[end - 1]);
      forall g: Hour | hs[start] <= g <= hs[k]
        ensures g in hours
      {
        assert hs[start + (g - hs[start])] == g;
      }
      if hs[start] > 0 {
        var g: Hour := hs[start] - 1;
        forall i | 0 <= i < |hs|
          ensures hs[i] != g
        {
          assert i < start - 1 ==> hs[i] < hs[start - 1];
        }
      }
      RunStartIs(hours, hs[start], hs[k]);
    }
  }

  /** A series version: the clock's, or one past the last taken and the newest the hours hold. */
  method SeriesVersion(last: Version, floor: Version, clock: Version) returns (v: Version)
    ensures v > last && v > floor
    ensures v == clock || (v == Max(last, floor) + 1 && clock <= Max(last, floor))
  {
    v := clock;
    var l := last;
    if floor > l {
      l := floor;
    }
    if !(v > l) {
      v := l + 1;
    }
  }

  /** Some table holds the version for the hour. */
  ghost predicate HoldsVersion(t: Tables, v: Version) { v in t.hourRows || v in t.vesselRows || v in t.versions }

  method MaxOf(vs: set<Version>) returns (m: Version)
    ensures forall v :: v in vs ==> v <= m
    ensures m == 0 || m in vs
  {
    m := 0;
    var left := vs;
    while left != {}
      invariant left <= vs
      invariant forall v :: v in vs && v !in left ==> v <= m
      invariant m == 0 || m in vs
      decreases |left|
    {
      var v :| v in left;
      left := left - {v};
      if v > m {
        m := v;
      }
    }
  }

  /** The hours in order. */
  method SortHours(hours: set<Hour>) returns (hs: seq<Hour>)
    ensures forall h :: h in hs <==> h in hours
    ensures Ascending(hs)
  {
    hs := [];
    var left := hours;
    while left != {}
      invariant left <= hours
      invariant forall h :: h in hs <==> h in hours && h !in left
      invariant forall i, j :: 0 <= i < j < |hs| ==> hs[i] < hs[j]
      invariant forall i, h :: 0 <= i < |hs| && h in left ==> hs[i] < h
      decreases |left|
    {
      var h :| h in left;
      var rest := left - {h};
      while rest != {}
        invariant h in left && rest <= left && h !in rest
        invariant forall g :: g in left && g !in rest ==> h <= g
        decreases |rest|
      {
        var g :| g in rest;
        rest := rest - {g};
        if g < h {
          h := g;
        }
      }
      hs := hs + [h];
      left := left - {h};
    }
  }

  /** A marked hour is rebuilt as the outcome of its run of consecutive marked hours says. */
  ghost predicate RebuiltMarked(t: Tables, t': Tables, marks: map<Hour, Stamp>, now: nat, h: Hour,
          outcomes: Hour -> Outcome)
    requires h in marks
  {
    var keep := (RunStop(marks.Keys, h) + 1) * 3_600_000 >= now - 35 * 24 * 3_600_000;
    HourRebuilt(t, t', keep, h, marks[h], outcomes(RunStart(marks.Keys, h)))
  }

  /** What reads of a marked hour are left with: a new version whole, with its vessels exactly where its run ends
      within 35 days of now, once one is recorded, and until then the versions it had. */
  ghost predicate MarkedReads(t: Tables, t': Tables, marks: map<Hour, Stamp>, now: nat, h: Hour, outcome: Outcome)
    requires h in marks
  {
    if outcome.Whole? || outcome.FailsInBuilt? || outcome.FailsInDeletes?
       || (outcome.FailsInRecord? && h in outcome.recorded)
    then
      exists v ::
        && IsNewest(t', v) && v !in t.versions && Held(t'.hourRows, v) == multiset(HourRows(t.rows))
        && Held(t'.vesselRows, v) == if (RunStop(marks.Keys, h) + 1) * 3_600_000 >= now - 35 * 24 * 3_600_000
                                     then multiset(VesselRows(t.rows)) else multiset{}
    else
      && t'.versions == t.versions && t'.rows == t.rows && t'.built == t.built
      && forall v :: v in t.versions ==>
                       Held(t'.hourRows, v) == Held(t.hourRows, v) && Held(t'.vesselRows, v) == Held(t.vesselRows, v)
  }

  lemma MarkedRead(was: State, s: State, marks: map<Hour, Stamp>, now: nat, outcomes: Hour -> Outcome)
    requires forall h :: h in marks ==> RebuiltMarked(was.tables(h), s.tables(h), marks, now, h, outcomes)
    ensures forall h :: h in marks ==>
              MarkedReads(was.tables(h), s.tables(h), marks, now, h, outcomes(RunStart(marks.Keys, h)))
  {
    forall h | h in marks
      ensures MarkedReads(was.tables(h), s.tables(h), marks, now, h, outcomes(RunStart(marks.Keys, h)))
    {
      var keep := (RunStop(marks.Keys, h) + 1) * 3_600_000 >= now - 35 * 24 * 3_600_000;
      RebuiltReads(was.tables(h), s.tables(h), keep, h, marks[h], outcomes(RunStart(marks.Keys, h)));
    }
  }

  /** The first n of a day's hours are rebuilt, each as its run's outcome says, and nothing else has changed. */
  ghost predicate RebuiltUpTo(was: State, s: State, marks: map<Hour, Stamp>, now: nat, hs: seq<Hour>, n: nat,
        outcomes: Hour -> Outcome)
    requires n <= |hs| && forall h :: h in hs ==> h in marks
  {
    && s.runs == was.runs
    && (forall h :: h !in hs[..n] ==> s.tables(h) == was.tables(h))
    && forall h :: h in hs[..n] ==> RebuiltMarked(was.tables(h), s.tables(h), marks, now, h, outcomes)
  }

  /** The hours from start up to end are one run, and none of them came before. */
  ghost predicate InRun(hours: set<Hour>, hs: seq<Hour>, start: nat, end: nat)
    requires start < end <= |hs|
  {
    forall h :: h in hs[start..end] ==>
                  && h in hours && h !in hs[..start]
                  && RunStart(hours, h) == hs[start] && RunStop(hours, h) == hs[end - 1]
  }

  /** A run of consecutive marked hours rebuilt, on top of the hours before it. */
  lemma RebuiltOneMore(was: State, at: State, s: State, marks: map<Hour, Stamp>, now: nat, hs: seq<Hour>, start: nat,
          end: nat,
        outcomes: Hour -> Outcome)
    requires start < end <= |hs| && forall h :: h in hs ==> h in marks
    requires RebuiltUpTo(was, at, marks, now, hs, start, outcomes) && s.runs == at.runs
    requires InRun(marks.Keys, hs, start, end)
    requires forall h :: h !in hs[start..end] ==> s.tables(h) == at.tables(h)
    requires forall h :: h in hs[start..end] ==>
                           HourRebuilt(at.tables(h), s.tables(h),
                             (hs[end - 1] + 1) * 3_600_000 >= now - 35 * 24 * 3_600_000, h, marks[h],
                             outcomes(hs[start]))
    ensures RebuiltUpTo(was, s, marks, now, hs, end, outcomes)
  {
    assert hs[..end] == hs[..start] + hs[start..end];
    forall h | h in hs[..end]
      ensures RebuiltMarked(was.tables(h), s.tables(h), marks, now, h, outcomes)
    {
      if h in hs[start..end] {
        assert at.tables(h) == was.tables(h);
      }
    }
  }

  lemma RunIs(hours: set<Hour>, hs: seq<Hour>, start: nat, end: nat)
    requires Ascending(hs) && (forall h :: h in hs <==> h in hours) && start < end <= |hs|
    requires forall k :: start <= k < end ==> hs[k] == hs[start] + (k - start)
    requires (0 < start ==> hs[start] != hs[start - 1] + 1) && (end < |hs| ==> hs[end] != hs[end - 1] + 1)
    ensures InRun(hours, hs, start, end)
  {
    RunsStart(hours, hs, start, end);
    forall h | h in hs[start..end]
      ensures h in hours && h !in hs[..start] && RunStart(hours, h) == hs[start] && RunStop(hours, h) == hs[end - 1]
    {
      var k :| start <= k < end && hs[k] == h;
    }
  }

  class StationSeries {
    var s: State

    constructor (s: State)
      ensures this.s == s
    {
      this.s := s;
    }

    /** The newest version any of the three tables holds for the hours, 0 for none. */
    method Floor(hours: set<Hour>) returns (floor: Version)
      ensures forall h, v: Version :: h in hours && v > floor ==> Above(s.tables(h), v)
      ensures floor == 0 || exists h :: h in hours && HoldsVersion(s.tables(h), floor)
    {
      floor := 0;
      var left := hours;
      while left != {}
        invariant left <= hours
        invariant forall h, v: Version :: h in hours && h !in left && v > floor ==> Above(s.tables(h), v)
        invariant floor == 0 || exists h :: h in hours && HoldsVersion(s.tables(h), floor)
        decreases |left|
      {
        var h :| h in left;
        left := left - {h};
        ghost var before := floor;
        var a := MaxOf(s.tables(h).hourRows.Keys);
        var b := MaxOf(s.tables(h).vesselRows.Keys);
        var c := MaxOf(s.tables(h).versions);
        floor := Max(floor, Max(a, Max(b, c)));
        assert floor == 0 || floor == before || HoldsVersion(s.tables(h), floor);
      }
    }

    /** Locks the day and takes the binning's version, above all the hours hold. */
    method TakeRun(day: nat, hours: set<Hour>, keep: bool, marks: map<Hour, Stamp>, clock: Version) returns (v: Version)
      requires Inv(s) && day !in s.runs
      requires forall h :: h in hours ==> DayOf(h) == day
      requires forall h :: h in marks ==> h in hours && marks[h] in s.tables(h).queried
      modifies this
      ensures v > old(s).last && forall h :: h in hours ==> Above(old(s).tables(h), v)
      ensures s == old(s).(last := v, runs := old(s).runs[day := Run(hours, v, keep, marks, Versioned)])
      ensures Leads(old(s), s)
    {
      ghost var was := s;
      var floor := Floor(hours);
      v := SeriesVersion(s.last, floor, clock);
      var run := Run(hours, v, keep, marks, Versioned);
      LeadsHere(was);
      s := s.(last := v, runs := s.runs[day := run]);
      LeadsOn(was, was, TakeVersion(day, run), s);
    }

    /** The INSERT ... SELECT of the hours' rows, whole, or what of it a failure leaves. */
    method FillHours(ghost was: State, day: nat, outcome: Outcome)
      requires InPhase(s, day, Versioned) && Leads(was, s)
      modifies this
      ensures Leads(was, s)
      ensures if outcome.FailsInHours? then Ended(old(s), s, day) else Moved(old(s), s, day, HoursIn)
      ensures var r := old(s).runs[day];
              forall h :: s.tables(h) == if h !in r.hours then old(s).tables(h)
                                         else if outcome.FailsInHours? then HoursPartFilled(old(s).tables(h), r,
                                           outcome.hourRows)
                                         else HoursFilled(old(s).tables(h), r)
    {
      ghost var at := s;
      var r := s.runs[day];
      if outcome.FailsInHours? {
        s := Released(With(s, r.hours, (t: Tables) => HoursPartFilled(t, r, outcome.hourRows)), day);
        InsertHoursPartIsStep(at, s, day, outcome.hourRows);
        LeadsOn(was, at, InsertHoursPart(day), s);
      } else {
        s := At(With(s, r.hours, (t: Tables) => HoursFilled(t, r)), day, HoursIn);
        InsertHoursIsStep(at, s, day);
        LeadsOn(was, at, InsertHours(day), s);
      }
    }

    /** The INSERT ... SELECT of the vessels' rows, whole, or what of it a failure leaves. */
    method FillVessels(ghost was: State, day: nat, outcome: Outcome)
      requires InPhase(s, day, HoursIn) && Leads(was, s)
      requires forall h :: h in s.runs[day].hours ==> s.runs[day].built in s.tables(h).read
      modifies this
      ensures Leads(was, s)
      ensures if outcome.FailsInVessels? then Ended(old(s), s, day) else Moved(old(s), s, day, VesselsIn)
      ensures var r := old(s).runs[day];
              forall h :: s.tables(h) == if h !in r.hours then old(s).tables(h)
                                         else if outcome.FailsInVessels? then VesselsPartFilled(old(s).tables(h), r,
                                           outcome.vesselRows)
                                         else VesselsFilled(old(s).tables(h), r)
    {
      ghost var at := s;
      var r := s.runs[day];
      if outcome.FailsInVessels? {
        s := Released(With(s, r.hours, (t: Tables) => VesselsPartFilled(t, r, outcome.vesselRows)), day);
        InsertVesselsPartIsStep(at, s, day, outcome.vesselRows);
        LeadsOn(was, at, InsertVesselsPart(day), s);
      } else {
        s := At(With(s, r.hours, (t: Tables) => VesselsFilled(t, r)), day, VesselsIn);
        InsertVesselsIsStep(at, s, day);
        LeadsOn(was, at, InsertVessels(day), s);
      }
    }

    /** The two INSERT ... SELECTs. */
    method FillTables(ghost was: State, day: nat, outcome: Outcome) returns (ok: bool)
      requires InPhase(s, day, Versioned) && Leads(was, s)
      modifies this
      ensures Leads(was, s)
      ensures ok <==> !outcome.FailsInHours? && !outcome.FailsInVessels?
      ensures if ok then Moved(old(s), s, day, VesselsIn) else Ended(old(s), s, day)
      ensures var r := old(s).runs[day];
              forall h :: s.tables(h) == if h in r.hours then Filled(old(s).tables(h), r, outcome) else old(s).tables(h)
    {
      FillHours(was, day, outcome);
      if outcome.FailsInHours? {
        return false;
      }
      FillVessels(was, day, outcome);
      ok := !outcome.FailsInVessels?;
    }

    /** The INSERT that records the version for the hours, or, failing, for some of them. */
    method RecordVersion(ghost was: State, day: nat, some: set<Hour>, whole: bool)
      requires InPhase(s, day, VesselsIn) && Leads(was, s)
      requires whole ==> some == s.runs[day].hours
      modifies this
      ensures Leads(was, s)
      ensures if whole then Moved(old(s), s, day, Recorded) else Ended(old(s), s, day)
      ensures var r := old(s).runs[day];
              forall h :: s.tables(h) == if h in r.hours * some then Recording(old(s).tables(h), r.built)
                else old(s).tables(h)
    {
      ghost var at := s;
      var r := s.runs[day];
      s := With(s, r.hours * some, (t: Tables) => Recording(t, r.built));
      if whole {
        s := At(s, day, Recorded);
        RecordIsStep(at, s, day);
        LeadsOn(was, at, RecordVersions(day), s);
      } else {
        s := Released(s, day);
        RecordSomeIsStep(at, s, day, some);
        LeadsOn(was, at, RecordSome(day), s);
      }
    }

    /** The deletes of the versions before the one just recorded, the first n of the three. */
    method DeleteVersionsBefore(ghost was: State, day: nat, n: nat)
      requires InPhase(s, day, Recorded) && Leads(was, s)
      modifies this
      ensures Leads(was, s) && Moved(old(s), s, day, Recorded)
      ensures var r := old(s).runs[day];
              forall h :: s.tables(h) == if h in r.hours then Trimmed(old(s).tables(h), r.built, n)
                else old(s).tables(h)
    {
      ghost var at := s;
      var r := s.runs[day];
      s := At(With(s, r.hours, (t: Tables) => Trimmed(t, r.built, n)), day, Recorded);
      DeleteIsStep(at, s, day, n);
      LeadsOn(was, at, DeleteOlder(day), s);
    }

    /** A failure that changes nothing more unlocks the day. */
    method Unlocks(ghost was: State, day: nat)
      requires day in s.runs && Leads(was, s)
      modifies this
      ensures s == Released(old(s), day) && Leads(was, s)
    {
      ghost var at := s;
      s := Released(s, day);
      LeadsOn(was, at, Unlock(day), s);
    }

    /** The record of the version, and the three deletes of the older ones. */
    method RecordAndTrim(ghost was: State, day: nat, outcome: Outcome) returns (ok: bool)
      requires InPhase(s, day, VesselsIn) && Leads(was, s)
      requires forall h, u :: h in s.runs[day].hours && u in s.tables(h).versions ==> u < s.runs[day].built
      modifies this
      ensures Leads(was, s)
      ensures ok <==> !outcome.FailsInRecord? && !outcome.FailsInDeletes?
      ensures if ok then Moved(old(s), s, day, Cleaned) else Ended(old(s), s, day)
      ensures var r := old(s).runs[day];
              forall h :: s.tables(h) == if h in r.hours then Finished(old(s).tables(h), r, h, outcome)
                else old(s).tables(h)
    {
      ghost var start := s;
      var r := s.runs[day];
      var some := if outcome.FailsInRecord? then outcome.recorded else r.hours;
      RecordVersion(was, day, some, !outcome.FailsInRecord?);
      if outcome.FailsInRecord? {
        return false;
      }
      ghost var recorded := s;
      DeleteVersionsBefore(was, day, if outcome.FailsInDeletes? then outcome.done else 3);
      if outcome.FailsInDeletes? {
        Unlocks(was, day);
        return false;
      }
      ghost var trimmed := s;
      s := At(s, day, Cleaned);
      FinishIsStep(r, recorded, trimmed, s, day);
      LeadsOn(was, trimmed, FinishDeletes(day), s);
      ok := true;
    }

    /** Bins a day's hours again as a new version, and stops at the statement that fails. The hours stay locked
        when it succeeds, for the built record. */
    method BinHours(day: nat, hours: set<Hour>, keep: bool, marks: map<Hour, Stamp>, clock: Version, outcome: Outcome)
      returns (ok: bool, v: Version)
      requires Inv(s) && day !in s.runs
      requires forall h :: h in hours ==> DayOf(h) == day
      requires forall h :: h in marks ==> h in hours && marks[h] in s.tables(h).queried
      modifies this
      ensures Leads(old(s), s)
      ensures ok <==> outcome.Whole? || outcome.FailsInBuilt?
      ensures !ok ==> s.runs == old(s).runs
      ensures s.now == old(s).now && v > old(s).last && s.last == v
      ensures ok ==> s.runs == old(s).runs[day := Run(hours, v, keep, marks, Cleaned)]
      ensures forall h :: h in hours ==> Above(old(s).tables(h), v)
      ensures forall h :: s.tables(h) == if h in hours
              then BinnedBy(old(s).tables(h), Run(hours, v, keep, marks, Versioned), h, outcome)
                                         else old(s).tables(h)
    {
      ghost var was := s;
      v := TakeRun(day, hours, keep, marks, clock);
      if outcome.FailsFirst? {
        Unlocks(was, day);
        return false, v;
      }
      ok := FillTables(was, day, outcome);
      if ok {
        ok := RecordAndTrim(was, day, outcome);
      }
    }

    /** The INSERT that records the markers a rebuild took in, or, failing, some of them. */
    method RecordBuiltMarks(ghost was: State, day: nat, some: set<Hour>)
      requires InPhase(s, day, Cleaned) && Leads(was, s)
      modifies this
      ensures Leads(was, s) && Ended(old(s), s, day)
      ensures var r := old(s).runs[day];
              forall h :: s.tables(h) == if h in r.hours && h in some
                                         then old(s).tables(h).(built := Max(old(s).tables(h).built, MarkOf(r, h)))
                                         else old(s).tables(h)
    {
      ghost var at := s;
      var r := s.runs[day];
      var tables := s.tables;
      s := Released(s, day);
      s := s.(tables := (h: Hour) =>
        if h in r.hours && h in some then tables(h).(built := Max(tables(h).built, MarkOf(r, h))) else tables(h));
      LeadsOn(was, at, RecordBuilt(day, some), s);
    }

    /** One run of consecutive hours: a binning, and then, if it succeeded, the record of its markers. */
    method RebuildRun(day: nat, hours: set<Hour>, keep: bool, marks: map<Hour, Stamp>, clock: Version, outcome: Outcome)
      requires Inv(s) && day !in s.runs && marks.Keys == hours
      requires forall h :: h in hours ==> DayOf(h) == day && marks[h] in s.tables(h).queried
      modifies this
      ensures Leads(old(s), s) && s.runs == old(s).runs && s.now == old(s).now
      ensures forall h :: h !in hours ==> s.tables(h) == old(s).tables(h)
      ensures forall h :: h in hours ==> HourRebuilt(old(s).tables(h), s.tables(h), keep, h, marks[h], outcome)
    {
      ghost var was := s;
      var ok, v := BinHours(day, hours, keep, marks, clock, outcome);
      ghost var run, binned := Run(hours, v, keep, marks, Versioned), s;
      var some := if outcome.FailsInBuilt? then outcome.recorded else hours;
      if ok {
        RecordBuiltMarks(was, day, some);
      }
      RunRebuilt(was, binned, s, run, some, outcome);
    }

    /** One turn of the loop below: the run of consecutive hours that starts at start. */
    method RebuildNext(ghost was: State, day: nat, marks: map<Hour, Stamp>, hs: seq<Hour>, start: nat,
                       now: nat, clock: Version, outcomes: Hour -> Outcome) returns (end: nat)
      requires Ascending(hs) && (forall h :: h in hs <==> h in marks.Keys) && start < |hs|
      requires 0 < start ==> hs[start] != hs[start - 1] + 1
      requires Inv(s) && day !in s.runs
      requires forall h :: h in marks ==> DayOf(h) == day && marks[h] in was.tables(h).queried
      requires RebuiltUpTo(was, s, marks, now, hs, start, outcomes)
      modifies this
      ensures start < end <= |hs| && (end < |hs| ==> hs[end] != hs[end - 1] + 1)
      ensures Leads(old(s), s) && RebuiltUpTo(was, s, marks, now, hs, end, outcomes)
    {
      ghost var at := s;
      end := RunEnd(hs, start);
      RunIs(marks.Keys, hs, start, end);
      var run := map h | h in hs[start..end] :: marks[h];
      var to := (hs[end - 1] + 1) * 3_600_000;
      RebuildRun(day, run.Keys, !(to < now - VESSELS_KEPT), run, clock, outcomes(hs[start]));
      assert forall h :: h in hs[start..end] <==> h in run.Keys;
      RebuiltOneMore(was, at, s, marks, now, hs, start, end, outcomes);
    }

    /** The marked hours of one day, a binning for each stretch of hours without a gap. One that fails does not stop
        those after it. */
    method RebuildMarkedDay(day: nat, marks: map<Hour, Stamp>, now: nat, clock: Version, outcomes: Hour -> Outcome)
      requires Inv(s) && day !in s.runs
      requires forall h :: h in marks ==> DayOf(h) == day && marks[h] in s.tables(h).queried
      modifies this
      ensures Leads(old(s), s) && s.runs == old(s).runs
      ensures forall h :: h !in marks ==> s.tables(h) == old(s).tables(h)
      ensures forall h :: h in marks ==> RebuiltMarked(old(s).tables(h), s.tables(h), marks, now, h, outcomes)
      ensures forall h :: h in marks ==>
                MarkedReads(old(s).tables(h), s.tables(h), marks, now, h, outcomes(RunStart(marks.Keys, h)))
    {
      ghost var was := s;
      LeadsHere(was);
      var hs := SortHours(marks.Keys);
      var start := 0;
      while start < |hs|
        invariant 0 <= start <= |hs|
        invariant Leads(was, s) && RebuiltUpTo(was, s, marks, now, hs, start, outcomes)
        invariant 0 < start < |hs| ==> hs[start] != hs[start - 1] + 1
      {
        LeadsInv(was, s);
        ghost var at := s;
        start := RebuildNext(was, day, marks, hs, start, now, clock, outcomes);
        LeadsAll(was, at, s);
      }
      assert hs[..|hs|] == hs;
      MarkedRead(was, s, marks, now, outcomes);
    }
  }
}
