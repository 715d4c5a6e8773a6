/** One archived hour: the local file, the bucket's object, and everyone who touches either (server/archive.go).
    Hours share nothing but the clock, so each is a machine of its own. A put reads the file's size when its turn
    comes and sends that many bytes; its answer comes later, and an error may hide a put that landed. */
module ArchiveHours {
  type Bytes = seq<bv8>

  /** The age, in nanoseconds, from which a file no one has written since may be deleted. */
  const ARCHIVE_GRACE: nat := 2 * 3600 * 1_000_000_000

  datatype Object = Absent | Stored(bytes: Bytes)

  /** A rotation upload waits for the key's lock, then sends the first n bytes. */
  datatype Upload = Waiting | Sending(n: nat)

  datatype Lock = Free | OfUpload(id: nat) | OfSweep

  datatype Phase = Idle | Statted | Unheld | Short | Locked | Putting(n: nat) | InBucket | Doomed

  /** A sweep of this file: the size and time it found, and the cutoff it started with. */
  datatype Sweep = Sweep(phase: Phase, size: nat, mtime: nat, cutoff: nat)

  datatype State = State(
    hour: nat,         // when the hour starts
    now: nat,
    bytes: Bytes,      // what the file holds, or held when the sweep removed it
    onDisk: bool,
    removed: bool,
    mtime: nat,
    open: bool,        // the writer has it open
    uploads: map<nat, Upload>,
    lock: Lock,
    holds: nat,
    stored: Object,
    sweep: Sweep)

  function Length(o: Object): int {
    match o
    case Absent => -1
    case Stored(b) => |b|
  }

  const NO_SWEEP := Sweep(Idle, 0, 0, 0)

  /** A file a previous process left since the hour began, or none, and an object that is a prefix of it, or none. */
  ghost predicate Initial(s: State) {
    && s.mtime <= s.now && (s.onDisk ==> s.hour <= s.mtime)
    && (!s.onDisk ==> |s.bytes| == 0 && s.stored.Absent?)
    && !s.removed && !s.open
    && s.uploads == map[] && s.lock == Free && s.holds == 0 && s.sweep == NO_SWEEP
    && (s.stored.Stored? ==> s.stored.bytes <= s.bytes)
  }

  datatype Action =
    | Tick(to: nat)
    | Open
    | Write(data: Bytes)
    | Rotate(footer: Bytes, id: nat)
    | Shutdown(footer: Bytes)
    | LockKey(id: nat)
    | BeginPut(id: nat)
    | EndPut(id: nat, landed: bool)
    | Release(id: nat)
    | SweepStat(cutoff: nat)
    | SweepCheckHeld
    | SweepHead
    | SweepLock
    | SweepBeginPut
    | SweepEndPut(landed: bool, ok: bool)
    | SweepJudge
    | SweepRemove
    | SweepGiveUp
    | Crash

  /** Receive time is the server's own clock: an hour is opened for a reception in it, so once it has begun, and not
      the grace or longer after. */
  ghost predicate MayOpen(s: State) {
    !s.open && s.hour <= s.now < s.hour + ARCHIVE_GRACE
  }

  function Recent(w: Sweep): bool { w.mtime > w.cutoff }

  function Opened(s: State): State {
    s.(open := true, onDisk := true, holds := s.holds + 1, mtime := if s.onDisk then s.mtime else s.now)
  }

  function Written(s: State, data: Bytes): State { s.(bytes := s.bytes + data, mtime := s.now) }

  /** The file is finished, and an upload takes over its hold. */
  function Rotated(s: State, footer: Bytes, id: nat): State {
    Written(s, footer).(open := false, uploads := s.uploads[id := Waiting])
  }

  ghost predicate Step(a: Action, s: State, s': State) {
    match a
    case Tick(to) => to >= s.now && s' == s.(now := to)
    case Open => MayOpen(s) && s' == Opened(s)
    case Write(data) => s.open && s' == Written(s, data)
    case Rotate(footer, id) => s.open && id !in s.uploads && s' == Rotated(s, footer, id)
    case Shutdown(footer) =>
      s.open && s.holds > 0 && s' == s.(bytes := s.bytes + footer, mtime := s.now, open := false, holds := s.holds - 1)
    case LockKey(id) =>
      id in s.uploads && s.uploads[id].Waiting? && s.lock.Free? && s' == s.(lock := OfUpload(id))
    case BeginPut(id) =>
      s.lock == OfUpload(id) && id in s.uploads && s.uploads[id].Waiting?
        && s' == s.(uploads := s.uploads[id := Sending(|s.bytes|)])
    case EndPut(id, landed) =>
      && s.lock == OfUpload(id) && id in s.uploads && s.uploads[id].Sending? && s.uploads[id].n <= |s.bytes|
      && s' == s.(lock := Free, stored := if landed then Stored(s.bytes[..s.uploads[id].n]) else s.stored)
    case Release(id) =>
      id in s.uploads && s.uploads[id].Sending? && s.lock != OfUpload(id) && s.holds > 0
      && s' == s.(uploads := s.uploads - {id}, holds := s.holds - 1)
    case SweepStat(cutoff) =>
      && s.sweep.phase.Idle? && s.onDisk && cutoff + ARCHIVE_GRACE <= s.now
      && s' == s.(sweep := Sweep(Statted, |s.bytes|, s.mtime, cutoff))
    case SweepCheckHeld =>
      s.sweep.phase.Statted? && s' == s.(sweep := if s.holds > 0 then NO_SWEEP else s.sweep.(phase := Unheld))
    case SweepHead =>
      && s.sweep.phase.Unheld?
      && s' == s.(sweep := if Length(s.stored) > s.sweep.size then NO_SWEEP
                           else s.sweep.(phase := if Length(s.stored) < s.sweep.size then Short else InBucket))
    case SweepLock => s.sweep.phase.Short? && s.lock.Free?
      && s' == s.(lock := OfSweep, sweep := s.sweep.(phase := Locked))
    case SweepBeginPut => s.sweep.phase.Locked? && s' == s.(sweep := s.sweep.(phase := Putting(|s.bytes|)))
    case SweepEndPut(landed, ok) =>
      && s.sweep.phase.Putting? && s.sweep.phase.n <= |s.bytes| && (ok ==> landed)
      && s' == s.(lock := Free, stored := if landed then Stored(s.bytes[..s.sweep.phase.n]) else s.stored,
                  sweep := if ok then s.sweep.(phase := InBucket) else NO_SWEEP)
    case SweepJudge =>
      && s.sweep.phase.InBucket?
      && s' == s.(sweep := if !Recent(s.sweep) && s.onDisk && |s.bytes| == s.sweep.size && s.mtime == s.sweep.mtime
                           then s.sweep.(phase := Doomed) else NO_SWEEP)
    case SweepRemove => s.sweep.phase.Doomed? && s' == s.(onDisk := false, removed := true, sweep := NO_SWEEP)
    case SweepGiveUp => s.lock != OfSweep && s' == s.(sweep := NO_SWEEP)
    case Crash => s' == s.(open := false, uploads := map[], lock := Free, holds := 0, sweep := NO_SWEEP)
  }

  ghost predicate Next(s: State, s': State) { exists a :: Step(a, s, s') }

  /** The actions, one after another, lead from one state to the other. */
  ghost predicate LeadsBy(s: State, acts: seq<Action>, s': State)
    decreases |acts|
  {
    if acts == [] then s' == s else exists m :: Step(acts[0], s, m) && LeadsBy(m, acts[1..], s')
  }

  lemma LeadsFirst(s: State, a: Action, m: State, acts: seq<Action>, s': State)
    requires Step(a, s, m) && LeadsBy(m, acts, s')
    ensures LeadsBy(s, [a] + acts, s')
  {
    assert ([a] + acts)[1..] == acts;
  }

  ghost predicate NextAt(b: seq<State>, k: nat)
    requires k < |b| - 1
  {
    Next(b[k], b[k + 1])
  }

  ghost predicate Behaviour(b: seq<State>) {
    |b| > 0 && Initial(b[0]) && forall k: nat :: k < |b| - 1 ==> NextAt(b, k)
  }

  // ---- the invariant ----

  /** One hold for the writer and one for every upload. */
  ghost predicate HoldsInv(s: State) { s.holds == |s.uploads| + if s.open then 1 else 0 }

  ghost predicate LockInv(s: State) {
    && (s.lock.OfUpload? ==> s.lock.id in s.uploads)
    && (s.lock.OfSweep? <==> s.sweep.phase.Locked? || s.sweep.phase.Putting?)
    // whoever holds the lock is sending at least what the object holds
    && (s.lock.OfUpload? && s.uploads[s.lock.id].Sending? ==> Length(s.stored) <= s.uploads[s.lock.id].n <= |s.bytes|)
    && (s.sweep.phase.Putting? ==> Length(s.stored) <= s.sweep.phase.n <= |s.bytes|)
  }

  /** What a sweep knows of a file whose time it found old and which no one has written since. */
  ghost predicate SweepInv(s: State) {
    var w := s.sweep;
    w.phase.Idle? || (
      && s.onDisk && w.cutoff + ARCHIVE_GRACE <= s.now && w.mtime <= s.mtime && w.size <= |s.bytes|
      && (!Recent(w) && w.mtime == s.mtime ==> w.size == |s.bytes| && (!w.phase.Statted? ==> s.holds == 0))
      && (w.phase.Putting? ==> w.phase.n >= w.size)
      && (w.phase.InBucket? || w.phase.Doomed? ==> Length(s.stored) >= w.size)
      && (w.phase.Doomed? ==> !Recent(w) && w.mtime == s.mtime))
  }

  ghost predicate Inv(s: State) {
    && HoldsInv(s) && LockInv(s) && SweepInv(s)
    && s.mtime <= s.now && (s.onDisk ==> s.hour <= s.mtime)
    && (s.stored.Stored? ==> s.stored.bytes <= s.bytes)
    // a file is removed too late for the hour to be opened again
    && (s.removed ==> !s.onDisk && s.holds == 0 && s.stored == Stored(s.bytes) && s.hour + ARCHIVE_GRACE <= s.now)
    && (s.open ==> s.onDisk)
  }

  predicate ByWriter(a: Action) { a.Tick? || a.Open? || a.Write? || a.Rotate? || a.Shutdown? || a.Crash? }

  predicate ByUpload(a: Action) { a.LockKey? || a.BeginPut? || a.EndPut? || a.Release? }

  predicate BySweepPut(a: Action) { a.SweepLock? || a.SweepBeginPut? || a.SweepEndPut? }

  lemma WriterStepKeeps(a: Action, s: State, s': State)
    requires Inv(s) && Step(a, s, s') && ByWriter(a)
    ensures Inv(s')
  {
    if a.Rotate? {
      assert |s'.uploads| == |s.uploads| + 1;
    }
  }

  lemma UploadStepKeeps(a: Action, s: State, s': State)
    requires Inv(s) && Step(a, s, s') && ByUpload(a)
    ensures Inv(s')
  {
  }

  lemma SweepPutKeeps(a: Action, s: State, s': State)
    requires Inv(s) && Step(a, s, s') && BySweepPut(a)
    ensures Inv(s')
  {
  }

  lemma SweepStatKeeps(s: State, s': State, cutoff: nat)
    requires Inv(s) && Step(SweepStat(cutoff), s, s')
    ensures Inv(s')
  {
  }

  lemma SweepLookKeeps(a: Action, s: State, s': State)
    requires Inv(s) && Step(a, s, s') && (a.SweepCheckHeld? || a.SweepHead? || a.SweepJudge? || a.SweepGiveUp?)
    ensures Inv(s')
  {
  }

  /** What a sweep removes is in the bucket whole, and its hour is past opening. */
  lemma SweepRemoveKeeps(s: State, s': State)
    requires Inv(s) && Step(SweepRemove, s, s')
    ensures Inv(s')
  {
    assert s.stored.bytes == s.bytes;
  }

  lemma StepKeeps(a: Action, s: State, s': State)
    requires Inv(s) && Step(a, s, s')
    ensures Inv(s')
  {
    if ByWriter(a) {
      WriterStepKeeps(a, s, s');
    } else if ByUpload(a) {
      UploadStepKeeps(a, s, s');
    } else if BySweepPut(a) {
      SweepPutKeeps(a, s, s');
    } else if a.SweepStat? {
      SweepStatKeeps(s, s', a.cutoff);
    } else if a.SweepRemove? {
      SweepRemoveKeeps(s, s');
    } else {
      SweepLookKeeps(a, s, s');
    }
  }

  /** The file's bytes and the object each extend what they were. */
  ghost predicate Grew(s: State, s': State) {
    s.bytes <= s'.bytes && (s.stored.Stored? ==> s'.stored.Stored? && s.stored.bytes <= s'.stored.bytes)
  }

  lemma StepGrows(a: Action, s: State, s': State)
    requires Inv(s) && Step(a, s, s')
    ensures Grew(s, s')
  {
  }

  lemma BehaviourInv(b: seq<State>, k: nat)
    requires Behaviour(b) && k < |b|
    ensures Inv(b[k])
  {
    if k > 0 {
      BehaviourInv(b, k - 1);
      assert NextAt(b, k - 1);
      var a :| Step(a, b[k - 1], b[k]);
      StepKeeps(a, b[k - 1], b[k]);
    }
  }

  /** What the actions lead to keeps what holds and the bytes there were. */
  lemma {:induction false} LeadsKeeps(s: State, acts: seq<Action>, s': State)
    requires Inv(s) && LeadsBy(s, acts, s')
    ensures Inv(s') && s.bytes <= s'.bytes
    decreases |acts|
  {
    if acts != [] {
      var m :| Step(acts[0], s, m) && LeadsBy(m, acts[1..], s');
      StepKeeps(acts[0], s, m);
      StepGrows(acts[0], s, m);
      LeadsKeeps(m, acts[1..], s');
    }
  }

  // ---- what it promises ----

  lemma NextGrows(b: seq<State>, k: nat)
    requires Behaviour(b) && 0 < k < |b|
    ensures Grew(b[k - 1], b[k])
  {
    BehaviourInv(b, k - 1);
    assert NextAt(b, k - 1);
    var a :| Step(a, b[k - 1], b[k]);
    StepGrows(a, b[k - 1], b[k]);
  }

  lemma GrewOn(s: State, m: State, s': State)
    requires Grew(s, m) && Grew(m, s')
    ensures Grew(s, s')
  {
  }

  /** The bucket's object is always a prefix of the file's bytes. */
  lemma ObjectIsPrefix(b: seq<State>, k: nat)
    requires Behaviour(b) && k < |b|
    ensures b[k].stored.Stored? ==> b[k].stored.bytes <= b[k].bytes
  {
    BehaviourInv(b, k);
  }

  /** It is never shorter than it was, whatever uploads and sweeps overlap or fail. */
  lemma ObjectNeverShrinks(b: seq<State>, j: nat, k: nat)
    requires Behaviour(b) && j <= k < |b|
    ensures b[j].bytes <= b[k].bytes
    ensures b[j].stored.Stored? ==> b[k].stored.Stored? && b[j].stored.bytes <= b[k].stored.bytes
    decreases k - j
  {
    if j < k {
      ObjectNeverShrinks(b, j, k - 1);
      NextGrows(b, k);
      GrewOn(b[j], b[k - 1], b[k]);
    }
  }

  /** A path is held exactly while the writer has it open or an upload of it is under way. */
  lemma HeldExactly(b: seq<State>, k: nat)
    requires Behaviour(b) && k < |b|
    ensures b[k].holds > 0 <==> b[k].open || b[k].uploads != map[]
  {
    BehaviourInv(b, k);
    assert b[k].uploads != map[] ==> exists id :: id in b[k].uploads;
    if id :| id in b[k].uploads {
      assert |b[k].uploads.Keys| > 0;
    }
  }

  /** A sweep removes a file only when no one owns it and the bucket holds exactly its bytes, and nothing after
      changes that. */
  lemma RemovedIsStored(b: seq<State>, k: nat)
    requires Behaviour(b) && k < |b| && b[k].removed
    ensures b[k].stored == Stored(b[k].bytes) && !b[k].open && b[k].uploads == map[]
  {
    BehaviourInv(b, k);
    HeldExactly(b, k);
  }

  /** The removing step itself: the bytes on disk and in the bucket are the same. */
  lemma RemovesOnlyStored(b: seq<State>, k: nat)
    requires Behaviour(b) && k + 1 < |b| && b[k].onDisk && !b[k + 1].onDisk
    ensures b[k].stored == Stored(b[k].bytes) && b[k].holds == 0
  {
    assert NextAt(b, k);
    BehaviourInv(b, k);
    var a :| Step(a, b[k], b[k + 1]);
    assert a.SweepRemove?;
    assert b[k].stored.bytes == b[k].bytes;
  }

  /** A file made anew after a sweep removed the complete one. */
  function Reopened(s: State): State {
    s.(removed := false, onDisk := true, bytes := [], open := true, holds := s.holds + 1, mtime := s.now)
  }

  /** Why the writer must not reopen a removed hour: rotating the stub uploads it over the complete object. */
  lemma ReopeningShortens(s: State, data: Bytes, id: nat)
    requires Inv(s) && s.removed && s.lock.Free? && s.uploads == map[] && s.stored.Stored? && |data| < |s.stored.bytes|
    ensures exists s1, s2, s3, s4 ::
              && Step(Rotate(data, id), Reopened(s), s1) && Step(LockKey(id), s1, s2) && Step(BeginPut(id), s2, s3)
              && Step(EndPut(id, true), s3, s4) && Length(s4.stored) < Length(s.stored)
  {
    var s0 := Reopened(s);
    var s1 := Rotated(s0, data, id);
    var s2 := s1.(lock := OfUpload(id));
    var s3 := s2.(uploads := s2.uploads[id := Sending(|s2.bytes|)]);
    var s4 := s3.(lock := Free, stored := Stored(s3.bytes[..s3.uploads[id].n]));
    assert Step(Rotate(data, id), s0, s1) && Step(LockKey(id), s1, s2) && Step(BeginPut(id), s2, s3)
           && Step(EndPut(id, true), s3, s4);
  }

  // ---- a run that does it all ----

  ghost function Last(b: seq<State>): State
    requires b != []
  {
    b[|b| - 1]
  }

  lemma OneMoreStep(b: seq<State>, a: Action, s': State) returns (more: seq<State>)
    requires Behaviour(b) && Step(a, Last(b), s')
    ensures Behaviour(more) && Last(more) == s'
  {
    more := b + [s'];
    forall k: nat | k < |more| - 1
      ensures NextAt(more, k)
    {
      if k < |b| - 1 {
        assert NextAt(b, k);
      } else {
        assert Step(a, more[k], more[k + 1]);
      }
    }
  }

  /** The hour's file is written and rotated, and its upload lands and lets go. */
  lemma Uploading(data: Bytes, footer: Bytes) returns (b: seq<State>)
    ensures Behaviour(b)
    ensures Last(b) == State(0, 0, data + footer, true, false, 0, false, map[], Free, 0, Stored(data + footer),
                             NO_SWEEP)
  {
    var s := State(0, 0, [], false, false, 0, false, map[], Free, 0, Absent, NO_SWEEP);
    b := OneMoreStep([s], Open, Opened(s));
    b := OneMoreStep(b, Write(data), Written(Last(b), data));
    b := OneMoreStep(b, Rotate(footer, 0), Rotated(Last(b), footer, 0));
    b := OneMoreStep(b, LockKey(0), Last(b).(lock := OfUpload(0)));
    var n := |data + footer|;
    assert Last(b).bytes == data + footer && Last(b).uploads == map[0 := Waiting];
    b := OneMoreStep(b, BeginPut(0), Last(b).(uploads := map[0 := Sending(n)]));
    assert (data + footer)[..n] == data + footer;
    b := OneMoreStep(b, EndPut(0, true), Last(b).(lock := Free, stored := Stored(data + footer)));
    b := OneMoreStep(b, Release(0), Last(b).(uploads := map[], holds := 0));
  }

  /** An hour is written, uploaded, and, two hours after its last write, swept from the disk: the bucket has all that
      was written. */
  lemma HourArchived(data: Bytes, footer: Bytes) returns (b: seq<State>)
    ensures Behaviour(b)
    ensures Last(b).removed && !Last(b).onDisk && Last(b).stored == Stored(data + footer)
            && Last(b).now == 7_200_000_000_000
  {
    b := Uploading(data, footer);
    b := OneMoreStep(b, Tick(ARCHIVE_GRACE), Last(b).(now := ARCHIVE_GRACE));
    var w := Sweep(Statted, |data + footer|, 0, 0);
    b := OneMoreStep(b, SweepStat(0), Last(b).(sweep := w));
    b := OneMoreStep(b, SweepCheckHeld, Last(b).(sweep := w.(phase := Unheld)));
    b := OneMoreStep(b, SweepHead, Last(b).(sweep := w.(phase := InBucket)));
    b := OneMoreStep(b, SweepJudge, Last(b).(sweep := w.(phase := Doomed)));
    b := OneMoreStep(b, SweepRemove, Last(b).(onDisk := false, removed := true, sweep := NO_SWEEP));
  }
}
