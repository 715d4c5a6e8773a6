/** A stream's slots over its life (server/stream.go): connecting, a register frame that re-keys the sub slot in
    place, and the handler's exit, each of them steps that others' steps come between. */
module StreamSlots {
  import opened ConnCounters

  type SlotId = nat
  type StreamId = nat

  datatype Kind = BySub | ByAddr

  /** A slot granted, and how often its release has run. */
  datatype Slot = Slot(kind: Kind, key: Key, owner: StreamId, releases: nat)

  /** How far a stream's handler is. It holds the stream's lock in Locked, SubBack and AddrBack. */
  datatype Handler = Start | GotAddr | Turned | Serving | Locked | SubBack | AddrBack | Gone

  /** How far its reader is with a register frame. It holds the lock in Swapping and Swapped. */
  datatype Reader =
    | Idle
    | Taken(granted: SlotId)
    | Swapping(granted: SlotId)
    | Swapped(granted: SlotId)
    | GivingBack(granted: SlotId)

  datatype Stream = Stream(handler: Handler, reader: Reader, relAddr: SlotId, relSub: SlotId, closed: bool) {
    predicate Unlocked() {
      !(handler.Locked? || handler.SubBack? || handler.AddrBack?) && !(reader.Swapping? || reader.Swapped?)
    }
  }

  datatype State = State(subs: Counts, addrs: Counts, slots: map<SlotId, Slot>, streams: map<StreamId, Stream>)

  datatype Step =
    | Open(sid: StreamId)
    | TakeAddr(sid: StreamId, ip: Key, max: int, id: SlotId)
    | AddrRefused(sid: StreamId, ip: Key, max: int)
    | TakeSub(sid: StreamId, sub: Key, max: int, id: SlotId)
    | SubRefused(sid: StreamId, sub: Key, max: int)
    | TurnAway(sid: StreamId)                                     // the address slot of a stream refused its sub slot
    | Exit(sid: StreamId)                                         // the deferred release locks
    | ExitSub(sid: StreamId)
    | ExitAddr(sid: StreamId)
    | ExitDone(sid: StreamId)
    | RegisterTake(sid: StreamId, sub: Key, max: int, id: SlotId)
    | RegisterRefused(sid: StreamId, sub: Key, max: int)
    | RegisterLock(sid: StreamId)
    | ReleaseOld(sid: StreamId)
    | SwapDone(sid: StreamId)
    | GiveBack(sid: StreamId)

  const NEW_STREAM := Stream(Start, Idle, 0, 0, false)

  function Init(): State { State(map[], map[], map[], map[]) }

  // ---- what a step does to the counts and slots ----

  function Moved(s: State, sid: StreamId, x: Stream): State { s.(streams := s.streams[sid := x]) }

  function Acquired(s: State, sid: StreamId, x: Stream, id: SlotId, kind: Kind, key: Key): State {
    var t := Moved(s, sid, x).(slots := s.slots[id := Slot(kind, key, sid, 0)]);
    if kind == BySub then t.(subs := Plus(s.subs, key)) else t.(addrs := Plus(s.addrs, key))
  }

  function Released(s: State, sid: StreamId, x: Stream, id: SlotId): State
    requires id in s.slots
  {
    var slot := s.slots[id];
    var t := Moved(s, sid, x).(slots := s.slots[id := slot.(releases := slot.releases + 1)]);
    if slot.kind == BySub then t.(subs := Minus(s.subs, slot.key)) else t.(addrs := Minus(s.addrs, slot.key))
  }

  /** A step as the code takes it: acquire's own test, the lock, and the closed flag decide. */
  ghost predicate Next(s: State, step: Step, s': State) {
    var sid := step.sid;
    var x := if sid in s.streams then s.streams[sid] else NEW_STREAM;
    (step.Open? <==> sid !in s.streams) &&
    match step
    case Open(_) => s' == Moved(s, sid, NEW_STREAM)
    case TakeAddr(_, ip, max, id) =>
      x.handler.Start? && Room(s.addrs, ip, max) && id !in s.slots
      && s' == Acquired(s, sid, x.(handler := GotAddr, relAddr := id), id, ByAddr, ip)
    case AddrRefused(_, ip, max) =>
      x.handler.Start? && !Room(s.addrs, ip, max) && s' == Moved(s, sid, x.(handler := Gone))
    case TakeSub(_, sub, max, id) =>
      x.handler.GotAddr? && Room(s.subs, sub, max) && id !in s.slots
      && s' == Acquired(s, sid, x.(handler := Serving, relSub := id), id, BySub, sub)
    case SubRefused(_, sub, max) =>
      x.handler.GotAddr? && !Room(s.subs, sub, max) && s' == Moved(s, sid, x.(handler := Turned))
    case TurnAway(_) =>
      x.handler.Turned? && x.relAddr in s.slots && s' == Released(s, sid, x.(handler := Gone), x.relAddr)
    case Exit(_) =>
      x.handler.Serving? && x.Unlocked() && s' == Moved(s, sid, x.(handler := Locked, closed := true))
    case ExitSub(_) =>
      x.handler.Locked? && x.relSub in s.slots && s' == Released(s, sid, x.(handler := SubBack), x.relSub)
    case ExitAddr(_) =>
      x.handler.SubBack? && x.relAddr in s.slots && s' == Released(s, sid, x.(handler := AddrBack), x.relAddr)
    case ExitDone(_) =>
      x.handler.AddrBack? && s' == Moved(s, sid, x.(handler := Gone))
    case RegisterTake(_, sub, max, id) =>
      x.reader.Idle? && (x.handler.Serving? || x.closed) && Room(s.subs, sub, max) && id !in s.slots
      && s' == Acquired(s, sid, x.(reader := Taken(id)), id, BySub, sub)
    case RegisterRefused(_, sub, max) =>
      x.reader.Idle? && (x.handler.Serving? || x.closed) && !Room(s.subs, sub, max) && s' == s
    case RegisterLock(_) =>
      x.reader.Taken? && x.Unlocked()
      && s' == Moved(s, sid, x.(reader := if x.closed then GivingBack(x.reader.granted)
         else Swapping(x.reader.granted)))
    case ReleaseOld(_) =>
      x.reader.Swapping? && x.relSub in s.slots
        && s' == Released(s, sid, x.(reader := Swapped(x.reader.granted)), x.relSub)
    case SwapDone(_) =>
      x.reader.Swapped? && s' == Moved(s, sid, x.(relSub := x.reader.granted, reader := Idle))
    case GiveBack(_) =>
      x.reader.GivingBack? && x.reader.granted in s.slots
        && s' == Released(s, sid, x.(reader := Idle), x.reader.granted)
  }

  // ---- the invariant ----

  predicate OwesAddr(x: Stream) {
    x.handler.GotAddr? || x.handler.Turned? || x.handler.Serving? || x.handler.Locked? || x.handler.SubBack?
  }

  predicate OwesSub(x: Stream) { (x.handler.Serving? && !x.reader.Swapped?) || x.handler.Locked? }

  /** The slots a stream has yet to release. */
  function Owed(x: Stream): set<SlotId> {
    (if OwesAddr(x) then {x.relAddr} else {}) + (if OwesSub(x) then {x.relSub} else {})
      + (if x.reader.Idle? then {} else {x.reader.granted})
  }

  /** The lock and the flag keep the handler's release and the reader's swap apart. */
  predicate Apart(x: Stream) {
    && (x.reader.Swapping? || x.reader.Swapped? ==> x.handler.Serving?)
    && (x.reader.GivingBack? ==> x.closed)
    && (x.closed ==> x.handler.Locked? || x.handler.SubBack? || x.handler.AddrBack? || x.handler.Gone?)
    && (x.handler.Locked? || x.handler.SubBack? || x.handler.AddrBack? ==> x.closed)
    && (!x.reader.Idle? ==> x.handler.Serving? || x.closed)
    && (OwesAddr(x) && OwesSub(x) ==> x.relAddr != x.relSub)
    && (OwesAddr(x) && !x.reader.Idle? ==> x.reader.granted != x.relAddr)
    && (OwesSub(x) && !x.reader.Idle? ==> x.reader.granted != x.relSub)
  }

  ghost predicate Held(slots: map<SlotId, Slot>, id: SlotId) { id in slots && slots[id].releases == 0 }

  ghost predicate OwedRight(slots: map<SlotId, Slot>, sid: StreamId, x: Stream, id: SlotId) {
    id in Owed(x) <==> Held(slots, id) && slots[id].owner == sid
  }

  /** A stream owes exactly the slots it was granted and has not released. */
  ghost predicate Owes(slots: map<SlotId, Slot>, sid: StreamId, x: Stream) {
    && Apart(x)
    && (forall id {:trigger OwedRight(slots, sid, x, id)} :: OwedRight(slots, sid, x, id))
    && (x.handler.Start? ==> !x.closed && x.reader.Idle?)
  }

  function HeldOf(slots: map<SlotId, Slot>, kind: Kind, key: Key): set<SlotId> {
    set id | id in slots && slots[id].releases == 0 && slots[id].kind == kind && slots[id].key == key
  }

  ghost predicate CountRight(n: Counts, slots: map<SlotId, Slot>, kind: Kind, key: Key) {
    Get(n, key) == |HeldOf(slots, kind, key)| && (key in n ==> n[key] > 0)
  }

  ghost predicate CountsRight(n: Counts, slots: map<SlotId, Slot>, kind: Kind) {
    forall key {:trigger CountRight(n, slots, kind, key)} :: CountRight(n, slots, kind, key)
  }

  /** A slot is released at most once, and has an owner. */
  ghost predicate SlotRight(slots: map<SlotId, Slot>, streams: map<StreamId, Stream>, id: SlotId) {
    id in slots ==> slots[id].releases <= 1 && slots[id].owner in streams
  }

  ghost predicate SlotsRight(slots: map<SlotId, Slot>, streams: map<StreamId, Stream>) {
    forall id {:trigger SlotRight(slots, streams, id)} :: SlotRight(slots, streams, id)
  }

  ghost predicate StreamRight(slots: map<SlotId, Slot>, streams: map<StreamId, Stream>, sid: StreamId) {
    sid in streams ==> Owes(slots, sid, streams[sid])
  }

  ghost predicate StreamsRight(slots: map<SlotId, Slot>, streams: map<StreamId, Stream>) {
    forall sid {:trigger StreamRight(slots, streams, sid)} :: StreamRight(slots, streams, sid)
  }

  ghost predicate Inv(s: State) {
    && CountsRight(s.subs, s.slots, BySub) && CountsRight(s.addrs, s.slots, ByAddr)
    && SlotsRight(s.slots, s.streams) && StreamsRight(s.slots, s.streams)
  }

  lemma HeldAcquired(slots: map<SlotId, Slot>, kind: Kind, key: Key, id: SlotId, slot: Slot)
    requires id !in slots && slot.releases == 0
    ensures |HeldOf(slots[id := slot], kind, key)| == |HeldOf(slots, kind, key)|
            + if slot.kind == kind && slot.key == key then 1 else 0
  {
    var was, now := HeldOf(slots, kind, key), HeldOf(slots[id := slot], kind, key);
    if slot.kind == kind && slot.key == key {
      assert now == was + {id};
    } else {
      assert now == was;
    }
  }

  lemma HeldReleased(slots: map<SlotId, Slot>, kind: Kind, key: Key, id: SlotId)
    requires Held(slots, id)
    ensures var slot := slots[id];
            |HeldOf(slots[id := slot.(releases := 1)], kind, key)|
            == |HeldOf(slots, kind, key)| - if slot.kind == kind && slot.key == key then 1 else 0
  {
    var slot := slots[id];
    var was, now := HeldOf(slots, kind, key), HeldOf(slots[id := slot.(releases := 1)], kind, key);
    if slot.kind == kind && slot.key == key {
      assert id in was;
      assert was == now + {id};
    } else {
      assert now == was;
    }
  }

  lemma AcquiredCounts(n: Counts, slots: map<SlotId, Slot>, kind: Kind, id: SlotId, slot: Slot)
    requires CountsRight(n, slots, kind) && id !in slots && slot.releases == 0
    ensures CountsRight(if slot.kind == kind then Plus(n, slot.key) else n, slots[id := slot], kind)
  {
    var m, now := if slot.kind == kind then Plus(n, slot.key) else n, slots[id := slot];
    forall key
      ensures CountRight(m, now, kind, key)
    {
      assert CountRight(n, slots, kind, key);
      HeldAcquired(slots, kind, key, id, slot);
    }
  }

  lemma ReleasedCounts(n: Counts, slots: map<SlotId, Slot>, kind: Kind, id: SlotId)
    requires CountsRight(n, slots, kind) && Held(slots, id)
    ensures CountsRight(if slots[id].kind == kind then Minus(n, slots[id].key) else n,
                        slots[id := slots[id].(releases := 1)], kind)
  {
    var slot := slots[id];
    var m, now := if slot.kind == kind then Minus(n, slot.key) else n, slots[id := slot.(releases := 1)];
    forall key
      ensures CountRight(m, now, kind, key)
    {
      assert CountRight(n, slots, kind, key);
      HeldReleased(slots, kind, key, id);
    }
  }

  // ---- what each kind of step keeps ----

  lemma MovedKeeps(s: State, sid: StreamId, x: Stream)
    requires Inv(s) && Owes(s.slots, sid, x)
    ensures Inv(Moved(s, sid, x))
  {
    var now := s.streams[sid := x];
    forall o
      ensures StreamRight(s.slots, now, o)
    {
      assert StreamRight(s.slots, s.streams, o);
    }
    forall id
      ensures SlotRight(s.slots, now, id)
    {
      assert SlotRight(s.slots, s.streams, id);
    }
  }

  /** With what it owes the same, a stream's handler or reader moves on. */
  lemma OwesAsBefore(slots: map<SlotId, Slot>, sid: StreamId, was: Stream, x: Stream)
    requires Owes(slots, sid, was) && Apart(x) && Owed(x) == Owed(was) && !x.handler.Start?
    ensures Owes(slots, sid, x)
  {
    forall id
      ensures OwedRight(slots, sid, x, id)
    {
      assert OwedRight(slots, sid, was, id);
    }
  }

  lemma OwesAcquired(slots: map<SlotId, Slot>, sid: StreamId, was: Stream, x: Stream, id: SlotId, slot: Slot)
    requires Owes(slots, sid, was) && Apart(x) && !x.handler.Start? && id !in slots && slot.releases == 0
             && slot.owner == sid
    requires Owed(x) == Owed(was) + {id}
    ensures Owes(slots[id := slot], sid, x)
  {
    var now := slots[id := slot];
    forall j
      ensures OwedRight(now, sid, x, j)
    {
      assert OwedRight(slots, sid, was, j);
    }
  }

  lemma OwesReleased(slots: map<SlotId, Slot>, sid: StreamId, was: Stream, x: Stream, id: SlotId)
    requires Owes(slots, sid, was) && Apart(x) && !x.handler.Start? && Held(slots, id)
    requires Owed(x) == Owed(was) - {id}
    ensures Owes(slots[id := slots[id].(releases := 1)], sid, x)
  {
    var now := slots[id := slots[id].(releases := 1)];
    forall j
      ensures OwedRight(now, sid, x, j)
    {
      assert OwedRight(slots, sid, was, j);
    }
  }

  /** Another stream's slot granted or released leaves what a stream owes as it was. */
  lemma OwesOther(slots: map<SlotId, Slot>, o: StreamId, y: Stream, id: SlotId, slot: Slot)
    requires Owes(slots, o, y) && slot.owner != o && (id in slots ==> slots[id].owner != o)
    ensures Owes(slots[id := slot], o, y)
  {
    var now := slots[id := slot];
    forall j
      ensures OwedRight(now, o, y, j)
    {
      assert OwedRight(slots, o, y, j);
    }
  }

  lemma SlotChanged(slots: map<SlotId, Slot>, streams: map<StreamId, Stream>, sid: StreamId, x: Stream, id: SlotId,
          slot: Slot)
    requires SlotsRight(slots, streams) && StreamsRight(slots, streams) && Owes(slots[id := slot], sid, x)
    requires slot.releases <= 1 && slot.owner == sid && (id in slots ==> slots[id].owner == sid)
    ensures SlotsRight(slots[id := slot], streams[sid := x]) && StreamsRight(slots[id := slot], streams[sid := x])
  {
    var now, more := slots[id := slot], streams[sid := x];
    forall j
      ensures SlotRight(now, more, j)
    {
      assert SlotRight(slots, streams, j);
    }
    forall o
      ensures StreamRight(now, more, o)
    {
      assert StreamRight(slots, streams, o);
      if o in streams && o != sid {
        OwesOther(slots, o, streams[o], id, slot);
      }
    }
  }

  lemma AcquiredKeeps(s: State, sid: StreamId, x: Stream, id: SlotId, kind: Kind, key: Key)
    requires Inv(s) && sid in s.streams && id !in s.slots && Apart(x) && !x.handler.Start?
             && Owed(x) == Owed(s.streams[sid]) + {id}
    ensures Inv(Acquired(s, sid, x, id, kind, key))
  {
    var slot := Slot(kind, key, sid, 0);
    AcquiredCounts(s.subs, s.slots, BySub, id, slot);
    AcquiredCounts(s.addrs, s.slots, ByAddr, id, slot);
    assert StreamRight(s.slots, s.streams, sid);
    OwesAcquired(s.slots, sid, s.streams[sid], x, id, slot);
    SlotChanged(s.slots, s.streams, sid, x, id, slot);
  }

  lemma ReleasedKeeps(s: State, sid: StreamId, x: Stream, id: SlotId)
    requires Inv(s) && sid in s.streams && id in Owed(s.streams[sid])
    requires Apart(x) && !x.handler.Start? && Owed(x) == Owed(s.streams[sid]) - {id}
    ensures Held(s.slots, id) && s.slots[id].owner == sid
    ensures Inv(Released(s, sid, x, id))
  {
    assert StreamRight(s.slots, s.streams, sid);
    assert OwedRight(s.slots, sid, s.streams[sid], id);
    ReleasedCounts(s.subs, s.slots, BySub, id);
    ReleasedCounts(s.addrs, s.slots, ByAddr, id);
    OwesReleased(s.slots, sid, s.streams[sid], x, id);
    SlotChanged(s.slots, s.streams, sid, x, id, s.slots[id].(releases := 1));
  }

  lemma StaysKeeps(s: State, sid: StreamId, x: Stream)
    requires Inv(s) && sid in s.streams && Apart(x) && !x.handler.Start? && Owed(x) == Owed(s.streams[sid])
    ensures Inv(Moved(s, sid, x))
  {
    assert StreamRight(s.slots, s.streams, sid);
    OwesAsBefore(s.slots, sid, s.streams[sid], x);
    MovedKeeps(s, sid, x);
  }

  lemma OpenKeeps(s: State, sid: StreamId)
    requires Inv(s) && sid !in s.streams
    ensures Inv(Moved(s, sid, NEW_STREAM))
  {
    forall id
      ensures OwedRight(s.slots, sid, NEW_STREAM, id)
    {
      assert SlotRight(s.slots, s.streams, id);
    }
    MovedKeeps(s, sid, NEW_STREAM);
  }

  /** A step that releases a slot finds it held by the step's own stream and not released before, and no step grants
      one again. */
  lemma ReleasesOnce(s: State, step: Step, s': State, id: SlotId)
    requires Inv(s) && Next(s, step, s') && id in s.slots
    ensures id in s'.slots && (s'.slots[id] != s.slots[id] ==>
              && Held(s.slots, id) && s.slots[id].owner == step.sid
              && s'.slots[id] == s.slots[id].(releases := 1))
  {
    if step.sid in s.streams {
      assert StreamRight(s.slots, s.streams, step.sid);
      assert OwedRight(s.slots, step.sid, s.streams[step.sid], id);
    }
  }

  lemma StreamApart(s: State, sid: StreamId)
    requires Inv(s) && sid in s.streams
    ensures Apart(s.streams[sid])
    ensures s.streams[sid].handler.Start? ==> !s.streams[sid].closed && s.streams[sid].reader.Idle?
  {
    assert StreamRight(s.slots, s.streams, sid);
  }

  /** A slot not yet granted is none the stream owes. */
  lemma NewToStream(s: State, sid: StreamId, id: SlotId)
    requires Inv(s) && sid in s.streams && id !in s.slots
    ensures id !in Owed(s.streams[sid])
  {
    assert StreamRight(s.slots, s.streams, sid);
    assert OwedRight(s.slots, sid, s.streams[sid], id);
  }

  lemma TakeStepKeeps(s: State, step: Step, s': State)
    requires Inv(s) && Next(s, step, s') && (step.TakeAddr? || step.TakeSub? || step.RegisterTake?)
    ensures Inv(s')
  {
    var sid := step.sid;
    var x := s.streams[sid];
    StreamApart(s, sid);
    NewToStream(s, sid, step.id);
    match step
    case TakeAddr(_, ip, max, id) => AcquiredKeeps(s, sid, x.(handler := GotAddr, relAddr := id), id, ByAddr, ip);
    case TakeSub(_, sub, max, id) => AcquiredKeeps(s, sid, x.(handler := Serving, relSub := id), id, BySub, sub);
    case RegisterTake(_, sub, max, id) => AcquiredKeeps(s, sid, x.(reader := Taken(id)), id, BySub, sub);
  }

  lemma ExitStepKeeps(s: State, step: Step, s': State)
    requires Inv(s) && Next(s, step, s') && (step.TurnAway? || step.ExitSub? || step.ExitAddr?)
    ensures Inv(s')
  {
    var sid := step.sid;
    var x := s.streams[sid];
    StreamApart(s, sid);
    match step
    case TurnAway(_) => ReleasedKeeps(s, sid, x.(handler := Gone), x.relAddr);
    case ExitSub(_) => ReleasedKeeps(s, sid, x.(handler := SubBack), x.relSub);
    case ExitAddr(_) => ReleasedKeeps(s, sid, x.(handler := AddrBack), x.relAddr);
  }

  lemma SwapStepKeeps(s: State, step: Step, s': State)
    requires Inv(s) && Next(s, step, s') && (step.ReleaseOld? || step.GiveBack?)
    ensures Inv(s')
  {
    var sid := step.sid;
    var x := s.streams[sid];
    StreamApart(s, sid);
    if step.ReleaseOld? {
      ReleasedKeeps(s, sid, x.(reader := Swapped(x.reader.granted)), x.relSub);
    } else {
      ReleasedKeeps(s, sid, x.(reader := Idle), x.reader.granted);
    }
  }

  lemma StayStepKeeps(s: State, step: Step, s': State)
    requires Inv(s) && Next(s, step, s')
    requires step.AddrRefused? || step.SubRefused? || step.Exit? || step.ExitDone? || step.RegisterLock?
             || step.SwapDone?
    ensures Inv(s')
  {
    var sid := step.sid;
    var x := s.streams[sid];
    StreamApart(s, sid);
    var now := s'.streams[sid];
    assert s' == Moved(s, sid, now);
    StaysKeeps(s, sid, now);
  }

  /** Every step, whatever others come between a stream's own, keeps the counts equal to the slots held. */
  lemma StepKeeps(s: State, step: Step, s': State)
    requires Inv(s) && Next(s, step, s')
    ensures Inv(s')
  {
    match step
    case Open(sid) => OpenKeeps(s, sid);
    case TakeAddr(_, _, _, _) => TakeStepKeeps(s, step, s');
    case TakeSub(_, _, _, _) => TakeStepKeeps(s, step, s');
    case RegisterTake(_, _, _, _) => TakeStepKeeps(s, step, s');
    case TurnAway(_) => ExitStepKeeps(s, step, s');
    case ExitSub(_) => ExitStepKeeps(s, step, s');
    case ExitAddr(_) => ExitStepKeeps(s, step, s');
    case ReleaseOld(_) => SwapStepKeeps(s, step, s');
    case GiveBack(_) => SwapStepKeeps(s, step, s');
    case RegisterRefused(_, _, _) =>
    case _ => StayStepKeeps(s, step, s');
  }

  // ---- over whole runs ----

  ghost predicate NextAt(b: seq<State>, steps: seq<Step>, k: nat)
    requires |b| == |steps| + 1 && k < |steps|
  {
    Next(b[k], steps[k], b[k + 1])
  }

  ghost predicate Behaviour(b: seq<State>, steps: seq<Step>) {
    && |b| == |steps| + 1 && b[0] == Init()
    && forall k {:trigger NextAt(b, steps, k)} :: 0 <= k < |steps| ==> NextAt(b, steps, k)
  }

  lemma InitInv()
    ensures Inv(Init())
  {
    var none: map<SlotId, Slot> := map[];
    forall kind, key
      ensures HeldOf(none, kind, key) == {}
    {
    }
  }

  /** In every interleaving each count is the number of slots held of its key. */
  lemma {:induction false} BehaviourInv(b: seq<State>, steps: seq<Step>, k: nat)
    requires Behaviour(b, steps) && k <= |steps|
    ensures Inv(b[k])
    decreases k
  {
    if k == 0 {
      InitInv();
    } else {
      BehaviourInv(b, steps, k - 1);
      assert NextAt(b, steps, k - 1);
      StepKeeps(b[k - 1], steps[k - 1], b[k]);
    }
  }

  /** The counts a reader of either counter sees are the slots held of a key. */
  lemma CountsAreHeld(b: seq<State>, steps: seq<Step>, k: nat, key: Key)
    requires Behaviour(b, steps) && k <= |steps|
    ensures Get(b[k].subs, key) == |HeldOf(b[k].slots, BySub, key)|
    ensures Get(b[k].addrs, key) == |HeldOf(b[k].slots, ByAddr, key)|
  {
    BehaviourInv(b, steps, k);
    assert CountRight(b[k].subs, b[k].slots, BySub, key);
    assert CountRight(b[k].addrs, b[k].slots, ByAddr, key);
  }

  /** No slot is ever released twice, and once a stream's handler is gone and its reader idle none it was granted
      is held. */
  lemma EachReleasedOnce(b: seq<State>, steps: seq<Step>, k: nat, id: SlotId)
    requires Behaviour(b, steps) && k <= |steps| && id in b[k].slots
    ensures b[k].slots[id].releases <= 1 && b[k].slots[id].owner in b[k].streams
    ensures var x := b[k].streams[b[k].slots[id].owner];
            x.handler.Gone? && x.reader.Idle? ==> b[k].slots[id].releases == 1
  {
    BehaviourInv(b, steps, k);
    var s := b[k];
    var sid := s.slots[id].owner;
    assert SlotRight(s.slots, s.streams, id);
    assert StreamRight(s.slots, s.streams, sid);
    assert OwedRight(s.slots, sid, s.streams[sid], id);
  }

  /** No step takes a key's count past the max its acquire is passed. */
  lemma CapKept(s: State, step: Step, s': State, kind: Kind, key: Key, max: int)
    requires Next(s, step, s') && max > 0
    requires kind == ByAddr && step.TakeAddr? && step.ip == key ==> step.max == max
    requires kind == BySub && (step.TakeSub? || step.RegisterTake?) && step.sub == key ==> step.max == max
    requires Get(if kind == BySub then s.subs else s.addrs, key) <= max
    ensures Get(if kind == BySub then s'.subs else s'.addrs, key) <= max
  {
  }

  /** A key whose streams all carry one limit never has more slots held than it. */
  lemma {:induction false} NeverOverCap(b: seq<State>, steps: seq<Step>, k: nat, kind: Kind, key: Key, max: int)
    requires Behaviour(b, steps) && k <= |steps| && max > 0
    requires forall j :: 0 <= j < |steps| && kind == ByAddr && steps[j].TakeAddr? && steps[j].ip == key ==>
                           steps[j].max == max
    requires forall j :: 0 <= j < |steps| && kind == BySub && (steps[j].TakeSub? || steps[j].RegisterTake?)
                         && steps[j].sub == key ==>
                           steps[j].max == max
    ensures |HeldOf(b[k].slots, kind, key)| <= max
    decreases k
  {
    CountsAreHeld(b, steps, k, key);
    if k > 0 {
      NeverOverCap(b, steps, k - 1, kind, key, max);
      CountsAreHeld(b, steps, k - 1, key);
      assert NextAt(b, steps, k - 1);
      CapKept(b[k - 1], steps[k - 1], b[k], kind, key, max);
    }
  }

  // ---- runs that do it all ----

  ghost predicate Reaches(b: seq<State>, steps: seq<Step>, s: State) {
    Behaviour(b, steps) && b[|steps|] == s
  }

  lemma OneMoreStep(b: seq<State>, steps: seq<Step>, step: Step, s': State) returns (b': seq<State>, steps': seq<Step>)
    requires Behaviour(b, steps) && Next(b[|steps|], step, s')
    ensures Reaches(b', steps', s') && steps' == steps + [step]
  {
    b', steps' := b + [s'], steps + [step];
    forall k | 0 <= k < |steps'|
      ensures NextAt(b', steps', k)
    {
      if k < |steps| {
        assert NextAt(b, steps, k);
      }
    }
  }

  /** A stream connects: its two slots are taken, up to the caps. */
  lemma Connecting(ip: Key, sub: Key) returns (b: seq<State>, steps: seq<Step>)
    ensures Reaches(b, steps, State(map[sub := 1], map[ip := 1],
                                    map[0 := Slot(ByAddr, ip, 0, 0), 1 := Slot(BySub, sub, 0, 0)],
                                    map[0 := Stream(Serving, Idle, 0, 1, false)]))
    ensures |steps| == 3
  {
    b, steps := [Init()], [];
    var open := Moved(Init(), 0, NEW_STREAM);
    b, steps := OneMoreStep(b, steps, Open(0), open);
    var addr := Acquired(open, 0, NEW_STREAM.(handler := GotAddr, relAddr := 0), 0, ByAddr, ip);
    b, steps := OneMoreStep(b, steps, TakeAddr(0, ip, 1, 0), addr);
    var x := NEW_STREAM.(handler := Serving, relAddr := 0, relSub := 1);
    b, steps := OneMoreStep(b, steps, TakeSub(0, sub, 1, 1), Acquired(addr, 0, x, 1, BySub, sub));
  }

  /** The three slots such a stream is granted, and how often each was released. */
  function Granted(ip: Key, sub: Key, sub': Key, addr: nat, was: nat, now: nat): map<SlotId, Slot> {
    map[0 := Slot(ByAddr, ip, 0, addr), 1 := Slot(BySub, sub, 0, was), 2 := Slot(BySub, sub', 0, now)]
  }

  /** It is granted a slot under another sub by a register frame. */
  lemma Registering(ip: Key, sub: Key, sub': Key) returns (b: seq<State>, steps: seq<Step>)
    requires sub != sub'
    ensures Reaches(b, steps, State(map[sub := 1, sub' := 1], map[ip := 1], Granted(ip, sub, sub', 0, 0, 0),
                                    map[0 := Stream(Serving, Taken(2), 0, 1, false)]))
  {
    b, steps := Connecting(ip, sub);
    var x := Stream(Serving, Taken(2), 0, 1, false);
    b, steps := OneMoreStep(b, steps, RegisterTake(0, sub', 1, 2), Acquired(b[|steps|], 0, x, 2, BySub, sub'));
  }

  /** The old slot is released in its place. */
  lemma SwapInPlace(ip: Key, sub: Key, sub': Key) returns (b: seq<State>, steps: seq<Step>)
    requires sub != sub'
    ensures Reaches(b, steps, State(map[sub' := 1], map[ip := 1], Granted(ip, sub, sub', 0, 1, 0),
                                    map[0 := Stream(Serving, Idle, 0, 2, false)]))
  {
    b, steps := Registering(ip, sub, sub');
    var x := Stream(Serving, Swapping(2), 0, 1, false);
    b, steps := OneMoreStep(b, steps, RegisterLock(0), Moved(b[|steps|], 0, x));
    x := x.(reader := Swapped(2));
    b, steps := OneMoreStep(b, steps, ReleaseOld(0), Released(b[|steps|], 0, x, 1));
    assert map[sub := 1, sub' := 1] - {sub} == map[sub' := 1];
    x := x.(reader := Idle, relSub := 2);
    b, steps := OneMoreStep(b, steps, SwapDone(0), Moved(b[|steps|], 0, x));
  }

  /** A stream's handler exits: locked and closed, it gives back its sub slot. */
  lemma ExitingSub(b0: seq<State>, steps0: seq<Step>, x: Stream) returns (b: seq<State>, steps: seq<Step>)
    requires Behaviour(b0, steps0) && 0 in b0[|steps0|].streams && b0[|steps0|].streams[0] == x
    requires x.handler.Serving? && x.Unlocked() && x.relSub in b0[|steps0|].slots
    ensures Reaches(b, steps, Released(b0[|steps0|], 0, x.(handler := SubBack, closed := true), x.relSub))
  {
    var y := x.(handler := Locked, closed := true);
    var s := Released(b0[|steps0|], 0, x.(handler := SubBack, closed := true), x.relSub);
    b, steps := OneMoreStep(b0, steps0, Exit(0), Moved(b0[|steps0|], 0, y));
    assert s == Released(b[|steps|], 0, y.(handler := SubBack), x.relSub);
    b, steps := OneMoreStep(b, steps, ExitSub(0), s);
  }

  /** And then its address slot. */
  lemma ExitingAddr(b0: seq<State>, steps0: seq<Step>, x: Stream) returns (b: seq<State>, steps: seq<Step>)
    requires Behaviour(b0, steps0) && 0 in b0[|steps0|].streams && b0[|steps0|].streams[0] == x
    requires x.handler.SubBack? && x.relAddr in b0[|steps0|].slots
    ensures Reaches(b, steps, Released(b0[|steps0|], 0, x.(handler := Gone), x.relAddr))
  {
    var s := Released(b0[|steps0|], 0, x.(handler := Gone), x.relAddr);
    b, steps := OneMoreStep(b0, steps0, ExitAddr(0), Released(b0[|steps0|], 0, x.(handler := AddrBack), x.relAddr));
    assert s == Moved(b[|steps|], 0, x.(handler := Gone));
    b, steps := OneMoreStep(b, steps, ExitDone(0), s);
  }

  /** A stream registers under another sub in place and exits: three slots were granted, each released once. */
  lemma SwapAndExit(ip: Key, sub: Key, sub': Key) returns (b: seq<State>, steps: seq<Step>)
    requires sub != sub'
    ensures Reaches(b, steps, State(map[], map[], Granted(ip, sub, sub', 1, 1, 1),
                                    map[0 := Stream(Gone, Idle, 0, 2, true)]))
  {
    b, steps := SwapInPlace(ip, sub, sub');
    b, steps := ExitingSub(b, steps, Stream(Serving, Idle, 0, 2, false));
    b, steps := ExitingAddr(b, steps, Stream(SubBack, Idle, 0, 2, true));
  }

  lemma ExitRegistering(ip: Key, sub: Key, sub': Key) returns (b: seq<State>, steps: seq<Step>)
    requires sub != sub'
    ensures Reaches(b, steps, State(map[sub' := 1], map[], Granted(ip, sub, sub', 1, 1, 0),
                                    map[0 := Stream(Gone, Taken(2), 0, 1, true)]))
  {
    b, steps := Registering(ip, sub, sub');
    b, steps := ExitingSub(b, steps, Stream(Serving, Taken(2), 0, 1, false));
    assert map[sub := 1, sub' := 1] - {sub} == map[sub' := 1];
    b, steps := ExitingAddr(b, steps, Stream(SubBack, Taken(2), 0, 1, true));
  }

  /** The handler exits between a register frame's acquire and its lock: the frame finds the stream closed and gives
      back the slot it was granted. */
  lemma ExitBeforeSwap(ip: Key, sub: Key, sub': Key) returns (b: seq<State>, steps: seq<Step>)
    requires sub != sub'
    ensures Reaches(b, steps, State(map[], map[], Granted(ip, sub, sub', 1, 1, 1),
                                    map[0 := Stream(Gone, Idle, 0, 1, true)]))
  {
    b, steps := ExitRegistering(ip, sub, sub');
    var x := Stream(Gone, GivingBack(2), 0, 1, true);
    b, steps := OneMoreStep(b, steps, RegisterLock(0), Moved(b[|steps|], 0, x));
    b, steps := OneMoreStep(b, steps, GiveBack(0), Released(b[|steps|], 0, x.(reader := Idle), 2));
  }
}
