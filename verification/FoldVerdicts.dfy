/** The verdict every copy of a transmission carries (server/pipeline.go): emit's and settleFold's lock sections
    and the writes after them, interleaved in any order, with ClickHouse attached throughout. */
module FoldVerdicts {
  import opened DedupeWindow

  const MAX_SKEW: int := 30_000_000_000

  /** What an event's time is taken from: a sentence's tag block and source, or a packet's own time, and the time it
      was received. The zero time stands for none. */
  datatype Stamps =
    | Sentence(tag: Time, source: Time, buffered: bool, recv: Time)
    | Packet(sent: Time, recv: Time)

  function EventTime(e: Stamps): Time {
    match e
    case Sentence(tag, source, buffered, recv) =>
      if tag != ZERO_TIME && (Abs(tag - recv) <= MAX_SKEW || (buffered && tag < recv)) then tag
      else if source != ZERO_TIME && Abs(source - recv) <= MAX_SKEW then source
      else recv
    case Packet(sent, recv) => if sent == ZERO_TIME || sent > recv then recv else sent
  }

  /** No event is stamped over 30 s after its receipt, none that was not buffered over 30 s before, and no packet at all
      after; a tag within the 30 s is kept, and so is a packet's own time up to its receipt. */
  lemma EventTimeNear(e: Stamps)
    requires e.recv != ZERO_TIME
    ensures EventTime(e) != ZERO_TIME
    ensures match e
            case Sentence(tag, source, buffered, recv) =>
              var t, near := EventTime(e), recv - 30_000_000_000 <= tag <= recv + 30_000_000_000;
              && t <= recv + 30_000_000_000 && t in {tag, source, recv}
              && (tag != ZERO_TIME && (near || (buffered && tag < recv)) ==> t == tag)
              && (t < recv - 30_000_000_000 ==> buffered && t == tag)
              && (t == recv ==> tag in {ZERO_TIME, recv} || !near)
              && (t == recv && source != recv ==>
                    source == ZERO_TIME || source < recv - 30_000_000_000 || source > recv + 30_000_000_000
                    || tag == recv)
            case Packet(sent, recv) =>
              EventTime(e) <= recv && if sent != ZERO_TIME && sent <= recv then EventTime(e) == sent
                                      else EventTime(e) == recv
  {
  }

  datatype Acceptance = Acceptance(key: Key, at: Time)

  /** A fold's verdict, and how many events had been accepted when it was recorded. */
  datatype Verdict = Verdict(bad: bool, after: nat)

  /** A duplicate that reached the window: the acceptance it repeats, by its place, whether it carries a position to
      hand on, and whether it came when a good acceptance read bad. */
  datatype Duplicate = Duplicate(of: nat, placed: bool, stained: bool)

  /** What was handed on, and flagged how. */
  datatype Handing = Handing(id: nat, bad: bool)

  datatype State = State(
    core: Core,
    accepted: seq<Acceptance>,     // every acceptance so far
    latest: map<Key, nat>,         // the last of each key
    folds: map<Key, nat>,          // those whose fold is under way
    verdicts: map<nat, Verdict>,
    lastBad: map<Key, nat>,        // the last of each key judged bad
    copies: map<nat, Duplicate>,   // every duplicate so far
    pending: map<nat, bool>,       // copies past the lock with the flag they will carry
    handed: seq<Handing>)

  const NOTHING := State(FRESH, [], map[], map[], map[], map[], map[], map[], [])

  datatype Action =
    | Accept(key: Key, stamps: Stamps)
    | Repeat(key: Key, t: Time, id: nat, placed: bool)
    | Settle(key: Key, verdict: bool)
    | Hand(id: nat)

  function Ids(w: seq<Copy>): set<nat> { set i | 0 <= i < |w| :: w[i].id }

  /** The newest event time of the first acceptances. */
  function HighWater(accepted: seq<Acceptance>): Time {
    if accepted == [] then ZERO_TIME
    else var hw, t := HighWater(accepted[..|accepted| - 1]), accepted[|accepted| - 1].at;
         if t > hw then t else hw
  }

  ghost predicate Prunes(accepted: seq<Acceptance>, t: Time, after: nat, m: nat) {
    after < m <= |accepted| && m % 4096 == 0 && t < Cutoff(HighWater(accepted[..m]))
  }

  /** A prune after so many acceptances, and no later than now, forgot what is stamped t. */
  ghost predicate PrunedSince(accepted: seq<Acceptance>, t: Time, after: nat) {
    exists m :: Prunes(accepted, t, after, m)
  }

  ghost predicate BadAt(s: State, k: Key, t: Time) {
    && k in s.lastBad && s.lastBad[k] < |s.accepted| && s.accepted[s.lastBad[k]].at == t
    && s.lastBad[k] in s.verdicts && !PrunedSince(s.accepted, t, s.verdicts[s.lastBad[k]].after)
  }

  /** The last acceptance of the key judged bad was at the same time as this one, which was not, and no prune has
      forgotten it since. */
  ghost predicate Stained(s: State, n: nat) {
    && n < |s.accepted| && n in s.verdicts && !s.verdicts[n].bad
    && BadAt(s, s.accepted[n].key, s.accepted[n].at)
  }

  ghost function AfterAccept(s: State, key: Key, t: Time): State {
    s.(core := Accepted(s.core, key, t, true), accepted := s.accepted + [Acceptance(key, t)],
       latest := s.latest[key := |s.accepted|], folds := s.folds[key := |s.accepted|])
  }

  ghost function AfterRepeat(s: State, key: Key, id: nat, placed: bool): State
    requires key in s.core.seen && key in s.latest
  {
    var n, judged := s.latest[key], key !in s.core.folding;
    s.(core := Repeated(s.core, key, id, placed, true),
       copies := s.copies[id := Duplicate(n, placed, judged && Stained(s, n))],
       pending := if judged && placed then s.pending[id := ReadsBad(s.core, key, s.core.seen[key])] else s.pending)
  }

  ghost function AfterSettle(s: State, key: Key, verdict: bool): State
    requires key in s.folds && s.folds[key] < |s.accepted|
  {
    var n := s.folds[key];
    var waiting := if key in s.core.folding then Ids(s.core.folding[key]) else {};
    s.(core := Settled(s.core, key, s.accepted[n].at, verdict), folds := s.folds - {key},
       verdicts := s.verdicts[n := Verdict(verdict, |s.accepted|)],
       lastBad := if verdict then s.lastBad[key := n] else s.lastBad,
       pending := s.pending + (map id | id in waiting :: verdict))
  }

  ghost function AfterHand(s: State, id: nat): State
    requires id in s.pending
  {
    s.(pending := s.pending - {id}, handed := s.handed + [Handing(id, s.pending[id])])
  }

  /** What the property asks of callers is that a key's fold is settled before the key is accepted again. */
  ghost predicate Step(a: Action, s: State, s': State) {
    match a
    case Accept(key, e) =>
      && e.recv != ZERO_TIME && !Duplicates(s.core, key, EventTime(e)) && key !in s.folds
      && s' == AfterAccept(s, key, EventTime(e))
    case Repeat(key, t, id, placed) =>
      && Duplicates(s.core, key, t) && id !in s.copies && key in s.latest
      && s' == AfterRepeat(s, key, id, placed)
    case Settle(key, verdict) =>
      && key in s.folds && s.folds[key] < |s.accepted|
      && s' == AfterSettle(s, key, verdict)
    case Hand(id) =>
      && id in s.pending
      && s' == AfterHand(s, id)
  }

  ghost predicate Next(s: State, s': State) { s' == s || exists a :: Step(a, s, s') }

  ghost predicate NextAt(b: seq<State>, k: nat)
    requires k < |b| - 1
  {
    Next(b[k], b[k + 1])
  }

  ghost predicate Behaviour(b: seq<State>) {
    |b| > 0 && b[0] == NOTHING && forall k: nat :: k < |b| - 1 ==> NextAt(b, k)
  }

  // ---- the invariant ----

  ghost predicate KeyInv(s: State, k: Key) {
    && (k in s.folds ==> k in s.latest && s.folds[k] == s.latest[k] && s.latest[k] !in s.verdicts)
    && (k in s.latest ==>
          && s.latest[k] < |s.accepted| && s.accepted[s.latest[k]].key == k
          && (k !in s.folds ==>
                && s.latest[k] in s.verdicts
                && (s.verdicts[s.latest[k]].bad ==> k in s.lastBad && s.lastBad[k] == s.latest[k])))
    && (k in s.lastBad ==>
          && s.lastBad[k] < |s.accepted| && s.accepted[s.lastBad[k]].key == k
          && s.lastBad[k] in s.verdicts && s.verdicts[s.lastBad[k]].bad)
  }

  /** What is accepted, folding and judged fits together. */
  ghost predicate HistoryInv(s: State) {
    && s.core.folding.Keys == s.folds.Keys
    && s.core.n == |s.accepted| && s.core.hw == HighWater(s.accepted)
    && (forall n :: 0 <= n < |s.accepted| ==> s.accepted[n].at != ZERO_TIME)
    && (forall n :: n in s.verdicts ==> n < |s.accepted| && n < s.verdicts[n].after <= |s.accepted|)
    && (forall k {:trigger KeyInv(s, k)} :: KeyInv(s, k))
  }

  /** The window remembers each key's last acceptance and its last bad one until a prune forgets them. */
  ghost predicate WindowInv(s: State, k: Key) {
    && (k in s.core.seen ==>
          && k in s.latest && s.latest[k] < |s.accepted| && s.core.seen[k] == s.accepted[s.latest[k]].at
          && !PrunedSince(s.accepted, s.core.seen[k], s.latest[k]))
    && (k in s.core.bad ==> BadAt(s, k, s.core.bad[k]))
    && (forall t :: BadAt(s, k, t) ==> k in s.core.bad && s.core.bad[k] == t)
  }

  ghost function Handed(s: State): set<nat> { set i | 0 <= i < |s.handed| :: s.handed[i].id }

  /** The copies waiting on a key are duplicates of the transmission it is folding. */
  ghost predicate WaitingInv(s: State) {
    forall k, i :: k in s.core.folding && k in s.folds && 0 <= i < |s.core.folding[k]| ==>
                     var c := s.core.folding[k][i];
                     && c.id in s.copies && s.copies[c.id] == Duplicate(s.folds[k], true, false)
                     && c.id !in s.pending && c.id !in Handed(s)
                     && forall j :: 0 <= j < i ==> s.core.folding[k][j].id != c.id
  }

  /** The flag of a copy is its transmission's verdict, or bad where that reads bad by mistake. */
  ghost predicate Flagged(s: State, id: nat, bad: bool) {
    && id in s.copies && s.copies[id].placed && s.copies[id].of in s.verdicts
    && bad == (s.verdicts[s.copies[id].of].bad || s.copies[id].stained)
  }

  ghost predicate PassedInv(s: State) {
    && (forall id :: id in s.pending ==> Flagged(s, id, s.pending[id]) && id !in Handed(s))
    && (forall i :: 0 <= i < |s.handed| ==> Flagged(s, s.handed[i].id, s.handed[i].bad))
    && (forall i, j :: 0 <= i < j < |s.handed| ==> s.handed[i].id != s.handed[j].id)
  }

  /** The copy waits on the fold of its transmission's key. */
  ghost predicate Waits(s: State, id: nat) {
    && id in s.copies && s.copies[id].of < |s.accepted|
    && var k := s.accepted[s.copies[id].of].key; k in s.core.folding && id in Ids(s.core.folding[k])
  }

  ghost predicate CopyInv(s: State, id: nat) {
    id in s.copies ==>
      && s.copies[id].of < |s.accepted|
      && (s.copies[id].placed ==> Waits(s, id) || id in s.pending || id in Handed(s))
  }

  /** No copy to hand on is lost. */
  ghost predicate NoneLost(s: State) {
    forall id {:trigger CopyInv(s, id)} :: CopyInv(s, id)
  }

  ghost predicate Windows(s: State) {
    forall k {:trigger WindowInv(s, k)} :: WindowInv(s, k)
  }

  ghost predicate Inv(s: State) {
    HistoryInv(s) && Windows(s) && WaitingInv(s) && PassedInv(s) && NoneLost(s)
  }

  // ---- accepting ----

  lemma PrunesBefore(accepted: seq<Acceptance>, x: Acceptance, t: Time, after: nat, m: nat)
    requires m <= |accepted|
    ensures Prunes(accepted + [x], t, after, m) <==> Prunes(accepted, t, after, m)
  {
    assert (accepted + [x])[..m] == accepted[..m];
  }

  lemma PrunesLast(accepted: seq<Acceptance>, x: Acceptance, t: Time, after: nat)
    requires after <= |accepted|
    ensures Prunes(accepted + [x], t, after, |accepted| + 1) <==>
            (|accepted| + 1) % 4096 == 0 && t < Cutoff(HighWater(accepted + [x]))
  {
    assert (accepted + [x])[..|accepted| + 1] == accepted + [x];
  }

  /** One more acceptance prunes what is before the new high water's cutoff, if it prunes at all. */
  lemma PrunedOne(accepted: seq<Acceptance>, x: Acceptance, t: Time, after: nat)
    requires after <= |accepted|
    ensures PrunedSince(accepted + [x], t, after) <==>
            PrunedSince(accepted, t, after)
            || ((|accepted| + 1) % PRUNE_EVERY == 0 && t < Cutoff(HighWater(accepted + [x])))
  {
    PrunesLast(accepted, x, t, after);
    if m: nat :| Prunes(accepted + [x], t, after, m) {
      if m <= |accepted| {
        PrunesBefore(accepted, x, t, after, m);
      }
    }
    if m: nat :| Prunes(accepted, t, after, m) {
      PrunesBefore(accepted, x, t, after, m);
    }
  }

  lemma HighWaterOne(accepted: seq<Acceptance>, x: Acceptance)
    ensures HighWater(accepted + [x]) == if x.at > HighWater(accepted) then x.at else HighWater(accepted)
  {
    assert (accepted + [x])[..|accepted|] == accepted;
  }

  /** What is bad at a time stays so unless the new acceptance's prune forgets it. */
  lemma BadAtAfter(s: State, key: Key, t: Time, k: Key, u: Time)
    requires HistoryInv(s)
    ensures var s' := AfterAccept(s, key, t);
            BadAt(s', k, u) <==> BadAt(s, k, u) && !(s'.core.n % PRUNE_EVERY == 0 && u < Cutoff(s'.core.hw))
  {
    HighWaterOne(s.accepted, Acceptance(key, t));
    assert KeyInv(s, k);
    if k in s.lastBad {
      PrunedOne(s.accepted, Acceptance(key, t), u, s.verdicts[s.lastBad[k]].after);
    }
  }

  lemma AcceptKeepsHistory(s: State, key: Key, t: Time)
    requires HistoryInv(s) && key !in s.folds && t != ZERO_TIME
    ensures HistoryInv(AfterAccept(s, key, t))
  {
    var s' := AfterAccept(s, key, t);
    HighWaterOne(s.accepted, Acceptance(key, t));
    assert s'.core.folding == s.core.folding[key := []];
    forall k
      ensures KeyInv(s', k)
    {
      assert KeyInv(s, k);
    }
  }

  lemma AcceptKeepsWindow(s: State, key: Key, t: Time, k: Key)
    requires HistoryInv(s) && WindowInv(s, k)
    ensures WindowInv(AfterAccept(s, key, t), k)
  {
    var s' := AfterAccept(s, key, t);
    HighWaterOne(s.accepted, Acceptance(key, t));
    assert KeyInv(s, k);
    if k == key {
      PrunedOne(s.accepted, Acceptance(key, t), t, |s.accepted|);
    } else if k in s.core.seen {
      PrunedOne(s.accepted, Acceptance(key, t), s.core.seen[k], s.latest[k]);
    }
    forall u
      ensures BadAt(s', k, u) <==> BadAt(s, k, u) && !(s'.core.n % PRUNE_EVERY == 0 && u < Cutoff(s'.core.hw))
    {
      BadAtAfter(s, key, t, k, u);
    }
  }

  lemma AcceptKeepsCopies(s: State, key: Key, t: Time)
    requires Inv(s) && key !in s.folds
    ensures var s' := AfterAccept(s, key, t); WaitingInv(s') && PassedInv(s') && NoneLost(s')
  {
    var s' := AfterAccept(s, key, t);
    assert s'.core.folding == s.core.folding[key := []];
    assert Handed(s') == Handed(s);
    forall id
      ensures CopyInv(s', id)
    {
      assert CopyInv(s, id);
    }
  }

  lemma AcceptKeeps(s: State, key: Key, t: Time)
    requires Inv(s) && key !in s.folds && t != ZERO_TIME
    ensures Inv(AfterAccept(s, key, t))
  {
    AcceptKeepsHistory(s, key, t);
    AcceptKeepsCopies(s, key, t);
    forall k
      ensures WindowInv(AfterAccept(s, key, t), k)
    {
      assert WindowInv(s, k);
      AcceptKeepsWindow(s, key, t, k);
    }
  }

  // ---- repeating ----

  /** A key whose last acceptance is judged reads bad exactly when that was, or when it is stained. */
  lemma ReadsExactly(s: State, key: Key)
    requires HistoryInv(s) && WindowInv(s, key) && key in s.core.seen && key !in s.folds
    ensures key in s.latest && s.latest[key] in s.verdicts
    ensures ReadsBad(s.core, key, s.core.seen[key]) <==> s.verdicts[s.latest[key]].bad || Stained(s, s.latest[key])
  {
    var n, t := s.latest[key], s.core.seen[key];
    assert KeyInv(s, key);
    if s.verdicts[n].bad {
      assert !PrunedSince(s.accepted, t, s.verdicts[n].after) by {
        forall m
          ensures Prunes(s.accepted, t, s.verdicts[n].after, m) ==> Prunes(s.accepted, t, n, m)
        {
        }
      }
      assert BadAt(s, key, t);
    }
  }

  lemma RepeatKeepsHistory(s: State, key: Key, id: nat, placed: bool)
    requires HistoryInv(s) && Windows(s) && key in s.core.seen && key in s.latest
    ensures var s' := AfterRepeat(s, key, id, placed); HistoryInv(s') && Windows(s')
  {
    var s' := AfterRepeat(s, key, id, placed);
    forall k
      ensures KeyInv(s', k) && WindowInv(s', k)
    {
      assert KeyInv(s, k) && WindowInv(s, k);
      assert forall t :: BadAt(s', k, t) <==> BadAt(s, k, t);
    }
  }

  lemma RepeatKeepsWaiting(s: State, key: Key, id: nat, placed: bool)
    requires Inv(s) && key in s.core.seen && key in s.latest && id !in s.copies
    ensures WaitingInv(AfterRepeat(s, key, id, placed))
  {
    assert KeyInv(s, key) && CopyInv(s, id);
    assert Handed(AfterRepeat(s, key, id, placed)) == Handed(s);
  }

  lemma RepeatKeepsPassed(s: State, key: Key, id: nat, placed: bool)
    requires Inv(s) && key in s.core.seen && key in s.latest && id !in s.copies
    ensures PassedInv(AfterRepeat(s, key, id, placed))
  {
    assert WindowInv(s, key);
    if key !in s.core.folding {
      ReadsExactly(s, key);
    }
    assert Handed(AfterRepeat(s, key, id, placed)) == Handed(s);
  }

  lemma RepeatKeepsAll(s: State, key: Key, id: nat, placed: bool)
    requires Inv(s) && key in s.core.seen && key in s.latest && id !in s.copies
    ensures NoneLost(AfterRepeat(s, key, id, placed))
  {
    var s' := AfterRepeat(s, key, id, placed);
    var f: map<Key, seq<Copy>>, f': map<Key, seq<Copy>> := s.core.folding, s'.core.folding;
    assert KeyInv(s, key) && Handed(s') == Handed(s);
    if key in f && placed {
      assert f'[key][|f[key]|] == Copy(id, s.core.seen[key]);
    }
    forall d: nat
      ensures CopyInv(s', d)
    {
      assert CopyInv(s, d);
      if d != id && Waits(s, d) {
        var k := s.accepted[s.copies[d].of].key;
        var i :| 0 <= i < |f[k]| && f[k][i].id == d;
        assert f'[k][i].id == d;
      }
    }
  }

  // ---- settling ----

  lemma SettleKeepsHistory(s: State, key: Key, verdict: bool)
    requires HistoryInv(s) && key in s.folds && s.folds[key] < |s.accepted|
    ensures HistoryInv(AfterSettle(s, key, verdict))
  {
    var s' := AfterSettle(s, key, verdict);
    forall k
      ensures KeyInv(s', k)
    {
      assert KeyInv(s, k) && KeyInv(s, key);
    }
  }

  lemma SettleKeepsWindow(s: State, key: Key, verdict: bool, k: Key)
    requires HistoryInv(s) && WindowInv(s, k) && key in s.folds && s.folds[key] < |s.accepted|
    ensures WindowInv(AfterSettle(s, key, verdict), k)
  {
    var s' := AfterSettle(s, key, verdict);
    var t := s.accepted[s.folds[key]].at;
    assert KeyInv(s, k) && KeyInv(s, key);
    assert !PrunedSince(s.accepted, t, |s.accepted|);
    forall u
      ensures BadAt(s', k, u) <==> if k == key && verdict then u == t else BadAt(s, k, u)
    {
    }
  }

  lemma SettleKeepsWaiting(s: State, key: Key, verdict: bool)
    requires Inv(s) && key in s.folds && s.folds[key] < |s.accepted|
    ensures WaitingInv(AfterSettle(s, key, verdict))
  {
    var s' := AfterSettle(s, key, verdict);
    forall k, i | k in s'.core.folding && k in s'.folds && 0 <= i < |s'.core.folding[k]|
      ensures s'.core.folding[k][i].id !in s'.pending
    {
      assert KeyInv(s, k) && KeyInv(s, key);
    }
    assert Handed(s') == Handed(s);
  }

  lemma SettleKeepsPassed(s: State, key: Key, verdict: bool)
    requires Inv(s) && key in s.folds && s.folds[key] < |s.accepted|
    ensures PassedInv(AfterSettle(s, key, verdict))
  {
    assert KeyInv(s, key);
    assert Handed(AfterSettle(s, key, verdict)) == Handed(s);
  }

  lemma SettleKeepsAll(s: State, key: Key, verdict: bool)
    requires Inv(s) && key in s.folds && s.folds[key] < |s.accepted|
    ensures NoneLost(AfterSettle(s, key, verdict))
  {
    var s' := AfterSettle(s, key, verdict);
    assert Handed(s') == Handed(s);
    forall d: nat
      ensures CopyInv(s', d)
    {
      assert CopyInv(s, d);
    }
  }

  lemma SettleKeeps(s: State, key: Key, verdict: bool)
    requires Inv(s) && key in s.folds && s.folds[key] < |s.accepted|
    ensures Inv(AfterSettle(s, key, verdict))
  {
    SettleKeepsHistory(s, key, verdict);
    forall k
      ensures WindowInv(AfterSettle(s, key, verdict), k)
    {
      assert WindowInv(s, k);
      SettleKeepsWindow(s, key, verdict, k);
    }
    SettleKeepsWaiting(s, key, verdict);
    SettleKeepsPassed(s, key, verdict);
    SettleKeepsAll(s, key, verdict);
  }

  // ---- handing on ----

  lemma HandedOne(s: State, id: nat)
    requires id in s.pending
    ensures Handed(AfterHand(s, id)) == Handed(s) + {id}
  {
    var s' := AfterHand(s, id);
    assert s'.handed[|s.handed|].id == id;
    forall d: nat | d in Handed(s)
      ensures d in Handed(s')
    {
      var i :| 0 <= i < |s.handed| && s.handed[i].id == d;
      assert s'.handed[i].id == d;
    }
  }

  lemma HandKeepsWindows(s: State, id: nat)
    requires HistoryInv(s) && Windows(s) && id in s.pending
    ensures HistoryInv(AfterHand(s, id)) && Windows(AfterHand(s, id))
  {
    var s' := AfterHand(s, id);
    forall k
      ensures KeyInv(s', k) && WindowInv(s', k)
    {
      assert KeyInv(s, k) && WindowInv(s, k);
      assert forall t :: BadAt(s', k, t) <==> BadAt(s, k, t);
    }
  }

  lemma HandKeepsCopies(s: State, id: nat)
    requires Inv(s) && id in s.pending
    ensures var s' := AfterHand(s, id); WaitingInv(s') && PassedInv(s') && NoneLost(s')
  {
    var s' := AfterHand(s, id);
    HandedOne(s, id);
    forall d: nat
      ensures CopyInv(s', d)
    {
      assert CopyInv(s, d);
      assert Waits(s, d) ==> Waits(s', d);
    }
  }

  // ---- what it promises ----

  lemma NothingInv()
    ensures Inv(NOTHING)
  {
    assert HistoryInv(NOTHING) && Windows(NOTHING) && NoneLost(NOTHING);
  }

  lemma StepKeeps(a: Action, s: State, s': State)
    requires Inv(s) && Step(a, s, s')
    ensures Inv(s')
  {
    match a
    case Accept(key, e) => AcceptKeeps(s, key, EventTime(e));
    case Repeat(key, t, id, placed) =>
      RepeatKeepsHistory(s, key, id, placed);
      RepeatKeepsWaiting(s, key, id, placed);
      RepeatKeepsPassed(s, key, id, placed);
      RepeatKeepsAll(s, key, id, placed);
    case Settle(key, verdict) => SettleKeeps(s, key, verdict);
    case Hand(id) =>
      HandKeepsWindows(s, id);
      HandKeepsCopies(s, id);
  }

  lemma BehaviourInv(b: seq<State>, k: nat)
    requires Behaviour(b) && k < |b|
    ensures Inv(b[k])
  {
    if k == 0 {
      NothingInv();
    } else {
      BehaviourInv(b, k - 1);
      assert NextAt(b, k - 1);
      if b[k] != b[k - 1] {
        var a :| Step(a, b[k - 1], b[k]);
        StepKeeps(a, b[k - 1], b[k]);
      }
    }
  }

  /** Whatever is handed on is a copy whose transmission has its verdict by then, no copy is handed on twice, and its
      flag is bad exactly when that verdict was or, as the copy came, an earlier transmission of its key and time was
      the last of the key judged bad and no prune had forgotten it. */
  lemma HandedOnceWithTheVerdict(b: seq<State>, k: nat, i: nat)
    requires Behaviour(b) && k < |b| && i < |b[k].handed|
    ensures var h := b[k].handed[i];
            && h.id in b[k].copies && b[k].copies[h.id].placed && b[k].copies[h.id].of in b[k].verdicts
            && (h.bad <==> b[k].verdicts[b[k].copies[h.id].of].bad || b[k].copies[h.id].stained)
            && forall j :: 0 <= j < |b[k].handed| && b[k].handed[j].id == h.id ==> j == i
  {
    BehaviourInv(b, k);
  }

  /** A copy that comes repeats the key's last acceptance, and stays what it was. */
  lemma CopyStays(b: seq<State>, j: nat, k: nat, id: nat)
    requires Behaviour(b) && j < k < |b| && id !in b[j].copies && id in b[j + 1].copies
    ensures id in b[k].copies && b[k].copies[id] == b[j + 1].copies[id]
    decreases k
  {
    assert NextAt(b, k - 1);
    if j + 1 < k {
      CopyStays(b, j, k - 1, id);
    }
  }

  /** What a copy is flagged by, told from the state it came to. */
  lemma FlaggedExactly(b: seq<State>, j: nat, k: nat, i: nat)
    requires Behaviour(b) && j < k < |b| && i < |b[k].handed|
    requires b[k].handed[i].id !in b[j].copies && b[k].handed[i].id in b[j + 1].copies
    ensures b[k].handed[i].id in b[k].copies
    ensures var n := b[k].copies[b[k].handed[i].id].of;
            && n in b[k].verdicts
            && (b[k].handed[i].bad <==> b[k].verdicts[n].bad || Stained(b[j], n))
  {
    var id := b[k].handed[i].id;
    HandedOnceWithTheVerdict(b, k, i);
    CopyStays(b, j, k, id);
    BehaviourInv(b, j);
    assert NextAt(b, j);
    var a :| Step(a, b[j], b[j + 1]);
    assert KeyInv(b[j], a.key);
  }

  /** Once no fold is under way and nothing is past the lock, every copy with a position has been handed on. */
  lemma EveryCopyHanded(b: seq<State>, k: nat, id: nat)
    requires Behaviour(b) && k < |b| && b[k].folds == map[] && b[k].pending == map[]
    requires id in b[k].copies && b[k].copies[id].placed
    ensures exists i :: 0 <= i < |b[k].handed| && b[k].handed[i].id == id
  {
    BehaviourInv(b, k);
    assert b[k].core.folding.Keys == {};
    assert CopyInv(b[k], id);
    assert id in Handed(b[k]);
  }

  // ---- one reception at a time ----

  /** Who holds order: nobody, or a reception, between events, folding the one it just had accepted, or writing
      what emit or settleFold writes past the lock. */
  datatype Turn = Free | Between(recv: Time) | Folding(recv: Time, key: Key) | Writing(recv: Time)

  datatype Ordered = Ordered(s: State, turn: Turn)

  datatype Move =
    | Admit(recv: Time)
    | Release
    | EmitNew(key: Key, stamps: Stamps)
    | EmitCopy(key: Key, stamps: Stamps, id: nat, placed: bool)
    | Judge(verdict: bool)
    | Write(id: nat)
    | Return

  ghost predicate Allowed(m: Move, o: Ordered) {
    match m
    case Admit(recv) => o.turn.Free? && recv != ZERO_TIME
    case Release => o.turn.Between?
    case EmitNew(key, e) => o.turn.Between? && e.recv == o.turn.recv && !Duplicates(o.s.core, key, EventTime(e))
    case EmitCopy(key, e, id, placed) =>
      o.turn.Between? && e.recv == o.turn.recv && Duplicates(o.s.core, key, EventTime(e)) && id !in o.s.copies
        && key in o.s.latest
    case Judge(_) => o.turn.Folding? && o.turn.key in o.s.folds && o.s.folds[o.turn.key] < |o.s.accepted|
    case Write(id) => o.turn.Writing? && id in o.s.pending
    case Return => o.turn.Writing? && o.s.pending == map[]
  }

  ghost function Moved(m: Move, o: Ordered): Ordered
    requires Allowed(m, o)
  {
    match m
    case Admit(recv) => o.(turn := Between(recv))
    case Release => o.(turn := Free)
    case EmitNew(key, e) => Ordered(AfterAccept(o.s, key, EventTime(e)), Folding(e.recv, key))
    case EmitCopy(key, e, id, placed) => Ordered(AfterRepeat(o.s, key, id, placed), Writing(e.recv))
    case Judge(verdict) => Ordered(AfterSettle(o.s, o.turn.key, verdict), Writing(o.turn.recv))
    case Write(id) => o.(s := AfterHand(o.s, id))
    case Return => o.(turn := Between(o.turn.recv))
  }

  const AT_REST := Ordered(NOTHING, Free)

  ghost predicate MovesAt(b: seq<Ordered>, k: nat)
    requires k < |b| - 1
  {
    exists m :: Allowed(m, b[k]) && b[k + 1] == Moved(m, b[k])
  }

  ghost predicate OrderedBehaviour(b: seq<Ordered>) {
    |b| > 0 && b[0] == AT_REST && forall k: nat :: k < |b| - 1 ==> MovesAt(b, k)
  }

  /** Only the reception folding has a fold under way, none writes but under order, and no copy ever waits. */
  ghost predicate TurnInv(o: Ordered) {
    && (o.turn.Folding? ==> o.s.folds.Keys == {o.turn.key} && o.s.pending == map[])
    && (!o.turn.Folding? ==> o.s.folds == map[])
    && (!o.turn.Writing? ==> o.s.pending == map[])
    && (!o.turn.Free? ==> o.turn.recv != ZERO_TIME)
    && o.s.core.folding.Keys == o.s.folds.Keys
    && forall k :: k in o.s.core.folding ==> o.s.core.folding[k] == []
  }

  lemma MoveKeeps(m: Move, o: Ordered)
    requires TurnInv(o) && Allowed(m, o)
    ensures TurnInv(Moved(m, o)) && Next(o.s, Moved(m, o).s)
  {
    match m
    case Admit(_) =>
    case Release =>
    case EmitNew(key, e) =>
      assert Step(Accept(key, e), o.s, Moved(m, o).s);
    case EmitCopy(key, e, id, placed) => assert Step(Repeat(key, EventTime(e), id, placed), o.s, Moved(m, o).s);
    case Judge(verdict) => assert Step(Settle(o.turn.key, verdict), o.s, Moved(m, o).s);
    case Write(id) => assert Step(Hand(id), o.s, Moved(m, o).s);
    case Return =>
  }

  function States(b: seq<Ordered>): seq<State> {
    seq(|b|, i requires 0 <= i < |b| => b[i].s)
  }

  lemma TurnAt(b: seq<Ordered>, k: nat)
    requires OrderedBehaviour(b) && k < |b|
    ensures TurnInv(b[k])
  {
    if k > 0 {
      TurnAt(b, k - 1);
      assert MovesAt(b, k - 1);
      var m :| Allowed(m, b[k - 1]) && b[k] == Moved(m, b[k - 1]);
      MoveKeeps(m, b[k - 1]);
    }
  }

  /** Receptions one at a time are a behaviour in which each fold settles before its key is accepted again. */
  lemma OrderedRefines(b: seq<Ordered>)
    requires OrderedBehaviour(b)
    ensures Behaviour(States(b)) && forall k :: 0 <= k < |b| ==> TurnInv(b[k])
  {
    forall k: nat | k < |b|
      ensures TurnInv(b[k])
    {
      TurnAt(b, k);
    }
    forall k: nat | k < |b| - 1
      ensures NextAt(States(b), k)
    {
      assert MovesAt(b, k);
      var m :| Allowed(m, b[k]) && b[k + 1] == Moved(m, b[k]);
      MoveKeeps(m, b[k]);
    }
  }

  /** Between receptions every copy with a position has been handed on, once, bad exactly when its transmission was
      judged so or was stained as the copy came. */
  lemma OrderedCopies(b: seq<Ordered>, j: nat, k: nat, id: nat)
    requires OrderedBehaviour(b) && j < k < |b| && b[k].turn.Free?
    requires id !in b[j].s.copies && id in b[j + 1].s.copies && b[j + 1].s.copies[id].placed
    ensures var n := b[j + 1].s.copies[id].of;
            && n in b[k].s.verdicts
            && exists i :: 0 <= i < |b[k].s.handed| && b[k].s.handed[i].id == id
                           && (b[k].s.handed[i].bad <==> b[k].s.verdicts[n].bad || Stained(b[j].s, n))
                           && forall h :: 0 <= h < |b[k].s.handed| && b[k].s.handed[h].id == id ==> h == i
  {
    var c := States(b);
    OrderedRefines(b);
    assert c[k] == b[k].s && c[j] == b[j].s && c[j + 1] == b[j + 1].s;
    CopyStays(c, j, k, id);
    EveryCopyHanded(c, k, id);
    var i :| 0 <= i < |c[k].handed| && c[k].handed[i].id == id;
    HandedOnceWithTheVerdict(c, k, i);
    FlaggedExactly(c, j, k, i);
  }

  // ---- a key and time accepted twice ----

  const RECV: Time := 1_000_000_000_000

  ghost function Last(b: seq<Ordered>): Ordered
    requires b != []
  {
    b[|b| - 1]
  }

  lemma MoveOn(b: seq<Ordered>, m: Move) returns (more: seq<Ordered>)
    requires OrderedBehaviour(b) && Allowed(m, Last(b))
    ensures OrderedBehaviour(more) && Last(more) == Moved(m, Last(b))
  {
    more := b + [Moved(m, Last(b))];
    forall k: nat | k < |more| - 1
      ensures MovesAt(more, k)
    {
      if k < |b| - 1 {
        assert MovesAt(b, k);
        assert more[k] == b[k] && more[k + 1] == b[k + 1];
      } else {
        assert Allowed(m, more[k]) && more[k + 1] == Moved(m, more[k]);
      }
    }
  }

  /** What one transmission accepted and judged leaves, far from any prune. */
  ghost function AcceptedAndJudged(s: State, key: Key, t: Time, verdict: bool): State {
    var n := |s.accepted|;
    s.(core := Core(s.core.seen[key := t], if verdict then s.core.bad[key := t] else s.core.bad, map[],
                    if t > s.core.hw then t else s.core.hw, s.core.n + 1),
       accepted := s.accepted + [Acceptance(key, t)],
       latest := s.latest[key := n],
       folds := s.folds[key := n] - {key},
       verdicts := s.verdicts[n := Verdict(verdict, n + 1)],
       lastBad := if verdict then s.lastBad[key := n] else s.lastBad)
  }

  lemma JudgedIs(s: State, key: Key, t: Time, verdict: bool)
    requires |s.accepted| < PRUNE_EVERY - 1 && s.core.n == |s.accepted| && s.core.folding == map[] && s.pending == map[]
    ensures AfterSettle(AfterAccept(s, key, t), key, verdict) == AcceptedAndJudged(s, key, t, verdict)
  {
    var a := AfterAccept(s, key, t);
    assert a.core.folding == map[key := []] && a.core.folding - {key} == map[];
    assert Ids([]) == {};
  }

  /** One transmission accepted and judged. */
  lemma Accepting(b: seq<Ordered>, key: Key, t: Time, verdict: bool) returns (more: seq<Ordered>)
    requires OrderedBehaviour(b) && Last(b).turn == Between(RECV) && Last(b).s.pending == map[]
    requires ZERO_TIME < t < RECV && !Duplicates(Last(b).s.core, key, t) && |Last(b).s.accepted| < PRUNE_EVERY - 1
    requires Last(b).s.core.n == |Last(b).s.accepted| && Last(b).s.core.folding == map[]
    ensures OrderedBehaviour(more)
    ensures Last(more) == Ordered(AcceptedAndJudged(Last(b).s, key, t, verdict), Between(RECV))
  {
    JudgedIs(Last(b).s, key, t, verdict);
    more := MoveOn(b, EmitNew(key, Packet(t, RECV)));
    more := MoveOn(more, Judge(verdict));
    more := MoveOn(more, Return);
  }

  /** A key accepted at one time and judged bad, at another and judged good, and at the first again and judged good:
      a copy of the last is flagged bad. */
  lemma SameTimeMisflags(key: Key) returns (b: seq<Ordered>)
    ensures OrderedBehaviour(b)
    ensures var s := Last(b).s;
            && s.accepted == [Acceptance(key, 500_000_000_000), Acceptance(key, 510_000_000_000),
               Acceptance(key, 500_000_000_000)]
            && 0 in s.copies && s.copies[0].of == 2 && 2 in s.verdicts && !s.verdicts[2].bad
            && s.handed == [Handing(0, true)]
  {
    b := MoveOn([AT_REST], Admit(RECV));
    b := Accepting(b, key, 500_000_000_000, true);
    b := Accepting(b, key, 510_000_000_000, false);
    b := Accepting(b, key, 500_000_000_000, false);
    b := MoveOn(b, EmitCopy(key, Packet(500_000_000_000, RECV), 0, true));
    b := MoveOn(b, Write(0));
  }
}
