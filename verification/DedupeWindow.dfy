/** The dedupe window and the copies waiting on a verdict: emit's own lock sections (server/pipeline.go). Times are
    nanoseconds since the zero time. */
module DedupeWindow {
  type Key = string  // payload and channel
  type Time = int

  const DEDUPE_WINDOW: int := 10_000_000_000
  const PRUNE_EVERY: nat := 4096
  const ZERO_TIME: Time := 0

  /** A copy of an accepted transmission: which copy, and the transmission's acceptance time. */
  datatype Copy = Copy(id: nat, tx: Time)

  /** What mu guards: the time each key was last accepted, the transmissions judged bad, the copies waiting for
      each fold under way, the newest event time, and the count of acceptances. */
  datatype Core = Core(seen: map<Key, Time>, bad: map<Key, Time>, folding: map<Key, seq<Copy>>, hw: Time, n: nat)

  const FRESH := Core(map[], map[], map[], ZERO_TIME, 0)

  function Abs(d: int): (a: int)
    ensures a >= 0 && (a == d || a == -d)
  {
    if d < 0 then -d else d
  }

  /** The event repeats what the window holds. */
  predicate Duplicates(c: Core, key: Key, t: Time) {
    key in c.seen && Abs(t - c.seen[key]) < DEDUPE_WINDOW
  }

  function Cutoff(hw: Time): Time { hw - 6 * DEDUPE_WINDOW }

  function Since(m: map<Key, Time>, cutoff: Time): map<Key, Time> { map k | k in m && m[k] >= cutoff :: m[k] }

  function Pruned(c: Core): Core {
    c.(seen := Since(c.seen, Cutoff(c.hw)), bad := Since(c.bad, Cutoff(c.hw)))
  }

  /** Accepting an event, with the prune every 4,096th acceptance brings. */
  function Accepted(c: Core, key: Key, t: Time, attached: bool): Core {
    var folding := if attached then c.folding[key := []] else c.folding;
    var hw := if t > c.hw then t else c.hw;
    var d := Core(c.seen[key := t], c.bad, folding, hw, c.n + 1);
    if d.n % PRUNE_EVERY == 0 then Pruned(d) else d
  }

  /** The verdict the window remembers for a transmission; a key it holds no bad time for reads as the zero time. */
  predicate ReadsBad(c: Core, key: Key, tx: Time) {
    (if key in c.bad then c.bad[key] else ZERO_TIME) == tx
  }

  /** A duplicate waits when its transmission is still folding, if it carries a position at all. */
  function Repeated(c: Core, key: Key, id: nat, placed: bool, attached: bool): Core {
    if key in c.folding && attached && key in c.seen && placed
    then c.(folding := c.folding[key := c.folding[key] + [Copy(id, c.seen[key])]])
    else c
  }

  /** The fold's verdict: the waiting copies leave with it, and a bad one is remembered. */
  function Settled(c: Core, key: Key, tx: Time, verdict: bool): Core {
    c.(folding := c.folding - {key}, bad := if verdict then c.bad[key := tx] else c.bad)
  }

  /** What a lock section of emit decided. */
  datatype Outcome = New | Held | Note(tx: Time, bad: bool)

  /** Deletes every entry before the cutoff, in any order. */
  method DropBefore(m: map<Key, Time>, cutoff: Time) returns (r: map<Key, Time>)
    ensures r == Since(m, cutoff)
  {
    r := m;
    var left := m.Keys;
    while left != {}
      invariant left <= m.Keys
      invariant forall k :: k in r <==> k in m && (k in left || m[k] >= cutoff)
      invariant forall k :: k in r ==> r[k] == m[k]
      decreases |left|
    {
      var k :| k in left;
      left := left - {k};
      if m[k] < cutoff {
        r := r - {k};
      }
    }
  }

  class Deduper {
    var seen: map<Key, Time>
    var bad: map<Key, Time>
    var folding: map<Key, seq<Copy>>
    var seenHW: Time
    var nSeen: nat
    var attached: bool  // ClickHouse is attached

    ghost function State(): Core
      reads this
    {
      Core(seen, bad, folding, seenHW, nSeen)
    }

    constructor (attached: bool)
      ensures State() == FRESH && this.attached == attached
    {
      seen, bad, folding, seenHW, nSeen := map[], map[], map[], ZERO_TIME, 0;
      this.attached := attached;
    }

    method Prune()
      modifies this`seen, this`bad
      ensures State() == Pruned(old(State()))
    {
      var cutoff := seenHW - 6 * DEDUPE_WINDOW;
      seen := DropBefore(seen, cutoff);
      bad := DropBefore(bad, cutoff);
    }

    /** The section's second half: the event is new. */
    method Accept(key: Key, t: Time)
      modifies this
      ensures attached == old(attached)
      ensures State() == Accepted(old(State()), key, t, attached)
    {
      seen := seen[key := t];
      if attached {
        folding := folding[key := []];
      }
      if t > seenHW {
        seenHW := t;
      }
      nSeen := nSeen + 1;
      if nSeen % PRUNE_EVERY == 0 {
        Prune();
      }
    }

    /** emit's section under mu: whether the event is new, and otherwise what becomes of the copy. */
    method Emit(key: Key, t: Time, id: nat, placed: bool) returns (out: Outcome)
      modifies this
      ensures attached == old(attached)
      ensures out.New? <==> !Duplicates(old(State()), key, t)
      ensures out.New? ==> State() == Accepted(old(State()), key, t, attached)
      ensures !out.New? ==> State() == Repeated(old(State()), key, id, placed, attached)
      ensures out.Held? <==> Duplicates(old(State()), key, t) && key in old(folding) && attached
      ensures out.Note? ==> out.tx == old(seen)[key] && out.bad == ReadsBad(old(State()), key, old(seen)[key])
    {
      if key in seen && Abs(t - seen[key]) < DEDUPE_WINDOW {
        var prev := seen[key];
        var judged := (if key in bad then bad[key] else ZERO_TIME) == prev;
        if key in folding && attached {
          if placed {
            folding := folding[key := folding[key] + [Copy(id, prev)]];
          }
          return Held;
        }
        return Note(prev, judged);
      }
      Accept(key, t);
      out := New;
    }

    /** settleFold's section under mu. */
    method SettleFold(key: Key, tx: Time, verdict: bool) returns (waiting: seq<Copy>)
      modifies this
      ensures State() == Settled(old(State()), key, tx, verdict) && attached == old(attached)
      ensures waiting == if key in old(folding) then old(folding)[key] else []
    {
      waiting := if key in folding then folding[key] else [];
      folding := folding - {key};
      if verdict {
        bad := bad[key := tx];
      }
    }
  }
}
