/** The window saved on shutdown and restored at start (server/dedupe_state.go), and what bounding it costs. */
module DedupeState {
  import opened DedupeWindow
  import opened Options

  /** How keys and times are written to the file: base64 and RFC 3339. */
  datatype Codec = Codec(key: Key -> string, unkey: string -> Option<Key>, time: Time -> string,
          untime: string -> Option<Time>)

  ghost predicate ReadsBack(c: Codec) {
    (forall k :: c.unkey(c.key(k)) == Some(k)) && forall t :: c.untime(c.time(t)) == Some(t)
  }

  /** The file. */
  datatype Saved = Saved(hw: Time, seen: map<string, string>)

  method SaveDedupe(p: Deduper, codec: Codec) returns (st: Saved)
    requires ReadsBack(codec)
    ensures st.hw == p.seenHW
    ensures forall s :: s in st.seen <==> exists k :: k in p.seen && p.seen[k] >= Cutoff(p.seenHW) && s == codec.key(k)
    ensures forall k :: k in p.seen && p.seen[k] >= Cutoff(p.seenHW) ==>
            codec.key(k) in st.seen && st.seen[codec.key(k)] == codec.time(p.seen[k])
  {
    var cutoff := p.seenHW - 6 * DEDUPE_WINDOW;
    var seen: map<string, string> := map[];
    var left := p.seen.Keys;
    while left != {}
      invariant left <= p.seen.Keys
      invariant forall s :: s in seen <==> exists k ::
                k in p.seen && k !in left && p.seen[k] >= cutoff && s == codec.key(k)
      invariant forall k :: k in p.seen && k !in left && p.seen[k] >= cutoff ==>
                codec.key(k) in seen && seen[codec.key(k)] == codec.time(p.seen[k])
      decreases |left|
    {
      var k :| k in left;
      left := left - {k};
      assert codec.unkey(codec.key(k)) == Some(k);
      if p.seen[k] >= cutoff {
        seen := seen[codec.key(k) := codec.time(p.seen[k])];
      }
    }
    st := Saved(p.seenHW, seen);
  }

  /** An entry that reads, and is the only one of its key. */
  ghost predicate Readable(codec: Codec, seen: map<string, string>, s: string) {
    && s in seen && codec.unkey(s).Some? && codec.untime(seen[s]).Some?
    && forall r :: r in seen && codec.unkey(r) == codec.unkey(s) ==> r == s
  }

  /** Some entry of the file is of the key. */
  ghost predicate Names(codec: Codec, seen: map<string, string>, k: Key) {
    exists s :: s in seen && codec.unkey(s) == Some(k)
  }

  ghost predicate KeyLoaded(codec: Codec, seen: map<string, string>, was: map<Key, Time>, now: map<Key, Time>, k: Key) {
    && (k in was ==> k in now)
    && (k in now ==> k in was || Names(codec, seen, k))
    && (k in was && !Names(codec, seen, k) ==> now[k] == was[k])
  }

  ghost predicate EntryLoaded(codec: Codec, seen: map<string, string>, now: map<Key, Time>, s: string)
    requires Readable(codec, seen, s)
  {
    codec.unkey(s).value in now && now[codec.unkey(s).value] == codec.untime(seen[s]).value
  }

  /** The entries of a file but those left are in the window, with what it held of other keys. */
  ghost predicate Loaded(codec: Codec, seen: map<string, string>, left: set<string>, was: map<Key, Time>,
        now: map<Key, Time>)
  {
    && (forall k {:trigger KeyLoaded(codec, seen, was, now, k)} :: KeyLoaded(codec, seen, was, now, k))
    && forall s {:trigger Readable(codec, seen, s)} :: s !in left && Readable(codec, seen, s) ==>
       EntryLoaded(codec, seen, now, s)
  }

  lemma LoadedOne(codec: Codec, seen: map<string, string>, left: set<string>, was: map<Key, Time>, now: map<Key, Time>,
          s: string)
    requires Loaded(codec, seen, left, was, now) && s in seen
    ensures var k, t := codec.unkey(s), codec.untime(seen[s]);
            Loaded(codec, seen, left - {s}, was, if k.Some? && t.Some? then now[k.value := t.value] else now)
  {
    var k, t := codec.unkey(s), codec.untime(seen[s]);
    var more := if k.Some? && t.Some? then now[k.value := t.value] else now;
    forall j
      ensures KeyLoaded(codec, seen, was, more, j)
    {
      assert KeyLoaded(codec, seen, was, now, j);
    }
    forall r | r !in left - {s} && Readable(codec, seen, r)
      ensures EntryLoaded(codec, seen, more, r)
    {
      assert r != s ==> codec.unkey(r) != k;
    }
  }

  /** Adds a file's entries to the window, skipping what does not read. */
  method LoadDedupe(p: Deduper, codec: Codec, st: Saved)
    modifies p`seen, p`seenHW
    ensures p.seenHW == if st.hw > old(p.seenHW) then st.hw else old(p.seenHW)
    ensures Loaded(codec, st.seen, {}, old(p.seen), p.seen)
  {
    ghost var was := p.seen;
    var left := st.seen.Keys;
    assert forall k :: KeyLoaded(codec, st.seen, was, p.seen, k);
    while left != {}
      invariant left <= st.seen.Keys && p.seenHW == old(p.seenHW)
      invariant Loaded(codec, st.seen, left, was, p.seen)
      decreases |left|
    {
      var s :| s in left;
      LoadedOne(codec, st.seen, left, was, p.seen, s);
      left := left - {s};
      var k := codec.unkey(s);
      var t := codec.untime(st.seen[s]);
      if k.Some? && t.Some? {
        p.seen := p.seen[k.value := t.value];
      }
    }
    if st.hw > p.seenHW {
      p.seenHW := st.hw;
    }
  }

  /** What a restart keeps: the window's entries and its high water, and nothing else. */
  function Restarted(c: Core): Core { FRESH.(seen := Pruned(c).seen, hw := c.hw) }

  /** A clean shutdown and the start after it: the new window is the old one, pruned once. */
  method Redeploy(p: Deduper, codec: Codec) returns (q: Deduper)
    requires ReadsBack(codec) && p.seenHW >= ZERO_TIME
    ensures fresh(q) && q.State() == Restarted(p.State())
  {
    var st := SaveDedupe(p, codec);
    q := new Deduper(p.attached);
    LoadDedupe(q, codec, st);
    forall k | k in p.seen && p.seen[k] >= Cutoff(p.seenHW)
      ensures k in q.seen && q.seen[k] == p.seen[k]
    {
      assert codec.unkey(codec.key(k)) == Some(k);
      assert codec.untime(codec.time(p.seen[k])) == Some(p.seen[k]);
      assert Readable(codec, st.seen, codec.key(k)) by {
        forall r | r in st.seen && codec.unkey(r) == Some(k)
          ensures r == codec.key(k)
        {
          var j :| j in p.seen && p.seen[j] >= Cutoff(p.seenHW) && r == codec.key(j);
          assert codec.unkey(codec.key(j)) == Some(j);
        }
      }
    }
    forall k | k in q.seen
      ensures k in p.seen && p.seen[k] >= Cutoff(p.seenHW)
    {
      assert KeyLoaded(codec, st.seen, map[], q.seen, k);
      var r :| r in st.seen && codec.unkey(r) == Some(k);
      var j :| j in p.seen && p.seen[j] >= Cutoff(p.seenHW) && r == codec.key(j);
      assert codec.unkey(codec.key(j)) == Some(j);
    }
    assert q.seen == Since(p.seen, Cutoff(p.seenHW));
  }

  // ---- the bounded window against an unbounded one ----

  /** A run: events in the order they come, a prune or a restart anywhere between them. */
  datatype Op = Event(key: Key, t: Time) | Prune | Restart

  function Run(c: Core, op: Op): Core {
    match op
    case Event(key, t) => if Duplicates(c, key, t) then c else Accepted(c, key, t, false)
    case Prune => Pruned(c)
    case Restart => Restarted(c)
  }

  /** Which events the server accepts. */
  function Verdicts(c: Core, ops: seq<Op>): seq<bool>
    decreases |ops|
  {
    if ops == [] then []
    else (if ops[0].Event? then [!Duplicates(c, ops[0].key, ops[0].t)] else []) + Verdicts(Run(c, ops[0]), ops[1..])
  }

  /** A window that is never pruned and never restarted. */
  datatype Window = Window(seen: map<Key, Time>, hw: Time)

  predicate Repeats(w: Window, key: Key, t: Time) { key in w.seen && Abs(t - w.seen[key]) < DEDUPE_WINDOW }

  function Take(w: Window, op: Op): Window {
    match op
    case Event(key, t) => if Repeats(w, key, t) then w else Window(w.seen[key := t], if t > w.hw then t else w.hw)
    case _ => w
  }

  function Ideal(w: Window, ops: seq<Op>): seq<bool>
    decreases |ops|
  {
    if ops == [] then []
    else (if ops[0].Event? then [!Repeats(w, ops[0].key, ops[0].t)] else []) + Ideal(Take(w, ops[0]), ops[1..])
  }

  /** Every event is stamped at most lag behind the newest accepted before it. */
  predicate Within(lag: int, w: Window, ops: seq<Op>)
    decreases |ops|
  {
    ops == [] || ((ops[0].Event? ==> ops[0].t >= w.hw - lag) && Within(lag, Take(w, ops[0]), ops[1..]))
  }

  /** The bounded window lacks only entries too old for any event still to come to repeat. */
  ghost predicate Covers(c: Core, w: Window) {
    && c.hw == w.hw
    && (forall k :: k in c.seen ==> k in w.seen && w.seen[k] == c.seen[k])
    && (forall k :: k in w.seen && k !in c.seen ==> w.seen[k] < Cutoff(w.hw))
  }

  lemma RunCovers(c: Core, w: Window, op: Op)
    requires Covers(c, w)
    requires op.Event? ==> (Duplicates(c, op.key, op.t) <==> Repeats(w, op.key, op.t))
    ensures Covers(Run(c, op), Take(w, op))
  {
  }

  /** The greatest lag at which the bounded window decides as the unbounded one does. */
  const MAX_LAG: int := 5 * DEDUPE_WINDOW + 1

  lemma {:induction false} VerdictsIdeal(c: Core, w: Window, ops: seq<Op>, lag: int)
    requires Covers(c, w) && Within(lag, w, ops) && lag <= MAX_LAG
    ensures Verdicts(c, ops) == Ideal(w, ops)
    decreases |ops|
  {
    if ops != [] {
      RunCovers(c, w, ops[0]);
      VerdictsIdeal(Run(c, ops[0]), Take(w, ops[0]), ops[1..], lag);
    }
  }

  const NOTHING := Window(map[], ZERO_TIME)

  /** Every run within the lag is decided as if nothing were ever forgotten. */
  ghost predicate Safe(lag: int) {
    forall ops :: Within(lag, NOTHING, ops) ==> Verdicts(FRESH, ops) == Ideal(NOTHING, ops)
  }

  lemma OneMore(lag: int, c: Core, w: Window, op: Op, rest: seq<Op>)
    ensures Verdicts(c, [op] + rest) ==
            (if op.Event? then [!Duplicates(c, op.key, op.t)] else []) + Verdicts(Run(c, op), rest)
    ensures Ideal(w, [op] + rest) == (if op.Event? then [!Repeats(w, op.key, op.t)] else []) + Ideal(Take(w, op), rest)
    ensures Within(lag, w, [op] + rest) <==> (op.Event? ==> op.t >= w.hw - lag) && Within(lag, Take(w, op), rest)
  {
  }

  /** A restart forgets an entry over six windows old, and an event lagging this much repeats it all the same. */
  lemma RestartForgets(lag: int, c: Core, w: Window, key: Key, t: Time, again: Time)
    requires c.seen == w.seen && c.hw == w.hw && key in w.seen && w.seen[key] == t && t < Cutoff(w.hw)
    requires Abs(again - t) < DEDUPE_WINDOW && again >= w.hw - lag
    ensures var ops := [Restart] + [Event(key, again)];
            Within(lag, w, ops) && Ideal(w, ops) == [false] && Verdicts(c, ops) == [true]
  {
    var e: seq<Op> := [Event(key, again)];
    assert key !in Restarted(c).seen;
    assert e == e + [] && e[1..] == [];
    OneMore(lag, c, w, Restart, e);
    OneMore(lag, Restarted(c), w, Event(key, again), []);
  }

  /** Past that lag some run is not: an event a restart forgot comes again. */
  lemma ForgottenAccepted(lag: int) returns (ops: seq<Op>)
    requires lag > MAX_LAG
    ensures Within(lag, NOTHING, ops) && Verdicts(FRESH, ops) != Ideal(NOTHING, ops)
  {
    var newest := 1 + if lag > 6 * DEDUPE_WINDOW then lag else 6 * DEDUPE_WINDOW + 1;
    var first, second := Event("a", 1), Event("b", newest);
    var tail := [Restart] + [Event("a", newest - lag)];
    var w1, c1 := Window(map["a" := 1], 1), Run(FRESH, first);
    var w2, c2 := Window(map["a" := 1, "b" := newest], newest), Run(c1, second);
    RestartForgets(lag, c2, w2, "a", 1, newest - lag);
    OneMore(lag, c1, w1, second, tail);
    OneMore(lag, FRESH, NOTHING, first, [second] + tail);
    ops := [first] + ([second] + tail);
    assert Ideal(NOTHING, ops)[2] == false && Verdicts(FRESH, ops)[2] == true;
  }

  /** The window forgets nothing that matters exactly when no event lags more than 50 seconds and a nanosecond. */
  lemma SafeExactly(lag: int)
    ensures Safe(lag) <==> lag <= 50_000_000_001
  {
    if lag <= MAX_LAG {
      forall ops | Within(lag, NOTHING, ops)
        ensures Verdicts(FRESH, ops) == Ideal(NOTHING, ops)
      {
        VerdictsIdeal(FRESH, NOTHING, ops, lag);
      }
    } else {
      var ops := ForgottenAccepted(lag);
    }
  }
}
