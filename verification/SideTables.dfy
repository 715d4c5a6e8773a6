/** Own-ship sightings and static states: gathered by key, sent a flush at a time, merged in their tables by min
    and max, put back when an insert fails (server/clickhouse.go, server/statics.go). Min and max
    do not mind order or repetition, so a table is modelled by the merged value of each key alone. */
module SideTables {
  /** When a key was first and last noted; own-ship sightings read only the last. Times count from the zero time. */
  datatype Times = Times(first: nat, last: nat)

  /** A sighting noted: its key and its time. */
  datatype Sighting<Key> = Sighting(key: Key, at: nat)

  function Merge(a: Times, b: Times): Times {
    Times(if b.first < a.first then b.first else a.first, if b.last > a.last then b.last else a.last)
  }

  /** Two maps, the times of keys in both merged. */
  function Merged<Key>(a: map<Key, Times>, b: map<Key, Times>): map<Key, Times> {
    map k | k in a.Keys + b.Keys :: if k in a then if k in b then Merge(a[k], b[k]) else a[k] else b[k]
  }

  /** A map with one more span merged in. */
  function With<Key>(m: map<Key, Times>, k: Key, t: Times): map<Key, Times> {
    m[k := if k in m then Merge(m[k], t) else t]
  }

  // ---- what happens to a sighting, one lock section or insert at a time ----

  /** An insert: its rows, and the sightings in them. */
  datatype Sent<Key> = Sent(rows: map<Key, Times>, ids: set<nat>)

  /** What waits, what the flush under way is sending, every insert sent, and the table's rows merged; every sighting
      ever noted, in order, and which of them are in each; and which were counted dropped. */
  datatype Store<Key> = Store(
    pending: map<Key, Times>,
    taken: map<Key, Times>,
    sent: seq<Sent<Key>>,
    table: map<Key, Times>,
    dropped: nat,
    notes: seq<Sighting<Key>>,
    inPending: set<nat>,
    inTaken: set<nat>,
    inTable: set<nat>,
    counted: set<nat>)

  /** A lock section of a note or a put-back, or what becomes of an insert. */
  datatype Act<Key> =
    | Note(key: Key, at: nat)
    | Take            // a flush takes what is pending
    | Commit(n: nat)  // an insert commits, whatever was answered and however late
    | Done            // the insert is answered well
    | GiveBack(key: Key)  // one key of an insert answered with an error

  /** The guard of a note and of a put-back: the key is new and the map is full. */
  ghost predicate Full<Key>(s: Store<Key>, bound: nat, k: Key) {
    k !in s.pending && |s.pending| >= bound
  }

  ghost function OfKey<Key>(notes: seq<Sighting<Key>>, ids: set<nat>, k: Key): set<nat> {
    set i | i in ids && i < |notes| && notes[i].key == k
  }

  ghost predicate Enabled<Key>(s: Store<Key>, a: Act<Key>) {
    match a
    case Note(_, _) => true
    case Take => s.taken == map[] && s.inTaken == {}
    case Commit(n) => n < |s.sent|
    case Done => s.inTaken <= s.inTable
    case GiveBack(k) => k in s.taken
  }

  ghost function NotedIn<Key>(s: Store<Key>, bound: nat, k: Key, at: nat): Store<Key> {
    var id, notes := |s.notes|, s.notes + [Sighting(k, at)];
    if Full(s, bound, k)
    then s.(notes := notes, dropped := s.dropped + 1, counted := s.counted + {id})
    else s.(notes := notes, pending := With(s.pending, k, Times(at, at)), inPending := s.inPending + {id})
  }

  ghost function GivenBack<Key>(s: Store<Key>, bound: nat, k: Key): Store<Key>
    requires k in s.taken
  {
    var ids := OfKey(s.notes, s.inTaken, k);
    var r := s.(taken := s.taken - {k}, inTaken := s.inTaken - ids);
    if Full(s, bound, k)
    then r.(dropped := s.dropped + 1, counted := s.counted + ids)
    else r.(pending := With(s.pending, k, s.taken[k]), inPending := s.inPending + ids)
  }

  ghost function Apply<Key>(s: Store<Key>, bound: nat, a: Act<Key>): Store<Key>
    requires Enabled(s, a)
  {
    match a
    case Note(k, at) => NotedIn(s, bound, k, at)
    case Take =>
      s.(taken := s.pending, pending := map[], inTaken := s.inPending, inPending := {},
         sent := s.sent + [Sent(s.pending, s.inPending)])
    case Commit(n) => s.(table := Merged(s.table, s.sent[n].rows), inTable := s.inTable + s.sent[n].ids)
    case Done => s.(taken := map[], inTaken := {})
    case GiveBack(k) => GivenBack(s, bound, k)
  }

  ghost function Front<T>(s: seq<T>): (r: seq<T>)
    requires s != []
    ensures |r| == |s| - 1
  {
    s[..|s| - 1]
  }

  /** A run from nothing: each act may come when it does. */
  ghost predicate Legal<Key>(bound: nat, acts: seq<Act<Key>>)
    decreases |acts|, 0
  {
    acts == [] || (Legal(bound, Front(acts)) && Enabled(After(bound, Front(acts)), acts[|acts| - 1]))
  }

  ghost function After<Key>(bound: nat, acts: seq<Act<Key>>): Store<Key>
    requires Legal(bound, acts)
    decreases |acts|, 1
  {
    if acts == [] then Store(map[], map[], [], map[], 0, [], {}, {}, {}, {})
    else Apply(After(bound, Front(acts)), bound, acts[|acts| - 1])
  }

  /** One more act of a run. */
  lemma AfterOne<Key>(bound: nat, acts: seq<Act<Key>>, a: Act<Key>)
    requires Legal(bound, acts) && Enabled(After(bound, acts), a)
    ensures Legal(bound, acts + [a]) && After(bound, acts + [a]) == Apply(After(bound, acts), bound, a)
  {
    assert Front(acts + [a]) == acts;
  }

  lemma AfterNote<Key>(bound: nat, acts: seq<Act<Key>>, k: Key, at: nat)
    requires Legal(bound, acts)
    ensures Legal(bound, acts + [Note(k, at)])
            && After(bound, acts + [Note(k, at)]) == NotedIn(After(bound, acts), bound, k, at)
  {
    AfterOne(bound, acts, Note(k, at));
  }

  lemma AfterGiveBack<Key>(bound: nat, acts: seq<Act<Key>>, k: Key)
    requires Legal(bound, acts) && k in After(bound, acts).taken
    ensures Legal(bound, acts + [GiveBack(k)])
            && After(bound, acts + [GiveBack(k)]) == GivenBack(After(bound, acts), bound, k)
  {
    AfterOne(bound, acts, GiveBack(k));
  }

  // ---- what the maps hold ----

  ghost predicate IsOf<Key(!new)>(notes: seq<Sighting<Key>>, ids: set<nat>, k: Key, i: nat) {
    i in ids && i < |notes| && notes[i].key == k
  }

  /** What a map holds for a key is the least and greatest time of these sightings of it, or nothing for none. */
  ghost predicate Spans<Key(!new)>(notes: seq<Sighting<Key>>, ids: set<nat>, k: Key, m: map<Key, Times>) {
    && (k in m <==> exists i: nat :: IsOf(notes, ids, k, i))
    && (k in m ==>
          && (exists i: nat :: IsOf(notes, ids, k, i) && notes[i].at == m[k].first)
          && (exists i: nat :: IsOf(notes, ids, k, i) && notes[i].at == m[k].last)
          && forall i: nat :: IsOf(notes, ids, k, i) ==> m[k].first <= notes[i].at <= m[k].last)
  }

  /** Merging by min and max spans both sets of sightings, whatever they share: a resend is harmless. */
  lemma SpansMerged<Key(!new)>(notes: seq<Sighting<Key>>, a: set<nat>, b: set<nat>, k: Key,
        m: map<Key, Times>, n: map<Key, Times>)
    requires Spans(notes, a, k, m) && Spans(notes, b, k, n)
    ensures Spans(notes, a + b, k, Merged(m, n))
  {
    var r := Merged(m, n);
    assert forall i: nat :: IsOf(notes, a + b, k, i) <==> IsOf(notes, a, k, i) || IsOf(notes, b, k, i);
  }

  ghost predicate Below(ids: set<nat>, n: nat) {
    forall i :: i in ids ==> i < n
  }

  /** A sighting noted since leaves what a map holds as it was. */
  lemma SpansMore<Key(!new)>(notes: seq<Sighting<Key>>, more: Sighting<Key>, ids: set<nat>, k: Key, m: map<Key, Times>)
    requires Below(ids, |notes|) && Spans(notes, ids, k, m)
    ensures Spans(notes + [more], ids, k, m)
  {
    assert forall i: nat :: IsOf(notes + [more], ids, k, i) <==> IsOf(notes, ids, k, i);
  }

  lemma SpansOne<Key(!new)>(notes: seq<Sighting<Key>>, id: nat, k: Key)
    requires id < |notes|
    ensures Spans(notes, {id}, k, map[notes[id].key := Times(notes[id].at, notes[id].at)])
  {
    assert notes[id].key == k ==> IsOf(notes, {id}, k, id);
  }

  /** One key's sightings make up its span, and the rest the others'. */
  lemma SpansApart<Key(!new)>(notes: seq<Sighting<Key>>, ids: set<nat>, m: map<Key, Times>, k: Key, j: Key)
    requires k in m && Spans(notes, ids, j, m)
    ensures Spans(notes, OfKey(notes, ids, k), j, map[k := m[k]])
    ensures Spans(notes, ids - OfKey(notes, ids, k), j, m - {k})
  {
    var of := OfKey(notes, ids, k);
    assert forall i: nat :: IsOf(notes, of, j, i) <==> j == k && IsOf(notes, ids, j, i);
    assert forall i: nat :: IsOf(notes, ids - of, j, i) <==> j != k && IsOf(notes, ids, j, i);
  }

  ghost predicate Somewhere<Key>(s: Store<Key>, i: nat) {
    i in s.inPending || i in s.inTaken || i in s.inTable || i in s.counted
  }

  ghost predicate SentBelow<Key>(s: Store<Key>, n: nat) {
    n < |s.sent| ==> Below(s.sent[n].ids, |s.notes|)
  }

  /** Every sighting is in what waits, in what is being sent, in the table, or counted dropped. */
  ghost predicate Placed<Key(!new)>(s: Store<Key>) {
    && Below(s.inPending, |s.notes|) && Below(s.inTaken, |s.notes|)
    && Below(s.inTable, |s.notes|) && Below(s.counted, |s.notes|)
    && (forall i: nat :: i < |s.notes| ==> Somewhere(s, i))
    && s.counted !! s.inPending + s.inTaken && s.inPending !! s.inTaken
    && forall n {:trigger SentBelow(s, n)} :: SentBelow(s, n)
  }

  ghost predicate SentHeld<Key(!new)>(s: Store<Key>, k: Key, n: nat) {
    n < |s.sent| ==> Spans(s.notes, s.sent[n].ids, k, s.sent[n].rows)
  }

  ghost predicate Held<Key(!new)>(s: Store<Key>, k: Key) {
    && Spans(s.notes, s.inPending, k, s.pending)
    && Spans(s.notes, s.inTaken, k, s.taken)
    && Spans(s.notes, s.inTable, k, s.table)
    && forall n {:trigger SentHeld(s, k, n)} :: SentHeld(s, k, n)
  }

  lemma NotedSentHolds<Key(!new)>(s: Store<Key>, bound: nat, k: Key, at: nat, j: Key)
    requires Placed(s) && Held(s, j)
    ensures forall n {:trigger SentHeld(NotedIn(s, bound, k, at), j, n)} :: SentHeld(NotedIn(s, bound, k, at), j, n)
  {
    var r := NotedIn(s, bound, k, at);
    forall n: nat
      ensures SentHeld(r, j, n)
    {
      assert SentBelow(s, n) && SentHeld(s, j, n);
      if n < |s.sent| {
        SpansMore(s.notes, Sighting(k, at), s.sent[n].ids, j, s.sent[n].rows);
      }
    }
  }

  lemma NotedPendingHolds<Key(!new)>(s: Store<Key>, k: Key, at: nat, j: Key)
    requires Below(s.inPending, |s.notes|) && Spans(s.notes, s.inPending, j, s.pending)
    ensures Spans(s.notes + [Sighting(k, at)], s.inPending + {|s.notes|}, j, With(s.pending, k, Times(at, at)))
  {
    var notes, id := s.notes + [Sighting(k, at)], |s.notes|;
    SpansMore(s.notes, Sighting(k, at), s.inPending, j, s.pending);
    SpansOne(notes, id, j);
    SpansMerged(notes, s.inPending, {id}, j, s.pending, map[k := Times(at, at)]);
    assert With(s.pending, k, Times(at, at)) == Merged(s.pending, map[k := Times(at, at)]);
  }

  lemma NotedHolds<Key(!new)>(s: Store<Key>, bound: nat, k: Key, at: nat, j: Key)
    requires Placed(s) && Held(s, j)
    ensures Held(NotedIn(s, bound, k, at), j)
  {
    var note := Sighting(k, at);
    NotedSentHolds(s, bound, k, at, j);
    NotedPendingHolds(s, k, at, j);
    SpansMore(s.notes, note, s.inPending, j, s.pending);
    SpansMore(s.notes, note, s.inTaken, j, s.taken);
    SpansMore(s.notes, note, s.inTable, j, s.table);
  }

  lemma GivenBackHolds<Key(!new)>(s: Store<Key>, bound: nat, k: Key, j: Key)
    requires k in s.taken && Held(s, j)
    ensures Held(GivenBack(s, bound, k), j)
  {
    var ids := OfKey(s.notes, s.inTaken, k);
    forall n: nat
      ensures SentHeld(GivenBack(s, bound, k), j, n)
    {
      assert SentHeld(s, j, n);
    }
    SpansApart(s.notes, s.inTaken, s.taken, k, j);
    SpansMerged(s.notes, s.inPending, ids, j, s.pending, map[k := s.taken[k]]);
    assert With(s.pending, k, s.taken[k]) == Merged(s.pending, map[k := s.taken[k]]);
  }

  lemma NotedPlaces<Key(!new)>(s: Store<Key>, bound: nat, k: Key, at: nat)
    requires Placed(s)
    ensures Placed(NotedIn(s, bound, k, at))
  {
    var r := NotedIn(s, bound, k, at);
    forall i: nat | i < |r.notes|
      ensures Somewhere(r, i)
    {
      assert i < |s.notes| ==> Somewhere(s, i);
    }
    forall n: nat
      ensures SentBelow(r, n)
    {
      assert SentBelow(s, n);
    }
  }

  lemma GivenBackPlaces<Key(!new)>(s: Store<Key>, bound: nat, k: Key)
    requires Placed(s) && k in s.taken
    ensures Placed(GivenBack(s, bound, k))
  {
    var r := GivenBack(s, bound, k);
    forall i: nat | i < |r.notes|
      ensures Somewhere(r, i)
    {
      assert Somewhere(s, i);
    }
    forall n: nat
      ensures SentBelow(r, n)
    {
      assert SentBelow(s, n);
    }
  }

  lemma SentPlaces<Key(!new)>(s: Store<Key>, bound: nat, a: Act<Key>)
    requires Placed(s) && Enabled(s, a) && (a.Take? || a.Commit? || a.Done?)
    ensures Placed(Apply(s, bound, a))
  {
    var r := Apply(s, bound, a);
    forall i: nat | i < |r.notes|
      ensures Somewhere(r, i)
    {
      assert Somewhere(s, i);
    }
    forall n: nat
      ensures SentBelow(r, n)
    {
      assert SentBelow(s, n);
    }
    if a.Commit? {
      assert SentBelow(s, a.n);
    }
  }

  lemma ApplyPlaces<Key(!new)>(s: Store<Key>, bound: nat, a: Act<Key>)
    requires Placed(s) && Enabled(s, a)
    ensures Placed(Apply(s, bound, a))
  {
    match a
    case Note(k, at) => NotedPlaces(s, bound, k, at);
    case GiveBack(k) => GivenBackPlaces(s, bound, k);
    case _ => SentPlaces(s, bound, a);
  }

  lemma NoneOf<Key(!new)>(notes: seq<Sighting<Key>>, k: Key)
    ensures Spans(notes, {}, k, map[])
  {
  }

  lemma TakenHolds<Key(!new)>(s: Store<Key>, bound: nat, k: Key)
    requires Held(s, k) && Enabled(s, Take)
    ensures Held(Apply(s, bound, Take), k)
  {
    var r := Apply(s, bound, Take);
    NoneOf(s.notes, k);
    forall n: nat
      ensures SentHeld(r, k, n)
    {
      assert SentHeld(s, k, n);
    }
  }

  lemma CommittedHolds<Key(!new)>(s: Store<Key>, bound: nat, n: nat, k: Key)
    requires Held(s, k) && n < |s.sent|
    ensures Held(Apply(s, bound, Commit(n)), k)
  {
    assert SentHeld(s, k, n);
    SpansMerged(s.notes, s.inTable, s.sent[n].ids, k, s.table, s.sent[n].rows);
    forall m: nat
      ensures SentHeld(Apply(s, bound, Commit(n)), k, m)
    {
      assert SentHeld(s, k, m);
    }
  }

  lemma ApplyHolds<Key(!new)>(s: Store<Key>, bound: nat, a: Act<Key>, k: Key)
    requires Placed(s) && Held(s, k) && Enabled(s, a)
    ensures Held(Apply(s, bound, a), k)
  {
    match a
    case Note(j, at) => NotedHolds(s, bound, j, at, k);
    case Take => TakenHolds(s, bound, k);
    case Commit(n) => CommittedHolds(s, bound, n, k);
    case Done =>
      NoneOf(s.notes, k);
      assert forall n: nat :: SentHeld(s, k, n) ==> SentHeld(Apply(s, bound, a), k, n);
    case GiveBack(j) => GivenBackHolds(s, bound, j, k);
  }

  lemma AfterPlaces<Key(!new)>(bound: nat, acts: seq<Act<Key>>)
    requires Legal(bound, acts)
    ensures Placed(After(bound, acts))
  {
    if acts != [] {
      AfterPlaces(bound, Front(acts));
      ApplyPlaces(After(bound, Front(acts)), bound, acts[|acts| - 1]);
    }
  }

  /** In every run each map holds the span of its own sightings. */
  lemma AfterHolds<Key(!new)>(bound: nat, acts: seq<Act<Key>>, k: Key)
    requires Legal(bound, acts)
    ensures Placed(After(bound, acts)) && Held(After(bound, acts), k)
  {
    AfterPlaces(bound, acts);
    if acts == [] {
      NoneOf(After(bound, acts).notes, k);
    } else {
      AfterHolds(bound, Front(acts), k);
      ApplyHolds(After(bound, Front(acts)), bound, acts[|acts| - 1], k);
    }
  }

  // ---- the value of a key ----

  /** A key's value: its table row merged with what is being sent and what waits. */
  ghost function Value<Key>(s: Store<Key>): map<Key, Times> {
    Merged(Merged(s.table, s.taken), s.pending)
  }

  ghost function Ids(n: nat): (r: set<nat>)
    ensures forall i: nat :: i in r <==> i < n
  {
    if n == 0 then {} else Ids(n - 1) + {n - 1}
  }

  ghost function All<Key>(s: Store<Key>): set<nat> {
    Ids(|s.notes|)
  }

  lemma AllPlaced<Key(!new)>(s: Store<Key>)
    requires Placed(s)
    ensures All(s) - (s.counted - s.inTable) == s.inTable + s.inTaken + s.inPending
  {
    forall i: nat
      ensures i in All(s) - (s.counted - s.inTable) <==> i in s.inTable + s.inTaken + s.inPending
    {
      assert i < |s.notes| ==> Somewhere(s, i);
    }
  }

  /** In every run a key's value is the least and greatest of everything noted of it, but for what was counted
      dropped before any insert had written it. */
  lemma MergedIsTruth<Key(!new)>(bound: nat, acts: seq<Act<Key>>, k: Key)
    requires Legal(bound, acts)
    ensures var s := After(bound, acts); Spans(s.notes, All(s) - (s.counted - s.inTable), k, Value(s))
  {
    var s := After(bound, acts);
    AfterHolds(bound, acts, k);
    SpansMerged(s.notes, s.inTable, s.inTaken, k, s.table, s.taken);
    SpansMerged(s.notes, s.inTable + s.inTaken, s.inPending, k, Merged(s.table, s.taken), s.pending);
    AllPlaced(s);
  }

  /** A key's value is that of exactly what was not counted dropped. */
  ghost predicate Right<Key(!new)>(s: Store<Key>, k: Key) {
    Spans(s.notes, All(s) - s.counted, k, Value(s))
  }

  /** Some sighting of the key was counted dropped though it is in the table. */
  ghost predicate LandedCounted<Key(!new)>(s: Store<Key>, k: Key) {
    exists i :: i in s.inTable && IsOf(s.notes, s.counted, k, i)
  }

  lemma PrefixLegal<Key>(bound: nat, acts: seq<Act<Key>>, j: nat)
    requires Legal(bound, acts) && j <= |acts|
    ensures Legal(bound, acts[..j])
  {
    if j < |acts| {
      PrefixLegal(bound, Front(acts), j);
      assert Front(acts)[..j] == acts[..j];
    } else {
      assert acts[..j] == acts;
    }
  }

  /** The act is a put-back of the key that finds the map full, and this sighting is among those it gives up. */
  ghost predicate GivesUp<Key(!new)>(bound: nat, acts: seq<Act<Key>>, k: Key, i: nat, j: nat)
    requires Legal(bound, acts)
  {
    && j < |acts| && acts[j] == GiveBack(k)
    && (PrefixLegal(bound, acts, j);
        var s := After(bound, acts[..j]); Full(s, bound, k) && IsOf(s.notes, s.inTaken, k, i))
  }

  ghost predicate GivenUp<Key(!new)>(bound: nat, acts: seq<Act<Key>>, k: Key, i: nat)
    requires Legal(bound, acts)
  {
    exists j: nat :: GivesUp(bound, acts, k, i, j)
  }

  /** Some put-back of the run finds the map full for the key, and some insert carrying what it gives up commits,
      before or after. */
  ghost predicate GivesUpLanded<Key(!new)>(bound: nat, acts: seq<Act<Key>>, k: Key)
    requires Legal(bound, acts)
  {
    exists i :: i in After(bound, acts).inTable && GivenUp(bound, acts, k, i)
  }

  /** What a put-back gave up it gave up before the last act, or in it. */
  lemma GivenUpOne<Key(!new)>(bound: nat, acts: seq<Act<Key>>, k: Key, i: nat)
    requires Legal(bound, acts) && acts != []
    ensures GivenUp(bound, acts, k, i) <==>
            GivenUp(bound, Front(acts), k, i) || GivesUp(bound, acts, k, i, |acts| - 1)
  {
    if j: nat :| GivesUp(bound, Front(acts), k, i, j) {
      assert acts[..j] == Front(acts)[..j];
      assert GivesUp(bound, acts, k, i, j);
    }
    if j: nat :| GivesUp(bound, acts, k, i, j) {
      if j < |acts| - 1 {
        assert acts[..j] == Front(acts)[..j];
        assert GivesUp(bound, Front(acts), k, i, j);
      }
    }
  }

  ghost predicate InSent<Key>(s: Store<Key>, i: nat) {
    exists n: nat :: n < |s.sent| && i in s.sent[n].ids
  }

  /** What is being sent, or in the table, was sent; what was sent is counted only by a put-back. */
  ghost predicate SentInv<Key(!new)>(bound: nat, acts: seq<Act<Key>>, i: nat)
    requires Legal(bound, acts)
  {
    var s := After(bound, acts);
    && (i in s.inTaken || i in s.inTable ==> InSent(s, i))
    && (i < |s.notes| ==> (i in s.counted && InSent(s, i) <==> GivenUp(bound, acts, s.notes[i].key, i)))
  }

  lemma InSentAfter<Key(!new)>(s: Store<Key>, bound: nat, a: Act<Key>, i: nat)
    requires Enabled(s, a)
    ensures InSent(Apply(s, bound, a), i) <==> InSent(s, i) || (a.Take? && i in s.inPending)
  {
    var r := Apply(s, bound, a);
    if n: nat :| n < |s.sent| && i in s.sent[n].ids {
      assert r.sent[n] == s.sent[n];
    }
    if a.Take? && i in s.inPending {
      assert i in r.sent[|s.sent|].ids;
    }
  }

  lemma NotesGrow<Key(!new)>(bound: nat, acts: seq<Act<Key>>, j: nat)
    requires Legal(bound, acts) && j <= |acts|
    ensures Legal(bound, acts[..j]) && After(bound, acts[..j]).notes <= After(bound, acts).notes
  {
    PrefixLegal(bound, acts, j);
    if j < |acts| {
      var s := After(bound, Front(acts));
      NotesGrow(bound, Front(acts), j);
      assert Front(acts)[..j] == acts[..j];
      ApplyGrows(s, bound, acts[|acts| - 1]);
      Longer(After(bound, acts[..j]).notes, s.notes, After(bound, acts).notes);
    } else {
      assert acts[..j] == acts;
    }
  }

  /** A sighting just noted is in no insert. */
  lemma NoteNotSent<Key(!new)>(bound: nat, acts: seq<Act<Key>>, i: nat)
    requires Legal(bound, acts) && acts != [] && i == |After(bound, Front(acts)).notes|
    ensures forall k :: !GivenUp(bound, acts, k, i)
    ensures !InSent(After(bound, Front(acts)), i)
  {
    var s := After(bound, Front(acts));
    AfterPlaces(bound, Front(acts));
    forall n: nat | n < |s.sent|
      ensures i !in s.sent[n].ids
    {
      assert SentBelow(s, n);
    }
    forall k, j: nat
      ensures !GivesUp(bound, acts, k, i, j)
    {
      if j < |acts| {
        PrefixLegal(bound, acts, j);
        NotesGrow(bound, Front(acts), j);
        assert acts[..j] == Front(acts)[..j];
      }
    }
  }

  lemma ApplyGrows<Key>(s: Store<Key>, bound: nat, a: Act<Key>)
    requires Enabled(s, a)
    ensures s.notes <= Apply(s, bound, a).notes
  {
  }

  lemma Longer<T>(a: seq<T>, b: seq<T>, c: seq<T>)
    requires a <= b <= c
    ensures a <= c
  {
  }

  /** One act newly counts a sighting noted before exactly when it is a put-back that gives it up. */
  lemma CountedOne<Key(!new)>(s: Store<Key>, bound: nat, a: Act<Key>, i: nat)
    requires Placed(s) && Enabled(s, a) && i < |s.notes|
    ensures i in Apply(s, bound, a).counted <==>
            i in s.counted || (a == GiveBack(s.notes[i].key) && Full(s, bound, s.notes[i].key) && i in s.inTaken)
  {
  }

  /** What the last act gives up, told from the state it comes to. */
  lemma GivesUpLast<Key(!new)>(bound: nat, acts: seq<Act<Key>>, k: Key, i: nat)
    requires Legal(bound, acts) && acts != []
    ensures GivesUp(bound, acts, k, i, |acts| - 1) <==>
            var s := After(bound, Front(acts));
            acts[|acts| - 1] == GiveBack(k) && Full(s, bound, k) && IsOf(s.notes, s.inTaken, k, i)
  {
    assert acts[..|acts| - 1] == Front(acts);
  }

  lemma SentOne<Key(!new)>(s: Store<Key>, bound: nat, a: Act<Key>, i: nat)
    requires Enabled(s, a) && (i in s.inTaken || i in s.inTable ==> InSent(s, i))
    ensures var r := Apply(s, bound, a); i in r.inTaken || i in r.inTable ==> InSent(r, i)
  {
    InSentAfter(s, bound, a, i);
  }

  lemma SentInvOne<Key(!new)>(bound: nat, acts: seq<Act<Key>>, i: nat)
    requires Legal(bound, acts) && acts != [] && SentInv(bound, Front(acts), i)
    ensures SentInv(bound, acts, i)
  {
    var s, a := After(bound, Front(acts)), acts[|acts| - 1];
    AfterPlaces(bound, Front(acts));
    InSentAfter(s, bound, a, i);
    SentOne(s, bound, a, i);
    ApplyGrows(s, bound, a);
    if i < |s.notes| {
      GivenUpOne(bound, acts, s.notes[i].key, i);
      GivesUpLast(bound, acts, s.notes[i].key, i);
      CountedOne(s, bound, a, i);
    } else if i < |After(bound, acts).notes| {
      NoteNotSent(bound, acts, i);
    }
  }

  lemma {:induction false} SentAlways<Key(!new)>(bound: nat, acts: seq<Act<Key>>, i: nat)
    requires Legal(bound, acts)
    ensures SentInv(bound, acts, i)
  {
    if acts != [] {
      SentAlways(bound, Front(acts), i);
      SentInvOne(bound, acts, i);
    }
  }

  lemma CountedByGivingUp<Key(!new)>(bound: nat, acts: seq<Act<Key>>, k: Key)
    requires Legal(bound, acts)
    ensures LandedCounted(After(bound, acts), k) <==> GivesUpLanded(bound, acts, k)
  {
    var s := After(bound, acts);
    if i :| i in s.inTable && IsOf(s.notes, s.counted, k, i) {
      SentAlways(bound, acts, i);
      assert GivenUp(bound, acts, k, i);
    }
    if i :| i in s.inTable && GivenUp(bound, acts, k, i) {
      var j: nat :| GivesUp(bound, acts, k, i, j);
      NotesGrow(bound, acts, j);
      SentAlways(bound, acts, i);
      assert IsOf(s.notes, s.counted, k, i);
    }
  }

  // ---- the same run at other times ----

  /** How many sightings a run notes. */
  ghost function NotesIn<Key>(acts: seq<Act<Key>>): nat {
    if acts == [] then 0 else NotesIn(Front(acts)) + if acts[|acts| - 1].Note? then 1 else 0
  }

  /** The run with its sightings at other times. */
  ghost function Retimed<Key>(acts: seq<Act<Key>>, times: seq<nat>): (r: seq<Act<Key>>)
    requires |times| == NotesIn(acts)
    ensures |r| == |acts| && NotesIn(r) == NotesIn(acts)
  {
    if acts == [] then []
    else
      var a, n := acts[|acts| - 1], NotesIn(Front(acts));
      var front := Retimed(Front(acts), times[..n]);
      var r := front + [if a.Note? then Note(a.key, times[n]) else a];
      assert Front(r) == front;
      r
  }

  ghost predicate SentAlike<Key>(s: Store<Key>, r: Store<Key>, n: nat) {
    n < |s.sent| && n < |r.sent| ==> s.sent[n].rows.Keys == r.sent[n].rows.Keys && s.sent[n].ids == r.sent[n].ids
  }

  /** Two stores that differ in times alone. */
  ghost predicate Alike<Key>(s: Store<Key>, r: Store<Key>) {
    && s.pending.Keys == r.pending.Keys && s.taken.Keys == r.taken.Keys && s.table.Keys == r.table.Keys
    && s.inPending == r.inPending && s.inTaken == r.inTaken && s.inTable == r.inTable && s.counted == r.counted
    && |s.notes| == |r.notes| && (forall i :: 0 <= i < |s.notes| ==> s.notes[i].key == r.notes[i].key)
    && |s.sent| == |r.sent| && forall n {:trigger SentAlike(s, r, n)} :: SentAlike(s, r, n)
  }

  lemma FullAlike<Key>(s: Store<Key>, r: Store<Key>, bound: nat, k: Key)
    requires s.pending.Keys == r.pending.Keys
    ensures Full(s, bound, k) == Full(r, bound, k)
  {
    assert |s.pending| == |s.pending.Keys| && |r.pending| == |r.pending.Keys|;
  }

  /** The inserts sent stay alike when none is sent. */
  lemma SentStayAlike<Key>(s: Store<Key>, r: Store<Key>, s': Store<Key>, r': Store<Key>)
    requires Alike(s, r) && s'.sent == s.sent && r'.sent == r.sent
    ensures forall n {:trigger SentAlike(s', r', n)} :: SentAlike(s', r', n)
  {
    forall n: nat
      ensures SentAlike(s', r', n)
    {
      assert SentAlike(s, r, n);
    }
  }

  lemma NotedAlike<Key(!new)>(s: Store<Key>, r: Store<Key>, bound: nat, k: Key, at: nat, then': nat)
    requires Alike(s, r)
    ensures Alike(NotedIn(s, bound, k, at), NotedIn(r, bound, k, then'))
  {
    FullAlike(s, r, bound, k);
    SentStayAlike(s, r, NotedIn(s, bound, k, at), NotedIn(r, bound, k, then'));
  }

  lemma GivenBackAlike<Key(!new)>(s: Store<Key>, r: Store<Key>, bound: nat, k: Key)
    requires Alike(s, r) && k in s.taken
    ensures k in r.taken && Alike(GivenBack(s, bound, k), GivenBack(r, bound, k))
  {
    FullAlike(s, r, bound, k);
    assert k in s.taken.Keys;
    assert OfKey(s.notes, s.inTaken, k) == OfKey(r.notes, r.inTaken, k);
    SentStayAlike(s, r, GivenBack(s, bound, k), GivenBack(r, bound, k));
  }

  lemma SentActAlike<Key(!new)>(s: Store<Key>, r: Store<Key>, bound: nat, a: Act<Key>)
    requires Alike(s, r) && Enabled(s, a) && (a.Take? || a.Commit? || a.Done?)
    ensures Enabled(r, a) && Alike(Apply(s, bound, a), Apply(r, bound, a))
  {
    assert r.taken.Keys == {} ==> r.taken == map[];
    var s', r' := Apply(s, bound, a), Apply(r, bound, a);
    if a.Commit? {
      assert SentAlike(s, r, a.n);
    }
    forall n: nat
      ensures SentAlike(s', r', n)
    {
      assert SentAlike(s, r, n);
    }
  }

  lemma ApplyAlike<Key(!new)>(s: Store<Key>, r: Store<Key>, bound: nat, a: Act<Key>, b: Act<Key>)
    requires Alike(s, r) && Enabled(s, a)
    requires if a.Note? then b.Note? && b.key == a.key else b == a
    ensures Enabled(r, b) && Alike(Apply(s, bound, a), Apply(r, bound, b))
  {
    match a
    case Note(k, at) => NotedAlike(s, r, bound, k, at, b.at);
    case GiveBack(k) => GivenBackAlike(s, r, bound, k);
    case _ => SentActAlike(s, r, bound, a);
  }

  ghost predicate TimedBy<Key>(notes: seq<Sighting<Key>>, times: seq<nat>) {
    |notes| == |times| && forall i :: 0 <= i < |notes| ==> notes[i].at == times[i]
  }

  lemma ApplyTimed<Key(!new)>(s: Store<Key>, bound: nat, a: Act<Key>, times: seq<nat>)
    requires Enabled(s, a) && TimedBy(s.notes, times)
    ensures TimedBy(Apply(s, bound, a).notes, if a.Note? then times + [a.at] else times)
  {
  }

  lemma RetimedOne<Key(!new)>(bound: nat, acts: seq<Act<Key>>, times: seq<nat>, front: seq<Act<Key>>, b: Act<Key>)
    requires Legal(bound, acts) && acts != [] && |times| == NotesIn(acts)
    requires front == Retimed(Front(acts), times[..NotesIn(Front(acts))])
    requires var a := acts[|acts| - 1]; b == if a.Note? then Note(a.key, times[NotesIn(Front(acts))]) else a
    requires Legal(bound, front) && Alike(After(bound, Front(acts)), After(bound, front))
    ensures Retimed(acts, times) == front + [b] && Legal(bound, Retimed(acts, times))
    ensures Enabled(After(bound, front), b)
            && After(bound, Retimed(acts, times)) == Apply(After(bound, front), bound, b)
  {
    ApplyAlike(After(bound, Front(acts)), After(bound, front), bound, acts[|acts| - 1], b);
    AfterOne(bound, front, b);
  }

  /** At other times the run goes the same way, and its sightings are at those times. */
  lemma RetimedAlike<Key(!new)>(bound: nat, acts: seq<Act<Key>>, times: seq<nat>)
    requires Legal(bound, acts) && |times| == NotesIn(acts)
    ensures Legal(bound, Retimed(acts, times))
    ensures Alike(After(bound, acts), After(bound, Retimed(acts, times)))
    ensures TimedBy(After(bound, Retimed(acts, times)).notes, times)
  {
    if acts == [] {
    } else {
      var a, n := acts[|acts| - 1], NotesIn(Front(acts));
      RetimedAlike(bound, Front(acts), times[..n]);
      var front, b := Retimed(Front(acts), times[..n]), if a.Note? then Note(a.key, times[n]) else a;
      RetimedOne(bound, acts, times, front, b);
      ApplyAlike(After(bound, Front(acts)), After(bound, front), bound, a, b);
      ApplyTimed(After(bound, front), bound, b, times[..n]);
      assert times == if a.Note? then times[..n] + [times[n]] else times[..n];
    }
  }

  lemma AlikeCounted<Key(!new)>(s: Store<Key>, r: Store<Key>, k: Key)
    requires Alike(s, r)
    ensures LandedCounted(s, k) <==> LandedCounted(r, k)
  {
    assert forall i: nat :: IsOf(s.notes, s.counted, k, i) <==> IsOf(r.notes, r.counted, k, i);
  }

  lemma NoneCountedIsRight<Key(!new)>(bound: nat, acts: seq<Act<Key>>, k: Key)
    requires Legal(bound, acts) && !LandedCounted(After(bound, acts), k)
    ensures Right(After(bound, acts), k)
  {
    var s := After(bound, acts);
    MergedIsTruth(bound, acts, k);
    assert forall i: nat :: IsOf(s.notes, All(s) - (s.counted - s.inTable), k, i) <==>
           IsOf(s.notes, All(s) - s.counted, k, i) by {
      assert forall i: nat :: IsOf(s.notes, s.counted, k, i) ==> i !in s.inTable;
    }
  }

  /** A landed sighting counted dropped shows when it alone is late. */
  lemma LateShows<Key(!new)>(bound: nat, acts: seq<Act<Key>>, k: Key, i: nat)
    requires Legal(bound, acts)
    requires var s := After(bound, acts); i in s.inTable && IsOf(s.notes, s.counted, k, i)
    requires forall j :: 0 <= j < |After(bound, acts).notes| ==>
             After(bound, acts).notes[j].at == if j == i then 1 else 0
    ensures !Right(After(bound, acts), k)
  {
    var s := After(bound, acts);
    MergedIsTruth(bound, acts, k);
    assert IsOf(s.notes, All(s) - (s.counted - s.inTable), k, i);
    forall j: nat | IsOf(s.notes, All(s) - s.counted, k, j)
      ensures s.notes[j].at != Value(s)[k].last
    {
      assert j != i;
    }
  }

  ghost predicate RightAt<Key(!new)>(bound: nat, acts: seq<Act<Key>>, times: seq<nat>, k: Key)
    requires Legal(bound, acts) && |times| == NotesIn(acts)
  {
    RetimedAlike(bound, acts, times);
    Right(After(bound, Retimed(acts, times)), k)
  }

  /** At every choice of times a key's value is that of exactly what was not counted dropped if and only if no
      put-back finds the map full for it when an insert carrying what it gives up commits, before or after. */
  lemma RightExactly<Key(!new)>(bound: nat, acts: seq<Act<Key>>, k: Key)
    requires Legal(bound, acts)
    ensures (forall times: seq<nat> | |times| == NotesIn(acts) :: RightAt(bound, acts, times, k)) <==>
            !GivesUpLanded(bound, acts, k)
  {
    var s := After(bound, acts);
    CountedByGivingUp(bound, acts, k);
    if GivesUpLanded(bound, acts, k) {
      var i :| i in s.inTable && IsOf(s.notes, s.counted, k, i);
      var times := seq(NotesIn(acts), j => if j == i then 1 else 0);
      RetimedAlike(bound, acts, times);
      LateShows(bound, Retimed(acts, times), k, i);
      assert !RightAt(bound, acts, times, k);
    } else {
      forall times: seq<nat> | |times| == NotesIn(acts)
        ensures RightAt(bound, acts, times, k)
      {
        RetimedAlike(bound, acts, times);
        AlikeCounted(s, After(bound, Retimed(acts, times)), k);
        NoneCountedIsRight(bound, Retimed(acts, times), k);
      }
    }
  }

  /** One key noted, sent and committed behind an error. */
  lemma SentAndLanded()
    ensures var acts := [Note(1, 5), Take, Commit(0)];
            && Legal(1, acts)
            && After(1, acts) == Store(map[], map[1 := Times(5, 5)], [Sent(map[1 := Times(5, 5)], {0})],
                                      map[1 := Times(5, 5)], 0, [Sighting(1, 5)], {}, {0}, {0}, {})
  {
    var none: seq<Act<int>> := [];
    AfterOne(1, none, Note(1, 5));
    AfterOne(1, none + [Note(1, 5)], Take);
    AfterOne(1, none + [Note(1, 5)] + [Take], Commit(0));
    assert none + [Note(1, 5)] + [Take] + [Commit(0)] == [Note(1, 5), Take, Commit(0)];
  }

  lemma NothingUncounted(s: Store<int>)
    requires 1 in s.table && s.notes == [Sighting(1, 5), Sighting(2, 7)] && 0 in s.counted
    ensures !Right(s, 1)
  {
    assert 1 in Value(s);
    assert forall i: nat :: !IsOf(s.notes, All(s) - s.counted, 1, i);
  }

  /** With room for one key: key 1 lands behind an error, key 2 comes, and key 1 is counted dropped though the
      table has it. */
  lemma FullMapHidesACommit()
    ensures var acts := [Note(1, 5), Take, Commit(0), Note(2, 7), GiveBack(1)];
            && Legal(1, acts)
            && var s := After(1, acts);
            && s.counted == {0} && s.dropped == 1 && s.table == map[1 := Times(5, 5)]
            && !Right(s, 1)
  {
    SentAndLanded();
    var acts := [Note(1, 5), Take, Commit(0)];
    AfterOne(1, acts, Note(2, 7));
    var s := After(1, acts + [Note(2, 7)]);
    assert OfKey(s.notes, s.inTaken, 1) == {0};
    AfterOne(1, acts + [Note(2, 7)], GiveBack(1));
    assert acts + [Note(2, 7)] + [GiveBack(1)] == [Note(1, 5), Take, Commit(0), Note(2, 7), GiveBack(1)];
    NothingUncounted(GivenBack(s, 1, 1));
  }
}
