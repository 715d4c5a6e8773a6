/** The maps a server gathers sightings in, and the put-back of a failed insert, one key after another, as acts of a
    run (server/clickhouse.go, server/statics.go). */
module SideMaps {
  import opened SideTables

  /** The put-backs of a failed insert's keys, one after another. */
  function GiveBacks<Key>(order: seq<Key>): seq<Act<Key>> {
    seq(|order|, i requires 0 <= i < |order| => GiveBack(order[i]))
  }

  lemma GiveBacksOne<Key>(acts: seq<Act<Key>>, order: seq<Key>, k: Key)
    ensures acts + GiveBacks(order) + [GiveBack(k)] == acts + GiveBacks(order + [k])
  {
    assert GiveBacks(order + [k]) == GiveBacks(order) + [GiveBack(k)];
  }

  /** The keys of a set, each once. */
  ghost predicate Orders<Key(!new)>(order: seq<Key>, keys: set<Key>) {
    && (forall k :: k in order <==> k in keys)
    && forall i, j :: 0 <= i < j < |order| ==> order[i] != order[j]
  }

  /** The keys that have not come back and are no longer held to come. */
  ghost function Missing<Key>(s: Store<Key>, r: Store<Key>): set<Key> {
    s.taken.Keys - r.taken.Keys - r.pending.Keys
  }

  ghost predicate KeyBack<Key(!new)>(s: Store<Key>, r: Store<Key>, k: Key) {
    && (k in s.pending ==> k in r.pending)
    && (k in r.taken ==> k in s.taken && r.taken[k] == s.taken[k] && (k in r.pending ==> k in s.pending))
    && (k in r.pending ==>
          if k in s.taken && k !in r.taken
          then r.pending[k] == With(s.pending, k, s.taken[k])[k]
          else k in s.pending && r.pending[k] == s.pending[k])
  }

  ghost predicate IdBack<Key>(s: Store<Key>, r: Store<Key>, i: nat) {
    && (i in r.inTaken <==> i in s.inTaken && i < |s.notes| && s.notes[i].key in r.taken)
    && (i in r.counted <==> i in s.counted || (i in s.inTaken && i < |s.notes| && s.notes[i].key in Missing(s, r)))
  }

  /** Part of a failed insert has gone back: the keys given back are there with both their times, or were counted
      dropped, each with all its sightings. */
  ghost predicate Back<Key(!new)>(s: Store<Key>, r: Store<Key>) {
    && r.notes == s.notes && r.sent == s.sent && r.table == s.table && r.inTable == s.inTable
    && r.taken.Keys <= s.taken.Keys && r.dropped == s.dropped + |Missing(s, r)|
    && (forall k {:trigger KeyBack(s, r, k)} :: KeyBack(s, r, k))
    && (forall i {:trigger IdBack(s, r, i)} :: IdBack(s, r, i))
  }

  lemma BackNone<Key(!new)>(s: Store<Key>)
    requires Placed(s) && forall k :: Held(s, k)
    ensures Back(s, s)
  {
    forall i: nat
      ensures IdBack(s, s, i)
    {
      assert i in s.inTaken ==> Held(s, s.notes[i].key) && IsOf(s.notes, s.inTaken, s.notes[i].key, i);
    }
    assert Missing(s, s) == {};
  }

  lemma MissingOne<Key(!new)>(s: Store<Key>, r: Store<Key>, bound: nat, k: Key)
    requires k in r.taken && k in s.taken
    ensures Missing(s, GivenBack(r, bound, k)) == if Full(r, bound, k) then Missing(s, r) + {k} else Missing(s, r)
    ensures k !in Missing(s, r)
  {
  }

  lemma KeyBackOne<Key(!new)>(s: Store<Key>, r: Store<Key>, bound: nat, k: Key, j: Key)
    requires k in r.taken && KeyBack(s, r, j) && KeyBack(s, r, k)
    ensures KeyBack(s, GivenBack(r, bound, k), j)
  {
  }

  lemma IdBackOne<Key(!new)>(s: Store<Key>, r: Store<Key>, bound: nat, k: Key, i: nat)
    requires k in r.taken && k in s.taken && r.notes == s.notes && IdBack(s, r, i)
    ensures IdBack(s, GivenBack(r, bound, k), i)
  {
    MissingOne(s, r, bound, k);
  }

  lemma BackOne<Key(!new)>(s: Store<Key>, r: Store<Key>, bound: nat, k: Key)
    requires Back(s, r) && k in r.taken
    ensures Back(s, GivenBack(r, bound, k))
  {
    forall j
      ensures KeyBack(s, GivenBack(r, bound, k), j)
    {
      assert KeyBack(s, r, j) && KeyBack(s, r, k);
      KeyBackOne(s, r, bound, k, j);
    }
    forall i: nat
      ensures IdBack(s, GivenBack(r, bound, k), i)
    {
      assert KeyBack(s, r, k) && IdBack(s, r, i);
      IdBackOne(s, r, bound, k, i);
    }
    assert KeyBack(s, r, k);
    MissingOne(s, r, bound, k);
  }

  /** Each sighting that was being sent is counted exactly when its key is not there afterwards. */
  lemma CountedMissing<Key(!new)>(s: Store<Key>, r: Store<Key>, i: nat)
    requires Placed(s) && i in s.inTaken && Held(s, s.notes[i].key) && Back(s, r) && r.taken == map[]
    ensures i < |r.notes| && (i in r.counted <==> r.notes[i].key !in r.pending)
  {
    var k := s.notes[i].key;
    assert IsOf(s.notes, s.inTaken, k, i);
    assert IdBack(s, r, i);
  }

  /** A put-back under way: these keys have gone back, and one is missing only since the map is full. */
  ghost predicate Returning<Key(!new)>(s: Store<Key>, r: Store<Key>, order: seq<Key>, bound: nat) {
    Back(s, r) && Orders(order, s.taken.Keys - r.taken.Keys) && (Missing(s, r) != {} ==> |r.pending| >= bound)
  }

  lemma OrdersOne<Key(!new)>(order: seq<Key>, keys: set<Key>, k: Key)
    requires Orders(order, keys) && k !in keys
    ensures Orders(order + [k], keys + {k})
  {
  }

  lemma Smaller<T>(a: set<T>, b: set<T>)
    requires a <= b
    ensures |a| <= |b|
  {
    assert b == a + (b - a);
  }

  lemma StaysFull<Key>(r: Store<Key>, bound: nat, k: Key)
    requires k in r.taken
    ensures |GivenBack(r, bound, k).pending| >= |r.pending|
  {
    var g := GivenBack(r, bound, k);
    Smaller(r.pending.Keys, g.pending.Keys);
    assert |r.pending| == |r.pending.Keys| && |g.pending| == |g.pending.Keys|;
  }

  lemma OrdersReturning<Key(!new)>(s: Store<Key>, r: Store<Key>, order: seq<Key>, bound: nat, k: Key)
    requires k in r.taken && k in s.taken && Orders(order, s.taken.Keys - r.taken.Keys)
    ensures Orders(order + [k], s.taken.Keys - GivenBack(r, bound, k).taken.Keys)
  {
    OrdersOne(order, s.taken.Keys - r.taken.Keys, k);
    assert s.taken.Keys - GivenBack(r, bound, k).taken.Keys == s.taken.Keys - r.taken.Keys + {k};
  }

  lemma MissingReturning<Key(!new)>(s: Store<Key>, r: Store<Key>, bound: nat, k: Key)
    requires k in r.taken && k in s.taken && (Missing(s, r) != {} ==> |r.pending| >= bound)
    ensures Missing(s, GivenBack(r, bound, k)) != {} ==> |GivenBack(r, bound, k).pending| >= bound
  {
    MissingOne(s, r, bound, k);
    StaysFull(r, bound, k);
  }

  lemma ReturningOne<Key(!new)>(s: Store<Key>, r: Store<Key>, order: seq<Key>, bound: nat, k: Key)
    requires Returning(s, r, order, bound) && k in r.taken
    ensures Returning(s, GivenBack(r, bound, k), order + [k], bound)
  {
    assert KeyBack(s, r, k);
    BackOne(s, r, bound, k);
    OrdersReturning(s, r, order, bound, k);
    MissingReturning(s, r, bound, k);
  }

  /** What the end of a put-back leaves. */
  lemma AfterPutBack<Key(!new)>(bound: nat, acts: seq<Act<Key>>, r: Store<Key>, order: seq<Key>)
    requires Legal(bound, acts)
    requires var s := After(bound, acts); Returning(s, r, order, bound) && r.taken == map[]
    ensures var s := After(bound, acts);
            && Orders(order, s.taken.Keys)
            && r.dropped == s.dropped + |s.taken.Keys - r.pending.Keys|
            && (s.taken.Keys - r.pending.Keys != {} ==> |r.pending| >= bound)
            && forall i :: i in s.inTaken ==> i < |r.notes| && (i in r.counted <==> r.notes[i].key !in r.pending)
  {
    var s := After(bound, acts);
    AfterPlaces(bound, acts);
    assert Missing(s, r) == s.taken.Keys - r.pending.Keys;
    assert s.taken.Keys - r.taken.Keys == s.taken.Keys;
    forall i | i in s.inTaken
      ensures i < |r.notes| && (i in r.counted <==> r.notes[i].key !in r.pending)
    {
      AfterHolds(bound, acts, s.notes[i].key);
      CountedMissing(s, r, i);
    }
  }

  /** With room for all of them every key comes back, and with nothing noted meanwhile as it was. */
  lemma AllBack<Key(!new)>(s: Store<Key>, r: Store<Key>, bound: nat)
    requires Back(s, r) && r.taken == map[] && (Missing(s, r) != {} ==> |r.pending| >= bound)
    requires |s.pending.Keys + s.taken.Keys| <= bound
    ensures Missing(s, r) == {} && r.counted == s.counted && r.dropped == s.dropped
    ensures s.pending == map[] ==> r.pending == s.taken
  {
    assert |r.pending| == |r.pending.Keys|;
    if k :| k in Missing(s, r) {
      assert forall j :: j in r.pending ==> KeyBack(s, r, j);
      assert KeyBack(s, r, k);
      Smaller(r.pending.Keys + {k}, s.pending.Keys + s.taken.Keys);
      assert false;
    }
    forall i: nat
      ensures i in r.counted <==> i in s.counted
    {
      assert IdBack(s, r, i);
    }
    forall k
      ensures s.pending == map[] ==> (k in r.pending <==> k in s.taken)
      ensures s.pending == map[] && k in r.pending ==> r.pending[k] == s.taken[k]
    {
      assert KeyBack(s, r, k);
      assert k !in Missing(s, r);
    }
  }

  class Gathered<Key(==, !new)> {
    const bound: nat               // the most keys that may wait
    var pending: map<Key, Times>   // noted since the last flush
    var taken: map<Key, Times>     // what the flush under way is sending
    var dropped: nat
    ghost var acts: seq<Act<Key>>  // everything done so far

    ghost predicate Holding(s: Store<Key>)
      reads this
    {
      pending == s.pending && taken == s.taken && dropped == s.dropped
    }

    /** The maps are what the run so far makes of them. */
    ghost predicate Valid()
      reads this
    {
      Legal(bound, acts) && Holding(After(bound, acts))
    }

    ghost function State(): Store<Key>
      requires Valid()
      reads this
    {
      After(bound, acts)
    }

    constructor (bound: nat)
      ensures Valid() && this.bound == bound && acts == []
    {
      this.bound := bound;
      pending, taken, dropped := map[], map[], 0;
      acts := [];
    }

    /** Merges times into a key's, or starts it with them. */
    method MergeIn(k: Key, t: Times)
      modifies this`pending
      ensures pending == With(old(pending), k, t)
    {
      var cur := if k in pending then pending[k] else t;
      if t.first < cur.first {
        cur := cur.(first := t.first);
      }
      if t.last > cur.last {
        cur := cur.(last := t.last);
      }
      pending := pending[k := cur];
    }

    method NoteIn(k: Key, at: nat, ghost s: Store<Key>)
      requires Holding(s)
      modifies this`pending, this`dropped
      ensures Holding(NotedIn(s, bound, k, at))
    {
      if k !in pending && |pending| >= bound {
        dropped := dropped + 1;
      } else {
        MergeIn(k, Times(at, at));
      }
    }

    /** Notes a sighting, or counts it dropped when its key is new and the map is full. */
    method AddNote(k: Key, at: nat)
      requires Valid()
      modifies this`pending, this`dropped, this`acts
      ensures Valid() && acts == old(acts) + [Note(k, at)]
      ensures if k !in old(pending) && |old(pending)| >= bound
              then dropped == old(dropped) + 1 && pending == old(pending)
              else dropped == old(dropped) && pending == With(old(pending), k, Times(at, at))
    {
      NoteIn(k, at, State());
      AfterNote(bound, acts, k, at);
      acts := acts + [Note(k, at)];
    }

    /** A flush takes what is pending. */
    method TakePending()
      requires Valid() && Enabled(State(), Take)
      modifies this`pending, this`taken, this`acts
      ensures Valid() && acts == old(acts) + [Take]
      ensures taken == old(pending) && pending == map[]
    {
      AfterOne(bound, acts, Take);
      acts := acts + [Take];
      taken, pending := pending, map[];
    }

    /** An insert commits, whatever was answered and however late: the table merges what it carried. */
    ghost method Commits(n: nat)
      requires Valid() && n < |State().sent|
      modifies this`acts
      ensures Valid() && acts == old(acts) + [Commit(n)]
      ensures State().table == Merged(old(State()).table, old(State()).sent[n].rows)
    {
      AfterOne(bound, acts, Commit(n));
      acts := acts + [Commit(n)];
    }

    /** The insert is answered well, so it committed: nothing is owed. */
    method AnsweredWell()
      requires Valid() && Enabled(State(), Done)
      modifies this`taken, this`acts
      ensures Valid() && acts == old(acts) + [Done] && taken == map[]
    {
      AfterOne(bound, acts, Done);
      acts := acts + [Done];
      taken := map[];
    }

    /** One key of a failed insert: put back, or counted dropped when it is new and the map is full. */
    method PutBackKey(k: Key)
      requires Valid() && k in taken
      modifies this`pending, this`taken, this`dropped, this`acts
      ensures Valid() && acts == old(acts) + [GiveBack(k)] && taken == old(taken) - {k}
      ensures State() == GivenBack(old(State()), bound, k)
    {
      AfterGiveBack(bound, acts, k);
      acts := acts + [GiveBack(k)];
      var t := taken[k];
      taken := taken - {k};
      if k !in pending && |pending| >= bound {
        dropped := dropped + 1;
      } else {
        MergeIn(k, t);
      }
    }

    method PutBackNext(k: Key, ghost s: Store<Key>, ghost order: seq<Key>)
      requires Valid() && k in taken && Returning(s, State(), order, bound)
      modifies this`pending, this`taken, this`dropped, this`acts
      ensures Valid() && acts == old(acts) + [GiveBack(k)] && taken == old(taken) - {k}
      ensures Returning(s, State(), order + [k], bound)
    {
      ReturningOne(s, State(), order, bound, k);
      PutBackKey(k);
    }

    lemma StateHolds()
      requires Valid()
      ensures Placed(State()) && forall k :: Held(State(), k)
    {
      AfterPlaces(bound, acts);
      forall k
        ensures Held(State(), k)
      {
        AfterHolds(bound, acts, k);
      }
    }

    lemma StartsReturning()
      requires Valid()
      ensures Returning(State(), State(), [], bound)
    {
      StateHolds();
      BackNone(State());
    }

    method PutBackAll(ghost s: Store<Key>) returns (ghost order: seq<Key>)
      requires Valid() && Returning(s, State(), [], bound)
      modifies this`pending, this`taken, this`dropped, this`acts
      ensures Valid() && acts == old(acts) + GiveBacks(order) && taken == map[] && Returning(s, State(), order, bound)
    {
      ghost var was := acts;
      order := [];
      assert acts == was + GiveBacks(order);
      while taken.Keys != {}
        invariant Valid() && acts == was + GiveBacks(order) && Returning(s, State(), order, bound)
        decreases |taken.Keys|
      {
        var k :| k in taken.Keys;
        PutBackNext(k, s, order);
        GiveBacksOne(was, order, k);
        order := order + [k];
      }
    }

    /** The insert is answered with an error: what it took goes back in some order, merged with what came
        meanwhile, each key within the bound; a key missing afterwards was counted dropped with all its sightings. */
    method PutBack() returns (ghost order: seq<Key>)
      requires Valid()
      modifies this`pending, this`taken, this`dropped, this`acts
      ensures Valid() && acts == old(acts) + GiveBacks(order) && Orders(order, old(taken).Keys) && taken == map[]
      ensures Back(old(State()), State())
      ensures dropped == old(dropped) + |old(taken).Keys - pending.Keys|
      ensures old(taken).Keys - pending.Keys != {} ==> |pending| >= bound
      ensures forall i :: i in old(State()).inTaken ==>
                            i < |State().notes| && (i in State().counted <==> State().notes[i].key !in pending)
    {
      ghost var was := acts;
      StartsReturning();
      order := PutBackAll(State());
      AfterPutBack(bound, was, State(), order);
    }
  }
}
