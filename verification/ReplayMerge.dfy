/** The merge that replays archived sources in receive-time order (server/replay.go). */
module ReplayMerge {
  import Heaps

  type Source = string

  datatype Rec = Rec(recv: int, body: string)

  /** What one source's reader yields, and whether it ends on corrupt input rather than at its end. */
  datatype Stream = Stream(recs: seq<Rec>, corrupt: bool)

  datatype Item = Item(source: Source, rec: Rec)

  /** A reader on the heap: the receive time of its current record, and its source. */
  datatype Head = Head(recv: int, source: Source)

  // ---- the order ----

  predicate Precedes(a: Source, b: Source) {
    b != [] && (a == [] || a[0] < b[0] || (a[0] == b[0] && Precedes(a[1..], b[1..])))
  }

  predicate HeadLess(a: Head, b: Head) { a.recv < b.recv || (a.recv == b.recv && Precedes(a.source, b.source)) }

  predicate ItemLess(a: Item, b: Item) { HeadLess(Head(a.rec.recv, a.source), Head(b.rec.recv, b.source)) }

  function Less(): Heaps.Order<Head> { (a: Head, b: Head) => HeadLess(a, b) }

  lemma {:induction false} PrecedesIrreflexive(a: Source)
    ensures !Precedes(a, a)
  {
    if a != [] {
      PrecedesIrreflexive(a[1..]);
    }
  }

  lemma {:induction false} PrecedesConnected(a: Source, b: Source)
    ensures Precedes(a, b) || Precedes(b, a) || a == b
  {
    if a != [] && b != [] && a[0] == b[0] {
      PrecedesConnected(a[1..], b[1..]);
      assert a == [a[0]] + a[1..] && b == [b[0]] + b[1..];
    }
  }

  lemma {:induction false} PrecedesTransitive(a: Source, b: Source, c: Source)
    requires Precedes(a, b) && Precedes(b, c)
    ensures Precedes(a, c)
  {
    if a != [] && a[0] == b[0] == c[0] {
      PrecedesTransitive(a[1..], b[1..], c[1..]);
    }
  }

  /** The sources agree before place k, where a ends or has the lower byte. */
  ghost predicate LowerAt(a: Source, b: Source, k: nat) {
    k <= |a| && k < |b| && (forall j :: 0 <= j < k ==> a[j] == b[j]) && (k < |a| ==> a[k] < b[k])
  }

  /** Sources compare byte by byte, and one that is the front of another comes first. */
  lemma {:induction false} PrecedesExactly(a: Source, b: Source)
    ensures Precedes(a, b) <==> exists k :: LowerAt(a, b, k)
  {
    if a != [] && b != [] && a[0] == b[0] {
      PrecedesExactly(a[1..], b[1..]);
      if k: nat :| LowerAt(a[1..], b[1..], k) {
        assert forall j :: 0 < j < k + 1 ==> a[j] == a[1..][j - 1] && b[j] == b[1..][j - 1];
        assert LowerAt(a, b, k + 1);
      }
      if k: nat :| LowerAt(a, b, k) {
        assert LowerAt(a[1..], b[1..], k - 1);
      }
    } else if Precedes(a, b) {
      assert LowerAt(a, b, 0);
    }
  }

  /** Receive time and then source order any two readers: no tie is left to the heap. */
  lemma LessTotal()
    ensures Heaps.Total(Less())
  {
    forall x: Head
      ensures !HeadLess(x, x)
    {
      PrecedesIrreflexive(x.source);
    }
    forall x: Head, y: Head
      ensures HeadLess(x, y) || HeadLess(y, x) || x == y
    {
      PrecedesConnected(x.source, y.source);
    }
    forall x: Head, y: Head, z: Head | HeadLess(x, y) && HeadLess(y, z)
      ensures HeadLess(x, z)
    {
      if x.recv == y.recv == z.recv {
        PrecedesTransitive(x.source, y.source, z.source);
      }
    }
    assert forall x, y :: Less()(x, y) == HeadLess(x, y);
  }

  // ---- what a replay is ----

  /** The records of one source among those dispatched, in the order they were. */
  function Of(out: seq<Item>, s: Source): seq<Rec> {
    if out == [] then []
    else
      var x := out[|out| - 1];
      Of(out[..|out| - 1], s) + if x.source == s then [x.rec] else []
  }

  lemma {:induction false} OfFront(x: Item, rest: seq<Item>, s: Source)
    ensures Of([x] + rest, s) == (if x.source == s then [x.rec] else []) + Of(rest, s)
  {
    var out := [x] + rest;
    if rest == [] {
      assert out[..0] == [];
    } else {
      OfFront(x, rest[..|rest| - 1], s);
      assert out[..|out| - 1] == [x] + rest[..|rest| - 1];
    }
  }

  lemma {:induction false} OfIn(out: seq<Item>, s: Source, r: Rec)
    requires r in Of(out, s)
    ensures Item(s, r) in out
  {
    var x := out[|out| - 1];
    if !(x.source == s && x.rec == r) {
      OfIn(out[..|out| - 1], s, r);
    }
  }

  ghost predicate Ordered(out: seq<Item>) { forall i, j :: 0 <= i < j < |out| ==> !ItemLess(out[j], out[i]) }

  /** A source's records come in receive-time order. */
  ghost predicate Rising(recs: seq<Rec>) { forall i, j :: 0 <= i < j < |recs| ==> recs[i].recv <= recs[j].recv }

  /** The records received before to. */
  function Before(recs: seq<Rec>, to: int): seq<Rec> {
    if recs == [] then []
    else
      var r := recs[|recs| - 1];
      Before(recs[..|recs| - 1], to) + if r.recv < to then [r] else []
  }

  /** Exactly the records before to, once each, by receive time and then source, and in order within a source. */
  ghost predicate IsMerge(out: seq<Item>, streams: map<Source, Stream>, to: int) {
    && Ordered(out)
    && forall s :: Of(out, s) == if s in streams then Before(streams[s].recs, to) else []
  }

  /** The records before to are the first k, and no later one is. */
  ghost predicate Splits(recs: seq<Rec>, to: int, k: nat) {
    && k <= |recs|
    && (forall j :: 0 <= j < k ==> recs[j].recv < to)
    && (forall j :: k <= j < |recs| ==> recs[j].recv >= to)
  }

  /** Where records come in order, one at or past to parts those before it from all the rest. */
  lemma RisingSplits(recs: seq<Rec>, to: int, k: nat)
    requires Rising(recs) && k <= |recs|
    requires (forall j :: 0 <= j < k ==> recs[j].recv < to) && (k < |recs| ==> recs[k].recv >= to)
    ensures Splits(recs, to, k)
  {
    forall j | k < j < |recs|
      ensures recs[j].recv >= to
    {
      assert recs[k].recv <= recs[j].recv;
    }
  }

  /** Those before to, of records that all are and then of records none of which is. */
  lemma {:induction false} BeforeParts(first: seq<Rec>, later: seq<Rec>, to: int)
    requires (forall r :: r in first ==> r.recv < to) && forall r :: r in later ==> r.recv >= to
    ensures Before(first + later, to) == first
  {
    var recs := first + later;
    if later != [] {
      BeforeParts(first, later[..|later| - 1], to);
      assert recs[..|recs| - 1] == first + later[..|later| - 1];
      assert recs[|recs| - 1] in later;
    } else if first != [] {
      BeforeParts(first[..|first| - 1], [], to);
      assert recs[..|recs| - 1] == first[..|first| - 1] + [];
      assert first == first[..|first| - 1] + [first[|first| - 1]];
    }
  }

  lemma BeforeIsPrefix(recs: seq<Rec>, to: int, k: nat)
    requires Splits(recs, to, k)
    ensures Before(recs, to) == recs[..k]
  {
    assert recs == recs[..k] + recs[k..];
    BeforeParts(recs[..k], recs[k..], to);
  }

  // ---- the merge is determined ----

  ghost predicate NotBefore(out: seq<Item>, whole: seq<Item>, x: Item, s: Source, k: nat) {
    x in out && |Of(out, s)| <= k < |Of(whole, s)| ==> !ItemLess(Item(s, Of(whole, s)[k]), x)
  }

  /** What an ordered sequence dispatches before the rest of a merge: no record left out comes before one put in. */
  ghost predicate NothingSkipped(out: seq<Item>, whole: seq<Item>) {
    forall x, s, k {:trigger NotBefore(out, whole, x, s, k)} :: NotBefore(out, whole, x, s, k)
  }

  ghost predicate FrontOf(out: seq<Item>, whole: seq<Item>, s: Source) { Of(out, s) <= Of(whole, s) }

  /** What has been dispatched of each source is the front of its part of a merge. */
  ghost predicate Fronts(out: seq<Item>, whole: seq<Item>) {
    forall s {:trigger FrontOf(out, whole, s)} :: FrontOf(out, whole, s)
  }

  lemma TailsPrefix(a: Item, outs: seq<Item>, rest: seq<Item>, s: Source)
    requires Of([a] + outs, s) <= Of([a] + rest, s)
    ensures Of(outs, s) <= Of(rest, s)
  {
    OfFront(a, outs, s);
    OfFront(a, rest, s);
    FrontOff(if a.source == s then [a.rec] else [], Of(outs, s), Of(rest, s));
  }

  lemma TailsSkipNothing(a: Item, outs: seq<Item>, rest: seq<Item>)
    requires NothingSkipped([a] + outs, [a] + rest)
    ensures NothingSkipped(outs, rest)
  {
    var out, whole := [a] + outs, [a] + rest;
    forall x, s, k: nat
      ensures NotBefore(outs, rest, x, s, k)
    {
      OfFront(a, outs, s);
      OfFront(a, rest, s);
      assert NotBefore(out, whole, x, s, if a.source == s then k + 1 else k);
    }
  }

  lemma FirstsAgree(out: seq<Item>, whole: seq<Item>)
    requires Ordered(out) && Ordered(whole) && NothingSkipped(out, whole) && Fronts(out, whole) && out != []
             && out[0] in whole
    requires var b := whole[0]; |Of(whole, b.source)| > 0 && Of(whole, b.source)[0] == b.rec
    requires var a := out[0]; |Of(whole, a.source)| > 0 && Of(whole, a.source)[0] == a.rec
    ensures out[0] == whole[0]
  {
    var a, b := out[0], whole[0];
    var i :| 0 <= i < |whole| && whole[i] == a;
    assert i > 0 ==> !ItemLess(a, b);
    if Of(out, b.source) == [] {
      assert a in out;
      assert NotBefore(out, whole, a, b.source, 0);
    } else {
      assert FrontOf(out, whole, b.source);
      assert Of(out, b.source)[0] == b.rec;
      OfIn(out, b.source, b.rec);
      var j :| 0 <= j < |out| && out[j] == b;
      assert j > 0 ==> !ItemLess(b, a);
    }
    PrecedesConnected(a.source, b.source);
  }

  lemma {:induction false} PrefixOfMerge(out: seq<Item>, whole: seq<Item>)
    requires Ordered(out) && Ordered(whole) && NothingSkipped(out, whole) && Fronts(out, whole)
    ensures out <= whole
  {
    if out != [] {
      var a, outs := out[0], out[1..];
      assert out == [a] + outs;
      OfFront(a, outs, a.source);
      assert FrontOf(out, whole, a.source);
      assert Of(whole, a.source)[0] == a.rec;
      OfIn(whole, a.source, a.rec);
      var b, rest := whole[0], whole[1..];
      assert whole == [b] + rest;
      OfFront(b, rest, b.source);
      FirstsAgree(out, whole);
      TailsSkipNothing(a, outs, rest);
      forall s
        ensures FrontOf(outs, rest, s)
      {
        assert FrontOf(out, whole, s);
        TailsPrefix(a, outs, rest, s);
      }
      PrefixOfMerge(outs, rest);
    }
  }

  lemma FrontOff<T>(p: seq<T>, x: seq<T>, y: seq<T>)
    requires p + x <= p + y
    ensures x <= y
  {
    assert x == (p + x)[|p|..] && y == (p + y)[|p|..];
    forall i | 0 <= i < |x|
      ensures x[i] == y[i]
    {
      assert (p + x)[|p| + i] == (p + y)[|p| + i];
    }
  }

  /** There is one merge, whatever order the readers were collected in. */
  lemma MergeUnique(a: seq<Item>, b: seq<Item>, streams: map<Source, Stream>, to: int)
    requires IsMerge(a, streams, to) && IsMerge(b, streams, to)
    ensures a == b
  {
    assert forall s :: Of(a, s) == Of(b, s);
    PrefixOfMerge(a, b);
    PrefixOfMerge(b, a);
  }

  ghost predicate AllRising(streams: map<Source, Stream>) { forall s :: s in streams ==> Rising(streams[s].recs) }

  /** Where the records reach to. */
  lemma {:induction false} Cut(recs: seq<Rec>, to: int) returns (k: nat)
    ensures k <= |recs| && (forall j :: 0 <= j < k ==> recs[j].recv < to) && (k < |recs| ==> recs[k].recv >= to)
  {
    k := 0;
    while k < |recs| && recs[k].recv < to
      invariant 0 <= k <= |recs| && forall j :: 0 <= j < k ==> recs[j].recv < to
    {
      k := k + 1;
    }
  }

  lemma {:induction false} OfConcat(a: seq<Item>, b: seq<Item>, s: Source)
    ensures Of(a + b, s) == Of(a, s) + Of(b, s)
  {
    if b == [] {
      assert a + b == a;
    } else {
      OfConcat(a, b[..|b| - 1], s);
      assert (a + b)[..|a + b| - 1] == a + b[..|b| - 1];
    }
  }

  /** Where an item goes among others: past all but those that come after it. */
  lemma Place(m: seq<Item>, x: Item) returns (p: nat)
    requires Ordered(m)
    ensures p <= |m|
    ensures (forall i :: 0 <= i < p ==> !ItemLess(x, m[i])) && forall i :: p <= i < |m| ==> ItemLess(x, m[i])
  {
    p := |m|;
    while p > 0 && ItemLess(x, m[p - 1])
      invariant p <= |m| && forall i :: p <= i < |m| ==> ItemLess(x, m[i])
    {
      p := p - 1;
    }
    LessTotal();
    forall i | 0 <= i < p
      ensures !ItemLess(x, m[i])
    {
      assert !ItemLess(m[p - 1], m[i]) || i == p - 1;
      assert Less()(Head(x.rec.recv, x.source), Head(m[i].rec.recv, m[i].source)) == ItemLess(x, m[i]);
      assert Less()(Head(m[p - 1].rec.recv, m[p - 1].source), Head(m[i].rec.recv, m[i].source))
             == ItemLess(m[p - 1], m[i]);
      assert Less()(Head(x.rec.recv, x.source), Head(m[p - 1].rec.recv, m[p - 1].source)) == ItemLess(x, m[p - 1]);
    }
  }

  lemma PlacedOrdered(m: seq<Item>, x: Item, p: nat)
    requires Ordered(m) && p <= |m|
    requires (forall i :: 0 <= i < p ==> !ItemLess(x, m[i])) && forall i :: p <= i < |m| ==> ItemLess(x, m[i])
    ensures Ordered(m[..p] + [x] + m[p..])
  {
    forall i | p <= i < |m|
      ensures !ItemLess(m[i], x)
    {
      LessTotal();
      assert Less()(Head(x.rec.recv, x.source), Head(m[i].rec.recv, m[i].source)) == ItemLess(x, m[i]);
      assert Less()(Head(m[i].rec.recv, m[i].source), Head(x.rec.recv, x.source)) == ItemLess(m[i], x);
    }
  }

  /** None of an item's own source comes after it when none of them is later. */
  lemma NoneOfIts(later: seq<Item>, x: Item)
    requires forall i :: 0 <= i < |later| ==> ItemLess(x, later[i])
    ensures (forall r :: r in Of(later, x.source) ==> r.recv <= x.rec.recv) ==> Of(later, x.source) == []
  {
    PrecedesIrreflexive(x.source);
    if Of(later, x.source) != [] {
      var r := Of(later, x.source)[0];
      OfIn(later, x.source, r);
    }
  }

  lemma OfAppend(out: seq<Item>, x: Item, s: Source)
    ensures Of(out + [x], s) == Of(out, s) + if x.source == s then [x.rec] else []
  {
  }

  lemma PlacedOf(m: seq<Item>, x: Item, p: nat, t: Source)
    requires p <= |m|
    ensures Of(m[..p] + [x] + m[p..], t) == Of(m[..p], t) + (if t == x.source then [x.rec] else []) + Of(m[p..], t)
    ensures Of(m, t) == Of(m[..p], t) + Of(m[p..], t)
  {
    assert m == m[..p] + m[p..];
    OfConcat(m[..p], m[p..], t);
    OfConcat(m[..p] + [x], m[p..], t);
    OfAppend(m[..p], x, t);
  }

  /** One more source's records merged in. */
  lemma {:induction false} MergeIn(m: seq<Item>, s: Source, recs: seq<Rec>) returns (out: seq<Item>)
    requires Ordered(m) && Rising(recs) && Of(m, s) == []
    ensures Ordered(out) && Of(out, s) == recs && forall t :: t != s ==> Of(out, t) == Of(m, t)
    decreases |recs|
  {
    if recs == [] {
      return m;
    }
    var front, x := recs[..|recs| - 1], Item(s, recs[|recs| - 1]);
    var was := MergeIn(m, s, front);
    var p := Place(was, x);
    PlacedOrdered(was, x, p);
    out := was[..p] + [x] + was[p..];
    forall t
      ensures Of(out, t) == Of(was[..p], t) + (if t == s then [x.rec] else []) + Of(was[p..], t)
      ensures Of(was, t) == Of(was[..p], t) + Of(was[p..], t)
    {
      PlacedOf(was, x, p, t);
    }
    NoneOfIts(was[p..], x);
    assert forall r :: r in Of(was[p..], s) ==> r in front;
    assert recs == front + [x.rec];
  }

  lemma BeforeRises(recs: seq<Rec>, to: int)
    requires Rising(recs)
    ensures Rising(Before(recs, to))
  {
    var k := Cut(recs, to);
    RisingSplits(recs, to, k);
    BeforeIsPrefix(recs, to, k);
  }

  /** There is a merge of any readers whose records come in order. */
  lemma {:induction false} MergeExists(streams: map<Source, Stream>, to: int) returns (whole: seq<Item>)
    requires AllRising(streams)
    ensures IsMerge(whole, streams, to)
    decreases |streams|
  {
    if streams == map[] {
      return [];
    }
    var s :| s in streams;
    var rest := streams - {s};
    var m := MergeExists(rest, to);
    BeforeRises(streams[s].recs, to);
    whole := MergeIn(m, s, Before(streams[s].recs, to));
  }

  /** The merge: every record before to, by receive time and then source. */
  ghost function Merge(streams: map<Source, Stream>, to: int): (whole: seq<Item>)
    requires AllRising(streams)
    ensures IsMerge(whole, streams, to)
  {
    assert exists whole :: IsMerge(whole, streams, to) by {
      var w := MergeExists(streams, to);
    }
    var whole :| IsMerge(whole, streams, to);
    whole
  }

  // ---- the replay ----

  /** How a replay ends: at the end, at a reader's corrupt input, or refused by an adapter or the callback. */
  datatype Outcome = Finished | Corrupted | Refused

  /** The readers on the heap, how many records each has had dispatched, and what was dispatched so far. */
  datatype State = State(heap: seq<Head>, at: map<Source, nat>, out: seq<Item>)

  /** A reader off the heap is exhausted, and not corrupt, or past the range. */
  ghost predicate Passed(x: Stream, k: nat, to: int) {
    if k < |x.recs| then x.recs[k].recv >= to else !x.corrupt
  }

  ghost predicate OnHeap(heap: seq<Head>, x: Stream, s: Source, k: nat) {
    k < |x.recs| && Head(x.recs[k].recv, s) in heap
  }

  ghost predicate Typed(st: State, streams: map<Source, Stream>) {
    st.at.Keys == streams.Keys && forall s :: s in streams ==> st.at[s] <= |streams[s].recs|
  }

  ghost predicate HeapInv(st: State, streams: map<Source, Stream>, known: set<Source>)
    requires Typed(st, streams) && known <= streams.Keys
  {
    && Heaps.Heap(st.heap, Less())
    && (forall h :: multiset(st.heap)[h] <= 1)
    && (forall h :: h in st.heap ==> h.source in known && OnHeap(st.heap, streams[h.source], h.source, st.at[h.source])
                                     && h.recv == streams[h.source].recs[st.at[h.source]].recv)
  }

  /** What has been dispatched of a source is what comes before its current record, all of it before to. */
  ghost predicate OfInv(out: seq<Item>, s: Source, x: Stream, k: nat, to: int) {
    k <= |x.recs| && Of(out, s) == x.recs[..k] && forall j :: 0 <= j < k ==> x.recs[j].recv < to
  }

  /** No record left comes before one dispatched. */
  ghost predicate SkipInv(out: seq<Item>, s: Source, x: Stream, k: nat) {
    forall j, y :: k <= j < |x.recs| && y in out ==> !ItemLess(Item(s, x.recs[j]), y)
  }

  ghost predicate OutInv(st: State, streams: map<Source, Stream>, to: int)
    requires Typed(st, streams)
  {
    && Ordered(st.out)
    && (forall s :: s in streams ==>
          OfInv(st.out, s, streams[s], st.at[s], to) && SkipInv(st.out, s, streams[s], st.at[s]))
    && (forall s :: s !in streams ==> Of(st.out, s) == [])
  }

  ghost predicate OffInv(st: State, streams: map<Source, Stream>, to: int, known: set<Source>)
    requires Typed(st, streams) && known <= streams.Keys
  {
    forall s :: s in known ==> OnHeap(st.heap, streams[s], s, st.at[s]) || Passed(streams[s], st.at[s], to)
  }

  ghost predicate Inv(st: State, streams: map<Source, Stream>, to: int, known: set<Source>) {
    && known <= streams.Keys && Typed(st, streams) && HeapInv(st, streams, known) && OffInv(st, streams, to, known)
    && OutInv(st, streams, to)
  }

  /** What was dispatched, at whatever point the replay stopped, is the front of the one merge. */
  lemma OutIsPrefix(st: State, streams: map<Source, Stream>, to: int, whole: seq<Item>)
    requires AllRising(streams) && Typed(st, streams) && OutInv(st, streams, to) && IsMerge(whole, streams, to)
    ensures st.out <= whole
  {
    forall s
      ensures FrontOf(st.out, whole, s)
      ensures s in streams ==> Of(whole, s) <= streams[s].recs
    {
      if s in streams {
        var k := Cut(streams[s].recs, to);
        RisingSplits(streams[s].recs, to, k);
        BeforeIsPrefix(streams[s].recs, to, k);
        assert st.at[s] <= k;
      }
    }
    forall x, s, k: nat
      ensures NotBefore(st.out, whole, x, s, k)
    {
      if s in streams && k < |Of(whole, s)| {
        assert Of(whole, s) <= streams[s].recs;
        assert Of(whole, s)[k] == streams[s].recs[k];
      }
    }
    PrefixOfMerge(st.out, whole);
  }

  /** Where input is corrupt, it is so only after a record past the range. */
  ghost predicate CorruptionPastRange(streams: map<Source, Stream>, to: int) {
    forall s :: s in streams && streams[s].corrupt ==> exists r :: r in streams[s].recs && r.recv >= to
  }

  /** Every record of some reader was dispatched, and it ends on corrupt input. */
  ghost predicate ReadsCorrupt(out: seq<Item>, streams: map<Source, Stream>) {
    exists s :: s in streams && streams[s].corrupt && Of(out, s) == streams[s].recs
  }

  lemma EmptyHeapIsMerge(st: State, streams: map<Source, Stream>, to: int)
    requires AllRising(streams) && Inv(st, streams, to, streams.Keys) && st.heap == []
    ensures IsMerge(st.out, streams, to) && CorruptionPastRange(streams, to)
  {
    forall s | s in streams
      ensures Of(st.out, s) == Before(streams[s].recs, to)
      ensures streams[s].corrupt ==> exists r :: r in streams[s].recs && r.recv >= to
    {
      assert Passed(streams[s], st.at[s], to);
      RisingSplits(streams[s].recs, to, st.at[s]);
      BeforeIsPrefix(streams[s].recs, to, st.at[s]);
      if streams[s].corrupt {
        assert streams[s].recs[st.at[s]] in streams[s].recs;
      }
    }
  }

  lemma RootIsLeast(heap: seq<Head>, h: Head)
    requires Heaps.Heap(heap, Less()) && h in heap
    ensures !HeadLess(h, heap[0])
  {
    var i :| 0 <= i < |heap| && heap[i] == h;
    LessTotal();
    Heaps.RootIsLeast(heap, Less(), i);
  }

  /** The heap's root is the least of what is left, so dispatching it keeps the order. */
  lemma RootComesNext(st: State, streams: map<Source, Stream>, to: int, s: Source, k: nat)
    requires AllRising(streams) && Typed(st, streams) && HeapInv(st, streams, streams.Keys)
             && OffInv(st, streams, to, streams.Keys)
    requires st.heap != [] && st.heap[0].recv < to && s in streams && st.at[s] <= k < |streams[s].recs|
    ensures !HeadLess(Head(streams[s].recs[k].recv, s), st.heap[0])
  {
    var first := streams[s].recs[st.at[s]];
    assert first.recv <= streams[s].recs[k].recv;
    if OnHeap(st.heap, streams[s], s, st.at[s]) {
      RootIsLeast(st.heap, Head(first.recv, s));
    }
  }

  lemma DispatchedOf(out: seq<Item>, x: Item, stream: Stream, k: nat, to: int)
    requires OfInv(out, x.source, stream, k, to) && k < |stream.recs| && stream.recs[k] == x.rec && x.rec.recv < to
    ensures OfInv(out + [x], x.source, stream, k + 1, to)
  {
  }

  function After(st: State, x: Item): State
    requires x.source in st.at
  {
    State([], st.at[x.source := st.at[x.source] + 1], st.out + [x])
  }

  lemma DispatchedSkip(st: State, streams: map<Source, Stream>, to: int, x: Item, s: Source)
    requires AllRising(streams) && Typed(st, streams) && HeapInv(st, streams, streams.Keys)
             && OffInv(st, streams, to, streams.Keys)
    requires st.heap != [] && st.heap[0].recv < to && x.source == st.heap[0].source && x.rec.recv == st.heap[0].recv
    requires s in streams && x.source in streams && SkipInv(st.out, s, streams[s], st.at[s])
    ensures SkipInv(st.out + [x], s, streams[s], After(st, x).at[s])
  {
    forall j | After(st, x).at[s] <= j < |streams[s].recs|
      ensures !ItemLess(Item(s, streams[s].recs[j]), x)
    {
      RootComesNext(st, streams, to, s, j);
    }
  }

  lemma Dispatched(st: State, streams: map<Source, Stream>, to: int, x: Item)
    requires AllRising(streams) && Inv(st, streams, to, streams.Keys) && st.heap != [] && st.heap[0].recv < to
    requires x.source == st.heap[0].source && x.source in streams && x.rec.recv == st.heap[0].recv
    requires var k := st.at[x.source]; k < |streams[x.source].recs| && streams[x.source].recs[k] == x.rec
    ensures Typed(After(st, x), streams) && OutInv(After(st, x), streams, to)
  {
    DispatchedOf(st.out, x, streams[x.source], st.at[x.source], to);
    forall s
      ensures s in streams ==> OfInv(st.out + [x], s, streams[s], After(st, x).at[s], to)
      ensures s !in streams ==> Of(st.out + [x], s) == []
    {
      OfAppend(st.out, x, s);
    }
    forall s | s in streams
      ensures SkipInv(st.out + [x], s, streams[s], After(st, x).at[s])
    {
      DispatchedSkip(st, streams, to, x, s);
    }
    assert SkipInv(st.out, x.source, streams[x.source], st.at[x.source]);
    assert forall i :: 0 <= i < |st.out| ==> st.out[i] in st.out && !ItemLess(x, st.out[i]);
  }

  lemma HeapMoved(was: seq<Head>, heap: seq<Head>, moved: multiset<Head>)
    requires was != [] && multiset(heap) == multiset(was) - multiset{was[0]} + moved
    requires forall h :: multiset(was)[h] <= 1
    ensures forall h :: h in heap <==> (h in was && h != was[0]) || h in moved
    ensures (forall h :: h in moved ==> moved[h] <= 1 && (h == was[0] || h !in was)) ==> forall h ::
            multiset(heap)[h] <= 1
  {
    assert was[0] in multiset(was);
    forall h
      ensures h in heap <==> (h in was && h != was[0]) || h in moved
      ensures (h in moved ==> moved[h] <= 1 && (h == was[0] || h !in was)) ==> multiset(heap)[h] <= 1
    {
      assert h in was <==> h in multiset(was);
      assert h in heap <==> h in multiset(heap);
    }
  }

  /** The root moved on to its reader's next record, or left the heap. */
  lemma RootMoved(st: State, streams: map<Source, Stream>, to: int, now: State, moved: multiset<Head>)
    requires Typed(st, streams) && HeapInv(st, streams, streams.Keys) && OffInv(st, streams, to, streams.Keys)
             && st.heap != []
    requires Typed(now, streams) && forall t :: t in streams && t != st.heap[0].source ==> now.at[t] == st.at[t]
    requires Heaps.Heap(now.heap, Less()) && multiset(now.heap) == multiset(st.heap) - multiset{st.heap[0]} + moved
    requires var s := st.heap[0].source; s in streams && var k := now.at[s];
             if moved == multiset{} then Passed(streams[s], k, to)
             else k < |streams[s].recs| && moved == multiset{Head(streams[s].recs[k].recv, s)}
    ensures HeapInv(now, streams, streams.Keys) && OffInv(now, streams, to, streams.Keys)
  {
    var s := st.heap[0].source;
    HeapMoved(st.heap, now.heap, moved);
    assert st.heap[0] in st.heap;
    forall h | h in st.heap && h != st.heap[0]
      ensures h.source != s
    {
    }
    forall t | t in streams
      ensures OnHeap(now.heap, streams[t], t, now.at[t]) || Passed(streams[t], now.at[t], to)
    {
      if t != s {
        assert OnHeap(st.heap, streams[t], t, st.at[t]) || Passed(streams[t], st.at[t], to);
      } else if moved != multiset{} {
        assert Head(streams[s].recs[now.at[s]].recv, s) in moved;
      }
    }
  }

  /** The first readers' first records are on the heap. */
  ghost predicate Gathering(st: State, streams: map<Source, Stream>, to: int, known: set<Source>) {
    && st.out == [] && known <= streams.Keys && st.at == (map s | s in streams :: 0)
    && HeapInv(st, streams, known) && OffInv(st, streams, to, known)
  }

  lemma Pushed(was: seq<Head>, heap: seq<Head>, h: Head)
    requires multiset(heap) == multiset(was) + multiset{h} && h !in was && forall x :: multiset(was)[x] <= 1
    ensures forall x :: multiset(heap)[x] <= 1
    ensures forall x :: x in heap <==> x in was || x == h
  {
    forall x
      ensures multiset(heap)[x] <= 1
      ensures x in heap <==> x in was || x == h
    {
      assert x in heap <==> x in multiset(heap);
      assert x in was <==> x in multiset(was);
    }
  }

  /** One more reader: its first record goes on the heap. */
  method GatherOne(st: State, streams: map<Source, Stream>, s: Source, ghost to: int, ghost known: set<Source>)
    returns (now: State, corrupt: bool)
    requires Gathering(st, streams, to, known) && s in streams && s !in known
    ensures corrupt ==> now == st && !CorruptionPastRange(streams, to) && ReadsCorrupt(st.out, streams)
    ensures !corrupt ==> Gathering(now, streams, to, known + {s})
  {
    now, corrupt := st, false;
    LessTotal();
    if |streams[s].recs| > 0 {
      var h := Head(streams[s].recs[0].recv, s);
      var heap := Heaps.Push(st.heap, Less(), h);
      Pushed(st.heap, heap, h);
      now := st.(heap := heap);
    } else if streams[s].corrupt {
      assert Of(st.out, s) == streams[s].recs;
      corrupt := true;
    }
  }

  lemma Gathered(st: State, streams: map<Source, Stream>, to: int)
    requires st.out == [] && st.at == map s | s in streams :: 0
    ensures Typed(st, streams) && OutInv(st, streams, to)
  {
  }

  /** Every reader's first record goes on the heap; one that is corrupt before its first fails the replay. */
  method Gather(streams: map<Source, Stream>, order: seq<Source>, ghost to: int) returns (st: State, outcome: Outcome)
    requires (forall s :: s in order <==> s in streams) && forall i, j :: 0 <= i < j < |order| ==> order[i] != order[j]
    ensures st.out == [] && Typed(st, streams) && OutInv(st, streams, to)
    ensures outcome == Finished ==> Inv(st, streams, to, streams.Keys)
    ensures outcome != Finished ==>
              outcome == Corrupted && !CorruptionPastRange(streams, to) && ReadsCorrupt(st.out, streams)
  {
    st := State([], map s | s in streams :: 0, []);
    outcome := Finished;
    ghost var known: set<Source> := {};
    for i := 0 to |order|
      invariant outcome == Finished && Gathering(st, streams, to, known)
      invariant forall s :: s in known <==> s in order[..i]
    {
      var corrupt;
      st, corrupt := GatherOne(st, streams, order[i], to, known);
      if corrupt {
        Gathered(st, streams, to);
        return st, Corrupted;
      }
      known := known + {order[i]};
    }
    assert order[..|order|] == order;
    assert known == streams.Keys;
    Gathered(st, streams, to);
  }

  /** Dispatching the item now keeps the order. */
  ghost predicate MayComeNext(st: State, streams: map<Source, Stream>, to: int, x: Item) {
    x.source in st.at && Typed(After(st, x), streams) && OutInv(After(st, x), streams, to)
  }

  method TakeRoot(st: State, streams: map<Source, Stream>, to: int) returns (x: Item, after: State)
    requires AllRising(streams) && Inv(st, streams, to, streams.Keys) && st.heap != [] && st.heap[0].recv < to
    ensures st.heap[0].source in st.at && x.source == st.heap[0].source && after == After(st, x)
    ensures MayComeNext(st, streams, to, x)
  {
    assert st.heap[0] in st.heap;
    var s := st.heap[0].source;
    x := Item(s, streams[s].recs[st.at[s]]);
    Dispatched(st, streams, to, x);
    after := After(st, x);
  }

  lemma EndedShort(streams: map<Source, Stream>, to: int, s: Source, st: State)
    requires Typed(st, streams) && OutInv(st, streams, to) && s in streams && streams[s].corrupt
             && st.at[s] == |streams[s].recs|
    ensures !CorruptionPastRange(streams, to) && ReadsCorrupt(st.out, streams)
  {
  }

  /** The reader at the root moves on: to its next record, off the heap at its end, or into corrupt input. */
  method Advance(st: State, after: State, streams: map<Source, Stream>, to: int) returns (now: State, outcome: Outcome)
    requires Typed(st, streams) && HeapInv(st, streams, streams.Keys) && OffInv(st, streams, to, streams.Keys)
             && st.heap != []
    requires var s := st.heap[0].source; s in st.at && after.at == st.at[s := st.at[s] + 1]
    requires Typed(after, streams) && OutInv(after, streams, to)
    ensures Typed(now, streams) && OutInv(now, streams, to) && now.at == after.at && now.out == after.out
    ensures outcome == Finished ==> Inv(now, streams, to, streams.Keys)
    ensures outcome == Corrupted ==> !CorruptionPastRange(streams, to) && ReadsCorrupt(now.out, streams)
    ensures outcome != Refused
  {
    var s := st.heap[0].source;
    now, outcome := after, Finished;
    var k := after.at[s];
    LessTotal();
    if k < |streams[s].recs| {
      var h := Head(streams[s].recs[k].recv, s);
      var heap := Heaps.FixRoot(st.heap, Less(), h);
      now := after.(heap := heap);
      RootMoved(st, streams, to, now, multiset{h});
    } else if streams[s].corrupt {
      EndedShort(streams, to, s, after);
      outcome := Corrupted;
    } else {
      var heap := Heaps.Pop(st.heap, Less());
      now := after.(heap := heap);
      RootMoved(st, streams, to, now, multiset{});
    }
  }

  /** What was dispatched was taken, and the callback went on after every record but maybe the last. */
  ghost predicate Taken(out: seq<Item>, parses: Item -> bool, proceed: nat -> bool) {
    && (forall i :: 0 <= i < |out| ==> parses(out[i]))
    && forall n: nat :: 0 < n < |out| ==> proceed(n)
  }

  ghost predicate GoesOn(out: seq<Item>, proceed: nat -> bool) { out != [] ==> proceed(|out|) }

  /** The item that comes next is refused. */
  ghost predicate NextRefused(st: State, streams: map<Source, Stream>, to: int, parses: Item -> bool) {
    exists x :: MayComeNext(st, streams, to, x) && !parses(x)
  }

  /** A replay under way, or stopped short for the reason it has. */
  ghost predicate Underway(st: State, streams: map<Source, Stream>, to: int, parses: Item -> bool,
          proceed: nat -> bool, outcome: Outcome)
  {
    && Typed(st, streams) && OutInv(st, streams, to) && Taken(st.out, parses, proceed)
    && match outcome
       case Finished => Inv(st, streams, to, streams.Keys) && GoesOn(st.out, proceed)
       case Corrupted =>
         !CorruptionPastRange(streams, to) && ReadsCorrupt(st.out, streams) && GoesOn(st.out, proceed)
       case Refused => !GoesOn(st.out, proceed) || NextRefused(st, streams, to, parses)
  }

  lemma TakenOne(out: seq<Item>, x: Item, parses: Item -> bool, proceed: nat -> bool)
    requires Taken(out, parses, proceed) && GoesOn(out, proceed) && parses(x)
    ensures Taken(out + [x], parses, proceed)
  {
  }

  /** One round: the root's record is dispatched, and its reader moves on. */
  method DispatchRoot(st: State, streams: map<Source, Stream>, to: int, parses: Item -> bool, proceed: nat -> bool)
    returns (now: State, outcome: Outcome)
    requires AllRising(streams) && Underway(st, streams, to, parses, proceed, Finished)
             && st.heap != [] && st.heap[0].recv < to
    ensures Underway(now, streams, to, parses, proceed, outcome)
    ensures outcome == Finished ==> st.heap[0].source in st.at
                                    && now.at == st.at[st.heap[0].source := st.at[st.heap[0].source] + 1]
  {
    var x, after := TakeRoot(st, streams, to);
    if !parses(x) {
      return st, Refused;
    }
    TakenOne(st.out, x, parses, proceed);
    if !proceed(|after.out|) {
      return after, Refused;
    }
    now, outcome := Advance(st, after, streams, to);
  }

  /** How many records the readers still hold. */
  ghost function Remaining(order: seq<Source>, streams: map<Source, Stream>, at: map<Source, nat>): nat
    requires at.Keys == streams.Keys && forall s :: s in order ==> s in streams
    requires forall s :: s in streams ==> at[s] <= |streams[s].recs|
  {
    if order == [] then 0 else |streams[order[0]].recs| - at[order[0]] + Remaining(order[1..], streams, at)
  }

  lemma {:induction false} RemainingFalls(order: seq<Source>, streams: map<Source, Stream>, at: map<Source, nat>,
          now: map<Source, nat>, s: Source)
    requires at.Keys == now.Keys == streams.Keys && forall t :: t in order ==> t in streams
    requires forall t :: t in streams ==> at[t] <= now[t] <= |streams[t].recs|
    requires s in streams && at[s] < now[s]
    ensures Remaining(order, streams, now) <= Remaining(order, streams, at)
    ensures s in order ==> Remaining(order, streams, now) < Remaining(order, streams, at)
  {
    if order != [] {
      RemainingFalls(order[1..], streams, at, now, s);
    }
  }

  /** A reader whose current record is past the range leaves the heap: its later ones only get later. */
  method PopRoot(st: State, streams: map<Source, Stream>, to: int) returns (now: State)
    requires Inv(st, streams, to, streams.Keys) && st.heap != [] && st.heap[0].recv >= to
    ensures Inv(now, streams, to, streams.Keys) && now.at == st.at && now.out == st.out && |now.heap| < |st.heap|
  {
    LessTotal();
    assert st.heap[0] in st.heap;
    var heap := Heaps.Pop(st.heap, Less());
    now := st.(heap := heap);
    RootMoved(st, streams, to, now, multiset{});
  }

  /** One turn of the loop: the root is dispatched, or leaves with a record past the range. */
  method Round(st: State, streams: map<Source, Stream>, order: seq<Source>, to: int, parses: Item -> bool,
          proceed: nat -> bool)
    returns (now: State, outcome: Outcome)
    requires AllRising(streams) && Underway(st, streams, to, parses, proceed, Finished) && st.heap != []
    requires forall s :: s in order <==> s in streams
    ensures Underway(now, streams, to, parses, proceed, outcome)
    ensures outcome == Finished ==>
              var left, was := Remaining(order, streams, now.at), Remaining(order, streams, st.at);
              left < was || (left == was && |now.heap| < |st.heap|)
  {
    if st.heap[0].recv >= to {
      now := PopRoot(st, streams, to);
      outcome := Finished;
    } else {
      now, outcome := DispatchRoot(st, streams, to, parses, proceed);
      if outcome == Finished {
        RemainingFalls(order, streams, st.at, now.at, st.heap[0].source);
      }
    }
  }

  /** The merge's next item is the one refused. */
  lemma RefusedIsNext(st: State, streams: map<Source, Stream>, to: int, parses: Item -> bool)
    requires AllRising(streams) && Typed(st, streams) && NextRefused(st, streams, to, parses)
    ensures var whole := Merge(streams, to); |st.out| < |whole| && !parses(whole[|st.out|])
  {
    var x :| MayComeNext(st, streams, to, x) && !parses(x);
    OutIsPrefix(After(st, x), streams, to, Merge(streams, to));
    assert After(st, x).out[|st.out|] == x;
  }

  /** Wherever the replay stops, what was dispatched is the front of the merge, and all of it when it finishes. */
  lemma Stopped(st: State, streams: map<Source, Stream>, to: int, parses: Item -> bool, proceed: nat -> bool,
          outcome: Outcome)
    requires AllRising(streams) && Underway(st, streams, to, parses, proceed, outcome)
             && (outcome == Finished ==> st.heap == [])
    ensures st.out <= Merge(streams, to)
    ensures outcome == Finished ==> st.out == Merge(streams, to) && CorruptionPastRange(streams, to)
    ensures outcome == Refused && GoesOn(st.out, proceed) ==>
              var whole := Merge(streams, to); |st.out| < |whole| && !parses(whole[|st.out|])
  {
    OutIsPrefix(st, streams, to, Merge(streams, to));
    if outcome == Finished {
      EmptyHeapIsMerge(st, streams, to);
      MergeUnique(st.out, Merge(streams, to), streams, to);
    } else if outcome == Refused && GoesOn(st.out, proceed) {
      RefusedIsNext(st, streams, to, parses);
    }
  }

  /**
   * Feeds every record the readers hold before to through the adapters: the one merge, whatever order the
   * readers come in, or the front of it when a reader ends on corrupt input, an adapter refuses the next record, or
   * the callback the last one.
   */
  method Replay(streams: map<Source, Stream>, order: seq<Source>, to: int, parses: Item -> bool, proceed: nat -> bool)
    returns (out: seq<Item>, outcome: Outcome)
    requires forall s :: s in streams ==>
               forall i, j :: 0 <= i < j < |streams[s].recs| ==> streams[s].recs[i].recv <= streams[s].recs[j].recv
    requires (forall s :: s in order <==> s in streams) && forall i, j :: 0 <= i < j < |order| ==> order[i] != order[j]
    ensures out <= Merge(streams, to)
    // every record dispatched was parsed, and the callback asked after every one
    ensures forall i :: 0 <= i < |out| ==> parses(out[i])
    ensures forall n: nat :: 0 < n < |out| ==> proceed(n)
    ensures outcome == Finished ==> out == Merge(streams, to) && CorruptionPastRange(streams, to)
    ensures outcome == Corrupted ==> ReadsCorrupt(out, streams) && !CorruptionPastRange(streams, to)
    ensures outcome == Refused <==>
            || (out != [] && !proceed(|out|))
            || (|out| < |Merge(streams, to)| && !parses(Merge(streams, to)[|out|]) && outcome != Corrupted)
  {
    var st, begun := Gather(streams, order, to);
    outcome := begun;
    while outcome == Finished && st.heap != []
      invariant Underway(st, streams, to, parses, proceed, outcome)
      decreases outcome == Finished, Remaining(order, streams, st.at), |st.heap|
    {
      st, outcome := Round(st, streams, order, to, parses, proceed);
    }
    out := st.out;
    Stopped(st, streams, to, parses, proceed, outcome);
  }
}
