/** Counting by clock hour over the last seven days in a ring of 168 buckets (server/stats.go). */
module HourRings {
  const HOURS := 168

  /** The adds of hour h. */
  function CountAt(adds: seq<int>, h: int): nat {
    if adds == [] then 0 else (if adds[0] == h then 1 else 0) + CountAt(adds[1..], h)
  }

  /** The adds whose hour is after lo and not after hi, nor after the latest hour, and within a week of that. */
  function CountWithin(adds: seq<int>, lo: int, hi: int, at: int): nat {
    if adds == [] then 0
    else
      var one := if lo < adds[0] <= hi && adds[0] <= at && at - adds[0] < 168 then 1 else 0;
      one + CountWithin(adds[1..], lo, hi, at)
  }

  /** The latest hour added, 0 before any. */
  function Latest(adds: seq<int>): (r: int)
    ensures r >= 0
  {
    if adds == [] then 0
    else
      var rest := Latest(adds[..|adds| - 1]);
      if adds[|adds| - 1] > rest then adds[|adds| - 1] else rest
  }

  lemma {:induction false} CountMore(adds: seq<int>, x: int, h: int)
    ensures CountAt(adds + [x], h) == CountAt(adds, h) + if x == h then 1 else 0
  {
    if adds == [] {
      assert [x][1..] == [];
    } else {
      assert (adds + [x])[1..] == adds[1..] + [x];
      CountMore(adds[1..], x, h);
    }
  }

  lemma {:induction false} NoneAfter(adds: seq<int>, h: int)
    requires h > Latest(adds)
    ensures CountAt(adds, h) == 0
  {
    if adds != [] {
      var n := |adds| - 1;
      NoneAfter(adds[..n], h);
      CountMore(adds[..n], adds[n], h);
      assert adds == adds[..n] + [adds[n]];
    }
  }

  /** One hour more of a window: what a bucket adds to the sum. */
  lemma {:induction false} OneHourMore(adds: seq<int>, h: int, hi: int, at: int)
    requires h <= hi
    ensures CountWithin(adds, h - 1, hi, at) == CountWithin(adds, h, hi, at)
            + if h <= at && at - h < HOURS then CountAt(adds, h) else 0
  {
    if adds != [] {
      OneHourMore(adds[1..], h, hi, at);
    }
  }

  lemma {:induction false} EmptyWindow(adds: seq<int>, h: int, at: int)
    ensures CountWithin(adds, h, h, at) == 0
  {
    if adds != [] {
      EmptyWindow(adds[1..], h, at);
    }
  }

  /** A ring as it is saved. */
  datatype RingState = RingState(at: int, b: seq<int>)

  /** The buckets as they stand once the ring is at hour at. */
  ghost predicate BucketsHold(adds: seq<int>, at: int, b: seq<int>) {
    |b| == 168 && forall h {:trigger CountAt(adds, h)} :: 0 <= h <= at && at - h < HOURS ==>
      b[h % HOURS] == CountAt(adds, h)
  }

  /** Each hour's bucket, of the week up to at, holds the number of its adds. */
  ghost predicate Holds(adds: seq<int>, at: int, b: seq<int>) {
    at == Latest(adds) && (forall a :: a in adds ==> a >= 0) && BucketsHold(adds, at, b)
  }

  /** Hours less than a week apart have buckets of their own. */
  lemma BucketsApart(x: int, y: int)
    requires 0 <= x < y && y - x < HOURS
    ensures x % HOURS != y % HOURS
  {
  }

  lemma SameBucket(x: int, q: int)
    ensures (x + q * HOURS) % HOURS == x % HOURS
  {
  }

  /** Every bucket is that of one of the week's hours after at. */
  lemma WeekCovers(at: int, g: int) returns (x: int)
    requires 0 <= at < g
    ensures at < x <= at + HOURS && x % HOURS == g % HOURS
  {
    x := at + 1 + (g - at - 1) % HOURS;
    var q := (g - at - 1) / HOURS;
    assert g == x + q * HOURS;
    SameBucket(x, q);
  }

  lemma Counted(adds: seq<int>, at: int, b: seq<int>, h: int)
    requires BucketsHold(adds, at, b) && 0 <= h <= at
    ensures BucketsHold(adds + [h], at, if at - h < HOURS then b[h % HOURS := b[h % HOURS] + 1] else b)
  {
    var now := if at - h < HOURS then b[h % HOURS := b[h % HOURS] + 1] else b;
    forall g | 0 <= g <= at && at - g < HOURS
      ensures now[g % HOURS] == CountAt(adds + [h], g)
    {
      CountMore(adds, h, g);
      assert b[g % HOURS] == CountAt(adds, g);
      if at - h < HOURS && g < h {
        BucketsApart(g, h);
      } else if at - h < HOURS && h < g {
        BucketsApart(h, g);
      }
    }
  }

  class HourRing {
    var at: int
    const b: array<int>
    ghost var adds: seq<int> // the hour of every add, in order

    ghost predicate Valid()
      reads this, b
    {
      Holds(adds, at, b[..])
    }

    constructor ()
      ensures Valid() && fresh(b) && adds == []
    {
      b := new int[HOURS](_ => 0);
      at, adds := 0, [];
    }

    /** Moves on to hour h, clearing the buckets of the hours between. */
    method Advance(h: int)
      requires Valid() && h >= 0
      modifies this`at, b
      ensures at == (if h > old(at) then h else old(at)) && BucketsHold(adds, at, b[..])
    {
      if h > at {
        ghost var was := b[..];
        var i := at + 1;
        while i <= h && i - at <= HOURS
          invariant at == old(at) && at < i <= h + 1 && i - at <= HOURS + 1
          invariant forall g :: at < g < i ==> b[g % HOURS] == 0
          invariant forall k :: 0 <= k < HOURS && (forall g :: at < g < i ==> g % HOURS != k) ==> b[k] == was[k]
        {
          b[i % HOURS] := 0;
          i := i + 1;
        }
        forall g | 0 <= g <= h && h - g < HOURS
          ensures b[g % HOURS] == CountAt(adds, g)
        {
          if g <= at {
            forall x | at < x < i
              ensures x % HOURS != g % HOURS
            {
              BucketsApart(g, x);
            }
          } else {
            NoneAfter(adds, g);
            var x := WeekCovers(at, g);
            assert i == h + 1 ==> at < g < i;
          }
        }
        at := h;
      }
    }

    /** Counts an add in hour h, in any order and with any gaps; one over a week behind the latest is not kept. */
    method Add(h: int)
      requires Valid() && h >= 0
      modifies this, b
      ensures Valid() && adds == old(adds) + [h]
    {
      assert (adds + [h])[..|adds|] == adds;
      Advance(h);
      Counted(adds, at, b[..], h);
      if at - h < HOURS {
        b[h % HOURS] := b[h % HOURS] + 1;
      }
      adds := adds + [h];
    }

    /** The adds of the last hours clock hours up to h, of those the ring still keeps. Its index would be negative
        only where the window reaches before hour 0 while the ring still covers that. */
    method Sum(h: int, hours: int) returns (total: int)
      requires Valid() && (hours <= h + 1 || h >= HOURS - 1 || at >= HOURS - 1)
      ensures total == if hours <= 0 then 0 else CountWithin(adds, h - (if hours < 168 then hours else 168), h, at)
    {
      total := 0;
      var i := 0;
      EmptyWindow(adds, h, at);
      while i < hours && i < HOURS
        invariant 0 <= i <= HOURS && (i <= hours || i == 0)
        invariant total == CountWithin(adds, h - i, h, at)
      {
        var hh := h - i;
        OneHourMore(adds, hh, h, at);
        if hh <= at && at - hh < HOURS {
          total := total + b[hh % HOURS];
        }
        i := i + 1;
      }
    }

    method State() returns (s: RingState)
      ensures s == RingState(at, b[..])
    {
      s := RingState(at, b[..]);
    }

    /** A restored ring counts on from the adds the saved one held. */
    method Restore(s: RingState, ghost saved: seq<int>)
      requires Holds(saved, s.at, s.b) && b.Length == HOURS
      modifies this, b
      ensures Valid() && adds == saved && at == s.at && b[..] == s.b
    {
      at, adds := s.at, saved;
      forall k | 0 <= k < HOURS {
        b[k] := s.b[k];
      }
      assert b[..] == s.b;
    }
  }
}
