/** Naming transmissions by millisecond and byte: the wrapping search for a free byte (server/convert.go,
    server/history.go). */
module ByteNames {
  type Byte = b: int | 0 <= b < 256

  /** A name asked for: its millisecond, and the byte to try first. */
  datatype Ask = Ask(ms: int, first: Byte)

  /** The byte that tries more from d end at: the first one not used, each tried in turn, 255 followed by 0. */
  function Probe(d: Byte, used: seq<Byte>, tries: nat): Byte
    decreases tries
  {
    if tries == 0 || d !in used then d else Probe((d + 1) % 256, used, tries - 1)
  }

  method FreeByte(first: Byte, used: seq<Byte>) returns (d: Byte)
    ensures d == Probe(first, used, 256)
  {
    d := first;
    for i := 0 to 256
      invariant Probe(d, used, 256 - i) == Probe(first, used, 256)
    {
      if d !in used {
        return;
      }
      d := (d + 1) % 256;
    }
  }

  function AllBytes(n: nat): (r: set<Byte>)
    requires n <= 256
    ensures |r| == n && forall b: Byte :: b in r <==> b < n
  {
    if n == 0 then {} else AllBytes(n - 1) + {n - 1}
  }

  ghost predicate AllUsed(used: seq<Byte>) { forall b: Byte :: b in used }

  /** How many steps the search takes from d to b. */
  function Steps(d: Byte, b: Byte): nat { if b >= d then b - d else b + 256 - d }

  lemma StepsFromNext(d: Byte, b: Byte)
    requires b != d
    ensures Steps((d + 1) % 256, b) == Steps(d, b) - 1
  {
  }

  lemma {:induction false} ProbeUsed(d: Byte, used: seq<Byte>, tries: nat)
    requires tries <= 256 && Probe(d, used, tries) in used
    ensures forall b: Byte :: Steps(d, b) < tries ==> b in used
    decreases tries
  {
    if tries > 0 {
      var e: Byte := (d + 1) % 256;
      ProbeUsed(e, used, tries - 1);
      forall b: Byte | Steps(d, b) < tries
        ensures b in used
      {
        if b != d {
          StepsFromNext(d, b);
        }
      }
    }
  }

  /** The search finds a byte in use only where all are: it tries every one. */
  lemma ProbeExactly(first: Byte, used: seq<Byte>)
    ensures Probe(first, used, 256) in used <==> AllUsed(used)
  {
    if Probe(first, used, 256) in used {
      ProbeUsed(first, used, 256);
      assert forall b: Byte :: Steps(first, b) < 256;
    }
  }

  // ---- a run of names ----

  type Used = map<int, seq<Byte>>

  function At(used: Used, ms: int): seq<Byte> { if ms in used then used[ms] else [] }

  function Take(used: Used, ms: int, d: Byte): Used { used[ms := At(used, ms) + [d]] }

  /** The bytes of a run of asks, each the first free among those in use before the run and those of the run so far. */
  function Assign(used: Used, asks: seq<Ask>): (r: seq<Byte>)
    ensures |r| == |asks|
    decreases |asks|
  {
    if asks == [] then []
    else
      var d := Probe(asks[0].first, At(used, asks[0].ms), 256);
      [d] + Assign(Take(used, asks[0].ms, d), asks[1..])
  }

  /** What is in use after a run. */
  function After(used: Used, asks: seq<Ask>): Used
    decreases |asks|
  {
    if asks == [] then used
    else After(Take(used, asks[0].ms, Probe(asks[0].first, At(used, asks[0].ms), 256)), asks[1..])
  }

  lemma {:induction false} AssignMore(used: Used, asks: seq<Ask>, ask: Ask)
    ensures var d := Probe(ask.first, At(After(used, asks), ask.ms), 256);
            Assign(used, asks + [ask]) == Assign(used, asks) + [d]
              && After(used, asks + [ask]) == Take(After(used, asks), ask.ms, d)
    decreases |asks|
  {
    if asks == [] {
      assert [ask][1..] == [];
    } else {
      var d := Probe(asks[0].first, At(used, asks[0].ms), 256);
      assert (asks + [ask])[1..] == asks[1..] + [ask];
      AssignMore(Take(used, asks[0].ms, d), asks[1..], ask);
    }
  }

  function Bytes(s: seq<Byte>): set<Byte> { set b | b in s }

  function Count(asks: seq<Ask>, ms: int): nat {
    if asks == [] then 0 else (if asks[0].ms == ms then 1 else 0) + Count(asks[1..], ms)
  }

  lemma {:induction false} CountMore(asks: seq<Ask>, ask: Ask, ms: int)
    ensures Count(asks + [ask], ms) == Count(asks, ms) + if ask.ms == ms then 1 else 0
  {
    if asks == [] {
      assert [ask][1..] == [];
    } else {
      assert (asks + [ask])[1..] == asks[1..] + [ask];
      CountMore(asks[1..], ask, ms);
    }
  }

  /** Every byte given is one not in use in its millisecond when it was. */
  ghost predicate AllNew(used: Used, asks: seq<Ask>)
    decreases |asks|
  {
    asks == [] ||
    var d := Probe(asks[0].first, At(used, asks[0].ms), 256);
    d !in At(used, asks[0].ms) && AllNew(Take(used, asks[0].ms, d), asks[1..])
  }

  /** No millisecond's bytes in use and asks for more come to over 256. */
  ghost predicate Room(used: Used, asks: seq<Ask>) {
    forall ms {:trigger Count(asks, ms)} :: Count(asks, ms) > 0 ==> |Bytes(At(used, ms))| + Count(asks, ms) <= 256
  }

  lemma BytesOf(s: seq<Byte>, n: nat)
    requires n == 256
    ensures |Bytes(s)| <= n && (|Bytes(s)| == n <==> AllUsed(s))
  {
    var all := AllBytes(n);
    forall b: Byte
      ensures b in all
      ensures b in Bytes(s) <==> b in s
    {
    }
    PartOf(Bytes(s), all);
    if AllUsed(s) {
      assert Bytes(s) == all;
    }
  }

  lemma BytesBound(s: seq<Byte>)
    ensures |Bytes(s)| <= 256 && (|Bytes(s)| == 256 <==> AllUsed(s))
  {
    BytesOf(s, 256);
  }

  lemma PartOf<T>(a: set<T>, b: set<T>)
    requires a <= b
    ensures |a| <= |b| && (|a| == |b| <==> a == b)
  {
    assert b == a + (b - a);
  }

  lemma BytesMore(s: seq<Byte>, d: Byte)
    ensures Bytes(s + [d]) == Bytes(s) + {d}
    ensures |Bytes(s + [d])| == |Bytes(s)| + if d in s then 0 else 1
  {
  }

  /** Room after the first ask, when its byte is new and room before it are the same. */
  lemma RoomNext(used: Used, asks: seq<Ask>, d: Byte)
    requires asks != [] && d !in At(used, asks[0].ms)
    ensures Room(used, asks) <==> Room(Take(used, asks[0].ms, d), asks[1..])
  {
    var next := Take(used, asks[0].ms, d);
    BytesMore(At(used, asks[0].ms), d);
    BytesBound(At(next, asks[0].ms));
    if Room(used, asks) {
      forall ms | Count(asks[1..], ms) > 0
        ensures |Bytes(At(next, ms))| + Count(asks[1..], ms) <= 256
      {
        assert Count(asks, ms) > 0;
      }
    }
    if Room(next, asks[1..]) {
      forall ms | Count(asks, ms) > 0
        ensures |Bytes(At(used, ms))| + Count(asks, ms) <= 256
      {
        assert Count(asks[1..], ms) > 0 ==> |Bytes(At(next, ms))| + Count(asks[1..], ms) <= 256;
      }
    }
  }

  /** Every name is new exactly when no millisecond is asked for more names than its 256 bytes. */
  lemma {:induction false} NewExactly(used: Used, asks: seq<Ask>)
    ensures AllNew(used, asks) <==> Room(used, asks)
    decreases |asks|
  {
    if asks != [] {
      var s := At(used, asks[0].ms);
      var d := Probe(asks[0].first, s, 256);
      ProbeExactly(asks[0].first, s);
      BytesBound(s);
      if d in s {
        assert Count(asks, asks[0].ms) > 0;
      } else {
        RoomNext(used, asks, d);
        NewExactly(Take(used, asks[0].ms, d), asks[1..]);
      }
    }
  }

  /** What new names are worth: none is one in use before, and no two of a millisecond are alike. */
  ghost predicate Distinct(used: Used, asks: seq<Ask>, names: seq<Byte>)
    requires |names| == |asks|
  {
    && (forall i :: 0 <= i < |asks| ==> names[i] !in At(used, asks[i].ms))
    && (forall i, j :: 0 <= i < j < |asks| && asks[i].ms == asks[j].ms ==> names[i] != names[j])
  }

  lemma FrontDistinct(used: Used, asks: seq<Ask>, names: seq<Byte>, d: Byte)
    requires asks != [] && |names| == |asks| && names[0] == d && d !in At(used, asks[0].ms)
    requires Distinct(Take(used, asks[0].ms, d), asks[1..], names[1..])
    ensures Distinct(used, asks, names)
  {
  }

  lemma {:induction false} DistinctIsNew(used: Used, asks: seq<Ask>)
    ensures Distinct(used, asks, Assign(used, asks)) <==> AllNew(used, asks)
    decreases |asks|
  {
    if asks != [] {
      var d := Probe(asks[0].first, At(used, asks[0].ms), 256);
      var next := Take(used, asks[0].ms, d);
      var names := Assign(used, asks);
      DistinctIsNew(next, asks[1..]);
      assert names[1..] == Assign(next, asks[1..]);
      if Distinct(used, asks, names) {
        forall i | 0 <= i < |asks| - 1
          ensures names[1..][i] !in At(next, asks[1..][i].ms)
        {
          assert names[i + 1] !in At(used, asks[i + 1].ms);
          assert asks[0].ms == asks[i + 1].ms ==> names[0] != names[i + 1];
        }
        forall i, j | 0 <= i < j < |asks| - 1 && asks[1..][i].ms == asks[1..][j].ms
          ensures names[1..][i] != names[1..][j]
        {
          assert names[i + 1] != names[j + 1];
        }
      }
      if AllNew(used, asks) {
        FrontDistinct(used, asks, names, d);
      }
    }
  }

  /** The search names every transmission apart from the others of its millisecond, exactly while they are at most
      256. */
  lemma NamesExactly(used: Used, asks: seq<Ask>)
    ensures Distinct(used, asks, Assign(used, asks)) <==> Room(used, asks)
  {
    DistinctIsNew(used, asks);
    NewExactly(used, asks);
  }
}
