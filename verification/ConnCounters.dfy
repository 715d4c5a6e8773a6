/** Concurrent stream accounting (server/tiers.go): live streams counted per token sub and per address. */
module ConnCounters {
  type Key = string
  type Counts = map<Key, int>

  function Get(n: Counts, key: Key): int { if key in n then n[key] else 0 }

  function Plus(n: Counts, key: Key): Counts { n[key := Get(n, key) + 1] }

  function Minus(n: Counts, key: Key): Counts { if Get(n, key) == 1 then n - {key} else n[key := Get(n, key) - 1] }

  /** A max of 0 or less is no limit. */
  predicate Room(n: Counts, key: Key, max: int) { !(max > 0 && Get(n, key) >= max) }

  /** Only keys with live entries are kept. */
  ghost predicate Positive(n: Counts) { forall key :: key in n ==> n[key] > 0 }

  lemma PlusMinus(n: Counts, key: Key)
    requires Positive(n)
    ensures Minus(Plus(n, key), key) == n
  {
  }

  class ConnCounter {
    var n: Counts

    constructor ()
      ensures n == map[] && Positive(n)
    {
      n := map[];
    }

    /** Refuses when key already has max live entries. */
    method Acquire(key: Key, max: int) returns (ok: bool)
      modifies this
      ensures ok <==> Room(old(n), key, max)
      ensures n == if ok then Plus(old(n), key) else old(n)
    {
      if max > 0 && (if key in n then n[key] else 0) >= max {
        return false;
      }
      n := n[key := (if key in n then n[key] else 0) + 1];
      ok := true;
    }

    /** What the closure Acquire returns does. */
    method Release(key: Key)
      modifies this
      ensures n == Minus(old(n), key)
    {
      n := n[key := (if key in n then n[key] else 0) - 1];
      if n[key] == 0 {
        n := n - {key};
      }
      assert old(n)[key := 0] - {key} == old(n) - {key};
    }
  }

  datatype Refusal = Granted | AddressFull | KeyFull

  /** Takes both slots or neither: a refusal leaves both counts as they were. */
  method AcquireStreamSlots(subs: ConnCounter, addrs: ConnCounter, sub: Key, conns: int, ip: Key, addrMax: int,
          anonymous: bool)
    returns (refusal: Refusal)
    requires subs != addrs && Positive(addrs.n)
    modifies subs, addrs
    ensures refusal == Granted <==> Room(old(addrs.n), ip, addrMax) && Room(old(subs.n), sub, conns)
    ensures refusal == KeyFull <==> Room(old(addrs.n), ip, addrMax) && !Room(old(subs.n), sub, conns) && !anonymous
    ensures if refusal == Granted then subs.n == Plus(old(subs.n), sub) && addrs.n == Plus(old(addrs.n), ip)
            else subs.n == old(subs.n) && addrs.n == old(addrs.n)
  {
    PlusMinus(addrs.n, ip);
    var ok := addrs.Acquire(ip, addrMax);
    if !ok {
      return AddressFull;
    }
    ok := subs.Acquire(sub, conns);
    if !ok {
      addrs.Release(ip);
      return if anonymous then AddressFull else KeyFull;
    }
    refusal := Granted;
  }
}
