/** MQTT 3.1.1 on a stream socket (server/mqtt.go): the framing, a packet's fields, and the QoS 2 exchange. */
module MqttFraming {
  type Byte = b: int | 0 <= b < 256
  type Nibble = b: int | 0 <= b < 16

  const MAX_PACKET := 0x10_0000

  datatype Packet = Packet(typ: Nibble, flags: Nibble, body: seq<Byte>)

  datatype ReadResult = Ok(packet: Packet, rest: seq<Byte>) | Truncated | Malformed | TooLarge

  /** The remaining length, section 2.2.3: seven bits a byte, the lowest first, the top bit set on all but the last. */
  function Length(n: nat): (r: seq<Byte>)
    ensures r != []
    decreases n
  {
    if n < 128 then [n] else [n % 128 + 128] + Length(n / 128)
  }

  function Encode(p: Packet): seq<Byte> { [p.typ * 16 + p.flags] + Length(|p.body|) + p.body }

  lemma OneByteMore(out: seq<Byte>, n: nat)
    requires n >= 128
    ensures out + Length(n) == (out + [n % 128 + 128]) + Length(n / 128)
  {
  }

  method EncodeLength(size: nat) returns (out: seq<Byte>)
    ensures out == Length(size)
  {
    out := [];
    var n := size;
    while true
      invariant n >= 0 && Length(size) == out + Length(n)
      decreases n
    {
      var b, next := n % 128, n / 128;
      if next > 0 {
        OneByteMore(out, n);
        out, n := out + [b + 128], next;
      } else {
        return out + [b];
      }
    }
  }

  method EncodePacket(typ: Nibble, flags: Nibble, body: seq<Byte>) returns (out: seq<Byte>)
    ensures out == Encode(Packet(typ, flags, body))
  {
    var length := EncodeLength(|body|);
    out := [typ * 16 + flags] + length + body;
  }

  /** What is read of a remaining length: its value and what follows, or why not. */
  datatype LengthRead = Len(n: nat, rest: seq<Byte>) | Short | Bad

  function Pow128(i: nat): nat { if i == 0 then 1 else 128 * Pow128(i - 1) }

  /** Reads a remaining length from its byte i on: at most four. */
  function ReadLength(s: seq<Byte>, i: nat, n: nat): LengthRead
    requires i <= 3
    decreases 4 - i
  {
    if s == [] then Short
    else
      var m := n + s[0] % 128 * Pow128(i);
      if s[0] < 128 then Len(m, s[1..])
      else if i == 3 then Bad
      else ReadLength(s[1..], i + 1, m)
  }

  /** Reads one packet from what has arrived; packets may share it or span it. */
  function Read(s: seq<Byte>): ReadResult {
    if s == [] then Truncated
    else
      match ReadLength(s[1..], 0, 0)
      case Short => Truncated
      case Bad => Malformed
      case Len(n, rest) =>
        if n > MAX_PACKET then TooLarge
        else if |rest| < n then Truncated
        else Ok(Packet(s[0] / 16, s[0] % 16, rest[..n]), rest[n..])
  }

  method ReadRemaining(s: seq<Byte>) returns (r: LengthRead)
    ensures r == ReadLength(s, 0, 0)
  {
    var buf, n: nat, mult: nat, i := s, 0, 1, 0;
    while true
      invariant 0 <= i <= 3 && mult == Pow128(i)
      invariant ReadLength(s, 0, 0) == ReadLength(buf, i, n)
      decreases 3 - i
    {
      if buf == [] {
        return Short;
      }
      var b := buf[0];
      buf := buf[1..];
      n := n + b % 128 * mult;
      if b < 128 {
        return Len(n, buf);
      }
      if i == 3 {
        return Bad;
      }
      mult, i := mult * 128, i + 1;
    }
  }

  method ReadPacket(s: seq<Byte>) returns (r: ReadResult)
    ensures r == Read(s)
  {
    if s == [] {
      return Truncated;
    }
    var h := s[0];
    var length := ReadRemaining(s[1..]);
    if !length.Len? {
      return if length.Short? then Truncated else Malformed;
    }
    var n, buf := length.n, length.rest;
    if n > MAX_PACKET {
      return TooLarge;
    }
    if |buf| < n {
      return Truncated;
    }
    r := Ok(Packet(h / 16, h % 16, buf[..n]), buf[n..]);
  }

  /** A byte that is not the last is taken and the rest read on. */
  lemma ByteTaken(n: nat, i: nat, m: nat, rest: seq<Byte>)
    requires i <= 3 && n >= 128
    ensures ReadLength(Length(n) + rest, i, m)
            == if i == 3 then Bad else ReadLength(Length(n / 128) + rest, i + 1, m + n % 128 * Pow128(i))
  {
    var s := Length(n) + rest;
    assert s[0] == n % 128 + 128 && s[1..] == Length(n / 128) + rest;
  }

  lemma Reach(n: nat, i: nat)
    requires i <= 3 && 128 <= n < Pow128(4 - i)
    ensures i < 3 && n / 128 < Pow128(3 - i)
  {
  }

  lemma Digits(m: nat, n: nat, p: nat, q: nat)
    requires q == 128 * p
    ensures m + n % 128 * p + n / 128 * q == m + n * p
  {
  }

  /** The remaining length reads back, where four bytes can hold it. */
  lemma {:induction false} LengthReads(n: nat, i: nat, m: nat, rest: seq<Byte>)
    requires i <= 3 && n < Pow128(4 - i)
    ensures ReadLength(Length(n) + rest, i, m) == Len(m + n * Pow128(i), rest)
    decreases n
  {
    if n < 128 {
      assert (Length(n) + rest)[1..] == rest;
    } else {
      Reach(n, i);
      ByteTaken(n, i, m, rest);
      LengthReads(n / 128, i + 1, m + n % 128 * Pow128(i), rest);
      Digits(m, n, Pow128(i), Pow128(i + 1));
    }
  }

  lemma {:induction false} AtLeastOne(i: nat)
    ensures Pow128(i) >= 1
  {
    if i > 0 {
      AtLeastOne(i - 1);
    }
  }

  /** A length four bytes cannot hold is refused, whatever follows it. */
  lemma {:induction false} LongRefused(n: nat, i: nat, m: nat, rest: seq<Byte>)
    requires i <= 3 && n >= Pow128(4 - i)
    ensures ReadLength(Length(n) + rest, i, m) == Bad
    decreases n
  {
    assert Pow128(1) == 128 && Pow128(4 - i) == 128 * Pow128(3 - i);
    AtLeastOne(3 - i);
    ByteTaken(n, i, m, rest);
    if i < 3 {
      LongRefused(n / 128, i + 1, m + n % 128 * Pow128(i), rest);
    }
  }

  /** A framed packet reads back with what follows it untouched, exactly when its body is within the bound. */
  lemma ReadsBackExactly(p: Packet, rest: seq<Byte>)
    ensures Read(Encode(p) + rest) == Ok(p, rest) <==> |p.body| <= 1024 * 1024
    ensures |p.body| > 1024 * 1024 ==> Read(Encode(p) + rest) == TooLarge || Read(Encode(p) + rest) == Malformed
  {
    var s, after := Encode(p) + rest, p.body + rest;
    assert s[1..] == Length(|p.body|) + after;
    assert s[0] == p.typ * 16 + p.flags;
    assert Pow128(4) == 128 * Pow128(3) && Pow128(3) == 128 * Pow128(2) && Pow128(2) == 128 * Pow128(1)
           && Pow128(1) == 128;
    if |p.body| < Pow128(4) {
      LengthReads(|p.body|, 0, 0, after);
      assert Pow128(0) == 1;
      assert after[..|p.body|] == p.body && after[|p.body|..] == rest;
    } else {
      LongRefused(|p.body|, 0, 0, after);
    }
  }

  function EncodeAll(ps: seq<Packet>): seq<Byte> { if ps == [] then [] else Encode(ps[0]) + EncodeAll(ps[1..]) }

  /** Every packet read until the bytes run out or one cannot be. */
  function ReadAll(s: seq<Byte>): (seq<Packet>, ReadResult)
    decreases |s|
  {
    match Read(s)
    case Ok(p, rest) =>
      var more := ReadAll(rest);
      ([p] + more.0, more.1)
    case r => ([], r)
  }

  /** Framed packets sent one after another are what is read, however they share frames. */
  lemma {:induction false} ReadsAllBack(ps: seq<Packet>)
    requires forall p :: p in ps ==> |p.body| <= 1024 * 1024
    ensures ReadAll(EncodeAll(ps)) == (ps, Truncated)
  {
    if ps != [] {
      ReadsBackExactly(ps[0], EncodeAll(ps[1..]));
      ReadsAllBack(ps[1..]);
      assert ps == [ps[0]] + ps[1..];
    }
  }
}
