/** A session's packets in turn, and the QoS 2 exchange of section 4.3.3: a packet id is stored on its first
    PUBLISH and forgotten on its PUBREL. */
module MqttSession {
  import opened MqttFraming
  import opened Options

  type Id = nat

  const PUBLISH: Nibble := 3
  const PUBACK: Nibble := 4
  const PUBREC: Nibble := 5
  const PUBREL: Nibble := 6
  const PUBCOMP: Nibble := 7
  const SUBSCRIBE: Nibble := 8
  const SUBACK: Nibble := 9
  const UNSUBSCRIBE: Nibble := 10
  const UNSUBACK: Nibble := 11
  const PINGREQ: Nibble := 12
  const PINGRESP: Nibble := 13

  // ---- fields ----

  function Uint16(b: seq<Byte>): nat
    requires |b| >= 2
  {
    b[0] as int * 256 + b[1] as int
  }

  /** The two bytes of an id, the high one first: they read back as it. */
  function IdBytes(id: Id): (r: seq<Byte>)
    ensures |r| == 2 && Uint16(r) == id % 0x1_0000
  {
    [id / 256 % 256, id % 256]
  }

  /** A length-prefixed field and what follows it. */
  function Field(b: seq<Byte>): Option<(seq<Byte>, seq<Byte>)> {
    if |b| < 2 || |b| - 2 < Uint16(b) then None else Some((b[2..2 + Uint16(b)], b[2 + Uint16(b)..]))
  }

  /** A packet body being read from the front. Once a read has come up short err stays set, and no read takes more. */
  class MqttFields {
    var b: seq<Byte>
    var err: bool

    constructor (b: seq<Byte>)
      ensures this.b == b && !err
    {
      this.b, err := b, false;
    }

    method TakeByte() returns (v: Byte)
      modifies this
      ensures if old(err) || old(b) == [] then err && v == 0 && b == old(b)
              else !err && v == old(b)[0] && b == old(b)[1..]
    {
      if err || |b| < 1 {
        err := true;
        return 0;
      }
      v := b[0];
      b := b[1..];
    }

    method TakeUint16() returns (v: nat)
      modifies this
      ensures if old(err) || |old(b)| < 2 then err else !err && v == Uint16(old(b)) && b == old(b)[2..]
    {
      var hi := TakeByte();
      var lo := TakeByte();
      v := hi as int * 256 + lo as int;
    }

    method TakeBytes() returns (v: seq<Byte>)
      modifies this
      ensures if old(err) || Field(old(b)).None? then err else !err && (v, b) == Field(old(b)).value
    {
      var n := TakeUint16();
      if err || |b| < n {
        err := true;
        return [];
      }
      v := b[..n];
      b := b[n..];
      ghost var was := old(b);
      assert was[2..][..n] == was[2..2 + n] && was[2..][n..] == was[2 + n..];
    }
  }

  datatype Publish = Publish(qos: nat, id: Id, payload: seq<Byte>)

  /** A PUBLISH as its fields are read; none of one that is malformed or asks for QoS 3. */
  function PublishOf(pk: Packet): Option<Publish> {
    var qos := pk.flags / 2 % 4;
    match Field(pk.body)
    case None => None
    case Some((_, rest)) =>
      if qos == 0 then Some(Publish(0, 0, rest))
      else if |rest| < 2 || qos == 3 then None
      else Some(Publish(qos, Uint16(rest), rest[2..]))
  }

  /** What follows a SUBSCRIBE's first filter and its QoS, or none where that is malformed. */
  function AfterFilter(b: seq<Byte>): (r: Option<seq<Byte>>)
    ensures r.Some? ==> |r.value| < |b|
  {
    match Field(b)
    case None => None
    case Some((_, rest)) => if rest == [] then None else Some(rest[1..])
  }

  /** A SUBSCRIBE's filters: how many, or none where one is malformed. */
  function Filters(b: seq<Byte>): Option<nat>
    decreases |b|
  {
    if b == [] then Some(0)
    else
      match AfterFilter(b)
      case None => None
      case Some(rest) => if Filters(rest).None? then None else Some(Filters(rest).value + 1)
  }

  function Refusals(n: nat): seq<Byte> { if n == 0 then [] else Refusals(n - 1) + [0x80] }

  lemma {:induction false} AllRefused(n: nat)
    ensures |Refusals(n)| == n && forall i :: 0 <= i < n ==> Refusals(n)[i] == 0x80
  {
    if n > 0 {
      AllRefused(n - 1);
    }
  }

  // ---- what a session does with its packets ----

  predicate IsQos2(pk: Packet, id: Id) {
    pk.typ == PUBLISH && PublishOf(pk).Some? && PublishOf(pk).value.qos == 2 && PublishOf(pk).value.id == id
  }

  predicate IsPubrel(pk: Packet, id: Id) { pk.typ == PUBREL && |pk.body| >= 2 && Uint16(pk.body) == id }

  ghost predicate PublishedAndKept(ps: seq<Packet>, j: nat, k: nat, id: Id)
    requires j < k <= |ps|
  {
    IsQos2(ps[j], id) && forall r :: j < r < k ==> !IsPubrel(ps[r], id)
  }

  /** Id was published at QoS 2 before packet k and not released since. */
  ghost predicate Outstanding(ps: seq<Packet>, k: nat, id: Id)
    requires k <= |ps|
  {
    exists j :: 0 <= j < k && PublishedAndKept(ps, j, k, id)
  }

  /** Packets that end the session: malformed ones, DISCONNECT, and types a client may not send. */
  predicate Ends(pk: Packet) {
    if pk.typ == PUBLISH then PublishOf(pk).None?
    else if pk.typ == PUBREL || pk.typ == UNSUBSCRIBE then |pk.body| < 2
    else if pk.typ == SUBSCRIBE then |pk.body| < 2 || Filters(pk.body[2..]).None? || pk.body[2..] == []
    else pk.typ != PINGREQ && pk.typ != PUBACK && pk.typ != PUBREC && pk.typ != PUBCOMP
  }

  /** What comes of a packet: the payload taken, if any, and the answer, if any. */
  datatype Served = Served(taken: Option<seq<Byte>>, reply: Option<Packet>)

  ghost function Answer(ps: seq<Packet>, k: nat): Served
    requires k < |ps| && !Ends(ps[k])
  {
    var pk := ps[k];
    if pk.typ == PUBLISH then
      var p := PublishOf(pk).value;
      Served(if p.qos == 2 && Outstanding(ps, k, p.id) then None else Some(p.payload),
             if p.qos == 0 then None else Some(Packet(if p.qos == 1 then PUBACK else PUBREC, 0, IdBytes(p.id))))
    else if pk.typ == PUBREL then Served(None, Some(Packet(PUBCOMP, 0, IdBytes(Uint16(pk.body)))))
    else if pk.typ == SUBSCRIBE then
      Served(None, Some(Packet(SUBACK, 0, IdBytes(Uint16(pk.body)) + Refusals(Filters(pk.body[2..]).value))))
    else if pk.typ == UNSUBSCRIBE then Served(None, Some(Packet(UNSUBACK, 0, IdBytes(Uint16(pk.body)))))
    else if pk.typ == PINGREQ then Served(None, Some(Packet(PINGRESP, 0, [])))
    else Served(None, None)
  }

  lemma IdEchoed(b: seq<Byte>)
    requires |b| >= 2
    ensures IdBytes(Uint16(b)) == b[..2]
  {
  }

  /** Where a PUBLISH's topic ends. */
  ghost function TopicEnd(pk: Packet): int
    requires |pk.body| >= 2
  {
    2 + pk.body[0] as int * 256 + pk.body[1] as int
  }

  /** A PUBLISH is answered by PUBACK at QoS 1 and PUBREC at QoS 2, with the id as it came after the topic, and what is
      taken of it is the bytes after that. */
  lemma PublishEchoes(ps: seq<Packet>, k: nat)
    requires k < |ps| && !Ends(ps[k]) && ps[k].typ == 3
    ensures var pk, served, qos := ps[k], Answer(ps, k), ps[k].flags / 2 % 4;
            && |pk.body| >= 2 && qos < 3
            && var n, m := TopicEnd(pk), TopicEnd(pk) + if qos == 0 then 0 else 2;
               && m <= |pk.body|
               && served.reply ==
                    (if qos == 0 then None else Some(Packet(if qos == 1 then 4 else 5, 0, pk.body[n..m])))
               && (served.taken.Some? ==> served.taken.value == pk.body[m..])
  {
    var pk := ps[k];
    var rest := Field(pk.body).value.1;
    var n := TopicEnd(pk);
    assert rest == pk.body[n..];
    if pk.flags / 2 % 4 > 0 {
      IdEchoed(rest);
      assert rest[..2] == pk.body[n..n + 2] && rest[2..] == pk.body[n + 2..];
    }
  }

  /** What else is answered: PUBREL by PUBCOMP, SUBSCRIBE by SUBACK with a refusal for each filter, UNSUBSCRIBE by
      UNSUBACK, each with the id as it came, and PINGREQ by PINGRESP. Nothing is taken of any. */
  lemma OthersEcho(ps: seq<Packet>, k: nat)
    requires k < |ps| && !Ends(ps[k]) && ps[k].typ != 3
    ensures Answer(ps, k).taken == None
    ensures var pk, reply := ps[k], Answer(ps, k).reply;
            match pk.typ
            case 6 => |pk.body| >= 2 && reply == Some(Packet(7, 0, pk.body[..2]))
            case 8 =>
              && |pk.body| >= 2 && reply.Some? && reply.value.typ == 9 && |reply.value.body| > 2
              && reply.value.body[..2] == pk.body[..2]
              && forall i :: 2 <= i < |reply.value.body| ==> reply.value.body[i] == 0x80
            case 10 => |pk.body| >= 2 && reply == Some(Packet(11, 0, pk.body[..2]))
            case 12 => reply == Some(Packet(13, 0, []))
            case t => t in {4, 5, 7} && reply == None
  {
    var pk := ps[k];
    if pk.typ == SUBSCRIBE {
      IdEchoed(pk.body);
      AllRefused(Filters(pk.body[2..]).value);
    } else if |pk.body| >= 2 {
      IdEchoed(pk.body);
    }
  }

  /** A resent PUBLISH was taken once: some earlier one of its id was, with no PUBREL of it between. */
  lemma {:induction false} ResentWasTaken(ps: seq<Packet>, j: nat, k: nat, id: Id) returns (i: nat)
    requires j < k <= |ps| && PublishedAndKept(ps, j, k, id)
    ensures i <= j && PublishedAndKept(ps, i, k, id) && Answer(ps, i).taken.Some?
    decreases j
  {
    i := j;
    if Outstanding(ps, j, id) {
      var g :| 0 <= g < j && PublishedAndKept(ps, g, j, id);
      assert !IsPubrel(ps[j], id);
      i := ResentWasTaken(ps, g, k, id);
    }
  }

  /** Between PUBRELs of an id, one PUBLISH of it at QoS 2 is taken, however often it is resent. */
  lemma TakenOnceBetweenReleases(ps: seq<Packet>, i: nat, k: nat, id: Id)
    requires i < k < |ps| && IsQos2(ps[i], id) && IsQos2(ps[k], id)
    ensures Answer(ps, k).taken.None? <==> exists g ::
            0 <= g < k && PublishedAndKept(ps, g, k, id) && Answer(ps, g).taken.Some?
    ensures Answer(ps, k).taken.Some? ==> exists r :: i < r < k && IsPubrel(ps[r], id)
  {
    if Answer(ps, k).taken.None? {
      var j :| 0 <= j < k && PublishedAndKept(ps, j, k, id);
      var g := ResentWasTaken(ps, j, k, id);
    } else if forall r :: i < r < k ==> !IsPubrel(ps[r], id) {
      assert PublishedAndKept(ps, i, k, id);
    }
  }

  /** What packet k leaves outstanding. */
  lemma OutstandingAfter(ps: seq<Packet>, k: nat, id: Id)
    requires k < |ps|
    ensures Outstanding(ps, k + 1, id) <==> IsQos2(ps[k], id) || (Outstanding(ps, k, id) && !IsPubrel(ps[k], id))
  {
    if IsQos2(ps[k], id) {
      assert PublishedAndKept(ps, k, k + 1, id);
    } else if Outstanding(ps, k, id) && !IsPubrel(ps[k], id) {
      var j :| 0 <= j < k && PublishedAndKept(ps, j, k, id);
      assert PublishedAndKept(ps, j, k + 1, id);
    }
    if Outstanding(ps, k + 1, id) && !IsQos2(ps[k], id) {
      var j :| 0 <= j < k + 1 && PublishedAndKept(ps, j, k + 1, id);
      assert PublishedAndKept(ps, j, k, id);
    }
  }

  ghost predicate AnsweredAt(ps: seq<Packet>, log: seq<Served>, k: nat)
    requires k < |ps| && k < |log|
  {
    !Ends(ps[k]) && log[k] == Answer(ps, k)
  }

  /** The log is the answers to the packets so far, none of which ends the session. */
  ghost predicate Answered(ps: seq<Packet>, log: seq<Served>) {
    |log| <= |ps| && forall k {:trigger AnsweredAt(ps, log, k)} :: 0 <= k < |log| ==> AnsweredAt(ps, log, k)
  }

  lemma AnsweredMore(ps: seq<Packet>, log: seq<Served>, served: Served)
    requires Answered(ps, log) && |log| < |ps| && !Ends(ps[|log|]) && served == Answer(ps, |log|)
    ensures Answered(ps, log + [served])
  {
    forall k | 0 <= k < |log| + 1
      ensures AnsweredAt(ps, log + [served], k)
    {
      assert k < |log| ==> AnsweredAt(ps, log, k);
    }
  }

  /** Reading a packet takes the first of those to read, and fails where there is none. */
  lemma NextRead(s: seq<Byte>, ps: seq<Packet>, n: nat)
    requires n <= |ps| && ReadAll(s).0 == ps[n..]
    ensures var r := Read(s);
            if r.Ok? then n < |ps| && ps[n] == r.packet && ReadAll(r.rest).0 == ps[n + 1..] && |r.rest| < |s|
              else n == |ps|
  {
    var r := Read(s);
    if r.Ok? {
      assert ReadAll(s).0 == [r.packet] + ReadAll(r.rest).0;
      assert ps[n..][0] == r.packet && ps[n..][1..] == ps[n + 1..];
    }
  }

  class Session {
    var inflight: set<Id>

    constructor ()
      ensures inflight == {}
    {
      inflight := {};
    }

    ghost predicate Tracks(ps: seq<Packet>, k: nat)
      requires k <= |ps|
      reads this
    {
      forall id :: id in inflight <==> Outstanding(ps, k, id)
    }

    method OnPublish(pk: Packet, ghost ps: seq<Packet>, ghost k: nat) returns (ok: bool, served: Served)
      requires k < |ps| && ps[k] == pk && pk.typ == PUBLISH && Tracks(ps, k)
      modifies this
      ensures ok <==> !Ends(pk)
      ensures ok ==> served == Answer(ps, k) && Tracks(ps, k + 1)
    {
      var qos := pk.flags / 2 % 4;
      var f := new MqttFields(pk.body);
      var topic := f.TakeBytes();
      var id: nat := 0;
      if qos > 0 {
        id := f.TakeUint16();
      }
      if f.err || qos == 3 {
        return false, Served(None, None);
      }
      var redelivered := id in inflight;
      if qos == 2 && !redelivered {
        inflight := inflight + {id};
      }
      ok := true;
      var reply := None;
      if qos > 0 {
        var ack := if qos == 1 then PUBACK else PUBREC;
        reply := Some(Packet(ack, 0, IdBytes(id)));
      }
      served := Served(if qos == 2 && redelivered then None else Some(f.b), reply);
      forall g
        ensures g in inflight <==> Outstanding(ps, k + 1, g)
      {
        OutstandingAfter(ps, k, g);
      }
    }

    method OnPubrel(pk: Packet, ghost ps: seq<Packet>, ghost k: nat) returns (ok: bool, served: Served)
      requires k < |ps| && ps[k] == pk && pk.typ == PUBREL && Tracks(ps, k)
      modifies this
      ensures ok <==> !Ends(pk)
      ensures ok ==> served == Answer(ps, k) && Tracks(ps, k + 1)
    {
      var f := new MqttFields(pk.body);
      var id := f.TakeUint16();
      inflight := inflight - {id};
      ok := !f.err;
      served := Served(None, Some(Packet(PUBCOMP, 0, IdBytes(id))));
      if ok {
        forall g
          ensures g in inflight <==> Outstanding(ps, k + 1, g)
        {
          OutstandingAfter(ps, k, g);
        }
      }
    }

    method TakeFilter(f: MqttFields)
      requires !f.err
      modifies f
      ensures f.err <==> AfterFilter(old(f.b)).None?
      ensures !f.err ==> f.b == AfterFilter(old(f.b)).value
    {
      var topic := f.TakeBytes();
      var qos := f.TakeByte();
    }

    /** The filters one after another, each refused. */
    method TakeFilters(f: MqttFields) returns (codes: seq<Byte>)
      requires !f.err
      modifies f
      ensures f.err <==> Filters(old(f.b)).None?
      ensures !f.err ==> codes == Refusals(Filters(old(f.b)).value)
    {
      ghost var all := Filters(f.b);
      codes := [];
      while !f.err && |f.b| > 0
        invariant f.err ==> all == None
        invariant !f.err ==> all == if Filters(f.b).None? then None else Some(|codes| + Filters(f.b).value)
        invariant codes == Refusals(|codes|)
        decreases !f.err, |f.b|
      {
        TakeFilter(f);
        codes := codes + [0x80];
      }
    }

    method OnSubscribe(pk: Packet) returns (ok: bool, served: Served)
      requires pk.typ == SUBSCRIBE
      ensures ok <==> !Ends(pk)
      ensures ok ==> served == Answer([pk], 0)
    {
      var f := new MqttFields(pk.body);
      var id := f.TakeUint16();
      if f.err {
        return false, Served(None, None);
      }
      var codes := TakeFilters(f);
      ok := !f.err && codes != [];
      served := Served(None, Some(Packet(SUBACK, 0, IdBytes(id) + codes)));
    }

    method OnOther(pk: Packet) returns (ok: bool, served: Served)
      requires pk.typ != PUBLISH && pk.typ != PUBREL
      ensures ok <==> !Ends(pk)
      ensures ok ==> served == Answer([pk], 0)
    {
      ok, served := true, Served(None, None);
      if pk.typ == SUBSCRIBE {
        ok, served := OnSubscribe(pk);
      } else if pk.typ == UNSUBSCRIBE {
        var f := new MqttFields(pk.body);
        var id := f.TakeUint16();
        ok, served := !f.err, Served(None, Some(Packet(UNSUBACK, 0, IdBytes(id))));
      } else if pk.typ == PINGREQ {
        served := Served(None, Some(Packet(PINGRESP, 0, [])));
      } else if pk.typ != PUBACK && pk.typ != PUBREC && pk.typ != PUBCOMP {
        ok := false;
      }
    }

    /** One packet after CONNECT. */
    method OnPacket(pk: Packet, ghost ps: seq<Packet>, ghost k: nat) returns (ok: bool, served: Served)
      requires k < |ps| && ps[k] == pk && Tracks(ps, k)
      modifies this
      ensures ok <==> !Ends(pk)
      ensures ok ==> served == Answer(ps, k) && Tracks(ps, k + 1)
    {
      if pk.typ == PUBLISH {
        ok, served := OnPublish(pk, ps, k);
      } else if pk.typ == PUBREL {
        ok, served := OnPubrel(pk, ps, k);
      } else {
        ok, served := OnOther(pk);
        forall g
          ensures Outstanding(ps, k + 1, g) <==> Outstanding(ps, k, g)
        {
          OutstandingAfter(ps, k, g);
        }
      }
    }

    method ServeOne(pk: Packet, log0: seq<Served>, ghost ps: seq<Packet>) returns (log: seq<Served>, ok: bool)
      requires Answered(ps, log0) && |log0| < |ps| && ps[|log0|] == pk && Tracks(ps, |log0|)
      modifies this
      ensures Answered(ps, log) && (if ok then |log| == |log0| + 1 && Tracks(ps, |log|) else log == log0 && Ends(pk))
    {
      log := log0;
      var served;
      ok, served := OnPacket(pk, ps, |log|);
      if ok {
        AnsweredMore(ps, log, served);
        log := log + [served];
      }
    }

    /** A session from its bytes: every packet that can be read is answered, up to the first that ends it. */
    method Serve(s: seq<Byte>) returns (log: seq<Served>)
      requires inflight == {}
      modifies this
      ensures var ps := ReadAll(s).0;
              Answered(ps, log) && (|log| < |ps| ==> Ends(ps[|log|]))
    {
      ghost var ps := ReadAll(s).0;
      var left, more := s, true;
      log := [];
      while more
        invariant Answered(ps, log)
        invariant if more then ReadAll(left).0 == ps[|log|..] && Tracks(ps, |log|) else |log| < |ps| ==> Ends(ps[|log|])
        decreases more, |left|
      {
        var r := ReadPacket(left);
        NextRead(left, ps, |log|);
        if r.Ok? {
          log, more := ServeOne(r.packet, log, ps);
          left := r.rest;
        } else {
          more := false;
        }
      }
    }
  }
}
