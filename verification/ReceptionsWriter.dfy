/** The receptions queue and the batch being sent, against a table that skips a block whose token it remembers
    (server/clickhouse.go). A reception is named by its place in the order they were queued. */
module ReceptionsWriter {
  type Row = nat

  /** Ours are numbered as they are made; others write under tokens of their own. */
  datatype Token = Ours(n: nat) | Theirs(n: nat)

  datatype Block = Block(token: Token, rows: seq<Row>)

  /** How an insert is answered; one that fails may have committed all the same. */
  datatype Answer = Wrote | Refused(landed: bool) | Lost(landed: bool)

  /** How many of its last blocks' tokens the table remembers. */
  const REMEMBERED: nat := 1000

  /** How long ClickHouse may refuse a batch before it is dropped, and the queue's bound. */
  const REFUSE_FOR: nat := 600_000_000_000
  const MAX_PENDING: nat := 300_000

  /** The tokens the table still remembers. */
  predicate Remembers(blocks: seq<Block>, token: Token) {
    exists i :: 0 <= i < |blocks| && i >= |blocks| - REMEMBERED && blocks[i].token == token
  }

  /** The table after an insert under a token commits. */
  function Insert(blocks: seq<Block>, token: Token, rows: seq<Row>): seq<Block> {
    if Remembers(blocks, token) then blocks else blocks + [Block(token, rows)]
  }

  ghost predicate Landed(blocks: seq<Block>, token: Token) {
    exists i :: 0 <= i < |blocks| && blocks[i].token == token
  }

  /** Two blocks carry the token. */
  ghost predicate Twice(blocks: seq<Block>, token: Token) {
    exists i, j :: 0 <= i < j < |blocks| && blocks[i].token == token && blocks[j].token == token
  }

  /** Rows lo up to hi, in the order they were queued. */
  predicate Run(rows: seq<Row>, lo: nat, hi: nat) {
    lo <= hi && |rows| == hi - lo && forall i :: 0 <= i < |rows| ==> rows[i] == lo + i
  }

  /** A batch made: the rows it holds. */
  datatype Batch = Batch(lo: nat, hi: nat)

  /** How many blocks the table has taken since the last under a token. */
  function BlocksSince(blocks: seq<Block>, token: Token): nat {
    if blocks == [] || blocks[|blocks| - 1].token == token then 0 else 1 + BlocksSince(blocks[..|blocks| - 1], token)
  }

  lemma {:induction false} RemembersWithin(blocks: seq<Block>, token: Token, last: nat)
    requires last > 0
    ensures (exists i :: 0 <= i < |blocks| && i >= |blocks| - last && blocks[i].token == token)
            <==> Landed(blocks, token) && BlocksSince(blocks, token) < last
  {
    if blocks == [] {
    } else if blocks[|blocks| - 1].token == token {
    } else {
      var front := blocks[..|blocks| - 1];
      assert Landed(blocks, token) <==> Landed(front, token);
      if last > 1 {
        RemembersWithin(front, token, last - 1);
      }
    }
  }

  /** The table remembers a token that landed exactly while fewer blocks than its memory have come since. */
  lemma RemembersExactly(blocks: seq<Block>, token: Token)
    ensures Remembers(blocks, token) <==> Landed(blocks, token) && BlocksSince(blocks, token) < 1000
  {
    RemembersWithin(blocks, token, REMEMBERED);
  }

  /** An insert adds at most its own block. */
  lemma InsertKeeps(blocks: seq<Block>, token: Token, rows: seq<Row>)
    ensures forall t :: Landed(blocks, t) ==> Landed(Insert(blocks, token, rows), t)
    ensures forall t :: Landed(Insert(blocks, token, rows), t) ==> Landed(blocks, t) || t == token
  {
  }

  /** One more block puts a token there twice exactly when it is its own and was there. */
  lemma TwiceAdded(blocks: seq<Block>, b: Block)
    ensures forall t :: Twice(blocks + [b], t) <==> Twice(blocks, t) || (t == b.token && Landed(blocks, t))
  {
    var more := blocks + [b];
    forall t
      ensures Twice(more, t) <==> Twice(blocks, t) || (t == b.token && Landed(blocks, t))
    {
      if i, j :| 0 <= i < j < |blocks| && blocks[i].token == t && blocks[j].token == t {
        assert more[i].token == t && more[j].token == t;
      }
      if i :| 0 <= i < |blocks| && blocks[i].token == t {
        assert more[i].token == t && more[|blocks|].token == b.token;
      }
    }
  }

  lemma InsertedRemembers(blocks: seq<Block>, token: Token, rows: seq<Row>)
    ensures Remembers(Insert(blocks, token, rows), token)
  {
    var after := Insert(blocks, token, rows);
    if after != blocks {
      assert after[|blocks|].token == token;
    }
  }

  ghost predicate BlockWhole(blocks: seq<Block>, batches: map<nat, Batch>, i: int) {
    0 <= i < |blocks| && blocks[i].token.Ours? ==>
      var t := blocks[i].token.n; t in batches && Run(blocks[i].rows, batches[t].lo, batches[t].hi)
  }

  ghost predicate InTurn(blocks: seq<Block>, i: int, j: int) {
    0 <= i < j < |blocks| && blocks[i].token.Ours? && blocks[j].token.Ours? ==> blocks[i].token.n <= blocks[j].token.n
  }

  ghost predicate TokenHolds(blocks: seq<Block>, reported: set<nat>, again: set<nat>, t: nat) {
    && (Twice(blocks, Ours(t)) <==> t in again)
    && (t in reported ==> Landed(blocks, Ours(t)))
  }

  /** Batches are in the table whole and in turn, each once but for those that landed again, and one reported
      written is there. */
  ghost predicate TableHolds(blocks: seq<Block>, batches: map<nat, Batch>, reported: set<nat>, again: set<nat>) {
    && (forall i {:trigger BlockWhole(blocks, batches, i)} :: BlockWhole(blocks, batches, i))
    && (forall i, j {:trigger InTurn(blocks, i, j)} :: InTurn(blocks, i, j))
    && (forall t {:trigger TokenHolds(blocks, reported, again, t)} :: TokenHolds(blocks, reported, again, t))
  }

  ghost predicate BatchHolds(batches: map<nat, Batch>, token: nat, queued: int, t: nat) {
    t in batches ==> 0 < t <= token && batches[t].lo < batches[t].hi <= queued
  }

  ghost predicate Apart(batches: map<nat, Batch>, t: nat, u: nat) {
    t in batches && u in batches && t < u ==> batches[t].hi <= batches[u].lo
  }

  /** Batches are runs of receptions, each before the next and all before the queue; at most the last waits. */
  ghost predicate BatchesHold(batches: map<nat, Batch>, token: nat, queued: int) {
    && (forall t {:trigger BatchHolds(batches, token, queued, t)} :: BatchHolds(batches, token, queued, t))
    && (forall t, u {:trigger Apart(batches, t, u)} :: Apart(batches, t, u))
  }

  lemma NoBatches()
    ensures BatchesHold(map[], 0, 0)
  {
    forall t: nat
      ensures BatchHolds(map[], 0, 0, t)
    {
    }
    forall t: nat, u: nat
      ensures Apart(map[], t, u)
    {
    }
  }

  /** Batches stay before a queue that starts later, and a new one before the queue follows the rest. */
  lemma QueuedLater(batches: map<nat, Batch>, token: nat, queued: int, later: int)
    requires BatchesHold(batches, token, queued) && queued <= later
    ensures BatchesHold(batches, token, later)
  {
    forall t: nat
      ensures BatchHolds(batches, token, later, t)
    {
      assert BatchHolds(batches, token, queued, t);
    }
  }

  lemma OneMoreBatch(batches: map<nat, Batch>, token: nat, queued: nat, later: nat)
    requires BatchesHold(batches, token, queued) && queued < later
    ensures BatchesHold(batches[token + 1 := Batch(queued, later)], token + 1, later)
    ensures token + 1 !in batches
  {
    var next := token + 1;
    var more := batches[next := Batch(queued, later)];
    assert BatchHolds(batches, token, queued, next);
    forall t: nat
      ensures BatchHolds(more, next, later, t)
    {
      assert BatchHolds(batches, token, queued, t);
    }
    forall t: nat, u: nat
      ensures Apart(more, t, u)
    {
      assert Apart(batches, t, u) && BatchHolds(batches, token, queued, t) && BatchHolds(batches, token, queued, u);
    }
  }

  /** The token's is the last batch. */
  lemma NewestLast(batches: map<nat, Batch>, token: nat, queued: int)
    requires BatchesHold(batches, token, queued)
    ensures forall u :: u in batches ==> u <= token
  {
    forall u | u in batches
      ensures u <= token
    {
      assert BatchHolds(batches, token, queued, u);
    }
  }

  lemma NothingHolds(blocks: seq<Block>)
    requires blocks == []
    ensures TableHolds(blocks, map[], {}, {})
  {
    forall i
      ensures BlockWhole(blocks, map[], i)
    {
    }
    forall i, j
      ensures InTurn(blocks, i, j)
    {
    }
    forall t
      ensures TokenHolds(blocks, {}, {}, t)
    {
    }
  }

  /** A batch just made is not in the table. */
  lemma MadeHolds(blocks: seq<Block>, batches: map<nat, Batch>, reported: set<nat>, again: set<nat>, t: nat, b: Batch)
    requires TableHolds(blocks, batches, reported, again) && t !in batches
    ensures TableHolds(blocks, batches[t := b], reported, again) && !Landed(blocks, Ours(t))
  {
    forall i
      ensures BlockWhole(blocks, batches[t := b], i)
      ensures 0 <= i < |blocks| ==> blocks[i].token != Ours(t)
    {
      assert BlockWhole(blocks, batches, i);
    }
  }

  lemma ReportedHolds(blocks: seq<Block>, batches: map<nat, Batch>, reported: set<nat>, again: set<nat>, t: nat)
    requires TableHolds(blocks, batches, reported, again) && Landed(blocks, Ours(t))
    ensures TableHolds(blocks, batches, reported + {t}, again)
  {
    forall u
      ensures TokenHolds(blocks, reported + {t}, again, u)
    {
      assert TokenHolds(blocks, reported, again, u);
    }
  }

  /** A block of somebody else's changes nothing of ours. */
  lemma TheirsHolds(blocks: seq<Block>, batches: map<nat, Batch>, reported: set<nat>, again: set<nat>, n: nat,
          rows: seq<Row>)
    requires TableHolds(blocks, batches, reported, again)
    ensures TableHolds(Insert(blocks, Theirs(n), rows), batches, reported, again)
    ensures forall t :: Landed(Insert(blocks, Theirs(n), rows), Ours(t)) <==> Landed(blocks, Ours(t))
  {
    var more := Insert(blocks, Theirs(n), rows);
    InsertKeeps(blocks, Theirs(n), rows);
    TwiceAdded(blocks, Block(Theirs(n), rows));
    forall i
      ensures BlockWhole(more, batches, i)
    {
      assert BlockWhole(blocks, batches, i);
    }
    forall i, j
      ensures InTurn(more, i, j)
    {
      assert InTurn(blocks, i, j);
    }
    forall t
      ensures TokenHolds(more, reported, again, t)
    {
      assert TokenHolds(blocks, reported, again, t);
    }
  }

  /** The newest batch, inserted, is there, and there again exactly when the table had forgotten it. */
  lemma NewestHolds(blocks: seq<Block>, batches: map<nat, Batch>, reported: set<nat>, again: set<nat>, t: nat,
          rows: seq<Row>)
    requires TableHolds(blocks, batches, reported, again)
    requires t in batches && Run(rows, batches[t].lo, batches[t].hi) && forall u :: u in batches ==> u <= t
    ensures var forgot := Landed(blocks, Ours(t)) && BlocksSince(blocks, Ours(t)) >= REMEMBERED;
            TableHolds(Insert(blocks, Ours(t), rows), batches, reported, if forgot then again + {t} else again)
    ensures Landed(Insert(blocks, Ours(t), rows), Ours(t))
  {
    var more := Insert(blocks, Ours(t), rows);
    var after := if Landed(blocks, Ours(t)) && BlocksSince(blocks, Ours(t)) >= REMEMBERED then again + {t} else again;
    RemembersExactly(blocks, Ours(t));
    InsertedRemembers(blocks, Ours(t), rows);
    InsertKeeps(blocks, Ours(t), rows);
    TwiceAdded(blocks, Block(Ours(t), rows));
    forall i
      ensures BlockWhole(more, batches, i)
    {
      assert BlockWhole(blocks, batches, i);
    }
    forall i, j
      ensures InTurn(more, i, j)
    {
      assert InTurn(blocks, i, j) && BlockWhole(blocks, batches, i);
    }
    forall u
      ensures TokenHolds(more, reported, after, u)
    {
      assert TokenHolds(blocks, reported, again, u);
    }
  }

  class Writer {
    var queue: seq<Row>
    var failed: seq<Row>    // the batch to send again; empty for none
    var token: nat
    var refused: nat        // when ClickHouse first refused the batch; 0 until it does
    var written: nat
    var dropped: nat
    var blocks: seq<Block>  // the table
    ghost var noted: nat                // how many receptions were ever queued
    ghost var batches: map<nat, Batch>  // every batch made, by its token
    ghost var reported: set<nat>        // those reported written
    ghost var again: set<nat>           // those that landed after the table had forgotten their token

    ghost predicate BatchesValid()
      reads this
    {
      && BatchesHold(batches, token, noted - |queue|)
      && reported <= batches.Keys
      && (failed != [] ==> token in batches && token !in reported && Run(failed, batches[token].lo, batches[token].hi))
    }

    ghost predicate TableValid()
      reads this
    {
      TableHolds(blocks, batches, reported, again)
    }

    ghost predicate Valid()
      reads this
    {
      && |queue| <= noted && Run(queue, noted - |queue|, noted)
      && noted == written + dropped + |failed| + |queue|
      && BatchesValid() && TableValid()
    }

    constructor ()
      ensures Valid() && queue == failed == [] && blocks == [] && noted == 0
    {
      queue, failed, token, refused, written, dropped, blocks := [], [], 0, 0, 0, 0, [];
      noted, batches, reported, again := 0, map[], {}, {};
      NothingHolds([]);
      NoBatches();
    }

    /** The next reception's place, counted from what has become of those before. */
    function Next(): nat
      reads this
    {
      written + dropped + |failed| + |queue|
    }

    /** Queues a reception; a full queue gives up its oldest tenth first. */
    method Note()
      requires Valid()
      modifies this`queue, this`dropped, this`noted
      ensures Valid() && noted == old(noted) + 1
      ensures queue == (if |old(queue)| >= 300_000 then old(queue)[30_000..] else old(queue)) + [old(noted)]
      ensures dropped == old(dropped) + if |old(queue)| >= 300_000 then 30_000 else 0
    {
      QueuedLater(batches, token, noted - |queue|,
                  noted - |queue| + if |queue| >= MAX_PENDING then MAX_PENDING / 10 else 0);
      if |queue| >= MAX_PENDING {
        var n := MAX_PENDING / 10;
        dropped := dropped + n;
        queue := queue[n..];
      }
      queue := queue + [Next()];
      noted := noted + 1;
    }

    /** Someone else's insert. The table forgets tokens in time, ours among them. */
    method OthersInsert(n: nat, rows: seq<Row>)
      requires Valid()
      modifies this`blocks
      ensures Valid() && blocks == Insert(old(blocks), Theirs(n), rows)
    {
      TheirsHolds(blocks, batches, reported, again, n, rows);
      blocks := Insert(blocks, Theirs(n), rows);
    }

    /** What the next flush sends: the batch that failed, unchanged, or else everything queued. */
    function Due(): seq<Row>
      reads this
    {
      if failed != [] then failed else queue
    }

    /** Makes the queue the batch to send, under a token of its own, when none waits. */
    method Take()
      requires Valid() && (failed != [] || queue != [])
      modifies this`queue, this`failed, this`token, this`refused, this`batches
      ensures Valid() && failed == old(Due()) && failed != []
      ensures if old(failed) != [] then queue == old(queue) && refused == old(refused) && token == old(token)
              && batches == old(batches)
              else queue == [] && refused == 0 && token == old(token) + 1 && !Landed(blocks, Ours(token))
    {
      if failed == [] {
        OneMoreBatch(batches, token, noted - |queue|, noted);
        failed, token, refused := queue, token + 1, 0;
        MadeHolds(blocks, batches, reported, again, token, Batch(noted - |queue|, noted));
        batches := batches[token := Batch(noted - |queue|, noted)];
        queue := [];
      }
    }

    /** A batch that landed is sent again once the table has taken as many blocks since as it remembers. */
    ghost predicate Forgotten()
      reads this
    {
      failed != [] && Landed(blocks, Ours(token)) && BlocksSince(blocks, Ours(token)) >= REMEMBERED
    }

    /** The insert as the table takes it, whatever is answered: a batch lands again exactly when it commits after
        the table forgot it. */
    method Send(answer: Answer)
      requires Valid() && failed != []
      modifies this`blocks, this`again
      ensures Valid()
      ensures blocks == if answer.Wrote? || answer.landed then Insert(old(blocks), Ours(token), failed) else old(blocks)
      ensures answer.Wrote? || answer.landed ==> Landed(blocks, Ours(token))
      ensures again == if (answer.Wrote? || answer.landed) && old(Forgotten()) then old(again) + {token} else old(again)
    {
      if answer.Wrote? || answer.landed {
        NewestLast(batches, token, noted - |queue|);
        NewestHolds(blocks, batches, reported, again, token, failed);
        if Forgotten() {
          again := again + {token};
        }
        blocks := Insert(blocks, Ours(token), failed);
      }
    }

    /** What the answer makes of the batch: written, to be sent again, or, refused too long, dropped. */
    method Answered(answer: Answer, now: nat)
      requires Valid() && failed != [] && now > 0 && (answer.Wrote? ==> Landed(blocks, Ours(token)))
      modifies this`failed, this`refused, this`written, this`dropped, this`reported
      ensures Valid()
      ensures answer.Wrote? ==>
                failed == [] && written == old(written) + |old(failed)| && dropped == old(dropped)
                  && reported == old(reported) + {token}
      ensures !answer.Wrote? ==>
                && written == old(written) && reported == old(reported)
                && if answer.Refused? && old(refused) != 0 && now - old(refused) >= 600_000_000_000
                   then failed == [] && dropped == old(dropped) + |old(failed)|
                   else failed == old(failed) && dropped == old(dropped)
      ensures refused == if answer.Refused? && old(refused) == 0 then now else old(refused)
    {
      if !answer.Wrote? {
        if answer.Refused? {
          if refused == 0 {
            refused := now;
          }
          if now - refused >= REFUSE_FOR {
            dropped := dropped + |failed|;
            failed := [];
          }
        }
        return;
      }
      ReportedHolds(blocks, batches, reported, again, token);
      written := written + |failed|;
      reported := reported + {token};
      failed := [];
    }

    /** Writes one batch, and says whether it is reported written. */
    method Flush(answer: Answer, now: nat) returns (ok: bool)
      requires Valid() && now > 0
      modifies this
      ensures Valid() && noted == old(noted)
      ensures ok <==> answer.Wrote? || old(Due()) == []
      ensures old(Due()) == [] ==> blocks == old(blocks) && failed == queue == []
      ensures old(Due()) == [] ==> written == old(written) && dropped == old(dropped) && refused == old(refused)
      ensures old(Due()) == [] ==> token == old(token) && again == old(again) && reported == old(reported)
      ensures old(Due()) != [] ==> queue == if old(failed) != [] then old(queue) else []
      // a resend goes under the token the batch had, and lands again only if the table forgot it
      ensures old(Due()) != [] ==> token == if old(failed) != [] then old(token) else old(token) + 1
      ensures old(Due()) != [] ==>
                && blocks == (if answer.Wrote? || answer.landed then Insert(old(blocks), Ours(token), old(Due()))
                              else old(blocks))
                && again == if (answer.Wrote? || answer.landed) && old(Forgotten()) then old(again) + {token}
                            else old(again)
      ensures old(Due()) != [] && answer.Wrote? ==>
                failed == [] && written == old(written) + |old(Due())| && dropped == old(dropped)
                  && reported == old(reported) + {token}
      ensures old(Due()) != [] && !answer.Wrote? ==>
                && written == old(written) && reported == old(reported)
                && if answer.Refused? && old(failed) != [] && old(refused) != 0
                      && now - old(refused) >= 600_000_000_000
                   then failed == [] && dropped == old(dropped) + |old(failed)|
                   else failed == old(Due()) && dropped == old(dropped)
      ensures var was := if old(failed) != [] then old(refused) else 0;
              old(Due()) != [] ==> refused == if answer.Refused? && was == 0 then now else was
    {
      if failed == [] && queue == [] {
        return true;
      }
      Take();
      Send(answer);
      Answered(answer, now);
      ok := answer.Wrote?;
    }

    /** Shutdown's two flushes: the batch that failed, then the queue behind it. */
    method Drain(first: Answer, second: Answer, now: nat) returns (ok: bool)
      requires Valid() && now > 0
      modifies this
      ensures Valid() && noted == old(noted)
      // reported done, everything ever queued was written or counted dropped, and nothing waits
      ensures ok ==> queue == failed == [] && noted == written + dropped && dropped == old(dropped)
    {
      ok := Flush(first, now);
      if ok {
        ok := Flush(second, now);
      }
    }

    /** Our blocks keep the order of queueing, none holds a reception twice, and a reception is in two of them only
        where its batch landed again. */
    lemma LandsAtMostOnce(i: nat, j: nat, r: Row, q: Row)
      requires Valid() && i < |blocks| && j < |blocks| && blocks[i].token.Ours? && blocks[j].token.Ours?
      requires r in blocks[i].rows && q in blocks[j].rows
      ensures r == q ==> blocks[i].token == blocks[j].token && (i != j ==> blocks[i].token.n in again)
      ensures i < j && blocks[i].token != blocks[j].token ==> r < q
      ensures forall x, y :: 0 <= x < y < |blocks[i].rows| ==> blocks[i].rows[x] < blocks[i].rows[y]
    {
      assert BlockWhole(blocks, batches, i) && BlockWhole(blocks, batches, j);
      assert Apart(batches, blocks[i].token.n, blocks[j].token.n)
             && Apart(batches, blocks[j].token.n, blocks[i].token.n);
      assert InTurn(blocks, i, j) && InTurn(blocks, j, i);
      assert TokenHolds(blocks, reported, again, blocks[i].token.n);
    }

    /** The block is the batch, whole. */
    ghost predicate HasWhole(t: nat, i: nat)
      reads this
    {
      && i < |blocks| && blocks[i].token == Ours(t)
      && t in batches && Run(blocks[i].rows, batches[t].lo, batches[t].hi)
    }

    /** A batch reported written is in the table, whole, and exactly once if it did not land again. */
    lemma ReportedLandsOnce(t: nat)
      requires Valid() && t in reported
      ensures exists i :: HasWhole(t, i)
      ensures t in again <==> exists i, j :: i < j && HasWhole(t, i) && HasWhole(t, j)
    {
      assert TokenHolds(blocks, reported, again, t);
      forall i: nat | i < |blocks| && blocks[i].token == Ours(t)
        ensures HasWhole(t, i)
      {
        assert BlockWhole(blocks, batches, i);
      }
    }

    /** Nothing still queued is in the table. */
    lemma QueuedNotLanded(i: nat, r: Row)
      requires Valid() && i < |blocks| && blocks[i].token.Ours? && r in blocks[i].rows
      ensures r !in queue
    {
      assert BlockWhole(blocks, batches, i) && BatchHolds(batches, token, noted - |queue|, blocks[i].token.n);
    }
  }

  lemma {:induction false} OthersSince(blocks: seq<Block>, token: Token, others: seq<Block>)
    requires blocks != [] && blocks[|blocks| - 1].token == token
    requires forall i :: 0 <= i < |others| ==> others[i].token != token
    ensures BlocksSince(blocks + others, token) == |others|
  {
    if others == [] {
      assert blocks + others == blocks;
    } else {
      OthersSince(blocks, token, others[..|others| - 1]);
      assert (blocks + others)[..|blocks + others| - 1] == blocks + others[..|others| - 1];
    }
  }

  /** A batch sent again lands again exactly when at least as many blocks of others came between as the table
      remembers. */
  lemma LandsTwiceExactly(blocks: seq<Block>, token: Token, rows: seq<Row>, others: seq<Block>)
    requires forall i :: 0 <= i < |others| ==> others[i].token != token
    ensures var was := blocks + [Block(token, rows)] + others;
            Insert(was, token, rows) == was + [Block(token, rows)] <==> |others| >= 1000
  {
    var was := blocks + [Block(token, rows)] + others;
    assert was[|blocks|].token == token;
    OthersSince(blocks + [Block(token, rows)], token, others);
    RemembersExactly(was, token);
  }
}
