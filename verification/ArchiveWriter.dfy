/** The writer's side: which hours are open, when they close, and who holds their files (server/archive.go). */
module ArchiveWriter {
  import H = ArchiveHours

  const HOUR: nat := 3600 * 1_000_000_000
  const HOUR_GRACE: nat := 300 * 1_000_000_000

  /** A stream's file for one hour; hours are named by the time they start. */
  datatype Path = Path(stream: string, hour: nat)

  /** A reception as the archive writes it. Times are nanoseconds; 0 is the zero time. */
  datatype Record = Record(stream: string, recv: nat, line: string)

  /** The hour a time falls in, by its start. */
  function HourOf(t: nat): (hour: nat)
    ensures hour % (3600 * 1_000_000_000) == 0 && hour <= t < hour + 3600 * 1_000_000_000
  {
    t - t % HOUR
  }

  /** When an hour may close: five minutes after its end. */
  function CloseOf(p: Path): (close: nat)
    ensures close == p.hour + 65 * 60 * 1_000_000_000
  {
    p.hour + HOUR + HOUR_GRACE
  }

  function PathOf(rx: Record): (p: Path)
    ensures p.stream == rx.stream && p.hour <= rx.recv < p.hour + 3600 * 1_000_000_000
  {
    Path(rx.stream, HourOf(rx.recv))
  }

  function Max(a: nat, b: nat): nat { if a > b then a else b }

  /** The open hours whose close time has come. */
  function Due(files: set<Path>, latest: nat): set<Path> { set p | p in files && CloseOf(p) <= latest }

  /** Of the hours looked at so far the due are closed and the rest are open, none closing before next. */
  ghost predicate Sorted(all: set<Path>, files: set<Path>, left: set<Path>, next: nat, latest: nat) {
    && (forall q :: q in all && q !in files ==> CloseOf(q) <= latest)
    && (forall q :: q in files && q !in left ==> latest < CloseOf(q) && next <= CloseOf(q))
    && (next == 0 <==> files <= left)
  }

  class Archive {
    /** Streams whose path would fall outside the archive's directory. */
    const refused: set<string>

    var files: set<Path>
    var holds: map<Path, nat>
    var uploads: multiset<Path>  // rotation uploads under way
    var latest: nat
    var nextClose: nat
    var disk: map<Path, seq<string>>

    ghost predicate Valid()
      reads this
    {
      // each open file and each upload holds its path once, and no other path is held
      && (forall p :: Held(p) == uploads[p] + if p in files then 1 else 0)
      && (forall p :: p in holds ==> holds[p] > 0)
      // no open hour may close before nextClose
      && (nextClose == 0 <==> files == {})
      && (forall p :: p in files ==> nextClose <= CloseOf(p))
    }

    /** No hour stays open past its close. */
    ghost predicate Rotated()
      reads this
    {
      forall p :: p in files ==> CloseOf(p) > latest
    }

    constructor (refused: set<string>)
      ensures Valid() && Rotated() && files == {} && uploads == multiset{} && disk == map[] && latest == 0
      ensures this.refused == refused
    {
      this.refused := refused;
      files, holds, uploads, latest, nextClose, disk := {}, map[], multiset{}, 0, 0, map[];
    }

    /** How many own a path, by the count kept under the lock. */
    function Held(p: Path): nat
      reads this
    {
      if p in holds then holds[p] else 0
    }

    method Hold(p: Path)
      modifies this`holds
      ensures holds == old(holds)[p := old(Held(p)) + 1]
    {
      holds := holds[p := Held(p) + 1];
    }

    method Release(p: Path)
      modifies this`holds
      ensures forall q :: Held(q) == if q == p && old(Held(p)) > 0 then old(Held(p)) - 1 else old(Held(q))
      ensures (forall q :: q in old(holds) ==> old(holds)[q] > 0) ==> forall q :: q in holds ==> holds[q] > 0
    {
      if Held(p) > 1 {
        holds := holds[p := Held(p) - 1];
      } else {
        holds := holds - {p};
      }
    }

    method IsHeld(p: Path) returns (held: bool)
      requires Valid()
      ensures held <==> p in files || p in uploads
    {
      held := Held(p) > 0;
    }

    /** An upload is done, whether or not it succeeded. */
    method UploadDone(p: Path)
      requires Valid() && p in uploads
      modifies this`holds, this`uploads
      ensures Valid() && uploads == old(uploads) - multiset{p}
    {
      uploads := uploads - multiset{p};
      Release(p);
    }

    /** Opens an hour, again if it was open before, and holds its file. */
    method Open(p: Path)
      requires Valid() && p !in files
      modifies this`files, this`holds, this`nextClose
      ensures Valid() && files == old(files) + {p}
    {
      Hold(p);
      files := files + {p};
      var c := CloseOf(p);
      if nextClose == 0 || c < nextClose {
        nextClose := c;
      }
      assert forall q :: Held(q) == old(Held(q)) + if q == p then 1 else 0;
    }

    /** The file is done; its hold passes to the upload that now sends it. */
    method Close(p: Path)
      requires p in files
      modifies this`files, this`uploads
      ensures files == old(files) - {p} && uploads == old(uploads) + multiset{p}
    {
      files := files - {p};
      uploads := uploads + multiset{p};
    }

    /** One open hour: closed when its time has come, or else counted in the next close. */
    method CloseOne(hf: Path, ghost all: set<Path>, ghost left: set<Path>, ghost was: multiset<Path>)
      requires hf in left && left <= files <= all && Sorted(all, files, left, nextClose, latest)
      requires uploads == was + multiset(all - files)
      modifies this`files, this`uploads, this`nextClose
      ensures left - {hf} <= files <= all && Sorted(all, files, left - {hf}, nextClose, latest)
      ensures uploads == was + multiset(all - files)
    {
      var c := CloseOf(hf);
      if !(c > latest) {
        Close(hf);
        assert all - files == (all - old(files)) + {hf};
      } else if nextClose == 0 || c < nextClose {
        nextClose := c;
      }
    }

    method CloseDue()
      modifies this`files, this`uploads, this`nextClose
      ensures files == old(files) - Due(old(files), latest)
      ensures uploads == old(uploads) + multiset(Due(old(files), latest))
      ensures (nextClose == 0 <==> files == {}) && forall p :: p in files ==> nextClose <= CloseOf(p)
    {
      nextClose := 0;
      var left := files;
      ghost var all, was := files, uploads;
      while left != {}
        invariant left <= files <= all && uploads == was + multiset(all - files)
        invariant Sorted(all, files, left, nextClose, latest)
        decreases |left|
      {
        var hf :| hf in left;
        CloseOne(hf, all, left, was);
        left := left - {hf};
      }
      assert all - files == Due(all, latest);
    }

    /** Closes, and starts uploading, every hour that ended more than the grace before the newest receive time. */
    method Rotate(recv: nat)
      requires Valid()
      modifies this`files, this`uploads, this`latest, this`nextClose
      ensures Valid() && Rotated()
      ensures latest == Max(old(latest), recv)
      ensures files == old(files) - Due(old(files), latest)
      ensures uploads == old(uploads) + multiset(Due(old(files), latest))
      // none before five minutes past its end, and all that are due
      ensures forall p :: p in old(files) ==> (p in files <==> latest < p.hour + 65 * 60 * 1_000_000_000)
    {
      if recv > latest {
        latest := recv;
      }
      if nextClose == 0 || latest < nextClose {
        assert forall q :: q in files ==> nextClose != 0 && CloseOf(q) > latest;
        assert Due(files, latest) == {};
        return;
      }
      CloseDue();
      assert forall q :: Held(q) == old(Held(q)) && old(Held(q)) == old(uploads)[q] + if q in old(files) then 1 else 0;
    }

    /** Files a reception in its hour, opening the hour if it is closed, and closes every hour its time lets close. */
    method Handle(rx: Record)
      requires Valid() && Rotated()
      modifies this
      ensures Valid() && Rotated() && forall p :: p in files ==> latest < p.hour + 65 * 60 * 1_000_000_000
      ensures var p := PathOf(rx);
              if p !in old(files) && rx.stream in refused
              then files == old(files) && uploads == old(uploads) && disk == old(disk) && latest == old(latest)
              else
                && latest == Max(old(latest), rx.recv)
                && disk == old(disk)[p := (if p in old(disk) then old(disk)[p] else []) + [rx.line]]
                && files == old(files) + {p} - Due(old(files) + {p}, latest)
                && uploads == old(uploads) + multiset(Due(old(files) + {p}, latest))
                && forall q :: q in old(files) + {p} && q !in files ==> latest >= q.hour + 65 * 60 * 1_000_000_000
    {
      var p := PathOf(rx);
      if p !in files {
        if rx.stream in refused {
          return;
        }
        Open(p);
      }
      assert files == old(files) + {p};
      disk := disk[p := (if p in disk then disk[p] else []) + [rx.line]];
      Rotate(rx.recv);
    }
  }

  // ---- the writer's part in each hour's machine ----

  /** The steps a reception handled takes at a path: it opens its hour if it is closed and writes there, and each due
      hour rotates. */
  function Steps(p: Path, rx: Record, files: set<Path>, latest: nat, line: H.Bytes, footer: H.Bytes,
          id: nat): seq<H.Action>
  {
    (if p == PathOf(rx) then (if p in files then [] else [H.Open]) + [H.Write(line)] else [])
    + (if p in Due(files + {PathOf(rx)}, latest) then [H.Rotate(footer, id)] else [])
  }

  /** The hour's machine is where the writer has the path. */
  ghost predicate At(s: H.State, p: Path, files: set<Path>, uploads: multiset<Path>) {
    H.Inv(s) && s.hour == p.hour && (s.open <==> p in files) && |s.uploads| == uploads[p]
  }

  /** An hour no one has opened is where a writer that has opened none has it. */
  lemma StartsAt(s: H.State, p: Path)
    requires H.Initial(s) && s.hour == p.hour
    ensures At(s, p, {}, multiset{})
  {
  }

  lemma OpenedAt(s: H.State, p: Path, files: set<Path>, uploads: multiset<Path>)
    requires At(s, p, files, uploads) && H.MayOpen(s)
    ensures H.Step(H.Open, s, H.Opened(s)) && At(H.Opened(s), p, files + {p}, uploads)
  {
    H.StepKeeps(H.Open, s, H.Opened(s));
  }

  lemma WrittenAt(s: H.State, p: Path, files: set<Path>, uploads: multiset<Path>, line: H.Bytes)
    requires At(s, p, files, uploads) && p in files
    ensures H.Step(H.Write(line), s, H.Written(s, line)) && At(H.Written(s, line), p, files, uploads)
  {
    H.StepKeeps(H.Write(line), s, H.Written(s, line));
  }

  lemma RotatedAt(s: H.State, p: Path, files: set<Path>, uploads: multiset<Path>, due: set<Path>, footer: H.Bytes,
          id: nat)
    requires At(s, p, files, uploads) && id !in s.uploads && due <= files
    ensures H.LeadsBy(s, if p in due then [H.Rotate(footer, id)] else [], if p in due then H.Rotated(s, footer, id)
            else s)
    ensures At(if p in due then H.Rotated(s, footer, id) else s, p, files - due, uploads + multiset(due))
  {
    if p in due {
      H.StepKeeps(H.Rotate(footer, id), s, H.Rotated(s, footer, id));
      assert |H.Rotated(s, footer, id).uploads| == |s.uploads| + 1;
      H.LeadsFirst(s, H.Rotate(footer, id), H.Rotated(s, footer, id), [], H.Rotated(s, footer, id));
      assert [H.Rotate(footer, id)] + [] == [H.Rotate(footer, id)];
    } else {
      assert H.LeadsBy(s, [], s);
    }
  }

  /** Once the hour is open. */
  lemma WrittenBySteps(s: H.State, p: Path, rx: Record, files: set<Path>, uploads: multiset<Path>, latest: nat,
        line: H.Bytes, footer: H.Bytes, id: nat)
    requires At(s, p, files, uploads) && id !in s.uploads && PathOf(rx) in files
    ensures var due := Due(files, latest);
            exists s' :: && H.LeadsBy(s, Steps(p, rx, files, latest, line, footer, id), s')
                         && At(s', p, files - due, uploads + multiset(due))
  {
    var due := Due(files, latest);
    assert files + {PathOf(rx)} == files;
    var m := if p == PathOf(rx) then H.Written(s, line) else s;
    if p == PathOf(rx) {
      WrittenAt(s, p, files, uploads, line);
    }
    RotatedAt(m, p, files, uploads, due, footer, id);
    var s' := if p in due then H.Rotated(m, footer, id) else m;
    var third := if p in due then [H.Rotate(footer, id)] else [];
    if p == PathOf(rx) {
      H.LeadsFirst(s, H.Write(line), m, third, s');
      assert Steps(p, rx, files, latest, line, footer, id) == [H.Write(line)] + third;
    } else {
      assert Steps(p, rx, files, latest, line, footer, id) == third;
    }
  }

  /** Handling a reception takes every hour's machine to where it leaves the writer, when it is opened in time. */
  lemma HandledBySteps(s: H.State, p: Path, rx: Record, files: set<Path>, uploads: multiset<Path>, latest: nat,
        line: H.Bytes, footer: H.Bytes, id: nat)
    requires At(s, p, files, uploads) && id !in s.uploads
    requires p == PathOf(rx) && p !in files ==> H.MayOpen(s)
    ensures var due := Due(files + {PathOf(rx)}, latest);
            exists s' :: && H.LeadsBy(s, Steps(p, rx, files, latest, line, footer, id), s')
                         && At(s', p, files + {PathOf(rx)} - due, uploads + multiset(due))
  {
    var due, here := Due(files + {PathOf(rx)}, latest), p == PathOf(rx);
    var s1 := if here && p !in files then H.Opened(s) else s;
    if here && p !in files {
      OpenedAt(s, p, files, uploads);
    }
    assert At(s1, p, files + {PathOf(rx)}, uploads);
    WrittenBySteps(s1, p, rx, files + {PathOf(rx)}, uploads, latest, line, footer, id);
    var s' :| && H.LeadsBy(s1, Steps(p, rx, files + {PathOf(rx)}, latest, line, footer, id), s')
              && At(s', p, files + {PathOf(rx)} - due, uploads + multiset(due));
    var after := Steps(p, rx, files + {PathOf(rx)}, latest, line, footer, id);
    assert files + {PathOf(rx)} + {PathOf(rx)} == files + {PathOf(rx)};
    if here && p !in files {
      H.LeadsFirst(s, H.Open, s1, after, s');
      assert Steps(p, rx, files, latest, line, footer, id) == [H.Open] + after;
    } else {
      assert Steps(p, rx, files, latest, line, footer, id) == after;
    }
  }
}
