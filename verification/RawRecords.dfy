/** The raw archive's record format: what the writer prints and the replay reader reads back
    (server/archive.go, server/replay.go). */
module RawRecords {
  import opened Options

  /** How receive times are written and read: RFC 3339 with nanoseconds, here any codec that reads back what it
      writes. */
  datatype Clock = Clock(format: int -> string, parse: string -> Option<int>) {
    ghost predicate Sound() {
      forall t {:trigger format(t)} :: parse(format(t)) == Some(t) && '\t' !in format(t) && '\n' !in format(t)
    }
  }

  datatype Reception = Reception(recv: int, station: string, body: string, published: bool, buffered: bool)

  const BUFFERED_MARK := " buffered"
  const PUBLISHED_MARK := " published"

  // ---- the writer ----

  /** What is left of a text without the carriage returns and newlines it ends in. */
  ghost predicate IsTrimmed(s: string, r: string) {
    && r <= s
    && (forall i :: |r| <= i < |s| ==> s[i] == '\r' || s[i] == '\n')
    && (r != [] ==> r[|r| - 1] != '\r' && r[|r| - 1] != '\n')
  }

  function TrimRight(s: string): (r: string)
    ensures IsTrimmed(s, r)
  {
    if s != [] && (s[|s| - 1] == '\r' || s[|s| - 1] == '\n') then TrimRight(s[..|s| - 1]) else s
  }

  function Marked(rx: Reception): string {
    rx.station + (if rx.published then PUBLISHED_MARK else "") + (if rx.buffered then BUFFERED_MARK else "")
  }

  /** A record's text, up to the newline that ends it. */
  function Text(c: Clock, rx: Reception): string { c.format(rx.recv) + "\t" + (Marked(rx) + "\t" + TrimRight(rx.body)) }

  function Print(c: Clock, rx: Reception): string { Text(c, rx) + "\n" }

  function PrintAll(c: Clock, rxs: seq<Reception>): string {
    if rxs == [] then "" else Print(c, rxs[0]) + PrintAll(c, rxs[1..])
  }

  // ---- the reader, as a function of what it reads ----

  /** Where ch first is in s, or the length of s. */
  function Index(s: string, ch: char): (k: nat)
    ensures k <= |s|
  {
    if s == [] || s[0] == ch then 0 else 1 + Index(s[1..], ch)
  }

  lemma {:induction false} IndexIn(s: string, ch: char)
    ensures Index(s, ch) < |s| <==> ch in s
    ensures Index(s, ch) < |s| ==> s[Index(s, ch)] == ch
  {
    if s != [] && s[0] != ch {
      IndexIn(s[1..], ch);
      assert s == [s[0]] + s[1..];
    }
  }

  function Cut(s: string, ch: char): Option<(string, string)> {
    var k := Index(s, ch);
    if k == |s| then None else Some((s[..k], s[k + 1..]))
  }

  predicate EndsWith(s: string, suffix: string) { |suffix| <= |s| && s[|s| - |suffix|..] == suffix }

  function CutSuffix(s: string, suffix: string): (string, bool) {
    if EndsWith(s, suffix) then (s[..|s| - |suffix|], true) else (s, false)
  }

  predicate EndsCr(line: string) { line != [] && line[|line| - 1] == '\r' }

  /** A line without the one carriage return it may end in. */
  function DropCr(line: string): (r: string)
    ensures if line != [] && line[|line| - 1] == '\r' then line == r + "\r" else r == line
  {
    if EndsCr(line) then line[..|line| - 1] else line
  }

  function LinesFrom(line: string, text: string): seq<string>
    decreases |text|
  {
    if text == [] then (if line == [] then [] else [DropCr(line)])
    else if text[0] == '\n' then [DropCr(line)] + LinesFrom("", text[1..])
    else LinesFrom(line + [text[0]], text[1..])
  }

  /** The lines a scanner yields: split at newlines, each without the carriage return it ends in. */
  function Lines(text: string): seq<string> { LinesFrom("", text) }

  /** A line's receive time and the rest of it; a continuation line has none. */
  function CutRecord(c: Clock, line: string): Option<(int, string)> {
    match Cut(line, '\t')
    case None => None
    case Some((ts, rest)) => if c.parse(ts).Some? then Some((c.parse(ts).value, rest)) else None
  }

  function Unmarked(recv: int, column: string, body: string): Reception {
    var (s, buffered) := CutSuffix(column, BUFFERED_MARK);
    var (station, published) := CutSuffix(s, PUBLISHED_MARK);
    Reception(recv, station, body, published, buffered)
  }

  /** The record a line opens, and nothing of one with no station column. */
  function Opened(recv: int, rest: string): Option<Reception> {
    match Cut(rest, '\t')
    case None => None
    case Some((column, body)) => Some(Unmarked(recv, column, body))
  }

  /** What is read, and whether the input ends well. */
  datatype Read = Read(recs: seq<Reception>, clean: bool)

  /** One file's lines: whole is false of one whose compressed data is cut short. */
  function ReadLines(c: Clock, lines: seq<string>, whole: bool, pend: Option<Reception>): Read {
    if lines == [] then
      Read(if whole && pend.Some? then [pend.value] else [], whole)
    else
      var line, rest := lines[0], lines[1..];
      match CutRecord(c, line)
      case None =>
        if pend.None? then Read([], false)
        else ReadLines(c, rest, whole, Some(pend.value.(body := pend.value.body + "\n" + line)))
      case Some((recv, after)) =>
        match Opened(recv, after)
        case None => Read([], false)
        case Some(rx) =>
          var r := ReadLines(c, rest, whole, Some(rx));
          if pend.Some? then Read([pend.value] + r.recs, r.clean) else r
  }

  function Then(a: Read, b: Read): Read { if a.clean then Read(a.recs + b.recs, b.clean) else a }

  datatype File = File(text: string, whole: bool)

  function ReadFiles(c: Clock, files: seq<File>): Read {
    if files == [] then Read([], true)
    else Then(ReadLines(c, Lines(files[0].text), files[0].whole, None), ReadFiles(c, files[1..]))
  }

  /** Those not before the floor. */
  function From(recs: seq<Reception>, floor: int): seq<Reception> {
    if recs == [] then []
    else (if recs[0].recv < floor then [] else [recs[0]]) + From(recs[1..], floor)
  }

  // ---- printing, split into lines ----

  function SplitFrom(line: string, s: string): (r: seq<string>)
    ensures r != []
    decreases |s|
  {
    if s == [] then [line]
    else if s[0] == '\n' then [line] + SplitFrom("", s[1..])
    else SplitFrom(line + [s[0]], s[1..])
  }

  /** A body's lines as they are, with nothing dropped. */
  function Split(s: string): seq<string> { SplitFrom("", s) }

  function DropCrs(lines: seq<string>): seq<string> {
    if lines == [] then [] else [DropCr(lines[0])] + DropCrs(lines[1..])
  }

  predicate Without(s: string, ch: char) { Index(s, ch) == |s| }

  lemma {:induction false} IndexAppend(p: string, s: string, ch: char)
    requires Without(p, ch)
    ensures Index(p + s, ch) == |p| + Index(s, ch)
  {
    if p == [] {
      assert p + s == s;
    } else {
      assert (p + s)[1..] == p[1..] + s;
      IndexAppend(p[1..], s, ch);
    }
  }

  /** Text up to a newline and what follows it are scanned apart. */
  lemma {:induction false} LinesOfSplit(line: string, x: string, rest: string)
    ensures LinesFrom(line, x + ("\n" + rest)) == DropCrs(SplitFrom(line, x)) + Lines(rest)
    decreases |x|
  {
    var t := x + ("\n" + rest);
    if x == [] {
      assert t[1..] == rest;
      assert [line][1..] == [];
    } else {
      assert t[1..] == x[1..] + ("\n" + rest);
      if x[0] == '\n' {
        LinesOfSplit("", x[1..], rest);
        assert SplitFrom(line, x)[1..] == SplitFrom("", x[1..]);
      } else {
        LinesOfSplit(line + [x[0]], x[1..], rest);
      }
    }
  }

  lemma {:induction false} SplitAfter(p: string, line: string, s: string)
    ensures SplitFrom(p + line, s) == [p + SplitFrom(line, s)[0]] + SplitFrom(line, s)[1..]
    decreases |s|
  {
    if s != [] && s[0] != '\n' {
      assert (p + line) + [s[0]] == p + (line + [s[0]]);
      SplitAfter(p, line + [s[0]], s[1..]);
    }
  }

  lemma {:induction false} SplitPast(line: string, p: string, t: string)
    requires Without(p, '\n')
    ensures SplitFrom(line, p + t) == SplitFrom(line + p, t)
    decreases |p|
  {
    if p == [] {
      assert p + t == t && line + p == line;
    } else {
      assert (p + t)[1..] == p[1..] + t;
      SplitPast(line + [p[0]], p[1..], t);
      assert (line + [p[0]]) + p[1..] == line + p;
    }
  }

  /** What follows a prefix with no newline in it goes on the prefix's line. */
  lemma SplitPrefix(p: string, s: string)
    requires Without(p, '\n')
    ensures Split(p + s) == [p + Split(s)[0]] + Split(s)[1..]
  {
    SplitPast("", p, s);
    SplitAfter(p, "", s);
    assert "" + p == p && p + "" == p;
  }

  lemma WithoutAppend(p: string, s: string, ch: char)
    requires Without(p, ch)
    ensures Without(p + s, ch) <==> Without(s, ch)
  {
    IndexAppend(p, s, ch);
  }

  lemma PrintedLines(c: Clock, rx: Reception, rest: string)
    ensures Lines(Print(c, rx) + rest) == DropCrs(Split(Text(c, rx))) + Lines(rest)
  {
    assert Print(c, rx) + rest == Text(c, rx) + ("\n" + rest);
    LinesOfSplit("", Text(c, rx), rest);
  }

  // ---- a record read back ----

  /** The same reception, but for the carriage returns and newlines its body ends in. */
  ghost predicate SameRecord(rx: Reception, back: Reception) {
    && back.recv == rx.recv && back.station == rx.station
    && back.published == rx.published && back.buffered == rx.buffered
    && IsTrimmed(rx.body, back.body)
  }

  ghost predicate SameRecords(rxs: seq<Reception>, recs: seq<Reception>) {
    |recs| == |rxs| && forall i :: 0 <= i < |rxs| ==> SameRecord(rxs[i], recs[i])
  }

  function Trimmed(rx: Reception): Reception { rx.(body := TrimRight(rx.body)) }

  function TrimmedAll(rxs: seq<Reception>): (r: seq<Reception>)
    ensures |r| == |rxs|
  {
    if rxs == [] then [] else [Trimmed(rxs[0])] + TrimmedAll(rxs[1..])
  }

  predicate MarksFit(rx: Reception) {
    && (EndsWith(rx.station, BUFFERED_MARK) ==> rx.buffered || rx.published)
    && (EndsWith(rx.station, PUBLISHED_MARK) ==> rx.published)
  }

  predicate NoCrs(lines: seq<string>) { lines == [] || (!EndsCr(lines[0]) && NoCrs(lines[1..])) }

  predicate NoHeaders(c: Clock, lines: seq<string>) {
    lines == [] || (CutRecord(c, lines[0]).None? && NoHeaders(c, lines[1..]))
  }

  predicate BodyFits(c: Clock, body: string) { NoCrs(Split(body)) && NoHeaders(c, Split(body)[1..]) }

  /** When a record reads back as it was printed: its station holds no tab, no newline and ends in no mark that
      would be taken for its own; no line of its body ends in a carriage return, and none but its first reads as
      the start of a record. */
  predicate Fits(c: Clock, rx: Reception) {
    && Without(rx.station, '\t') && Without(rx.station, '\n') && MarksFit(rx) && BodyFits(c, TrimRight(rx.body))
  }

  lemma CutAt(p: string, s: string, ch: char)
    requires Without(p, ch)
    ensures Cut(p + [ch] + s, ch) == Some((p, s))
  {
    assert p + [ch] + s == p + ([ch] + s);
    IndexAppend(p, [ch] + s, ch);
    assert (p + [ch] + s)[..|p|] == p && (p + [ch] + s)[|p| + 1..] == s;
  }

  lemma DropCrAfter(p: string, l: string)
    requires p != [] && !EndsCr(p)
    ensures DropCr(p + l) == p + DropCr(l)
  {
  }

  /** The first line of a record's text opens a record of its receive time. */
  lemma FirstLineOpens(c: Clock, rx: Reception)
    requires c.Sound()
    ensures var x := Split(Marked(rx) + "\t" + TrimRight(rx.body));
            DropCrs(Split(Text(c, rx))) == [c.format(rx.recv) + "\t" + DropCr(x[0])] + DropCrs(x[1..])
            && CutRecord(c, c.format(rx.recv) + "\t" + DropCr(x[0])) == Some((rx.recv, DropCr(x[0])))
  {
    var t := c.format(rx.recv);
    IndexIn(t, '\t');
    IndexIn(t, '\n');
    var x := Split(Marked(rx) + "\t" + TrimRight(rx.body));
    IndexAppend(t, "\t", '\n');
    SplitPrefix(t + "\t", Marked(rx) + "\t" + TrimRight(rx.body));
    DropCrAfter(t + "\t", x[0]);
    CutAt(t, DropCr(x[0]), '\t');
  }

  lemma TrimmedOnce(s: string, r: string, t: string)
    requires IsTrimmed(s, r) && IsTrimmed(s, t)
    ensures r == t
  {
    assert t != [] ==> s[|t| - 1] == t[|t| - 1];
    assert r != [] ==> s[|r| - 1] == r[|r| - 1];
  }

  /** A record as it stands in the file: receive time, station, marks, and body, the published mark first. */
  lemma PrintedForm(c: Clock, rx: Reception, body: string)
    requires IsTrimmed(rx.body, body)
    ensures Print(c, rx) == c.format(rx.recv) + "\t" + rx.station + (if rx.published then " published" else "")
                            + (if rx.buffered then " buffered" else "") + "\t" + body + "\n"
  {
    TrimmedOnce(rx.body, TrimRight(rx.body), body);
  }

  // ---- its lines read ----

  /** Continuation lines joined to the line they continue. */
  function Joined(lines: seq<string>): string { if lines == [] then "" else "\n" + (lines[0] + Joined(lines[1..])) }

  lemma {:induction false} JoinedSplit(line: string, s: string)
    ensures var r := SplitFrom(line, s); r[0] + Joined(r[1..]) == line + s
    decreases |s|
  {
    if s == [] {
      assert line + s == line;
    } else if s[0] == '\n' {
      JoinedSplit("", s[1..]);
      assert SplitFrom(line, s)[1..] == SplitFrom("", s[1..]);
      assert s == "\n" + ("" + s[1..]);
    } else {
      JoinedSplit(line + [s[0]], s[1..]);
      assert (line + [s[0]]) + s[1..] == line + s;
    }
  }

  lemma {:induction false} NoCrsSame(lines: seq<string>)
    ensures |Joined(DropCrs(lines))| <= |Joined(lines)|
    ensures |Joined(DropCrs(lines))| == |Joined(lines)| <==> NoCrs(lines)
    ensures NoCrs(lines) ==> DropCrs(lines) == lines
  {
    if lines != [] {
      NoCrsSame(lines[1..]);
      assert DropCrs(lines)[1..] == DropCrs(lines[1..]);
      assert lines == [lines[0]] + lines[1..];
    }
  }

  lemma {:induction false} SomethingRead(c: Clock, lines: seq<string>, pend: Reception)
    ensures var r := ReadLines(c, lines, true, Some(pend)); r.clean ==> r.recs != []
  {
    if lines != [] && CutRecord(c, lines[0]).None? {
      SomethingRead(c, lines[1..], pend.(body := pend.body + "\n" + lines[0]));
    }
  }

  lemma JoinedOn(body: string, lines: seq<string>)
    requires lines != []
    ensures (body + "\n" + lines[0]) + Joined(lines[1..]) == body + Joined(lines)
  {
  }

  lemma EndedBy(c: Clock, lines: seq<string>, pend: Reception)
    requires lines != [] && CutRecord(c, lines[0]).Some?
    ensures var r := ReadLines(c, lines, true, Some(pend)); r.clean ==> |r.recs| >= 2
  {
    var (recv, after) := CutRecord(c, lines[0]).value;
    if Opened(recv, after).Some? {
      SomethingRead(c, lines[1..], Opened(recv, after).value);
    }
  }

  /** Lines that open no record go on the body of the one before; one that does ends it. */
  lemma {:induction false} Continued(c: Clock, lines: seq<string>, pend: Reception)
    ensures var r := ReadLines(c, lines, true, Some(pend));
            if NoHeaders(c, lines) then r == Read([pend.(body := pend.body + Joined(lines))], true)
            else r.clean ==> |r.recs| >= 2
  {
    if lines == [] {
      assert pend.body + Joined(lines) == pend.body;
    } else if CutRecord(c, lines[0]).None? {
      var next := pend.(body := pend.body + "\n" + lines[0]);
      Continued(c, lines[1..], next);
      JoinedOn(pend.body, lines);
      assert next.(body := next.body + Joined(lines[1..])) == pend.(body := pend.body + Joined(lines));
    } else {
      EndedBy(c, lines, pend);
    }
  }

  lemma SuffixCut(s: string, suffix: string)
    ensures CutSuffix(s + suffix, suffix) == (s, true)
  {
  }

  lemma NotBoth(s: string)
    ensures !EndsWith(s + PUBLISHED_MARK, BUFFERED_MARK)
  {
    var t := s + PUBLISHED_MARK;
    assert t[|t| - |BUFFERED_MARK|] == 'p';
    assert BUFFERED_MARK[0] == ' ';
  }

  /** The marks a column ends in are taken for the record's own, exactly. */
  lemma MarksExactly(rx: Reception, body: string)
    ensures Unmarked(rx.recv, Marked(rx), body) == rx.(body := body) <==> MarksFit(rx)
  {
    var s := rx.station + if rx.published then PUBLISHED_MARK else "";
    assert rx.station + "" == rx.station;
    if rx.buffered {
      SuffixCut(s, BUFFERED_MARK);
    } else {
      assert Marked(rx) == s;
    }
    if rx.published {
      SuffixCut(rx.station, PUBLISHED_MARK);
      NotBoth(rx.station);
    }
  }

  lemma {:induction false} WithoutFront(p: string, s: string, ch: char)
    requires Without(p + s, ch)
    ensures Without(p, ch)
  {
    if p != [] {
      assert (p + s)[1..] == p[1..] + s;
      WithoutFront(p[1..], s, ch);
    }
  }

  /** A station with a tab or a newline in it is read short, or not at all. */
  lemma StationCutShort(recv: int, station: string, more: string, k: nat)
    requires k < |station| && Without(station[..k], '\t') && Without(station[..k], '\n')
    requires station[k] == '\t' || station[k] == '\n'
    ensures var o := Opened(recv, DropCr(Split(station + more)[0])); o.Some? ==> |o.value.station| < |station|
  {
    var p, after := station[..k], station[k + 1..] + more;
    assert station + more == p + ([station[k]] + after);
    if station[k] == '\n' {
      SplitPrefix(p, "\n" + after);
      assert ("\n" + after)[0] == '\n' && p + "" == p;
      if EndsCr(p) {
        assert p == DropCr(p) + "\r";
        WithoutFront(DropCr(p), "\r", '\t');
      }
    } else {
      assert p + ("\t" + after) == (p + "\t") + after;
      WithoutAppend(p, "\t", '\n');
      SplitPrefix(p + "\t", after);
      var d := Split(after)[0];
      DropCrAfter(p + "\t", d);
      CutAt(p, DropCr(d), '\t');
    }
  }

  lemma {:induction false} BeforeIndex(s: string, ch: char)
    ensures Without(s[..Index(s, ch)], ch)
  {
    if s != [] && s[0] != ch {
      BeforeIndex(s[1..], ch);
      assert s[..Index(s, ch)][1..] == s[1..][..Index(s[1..], ch)];
    }
  }

  /** Where a station is first cut short. */
  lemma FirstBreak(station: string) returns (k: nat)
    requires !Without(station, '\t') || !Without(station, '\n')
    ensures k < |station| && Without(station[..k], '\t') && Without(station[..k], '\n')
    ensures station[k] == '\t' || station[k] == '\n'
  {
    var t, n := Index(station, '\t'), Index(station, '\n');
    IndexIn(station, '\t');
    IndexIn(station, '\n');
    BeforeIndex(station, '\t');
    BeforeIndex(station, '\n');
    k := if t < n then t else n;
    assert station[..t] == station[..k] + station[k..t];
    assert station[..n] == station[..k] + station[k..n];
    WithoutFront(station[..k], station[k..t], '\t');
    WithoutFront(station[..k], station[k..n], '\n');
  }

  lemma PublishedPlain(ch: char)
    requires ch == '\t' || ch == '\n'
    ensures Without(PUBLISHED_MARK, ch)
  {
    IndexIn(PUBLISHED_MARK, ch);
  }

  lemma BufferedPlain(ch: char)
    requires ch == '\t' || ch == '\n'
    ensures Without(BUFFERED_MARK, ch)
  {
    IndexIn(BUFFERED_MARK, ch);
  }

  lemma MarkedPlain(rx: Reception, ch: char)
    requires Without(rx.station, ch) && (ch == '\t' || ch == '\n')
    ensures Without(Marked(rx), ch)
  {
    PublishedPlain(ch);
    BufferedPlain(ch);
    var p, q := if rx.published then PUBLISHED_MARK else "", if rx.buffered then BUFFERED_MARK else "";
    WithoutAppend(rx.station, p, ch);
    WithoutAppend(rx.station + p, q, ch);
    assert Marked(rx) == (rx.station + p) + q;
  }

  /** With a plain station the first line opens the record, its body the first line of the printed one. */
  lemma PlainOpens(c: Clock, rx: Reception)
    requires Without(rx.station, '\t') && Without(rx.station, '\n')
    ensures var b := Split(TrimRight(rx.body));
            var x := Split(Marked(rx) + "\t" + TrimRight(rx.body));
            x[1..] == b[1..] && Opened(rx.recv, DropCr(x[0])) == Some(Unmarked(rx.recv, Marked(rx), DropCr(b[0])))
  {
    MarkedPlain(rx, '\t');
    MarkedPlain(rx, '\n');
    var b := Split(TrimRight(rx.body));
    WithoutAppend(Marked(rx), "\t", '\n');
    SplitPrefix(Marked(rx) + "\t", TrimRight(rx.body));
    DropCrAfter(Marked(rx) + "\t", b[0]);
    CutAt(Marked(rx), DropCr(b[0]), '\t');
  }

  /** What reading one record's lines comes to: its first line opened, and the rest read on from there. */
  lemma FirstLineRead(c: Clock, rx: Reception)
    requires c.Sound()
    ensures var x := Split(Marked(rx) + "\t" + TrimRight(rx.body));
            var o := Opened(rx.recv, DropCr(x[0]));
            ReadLines(c, DropCrs(Split(Text(c, rx))), true, None) == if o.None? then Read([], false)
              else ReadLines(c, DropCrs(x[1..]), true, o)
  {
    FirstLineOpens(c, rx);
    var x := Split(Marked(rx) + "\t" + TrimRight(rx.body));
    var l, ls := c.format(rx.recv) + "\t" + DropCr(x[0]), DropCrs(x[1..]);
    assert ([l] + ls)[1..] == ls;
  }

  lemma BrokenStation(c: Clock, rx: Reception)
    requires !Without(rx.station, '\t') || !Without(rx.station, '\n')
    ensures var x := Split(Marked(rx) + "\t" + TrimRight(rx.body));
            var o := Opened(rx.recv, DropCr(x[0])); o.Some? ==> |o.value.station| < |rx.station|
  {
    var k := FirstBreak(rx.station);
    var more := Marked(rx)[|rx.station|..] + "\t" + TrimRight(rx.body);
    assert Marked(rx) + "\t" + TrimRight(rx.body) == rx.station + more;
    StationCutShort(rx.recv, rx.station, more, k);
  }

  lemma {:induction false} FirstKeepsStation(c: Clock, lines: seq<string>, pend: Reception)
    ensures var r := ReadLines(c, lines, true, Some(pend)); r.clean ==>
            r.recs != [] && r.recs[0].station == pend.station
  {
    if lines != [] && CutRecord(c, lines[0]).None? {
      FirstKeepsStation(c, lines[1..], pend.(body := pend.body + "\n" + lines[0]));
    }
  }

  lemma BodyExactly(body: string)
    ensures var b := Split(body); DropCr(b[0]) + Joined(DropCrs(b[1..])) == body <==> NoCrs(b)
  {
    var b := Split(body);
    JoinedSplit("", body);
    assert "" + body == body;
    NoCrsSame(b[1..]);
    if EndsCr(b[0]) {
      assert |DropCr(b[0])| < |b[0]|;
    }
  }

  lemma PlainExactly(c: Clock, rx: Reception)
    ensures var b := Split(TrimRight(rx.body));
            ReadLines(c, DropCrs(b[1..]), true, Some(Unmarked(rx.recv, Marked(rx), DropCr(b[0])))) ==
              Read([Trimmed(rx)], true)
            <==> MarksFit(rx) && BodyFits(c, TrimRight(rx.body))
  {
    var body := TrimRight(rx.body);
    var b := Split(body);
    var first := Unmarked(rx.recv, Marked(rx), DropCr(b[0]));
    Continued(c, DropCrs(b[1..]), first);
    NoCrsSame(b[1..]);
    JoinedSplit("", body);
    assert "" + body == body;
    MarksExactly(rx, DropCr(b[0]));
    BodyExactly(body);
  }

  lemma RecordTrimmed(c: Clock, rx: Reception)
    requires c.Sound()
    ensures ReadLines(c, DropCrs(Split(Text(c, rx))), true, None) == Read([Trimmed(rx)], true) <==> Fits(c, rx)
    ensures var r := ReadLines(c, DropCrs(Split(Text(c, rx))), true, None); r.clean ==> r.recs != []
  {
    FirstLineRead(c, rx);
    var x := Split(Marked(rx) + "\t" + TrimRight(rx.body));
    var o := Opened(rx.recv, DropCr(x[0]));
    if o.Some? {
      FirstKeepsStation(c, DropCrs(x[1..]), o.value);
    }
    if Without(rx.station, '\t') && Without(rx.station, '\n') {
      PlainOpens(c, rx);
      PlainExactly(c, rx);
    } else {
      BrokenStation(c, rx);
    }
  }

  lemma {:induction false} SameIsTrimmed(rxs: seq<Reception>, recs: seq<Reception>)
    ensures SameRecords(rxs, recs) <==> recs == TrimmedAll(rxs)
  {
    if rxs != [] && recs != [] {
      SameIsTrimmed(rxs[1..], recs[1..]);
      assert recs == [recs[0]] + recs[1..];
      assert SameRecord(rxs[0], recs[0]) <==> recs[0] == Trimmed(rxs[0]);
      assert SameRecords(rxs, recs) <==> SameRecord(rxs[0], recs[0]) && SameRecords(rxs[1..], recs[1..]);
    }
  }

  /** One record's lines read back to it, but for what its body ends in, exactly when it fits. */
  lemma RecordExactly(c: Clock, rx: Reception)
    requires c.Sound()
    ensures var r := ReadLines(c, DropCrs(Split(Text(c, rx))), true, None);
            r.clean && SameRecords([rx], r.recs) <==> Fits(c, rx)
  {
    RecordTrimmed(c, rx);
    SameIsTrimmed([rx], ReadLines(c, DropCrs(Split(Text(c, rx))), true, None).recs);
    assert TrimmedAll([rx]) == [Trimmed(rx)];
  }

  // ---- a file of records read back ----

  /** Two runs of lines read one after the other are what they are read apart. */
  ghost predicate ReadsApart(c: Clock, a: seq<string>, b: seq<string>, pend: Option<Reception>) {
    var r, t := ReadLines(c, a + b, true, pend), Then(ReadLines(c, a, true, pend), ReadLines(c, b, true, None));
    r.clean == t.clean && (r.clean ==> r.recs == t.recs)
  }

  /** A record's first line ends what came before it. */
  lemma ApartAtStart(c: Clock, b: seq<string>, pend: Option<Reception>)
    requires b == [] || CutRecord(c, b[0]).Some?
    ensures ReadsApart(c, [], b, pend)
  {
    assert [] + b == b;
  }

  /** A line that continues a body, or opens a record, leaves the rest to be read apart. */
  lemma ApartAfter(c: Clock, a: seq<string>, b: seq<string>, pend: Option<Reception>)
    requires a != []
    requires var cut := CutRecord(c, a[0]);
             if cut.None? then pend.Some? ==> ReadsApart(c, a[1..], b,
               Some(pend.value.(body := pend.value.body + "\n" + a[0])))
             else var next := Opened(cut.value.0, cut.value.1); next.Some? ==> ReadsApart(c, a[1..], b, next)
    ensures ReadsApart(c, a, b, pend)
  {
    assert (a + b)[1..] == a[1..] + b;
  }

  /** Lines up to the start of a record and those from it on are read apart. */
  lemma {:induction false} ReadApart(c: Clock, a: seq<string>, b: seq<string>, pend: Option<Reception>)
    requires b == [] || CutRecord(c, b[0]).Some?
    ensures ReadsApart(c, a, b, pend)
  {
    if a == [] {
      ApartAtStart(c, b, pend);
    } else {
      var cut := CutRecord(c, a[0]);
      if cut.None? {
        if pend.Some? {
          ReadApart(c, a[1..], b, Some(pend.value.(body := pend.value.body + "\n" + a[0])));
        }
      } else if Opened(cut.value.0, cut.value.1).Some? {
        ReadApart(c, a[1..], b, Opened(cut.value.0, cut.value.1));
      }
      ApartAfter(c, a, b, pend);
    }
  }

  function AllLines(c: Clock, rxs: seq<Reception>): seq<string> {
    if rxs == [] then [] else DropCrs(Split(Text(c, rxs[0]))) + AllLines(c, rxs[1..])
  }

  lemma {:induction false} PrintedAllLines(c: Clock, rxs: seq<Reception>)
    ensures Lines(PrintAll(c, rxs)) == AllLines(c, rxs)
  {
    if rxs != [] {
      PrintedAllLines(c, rxs[1..]);
      PrintedLines(c, rxs[0], PrintAll(c, rxs[1..]));
    }
  }

  lemma StartsRecord(c: Clock, rxs: seq<Reception>)
    requires c.Sound()
    ensures AllLines(c, rxs) == [] || CutRecord(c, AllLines(c, rxs)[0]).Some?
  {
    if rxs != [] {
      FirstLineOpens(c, rxs[0]);
    }
  }

  ghost predicate AllFit(c: Clock, rxs: seq<Reception>) {
    forall i {:trigger rxs[i]} :: 0 <= i < |rxs| ==> Fits(c, rxs[i])
  }

  lemma FirstFits(c: Clock, rxs: seq<Reception>)
    requires rxs != []
    ensures AllFit(c, rxs) <==> Fits(c, rxs[0]) && AllFit(c, rxs[1..])
  {
  }

  /** Two reads that each yield their share at least make up the whole only if each yields just that. */
  lemma OneEach(a: Read, b: Read, x: Reception, xs: seq<Reception>)
    requires (a.clean ==> a.recs != []) && (b.clean ==> |b.recs| >= |xs|)
    ensures var t := Then(a, b);
            (t.clean && t.recs == [x] + xs <==> a == Read([x], true) && b == Read(xs, true))
              && (t.clean ==> |t.recs| >= 1 + |xs|)
  {
    var t := Then(a, b);
    if t.clean && t.recs == [x] + xs {
      assert |a.recs| == 1;
      assert a.recs == t.recs[..1] && b.recs == t.recs[1..];
    }
  }

  lemma {:induction false} LinesExactly(c: Clock, rxs: seq<Reception>)
    requires c.Sound()
    ensures var r := ReadLines(c, AllLines(c, rxs), true, None);
            (r == Read(TrimmedAll(rxs), true) <==> AllFit(c, rxs)) && (r.clean ==> |r.recs| >= |rxs|)
  {
    if rxs != [] {
      var first, rest := DropCrs(Split(Text(c, rxs[0]))), AllLines(c, rxs[1..]);
      StartsRecord(c, rxs[1..]);
      ReadApart(c, first, rest, None);
      LinesExactly(c, rxs[1..]);
      RecordTrimmed(c, rxs[0]);
      FirstFits(c, rxs);
      OneEach(ReadLines(c, first, true, None), ReadLines(c, rest, true, None), Trimmed(rxs[0]), TrimmedAll(rxs[1..]));
    }
  }

  /** A file of printed records reads back to the same receptions, but for the carriage returns and newlines their
      bodies end in, exactly when each fits. */
  lemma RoundTripExactly(c: Clock, rxs: seq<Reception>)
    requires forall t {:trigger c.format(t)} ::
               c.parse(c.format(t)) == Some(t) && '\t' !in c.format(t) && '\n' !in c.format(t)
    ensures var r := ReadFiles(c, [File(PrintAll(c, rxs), true)]);
            r.clean && SameRecords(rxs, r.recs) <==> AllFit(c, rxs)
  {
    PrintedAllLines(c, rxs);
    LinesExactly(c, rxs);
    assert [File(PrintAll(c, rxs), true)][1..] == [];
    var r := ReadLines(c, AllLines(c, rxs), true, None);
    assert r.recs + [] == r.recs;
    SameIsTrimmed(rxs, r.recs);
  }

  // ---- the reader ----

  ghost function Unread(c: Clock, paths: seq<File>, scanning: bool, lines: seq<string>, whole: bool,
          pend: Option<Reception>): Read
  {
    if scanning then Then(ReadLines(c, lines, whole, pend), ReadFiles(c, paths)) else ReadFiles(c, paths)
  }

  lemma LineOpens(c: Clock, paths: seq<File>, lines: seq<string>, whole: bool, pend: Option<Reception>)
    requires lines != [] && CutRecord(c, lines[0]).Some?
    requires Opened(CutRecord(c, lines[0]).value.0, CutRecord(c, lines[0]).value.1).Some?
    ensures Unread(c, paths, true, lines, whole, pend)
            == Ahead(pend, Unread(c, paths, true, lines[1..], whole,
              Opened(CutRecord(c, lines[0]).value.0, CutRecord(c, lines[0]).value.1)))
  {
  }

  lemma FileEnds(c: Clock, paths: seq<File>, pend: Option<Reception>)
    ensures Unread(c, paths, true, [], true, pend) == Ahead(pend, ReadFiles(c, paths))
  {
  }

  function Floored(r: Read, floor: int): Read { Read(From(r.recs, floor), r.clean) }

  lemma FloorOne(rx: Reception, r: Read, floor: int)
    ensures Floored(Read([rx] + r.recs, r.clean), floor)
            == if rx.recv < floor then Floored(r, floor) else Read([rx] + From(r.recs, floor), r.clean)
  {
  }

  class RawReader {
    const c: Clock
    const floor: int
    var paths: seq<File>           // the hour files not yet opened
    var scanning: bool             // a file is open
    var lines: seq<string>         // what its scanner has still to yield
    var whole: bool
    var pend: Option<Reception>
    var cur: Reception
    var err: bool

    ghost predicate Valid()
      reads this
    {
      (!scanning ==> pend.None?) && !err
    }

    /** What the reader has still to yield, and whether it will end well. */
    ghost function Left(): Read
      reads this
    {
      Floored(Unread(c, paths, scanning, lines, whole, pend), floor)
    }

    constructor (c: Clock, paths: seq<File>, floor: int)
      ensures Valid() && Left() == Floored(ReadFiles(c, paths), floor)
    {
      this.c, this.paths, this.floor := c, paths, floor;
      scanning, lines, whole, pend, err := false, [], true, None, false;
      cur := Reception(0, "", "", false, false);
    }

    method Open() returns (ok: bool)
      requires Valid() && !scanning
      modifies this`paths, this`scanning, this`lines, this`whole
      ensures Valid() && Left() == old(Left()) && |paths| <= old(|paths|)
      ensures if ok then scanning && |paths| < old(|paths|) else old(paths) == []
    {
      if paths == [] {
        return false;
      }
      lines, whole, scanning := Lines(paths[0].text), paths[0].whole, true;
      paths := paths[1..];
      ok := true;
    }

    /** Makes a record the current one unless it falls before the floor. */
    method Emit(rx: Reception) returns (ok: bool)
      modifies this`cur
      ensures ok <==> rx.recv >= floor
      ensures ok ==> cur == rx
    {
      if rx.recv < floor {
        return false;
      }
      cur := rx;
      ok := true;
    }

    /** After part of a scan: either its next record is found, or the input is corrupt, or nothing is yielded yet. */
    ghost predicate Scanned(found: bool, was: Read)
      reads this
    {
      if found then Valid() && was.recs != [] && cur == was.recs[0] && Left() == Read(was.recs[1..], was.clean)
      else if err then was == Read([], false)
      else Valid() && Left() == was
    }

    method ScanLine() returns (found: bool)
      requires Valid() && scanning && lines != []
      modifies this`lines, this`pend, this`cur, this`err
      ensures |lines| < |old(lines)| && Scanned(found, old(Left()))
    {
      var line := lines[0];
      assert [line] + lines[1..] == lines;
      lines, found := lines[1..], false;
      var cut := CutRecord(c, line);
      if cut.None? {
        if pend.None? {
          err := true;
        } else {
          pend := Some(pend.value.(body := pend.value.body + "\n" + line));
        }
        return;
      }
      var rx := Opened(cut.value.0, cut.value.1);
      if rx.None? {
        err := true;
        return;
      }
      LineOpens(c, paths, [line] + lines, whole, pend);
      var done := pend;
      pend := rx;
      if done.Some? {
        FloorOne(done.value, Unread(c, paths, true, lines, whole, pend), floor);
        found := Emit(done.value);
      }
    }

    method EndFile() returns (found: bool)
      requires Valid() && scanning && lines == []
      modifies this`scanning, this`pend, this`cur, this`err
      ensures Scanned(found, old(Left())) && (!err ==> !scanning)
    {
      found := false;
      if !whole {
        err := true;
        return;
      }
      FileEnds(c, paths, pend);
      var done := pend;
      scanning, pend := false, None;
      if done.Some? {
        FloorOne(done.value, ReadFiles(c, paths), floor);
        found := Emit(done.value);
      }
    }

    /** Scans the open file for its next record; at the file's end it is closed. */
    method ScanRecord() returns (found: bool)
      requires Valid() && scanning
      modifies this
      ensures paths == old(paths) && Scanned(found, old(Left()))
      ensures !found && !err ==> !scanning
    {
      while lines != []
        invariant Valid() && scanning && paths == old(paths) && Left() == old(Left())
        decreases |lines|
      {
        found := ScanLine();
        if found || err {
          return;
        }
      }
      found := EndFile();
    }

    /** Moves on to the next record: the first of what is left, or, at its end, how it ends. */
    method Next() returns (ok: bool)
      requires Valid()
      modifies this
      ensures if ok then Valid() && old(Left()).recs != [] && cur == old(Left()).recs[0]
                         && Left() == Read(old(Left()).recs[1..], old(Left()).clean)
              else old(Left()).recs == [] && err == !old(Left()).clean
    {
      ok := false;
      while true
        invariant Valid() && Left() == old(Left())
        decreases |paths|, scanning
      {
        if !scanning {
          var opens := Open();
          if !opens {
            return;
          }
        }
        var found := ScanRecord();
        if found || err {
          ok := found;
          return;
        }
      }
    }
  }

  function Ahead(pend: Option<Reception>, r: Read): Read {
    if pend.Some? then Read([pend.value] + r.recs, r.clean) else r
  }
}
