/** The client-side line gate of a CAT capture, `CatLineFilter`. */
module LineFilter {
  import opened Wrappers
  import opened CivFraming

  const SEMICOLON: byte := 0x3B
  /** Longest unterminated run that is still waited for. */
  const MAX_LINE := 64

  datatype Entry = Entry(line: Bytes, allowed: bool)

  datatype Scan = Scan(out: seq<Entry>, rest: Bytes, discarding: bool)

  /** What one feed makes of a buffer. */
  function ScanBuffer(b: Bytes, discarding: bool, allows: Bytes -> bool): Scan
    decreases |b|
  {
    var end := Find(b, SEMICOLON, 0);
    if end >= 0 then
      var line := b[..end + 1];
      var more := ScanBuffer(b[end + 1..], false, allows);
      more.(out := [Entry(line, !discarding && allows(line))] + more.out)
    else if b != [] && (discarding || |b| > MAX_LINE) then Scan([Entry(b, false)], [], true)
    else Scan([], b, discarding)
  }

  // ---- the reference: split, then filter ---------------------------------------------

  /** The `;`-terminated lines of a whole stream. */
  function Lines(w: Bytes): seq<Bytes> {
    var end := Find(w, SEMICOLON, 0);
    if end < 0 then [] else [w[..end + 1]] + Lines(w[end + 1..])
  }

  /** What follows the last `;`. */
  function Tail(w: Bytes): Bytes {
    var end := Find(w, SEMICOLON, 0);
    if end < 0 then w else Tail(w[end + 1..])
  }

  function Accepted(lines: seq<Bytes>, allows: Bytes -> bool): seq<Bytes> {
    if lines == [] then []
    else (if allows(lines[0]) then [lines[0]] else []) + Accepted(lines[1..], allows)
  }

  function AllowedLines(out: seq<Entry>): seq<Bytes> {
    if out == [] then []
    else (if out[0].allowed then [out[0].line] else []) + AllowedLines(out[1..])
  }

  function Flatten(out: seq<Entry>): Bytes {
    if out == [] then [] else out[0].line + Flatten(out[1..])
  }

  /** The guard accepts no line longer than `MAX_LINE` bytes and its terminator. */
  ghost predicate RejectsLong(allows: Bytes -> bool) {
    forall s: Bytes :: SEMICOLON !in s && |s| > MAX_LINE ==> !allows(s + [SEMICOLON])
  }

  /** The filter's memory of an unfinished line. */
  ghost predicate Remembers(rest: Bytes, discarding: bool, tail: Bytes) {
    if discarding then rest == [] && |tail| > MAX_LINE else rest == tail && |tail| <= MAX_LINE
  }

  lemma FirstLine(s: Bytes, rest: Bytes)
    requires SEMICOLON !in s
    ensures var w := s + [SEMICOLON] + rest;
            && Find(w, SEMICOLON, 0) == |s|
            && Lines(w) == [s + [SEMICOLON]] + Lines(rest) && Tail(w) == Tail(rest)
            && w[..|s| + 1] == s + [SEMICOLON] && w[|s| + 1..] == rest
  {
    var w := s + [SEMICOLON] + rest;
    FindIs(w, SEMICOLON, 0, |s|);
    assert w[..|s| + 1] == s + [SEMICOLON] && w[|s| + 1..] == rest;
  }

  lemma SplitLine(w: Bytes) returns (s: Bytes, rest: Bytes)
    requires SEMICOLON in w
    ensures w == s + [SEMICOLON] + rest && SEMICOLON !in s && |rest| < |w|
  {
    var end := Find(w, SEMICOLON, 0);
    s, rest := w[..end], w[end + 1..];
    assert w == s + [SEMICOLON] + rest;
  }

  lemma NoLine(w: Bytes)
    requires SEMICOLON !in w
    ensures Find(w, SEMICOLON, 0) == -1 && Lines(w) == [] && Tail(w) == w
  {
    FindIs(w, SEMICOLON, 0, -1);
  }

  lemma {:induction false} LinesContinue(w: Bytes, d: Bytes)
    ensures Lines(w + d) == Lines(w) + Lines(Tail(w) + d)
    ensures Tail(w + d) == Tail(Tail(w) + d)
    ensures SEMICOLON !in Tail(w)
    decreases |w|
  {
    hide Lines;
    hide Tail;
    if SEMICOLON !in w {
      NoLine(w);
    } else {
      var s, rest := SplitLine(w);
      FirstLine(s, rest);
      assert w + d == s + [SEMICOLON] + (rest + d);
      FirstLine(s, rest + d);
      LinesContinue(rest, d);
      Associate([s + [SEMICOLON]], Lines(rest), Lines(Tail(rest) + d));
    }
  }

  lemma AllowedCons(e: Entry, out: seq<Entry>)
    ensures AllowedLines([e] + out) == (if e.allowed then [e.line] else []) + AllowedLines(out)
    ensures Flatten([e] + out) == e.line + Flatten(out)
  {
    assert ([e] + out)[1..] == out;
  }

  lemma AcceptedCons(line: Bytes, lines: seq<Bytes>, allows: Bytes -> bool)
    ensures Accepted([line] + lines, allows)
            == (if allows(line) then [line] else []) + Accepted(lines, allows)
  {
    assert ([line] + lines)[1..] == lines;
  }

  /** A buffer scanned with a guard that rejects long lines, given what of the current line
      the filter still remembers. */
  lemma {:induction false} ScanRefines(tail: Bytes, b: Bytes, d: Bytes, discarding: bool, allows: Bytes -> bool)
    requires RejectsLong(allows) && SEMICOLON !in tail && Remembers(b, discarding, tail)
    ensures var r := ScanBuffer(b + d, discarding, allows);
            && AllowedLines(r.out) == Accepted(Lines(tail + d), allows)
            && Remembers(r.rest, r.discarding, Tail(tail + d))
    decreases |d|
  {
    if SEMICOLON !in d {
      NoLine(b + d);
      NoLine(tail + d);
      AllowedCons(Entry(b + d, false), []);
    } else {
      var s, rest := SplitLine(d);
      FirstLineScanned(tail, b, s, rest, discarding, allows);
      assert [] + rest == rest;
      ScanRefines([], [], rest, false, allows);
    }
  }

  /** The first line of a stream whose first bytes came earlier. */
  lemma LineAfter(head: Bytes, s: Bytes, rest: Bytes, discarding: bool, allows: Bytes -> bool)
    requires SEMICOLON !in head && SEMICOLON !in s
    ensures var w, line := head + (s + [SEMICOLON] + rest), head + s + [SEMICOLON];
            var more := ScanBuffer(rest, false, allows);
            && Lines(w) == [line] + Lines(rest) && Tail(w) == Tail(rest)
            && ScanBuffer(w, discarding, allows)
               == more.(out := [Entry(line, !discarding && allows(line))] + more.out)
  {
    var w := head + (s + [SEMICOLON] + rest);
    assert w == (head + s) + [SEMICOLON] + rest;
    FirstLine(head + s, rest);
  }

  lemma FirstLineScanned(tail: Bytes, b: Bytes, s: Bytes, rest: Bytes, discarding: bool, allows: Bytes -> bool)
    requires RejectsLong(allows) && SEMICOLON !in tail && SEMICOLON !in s && Remembers(b, discarding, tail)
    ensures var d := s + [SEMICOLON] + rest;
            var r, more := ScanBuffer(b + d, discarding, allows), ScanBuffer(rest, false, allows);
            && r.rest == more.rest && r.discarding == more.discarding
            && Tail(tail + d) == Tail(rest)
            && (AllowedLines(more.out) == Accepted(Lines(rest), allows) ==>
                  AllowedLines(r.out) == Accepted(Lines(tail + d), allows))
  {
    hide Find;
    hide Lines;
    hide Tail;
    hide Flatten;
    hide ScanBuffer;
    hide Accepted;
    hide AllowedLines;
    var whole, seen := tail + s + [SEMICOLON], b + s + [SEMICOLON];
    LineAfter(b, s, rest, discarding, allows);
    LineAfter(tail, s, rest, discarding, allows);
    AcceptedCons(whole, Lines(rest), allows);
    AllowedCons(Entry(seen, !discarding && allows(seen)), ScanBuffer(rest, false, allows).out);
    if discarding {
      assert SEMICOLON !in tail + s && |tail + s| > MAX_LINE;
    }
  }

  /** Bytes are conserved and the buffer stays bounded, whatever the guard. */
  lemma {:induction false} ScanConserves(b: Bytes, discarding: bool, allows: Bytes -> bool)
    ensures var r := ScanBuffer(b, discarding, allows);
            Flatten(r.out) + r.rest == b && |r.rest| <= MAX_LINE
    decreases |b|
  {
    hide Find;
    hide Flatten;
    var end := Find(b, SEMICOLON, 0);
    if end >= 0 {
      var line, rest := b[..end + 1], b[end + 1..];
      ScanConserves(rest, false, allows);
      var more := ScanBuffer(rest, false, allows);
      AllowedCons(Entry(line, !discarding && allows(line)), more.out);
      Associate(line, Flatten(more.out), more.rest);
      CutAt(b, end + 1);
    } else {
      OneOut(Entry(b, false));
    }
  }

  lemma OneOut(e: Entry)
    ensures Flatten([e]) == e.line && Flatten([]) == []
  {
    assert e.line + [] == e.line;
  }

  /** Whatever the guard, an allowed entry is a whole line of the stream the buffer and the
      open tail belong to: never the tail of an oversized one. */
  lemma {:induction false} ScanAllowsWholeLines(tail: Bytes, b: Bytes, d: Bytes, discarding: bool, allows: Bytes -> bool)
    requires SEMICOLON !in tail && Remembers(b, discarding, tail)
    ensures var r := ScanBuffer(b + d, discarding, allows);
            && (forall l :: l in AllowedLines(r.out) ==> l in Lines(tail + d) && allows(l))
            && Remembers(r.rest, r.discarding, Tail(tail + d))
    decreases |d|
  {
    if SEMICOLON !in d {
      NoLine(b + d);
      NoLine(tail + d);
      AllowedCons(Entry(b + d, false), []);
    } else {
      var s, rest := SplitLine(d);
      WholeLineScanned(tail, b, s, rest, discarding, allows);
      assert [] + rest == rest;
      ScanAllowsWholeLines([], [], rest, false, allows);
    }
  }

  lemma WholeLineScanned(tail: Bytes, b: Bytes, s: Bytes, rest: Bytes, discarding: bool, allows: Bytes -> bool)
    requires SEMICOLON !in tail && SEMICOLON !in s && Remembers(b, discarding, tail)
    ensures var d := s + [SEMICOLON] + rest;
            var r, more := ScanBuffer(b + d, discarding, allows), ScanBuffer(rest, false, allows);
            && r.rest == more.rest && r.discarding == more.discarding
            && Tail(tail + d) == Tail(rest)
            && (forall l :: l in Lines(rest) ==> l in Lines(tail + d))
            && (forall l :: l in AllowedLines(r.out) ==>
                  l in AllowedLines(more.out) || (l in Lines(tail + d) && allows(l)))
  {
    hide Find;
    hide Lines;
    hide Tail;
    hide ScanBuffer;
    LineAfter(b, s, rest, discarding, allows);
    LineAfter(tail, s, rest, discarding, allows);
    var seen := b + s + [SEMICOLON];
    AllowedCons(Entry(seen, !discarding && allows(seen)), ScanBuffer(rest, false, allows).out);
    assert Lines(tail + (s + [SEMICOLON] + rest))[0] == tail + s + [SEMICOLON];
  }

  // ---- whole sessions ----------------------------------------------------------------

  function Concat(chunks: seq<Bytes>): Bytes {
    if chunks == [] then [] else Concat(chunks[..|chunks| - 1]) + chunks[|chunks| - 1]
  }

  /** The chunks fed one after the other to a fresh filter. */
  function FeedAll(chunks: seq<Bytes>, allows: Bytes -> bool): Scan {
    if chunks == [] then Scan([], [], false)
    else
      var before := FeedAll(chunks[..|chunks| - 1], allows);
      var r := ScanBuffer(before.rest + chunks[|chunks| - 1], before.discarding, allows);
      r.(out := before.out + r.out)
  }

  lemma {:induction false} OutAppend(a: seq<Entry>, b: seq<Entry>)
    ensures Flatten(a + b) == Flatten(a) + Flatten(b)
    ensures AllowedLines(a + b) == AllowedLines(a) + AllowedLines(b)
  {
    if a == [] {
      assert a + b == b;
    } else {
      assert (a + b)[1..] == a[1..] + b;
      OutAppend(a[1..], b);
    }
  }

  lemma {:induction false} AcceptedAppend(a: seq<Bytes>, b: seq<Bytes>, allows: Bytes -> bool)
    ensures Accepted(a + b, allows) == Accepted(a, allows) + Accepted(b, allows)
  {
    if a == [] {
      assert a + b == b;
    } else {
      assert (a + b)[1..] == a[1..] + b;
      AcceptedAppend(a[1..], b, allows);
    }
  }

  /** The main result: with a guard that rejects lines over 65 bytes, the allowed lines of
      any chunking are the lines of the whole input that the guard accepts, in order. */
  lemma {:induction false} RefinesSplitThenFilter(chunks: seq<Bytes>, allows: Bytes -> bool)
    requires RejectsLong(allows)
    ensures var r := FeedAll(chunks, allows);
            && AllowedLines(r.out) == Accepted(Lines(Concat(chunks)), allows)
            && Remembers(r.rest, r.discarding, Tail(Concat(chunks)))
  {
    if chunks == [] {
      NoLine([]);
    } else {
      var init, d := chunks[..|chunks| - 1], chunks[|chunks| - 1];
      var w, before := Concat(init), FeedAll(init, allows);
      RefinesSplitThenFilter(init, allows);
      LinesContinue(w, d);
      ScanRefines(Tail(w), before.rest, d, before.discarding, allows);
      OutAppend(before.out, ScanBuffer(before.rest + d, before.discarding, allows).out);
      AcceptedAppend(Lines(w), Lines(Tail(w) + d), allows);
    }
  }

  lemma EmptyOut()
    ensures Flatten([]) == [] && AllowedLines([]) == []
  {
  }

  /** For every guard and chunking: bytes are conserved in order, at most 64 are waited for,
      and every allowed entry is a whole line of the input that the guard accepts. */
  lemma {:induction false} FeedSound(chunks: seq<Bytes>, allows: Bytes -> bool)
    ensures var r := FeedAll(chunks, allows);
            && Flatten(r.out) + r.rest == Concat(chunks) && |r.rest| <= MAX_LINE
            && (forall l :: l in AllowedLines(r.out) ==> l in Lines(Concat(chunks)) && allows(l))
            && Remembers(r.rest, r.discarding, Tail(Concat(chunks)))
  {
    hide ScanBuffer;
    hide Lines;
    hide Tail;
    hide Flatten;
    hide AllowedLines;
    if chunks == [] {
      NoLine([]);
      EmptyOut();
    } else {
      var init, d := chunks[..|chunks| - 1], chunks[|chunks| - 1];
      var w, before := Concat(init), FeedAll(init, allows);
      FeedSound(init, allows);
      LinesContinue(w, d);
      var r := ScanBuffer(before.rest + d, before.discarding, allows);
      ScanConserves(before.rest + d, before.discarding, allows);
      ScanAllowsWholeLines(Tail(w), before.rest, d, before.discarding, allows);
      OutAppend(before.out, r.out);
      Conserved(Flatten(before.out), before.rest, d, Flatten(r.out), r.rest, w);
    }
  }

  lemma Conserved(a: Bytes, b: Bytes, d: Bytes, c: Bytes, e: Bytes, w: Bytes)
    requires a + b == w && c + e == b + d
    ensures (a + c) + e == w + d
  {
    Associate(a, c, e);
    Associate(a, b, d);
  }

  /** The guard's bound is needed: any longer line it accepts is let through in one chunk and
      blocked when its `;` comes in a chunk of its own. */
  lemma LongLineDependsOnChunking(s: Bytes, allows: Bytes -> bool)
    requires SEMICOLON !in s && |s| > MAX_LINE && allows(s + [SEMICOLON])
    ensures AllowedLines(FeedAll([s + [SEMICOLON]], allows).out) == [s + [SEMICOLON]]
    ensures AllowedLines(FeedAll([s, [SEMICOLON]], allows).out) == []
  {
    var line := s + [SEMICOLON];
    FirstLine(s, []);
    assert line + [] == line;
    FeedOnce(line, allows);
    AllowedCons(Entry(line, true), []);
    NoLine(s);
    FeedOnce(s, allows);
    FirstLine([], []);
    assert [] + [SEMICOLON] + [] == [SEMICOLON];
    FeedTwice(s, [SEMICOLON], allows);
    AllowedCons(Entry([SEMICOLON], false), []);
    AllowedCons(Entry(s, false), [Entry([SEMICOLON], false)]);
  }

  ghost predicate RefinesFor(chunks: seq<Bytes>, allows: Bytes -> bool) {
    AllowedLines(FeedAll(chunks, allows).out) == Accepted(Lines(Concat(chunks)), allows)
  }

  /** The filter refines split-then-filter for every input and chunking if and only if the
      guard rejects every line over 65 bytes. */
  lemma RefinesIff(allows: Bytes -> bool)
    ensures (forall chunks :: RefinesFor(chunks, allows)) <==> RejectsLong(allows)
  {
    if RejectsLong(allows) {
      forall chunks
        ensures RefinesFor(chunks, allows)
      {
        RefinesSplitThenFilter(chunks, allows);
      }
    } else {
      var s: Bytes :| SEMICOLON !in s && |s| > MAX_LINE && allows(s + [SEMICOLON]);
      LongLineDependsOnChunking(s, allows);
      ConcatPieces(s);
      assert !RefinesFor([s + [SEMICOLON]], allows) || !RefinesFor([s, [SEMICOLON]], allows);
    }
  }

  lemma ConcatPieces(s: Bytes)
    ensures Concat([s + [SEMICOLON]]) == s + [SEMICOLON] == Concat([s, [SEMICOLON]])
  {
    assert [s, [SEMICOLON]][..1] == [s];
    assert Concat([]) + (s + [SEMICOLON]) == s + [SEMICOLON] && Concat([]) + s == s;
    assert |[s][..0]| == 0 && |[s + [SEMICOLON]][..0]| == 0;
  }

  lemma FeedOnce(chunk: Bytes, allows: Bytes -> bool)
    ensures FeedAll([chunk], allows) == ScanBuffer(chunk, false, allows)
  {
    var r := ScanBuffer(chunk, false, allows);
    assert Scan([], [], false).rest + chunk == chunk;
    assert Scan([], [], false).out + r.out == r.out;
  }

  lemma FeedTwice(c: Bytes, d: Bytes, allows: Bytes -> bool)
    requires FeedAll([c], allows).rest == []
    ensures FeedAll([c, d], allows).out
            == FeedAll([c], allows).out + ScanBuffer(d, FeedAll([c], allows).discarding, allows).out
  {
    assert [c, d][..1] == [c];
    assert FeedAll([c], allows).rest + d == d;
  }

  // ---- the filter object -------------------------------------------------------------

  class CatLineFilter {
    const allows: Bytes -> bool
    var buf: Bytes
    var discarding: bool

    constructor (allows: Bytes -> bool)
      ensures buf == [] && !discarding && this.allows == allows
    {
      this.allows := allows;
      buf, discarding := [], false;
    }

    /** `feed` */
    method Feed(data: Bytes) returns (lines: seq<Entry>)
      modifies `buf, `discarding
      ensures Scan(lines, buf, discarding) == ScanBuffer(old(buf) + data, old(discarding), allows)
    {
      hide ScanBuffer;
      hide Find;
      buf := buf + data;
      ghost var goal := ScanBuffer(buf, discarding, allows);
      lines := CutLines(goal);
      assert goal == TailOf(lines, buf, discarding) by { ScanTail(buf, discarding, allows, lines); }
      if buf != [] && (discarding || |buf| > MAX_LINE) {
        lines := lines + [Entry(buf, false)];
        buf := [];
        discarding := true;
      }
    }

    /** The loop of `feed`: one entry per terminated line. */
    method CutLines(ghost goal: Scan) returns (lines: seq<Entry>)
      requires goal == ScanBuffer(buf, discarding, allows)
      modifies `buf, `discarding
      ensures Find(buf, SEMICOLON, 0) < 0 && Pending(goal, lines, ScanBuffer(buf, discarding, allows))
    {
      hide ScanBuffer;
      hide Find;
      lines := [];
      assert Pending(goal, lines, goal) by { assert [] + goal.out == goal.out; }
      var end := Find(buf, SEMICOLON, 0);
      while end >= 0
        invariant end == Find(buf, SEMICOLON, 0)
        invariant Pending(goal, lines, ScanBuffer(buf, discarding, allows))
        decreases |buf|
      {
        ghost var b0, d0, l0 := buf, discarding, lines;
        var line := buf[..end + 1];
        buf := buf[end + 1..];
        lines := lines + [Entry(line, !discarding && allows(line))];
        discarding := false;
        assert Pending(goal, lines, ScanBuffer(buf, discarding, allows)) by { ScanLine(b0, d0, allows, l0); }
        end := Find(buf, SEMICOLON, 0);
      }
    }
  }

  /** How a feed ends: an overlong open line is blocked and discarded up to its `;`. */
  ghost function TailOf(lines: seq<Entry>, b: Bytes, discarding: bool): Scan {
    if b != [] && (discarding || |b| > MAX_LINE) then Scan(lines + [Entry(b, false)], [], true)
    else Scan(lines, b, discarding)
  }

  /** The feed's result is what was emitted so far and what a scan of the buffer still yields. */
  ghost predicate Pending(goal: Scan, lines: seq<Entry>, r: Scan) {
    goal == r.(out := lines + r.out)
  }

  lemma ScanLine(b: Bytes, discarding: bool, allows: Bytes -> bool, lines: seq<Entry>)
    requires Find(b, SEMICOLON, 0) >= 0
    ensures var end := Find(b, SEMICOLON, 0);
            var e := Entry(b[..end + 1], !discarding && allows(b[..end + 1]));
            var r, more := ScanBuffer(b, discarding, allows), ScanBuffer(b[end + 1..], false, allows);
            r.(out := lines + r.out) == more.(out := (lines + [e]) + more.out)
  {
    var end := Find(b, SEMICOLON, 0);
    var e := Entry(b[..end + 1], !discarding && allows(b[..end + 1]));
    Associate(lines, [e], ScanBuffer(b[end + 1..], false, allows).out);
  }

  lemma ScanTail(b: Bytes, discarding: bool, allows: Bytes -> bool, lines: seq<Entry>)
    requires Find(b, SEMICOLON, 0) < 0
    ensures var r := ScanBuffer(b, discarding, allows);
            r.(out := lines + r.out) == TailOf(lines, b, discarding)
  {
    assert lines + [] == lines;
  }
}
