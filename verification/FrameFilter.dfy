/** The client-side frame gate of a CI-V capture, `CivFrameFilter`: an incremental splitter
    over a bounded buffer. */
module FrameFilter {
  import opened CivFraming

  /** Longest unterminated run that is still waited for. */
  const MAX_FRAME := 128

  datatype Entry = Entry(chunk: Bytes, allowed: bool)

  datatype Scan = Scan(out: seq<Entry>, rest: Bytes)

  function Blocked(chunk: Bytes, more: Scan): Scan {
    Scan([Entry(chunk, false)] + more.out, more.rest)
  }

  /** What one feed makes of a buffer. */
  function ScanBuffer(b: Bytes, allows: Bytes -> bool): Scan
    decreases |b|
  {
    var start := FindPair(b, 0);
    if start < 0 then
      var keep := if b != [] && b[|b| - 1] == FE then 1 else 0;
      Scan(if |b| > keep then [Entry(b[..|b| - keep], false)] else [], b[|b| - keep..])
    else if start > 0 then Blocked(b[..start], ScanBuffer(b[start..], allows))
    else
      var end := Find(b, FD, 2);
      if end < 0 then
        var restart := RFindPair(b, 2, |b|);
        if |b| <= MAX_FRAME then Scan([], b)
        else if restart > 0 then Blocked(b[..restart], ScanBuffer(b[restart..], allows))
        else Scan([Entry(b, false)], [])
      else
        var restart := RFindPair(b, 2, end);
        if restart > 0 then Blocked(b[..restart], ScanBuffer(b[restart..], allows))
        else
          var more := ScanBuffer(b[end + 1..], allows);
          Scan([Entry(b[..end + 1], allows(b[..end + 1]))] + more.out, more.rest)
  }

  // ---- for every input and chunking --------------------------------------------------

  function Flatten(out: seq<Entry>): Bytes {
    if out == [] then [] else out[0].chunk + Flatten(out[1..])
  }

  /** `FE FE`, a body with no FD and no further preamble, and FD. */
  ghost predicate FrameShaped(c: Bytes) {
    && |c| >= 3 && PairAt(c, 0) && c[|c| - 1] == FD
    && (forall i :: 2 <= i < |c| - 1 ==> c[i] != FD && !PairAt(c, i))
  }

  /** Nothing is lost or reordered, what is allowed is a whole accepted frame, and what waits
      is bounded. */
  ghost predicate Sound(r: Scan, b: Bytes, allows: Bytes -> bool) {
    && Flatten(r.out) + r.rest == b
    && |r.rest| <= MAX_FRAME
    && forall e :: e in r.out && e.allowed ==> FrameShaped(e.chunk) && allows(e.chunk)
  }

  /** Bytes are conserved, allowed entries are whole frames the guard accepts, and the
      buffer stays bounded. */
  lemma {:induction false} ScanSound(b: Bytes, allows: Bytes -> bool)
    ensures Sound(ScanBuffer(b, allows), b, allows)
    decreases |b|
  {
    hide Find;
    hide FindPair;
    hide RFindPair;
    hide Sound;
    var start := FindPair(b, 0);
    if start < 0 {
      NoPairSound(b, allows);
    } else if start > 0 {
      CutSound(b, start, allows);
    } else {
      var end := Find(b, FD, 2);
      var restart := RFindPair(b, 2, if end < 0 then |b| else end);
      if end < 0 {
        if |b| > MAX_FRAME && restart > 0 {
          CutSound(b, restart, allows);
        } else {
          WaitSound(b, allows);
        }
      } else if restart > 0 {
        CutSound(b, restart, allows);
      } else {
        FrameSound(b, end, allows);
      }
    }
  }

  lemma NoPairSound(b: Bytes, allows: Bytes -> bool)
    requires FindPair(b, 0) < 0
    ensures Sound(ScanBuffer(b, allows), b, allows)
  {
    hide FindPair;
    hide Flatten;
    var k := |b| - if b != [] && b[|b| - 1] == FE then 1 else 0;
    CutAt(b, k);
    OneOut(Entry(b[..k], false));
    assert ScanBuffer(b, allows) == Scan(if k > 0 then [Entry(b[..k], false)] else [], b[k..]);
  }

  lemma OneOut(e: Entry)
    ensures Flatten([e]) == e.chunk && Flatten([]) == []
  {
    assert e.chunk + [] == e.chunk;
  }

  lemma WaitSound(b: Bytes, allows: Bytes -> bool)
    ensures |b| <= MAX_FRAME ==> Sound(Scan([], b), b, allows)
    ensures Sound(Scan([Entry(b, false)], []), b, allows)
  {
    OneOut(Entry(b, false));
  }

  lemma FrameSound(b: Bytes, end: nat, allows: Bytes -> bool)
    requires PairAt(b, 0) && 2 <= end < |b| && b[end] == FD
    requires forall i :: 2 <= i < end ==> b[i] != FD
    requires RFindPair(b, 2, end) < 0
    ensures var more := ScanBuffer(b[end + 1..], allows);
            Sound(Scan([Entry(b[..end + 1], allows(b[..end + 1]))] + more.out, more.rest), b, allows)
    decreases |b|, 0
  {
    hide ScanBuffer;
    hide Flatten;
    var frame := b[..end + 1];
    ScanSound(b[end + 1..], allows);
    var more := ScanBuffer(b[end + 1..], allows);
    FlattenCons(Entry(frame, allows(frame)), more.out, more.rest);
    FrameIsShaped(b, end);
    CutAt(b, end + 1);
  }

  lemma FrameIsShaped(b: Bytes, end: nat)
    requires PairAt(b, 0) && 2 <= end < |b| && b[end] == FD
    requires forall i :: 2 <= i < end ==> b[i] != FD
    requires RFindPair(b, 2, end) < 0
    ensures FrameShaped(b[..end + 1])
  {
    var frame := b[..end + 1];
    forall i | 2 <= i < end
      ensures !PairAt(frame, i)
    {
      assert i + 2 <= end ==> (PairAt(frame, i) <==> PairAt(b, i));
    }
  }

  lemma FlattenCons(e: Entry, out: seq<Entry>, rest: Bytes)
    ensures Flatten([e] + out) + rest == e.chunk + (Flatten(out) + rest)
  {
    assert ([e] + out)[1..] == out;
  }

  lemma CutSound(b: Bytes, k: nat, allows: Bytes -> bool)
    requires 0 < k <= |b|
    ensures var r := Blocked(b[..k], ScanBuffer(b[k..], allows));
            Sound(r, b, allows)
    decreases |b|, 0
  {
    hide ScanBuffer;
    hide Flatten;
    ScanSound(b[k..], allows);
    var more := ScanBuffer(b[k..], allows);
    FlattenCons(Entry(b[..k], false), more.out, more.rest);
  }

  // ---- independence of chunking ------------------------------------------------------

  /** A complete frame entry: starts with a preamble, ends with FD. */
  predicate IsFrame(e: Entry) {
    |e.chunk| >= 3 && PairAt(e.chunk, 0) && e.chunk[|e.chunk| - 1] == FD
  }

  /** The frame entries of an output, in order. */
  function FrameEntries(out: seq<Entry>): seq<Entry> {
    if out == [] then []
    else (if IsFrame(out[0]) then [out[0]] else []) + FrameEntries(out[1..])
  }

  /** Frames with the guard's verdicts. */
  function Judged(frames: seq<Bytes>, allows: Bytes -> bool): seq<Entry> {
    if frames == [] then [] else [Entry(frames[0], allows(frames[0]))] + Judged(frames[1..], allows)
  }

  lemma FrameEntriesCons(e: Entry, out: seq<Entry>)
    ensures FrameEntries([e] + out) == (if IsFrame(e) then [e] else []) + FrameEntries(out)
  {
    assert ([e] + out)[1..] == out;
  }

  /** What a scan has to agree with: the segment-wise reference. */
  ghost predicate Agrees(r: Scan, b: Bytes, allows: Bytes -> bool) {
    FrameEntries(r.out) == Judged(Frames(b, true), allows) && r.rest == Kept(Open(b))
  }

  lemma {:induction false} ScanAgrees(b: Bytes, allows: Bytes -> bool)
    requires Within(b, MAX_FRAME)
    ensures Agrees(ScanBuffer(b, allows), b, allows)
    decreases |b|
  {
    var start := FindPair(b, 0);
    if start < 0 {
      NoPairAgrees(b, allows);
    } else if start > 0 {
      SkipGarbage(b, start, true, MAX_FRAME);
      assert !IsFrame(Entry(b[..start], false)) by { assert !PairAt(b, 0); }
      ScanAgrees(b[start..], allows);
      FrameEntriesCons(Entry(b[..start], false), ScanBuffer(b[start..], allows).out);
    } else {
      var end := Find(b, FD, 2);
      if end < 0 {
        assert FD !in b;
        OnlySegment(b, true, MAX_FRAME);
      } else {
        FrameAgrees(b, end, allows);
      }
    }
  }

  lemma NoFrameIn(out: seq<Entry>)
    requires |out| <= 1 && forall e :: e in out ==> !IsFrame(e)
    ensures FrameEntries(out) == []
  {
  }

  lemma NoPairAgrees(b: Bytes, allows: Bytes -> bool)
    requires FindPair(b, 0) < 0
    ensures Agrees(ScanBuffer(b, allows), b, allows)
  {
    NoPairFrames(b, true);
    ScanNoPair(b, allows, []);
    var out := ScanBuffer(b, allows).out;
    assert [] + out == out;
    assert !PairAt(b, 0);
    NoFrameIn(out);
  }

  /** A buffer that starts with a preamble and holds an FD: head blocked or frame emitted. */
  lemma FrameAgrees(b: Bytes, end: nat, allows: Bytes -> bool)
    requires Within(b, MAX_FRAME) && PairAt(b, 0) && end == Find(b, FD, 2)
    ensures Agrees(ScanBuffer(b, allows), b, allows)
    decreases |b|, 1
  {
    hide Open;
    hide Kept;
    hide Within;
    hide Find;
    var s, rest := b[..end], b[end + 1..];
    assert b == s + [FD] + rest;
    assert FD !in s;
    FirstSegment(s, rest, true, MAX_FRAME);
    FindPairIs(b, 0, 0);
    assert PairAt(s, 0);
    FindPairIs(s, 0, 0);
    var restart := RFindPair(b, 2, end);
    assert forall i :: 0 <= i && i + 2 <= end ==> (PairAt(s, i) <==> PairAt(b, i));
    RFindPairIs(s, 2, |s|, restart);
    if restart > 0 {
      HeadAgrees(s, rest, restart, allows);
    } else {
      ScanAgrees(rest, allows);
      var frame := b[..end + 1];
      assert frame == s + [FD];
      FrameEntriesCons(Entry(frame, allows(frame)), ScanBuffer(rest, allows).out);
      assert SegmentFrame(s, true) == [frame];
      assert ([frame] + Frames(rest, true))[1..] == Frames(rest, true);
    }
  }

  /** The broken head of a segment with a later preamble is blocked; the frame is the same. */
  lemma HeadAgrees(s: Bytes, rest: Bytes, restart: nat, allows: Bytes -> bool)
    requires FD !in s && Within(s + [FD] + rest, MAX_FRAME)
    requires FindPair(s, 0) == 0 && restart == RFindPair(s, 2, |s|) && restart > 0
    ensures var b := s + [FD] + rest;
            Agrees(Blocked(b[..restart], ScanBuffer(b[restart..], allows)), b, allows)
    decreases |s| + 1 + |rest|, 0
  {
    var b := s + [FD] + rest;
    var s' := s[restart..];
    FirstSegment(s, rest, true, MAX_FRAME);
    FirstSegment(s', rest, true, MAX_FRAME);
    CutSegment(s, rest, restart);
    PairShift(s, restart);
    FindPairIs(s', 0, 0);
    RFindPairIs(s', 2, |s'|, -1);
    assert SegmentFrame(s', true) == SegmentFrame(s, true);
    ScanAgrees(b[restart..], allows);
    FrameEntriesCons(Entry(b[..restart], false), ScanBuffer(b[restart..], allows).out);
  }

  /** A whole session: the chunks fed one after the other to a fresh filter. */
  function FeedAll(chunks: seq<Bytes>, allows: Bytes -> bool): Scan {
    if chunks == [] then Scan([], [])
    else
      var before := FeedAll(chunks[..|chunks| - 1], allows);
      var r := ScanBuffer(before.rest + chunks[|chunks| - 1], allows);
      Scan(before.out + r.out, r.rest)
  }

  function Concat(chunks: seq<Bytes>): Bytes {
    if chunks == [] then [] else Concat(chunks[..|chunks| - 1]) + chunks[|chunks| - 1]
  }

  lemma {:induction false} FlattenAppend(a: seq<Entry>, b: seq<Entry>)
    ensures Flatten(a + b) == Flatten(a) + Flatten(b)
  {
    if a == [] {
      assert a + b == b;
    } else {
      assert (a + b)[1..] == a[1..] + b;
      FlattenAppend(a[1..], b);
    }
  }

  lemma {:induction false} FrameEntriesAppend(a: seq<Entry>, b: seq<Entry>)
    ensures FrameEntries(a + b) == FrameEntries(a) + FrameEntries(b)
  {
    if a == [] {
      assert a + b == b;
    } else {
      hide FrameEntries;
      hide IsFrame;
      assert a == [a[0]] + a[1..] && a + b == [a[0]] + (a[1..] + b);
      FrameEntriesCons(a[0], a[1..]);
      FrameEntriesCons(a[0], a[1..] + b);
      FrameEntriesAppend(a[1..], b);
    }
  }

  lemma {:induction false} JudgedAppend(a: seq<Bytes>, b: seq<Bytes>, allows: Bytes -> bool)
    ensures Judged(a + b, allows) == Judged(a, allows) + Judged(b, allows)
  {
    if a == [] {
      assert a + b == b;
    } else {
      assert (a + b)[1..] == a[1..] + b;
      JudgedAppend(a[1..], b, allows);
    }
  }

  /** For every input and every chunking: outputs and buffer together are the input, in
      order; each allowed entry is a whole frame the guard accepts; and at most 128 bytes
      are ever waited for. */
  lemma {:induction false} FeedSound(chunks: seq<Bytes>, allows: Bytes -> bool)
    ensures Sound(FeedAll(chunks, allows), Concat(chunks), allows)
  {
    if chunks != [] {
      var init, d := chunks[..|chunks| - 1], chunks[|chunks| - 1];
      FeedSound(init, allows);
      var before := FeedAll(init, allows);
      ScanSound(before.rest + d, allows);
      var r := ScanBuffer(before.rest + d, allows);
      FlattenAppend(before.out, r.out);
      Conserved(Flatten(before.out), before.rest, d, Flatten(r.out), r.rest, Concat(init));
    }
  }

  lemma Conserved(a: Bytes, b: Bytes, d: Bytes, c: Bytes, e: Bytes, w: Bytes)
    requires a + b == w && c + e == b + d
    ensures (a + c) + e == w + d
  {
    assert (a + c) + e == a + (c + e);
    assert a + (b + d) == (a + b) + d;
  }

  /** The main result. As long as no run from a preamble to its FD, or to the end of the
      input, exceeds 128 bytes, the frames and their verdicts are those of the whole input
      cut at its FDs: the same for every chunking. */
  lemma {:induction false} ChunkingIndependent(chunks: seq<Bytes>, allows: Bytes -> bool)
    requires Within(Concat(chunks), MAX_FRAME)
    ensures var w := Concat(chunks);
            Agrees(FeedAll(chunks, allows), w, allows)
  {
    if chunks == [] {
      OnlySegment([], true, MAX_FRAME);
    } else {
      var init, d := chunks[..|chunks| - 1], chunks[|chunks| - 1];
      var w := Concat(init);
      Continue(w, d, true, MAX_FRAME);
      ChunkingIndependent(init, allows);
      KeptSuffices(Open(w), d, true, MAX_FRAME);
      var before := FeedAll(init, allows);
      ScanAgrees(before.rest + d, allows);
      FrameEntriesAppend(before.out, ScanBuffer(before.rest + d, allows).out);
      JudgedAppend(Frames(w, true), Frames(Open(w) + d, true), allows);
    }
  }

  /** The bound matters: every frame whose body runs past it is found when it arrives in one
      chunk and lost when its FD comes in a chunk of its own. */
  lemma LongFrameDependsOnChunking(b: Bytes, allows: Bytes -> bool)
    requires FD !in b && PairAt(b, 0) && RFindPair(b, 2, |b|) < 0 && |b| > MAX_FRAME
    ensures FrameEntries(FeedAll([b + [FD]], allows).out) == [Entry(b + [FD], allows(b + [FD]))]
    ensures FrameEntries(FeedAll([b, [FD]], allows).out) == []
  {
    WholeFrame(b, allows);
    FeedOnce(b + [FD], allows);
    SplitFeed(b, allows);
    NoFrameInPair(Entry(b, false), Entry([FD], false));
  }

  lemma NoFrameInPair(d: Entry, e: Entry)
    requires !IsFrame(d) && !IsFrame(e)
    ensures FrameEntries([d, e]) == []
  {
    FrameEntriesCons(d, [e]);
    NoFrameIn([e]);
    assert [d, e] == [d] + [e];
  }

  lemma LoneFD(allows: Bytes -> bool)
    ensures ScanBuffer([FD], allows) == Scan([Entry([FD], false)], [])
  {
    FindPairIs([FD], 0, -1);
    assert [FD][..1] == [FD] && |[FD][1..]| == 0;
  }

  lemma FeedOnce(chunk: Bytes, allows: Bytes -> bool)
    ensures FeedAll([chunk], allows) == ScanBuffer(chunk, allows)
  {
    var r := ScanBuffer(chunk, allows);
    assert Scan([], []).rest + chunk == chunk;
    assert Scan([], []).out + r.out == r.out;
  }

  lemma OversizeBlocked(b: Bytes, allows: Bytes -> bool)
    requires FD !in b && PairAt(b, 0) && RFindPair(b, 2, |b|) < 0 && |b| > MAX_FRAME
    ensures ScanBuffer(b, allows) == Scan([Entry(b, false)], [])
  {
    FindPairIs(b, 0, 0);
    FindIs(b, FD, 2, -1);
  }

  lemma SplitFeed(b: Bytes, allows: Bytes -> bool)
    requires FD !in b && PairAt(b, 0) && RFindPair(b, 2, |b|) < 0 && |b| > MAX_FRAME
    ensures FeedAll([b, [FD]], allows).out == [Entry(b, false), Entry([FD], false)]
    ensures !IsFrame(Entry(b, false))
  {
    OversizeBlocked(b, allows);
    FeedOnce(b, allows);
    LoneFD(allows);
    FeedTwice(b, [FD], allows);
    assert b[|b| - 1] in b;
  }

  lemma FeedTwice(c: Bytes, d: Bytes, allows: Bytes -> bool)
    requires FeedAll([c], allows).rest == []
    ensures FeedAll([c, d], allows).out == FeedAll([c], allows).out + ScanBuffer(d, allows).out
  {
    assert [c, d][..1] == [c];
    assert FeedAll([c], allows).rest + d == d;
  }

  lemma WholeFrame(b: Bytes, allows: Bytes -> bool)
    requires FD !in b && PairAt(b, 0) && RFindPair(b, 2, |b|) < 0
    ensures ScanBuffer(b + [FD], allows) == Scan([Entry(b + [FD], allows(b + [FD]))], [])
    ensures FrameEntries([Entry(b + [FD], allows(b + [FD]))]) == [Entry(b + [FD], allows(b + [FD]))]
  {
    var whole := b + [FD];
    assert PairAt(whole, 0);
    FindPairIs(whole, 0, 0);
    FindIs(whole, FD, 2, |b|);
    RFindPairIs(whole, 2, |b|, -1) by {
      assert forall i :: 2 <= i && i + 2 <= |b| ==> (PairAt(whole, i) <==> PairAt(b, i));
    }
    assert whole[..|b| + 1] == whole && whole[|b| + 1..] == [];
    FrameEntriesCons(Entry(whole, allows(whole)), []);
  }

  // ---- the filter object -------------------------------------------------------------

  class CivFrameFilter {
    const allows: Bytes -> bool
    var buf: Bytes

    constructor (allows: Bytes -> bool)
      ensures buf == [] && this.allows == allows
    {
      this.allows := allows;
      buf := [];
    }

    /** `feed` */
    method Feed(data: Bytes) returns (out: seq<Entry>)
      modifies `buf
      ensures Scan(out, buf) == ScanBuffer(old(buf) + data, allows)
    {
      hide ScanBuffer;
      buf := buf + data;
      out := [];
      ghost var goal := ScanBuffer(buf, allows);
      assert Pending(goal, out, buf, allows) by { assert [] + goal.out == goal.out; }
      while true
        invariant Pending(goal, out, buf, allows)
        decreases |buf|
      {
        ghost var b0, out0 := buf, out;
        var start := FindPair(buf, 0);
        if start < 0 {
          var keep := if buf != [] && buf[|buf| - 1] == FE then 1 else 0;
          if |buf| > keep {
            out := out + [Entry(buf[..|buf| - keep], false)];
          }
          buf := buf[|buf| - keep..];
          assert goal == Scan(out, buf) by { ScanNoPair(b0, allows, out0); }
          break;
        }
        if start > 0 {
          out := out + [Entry(buf[..start], false)];
          buf := buf[start..];
        }
        assert FindPair(buf, 0) == 0 && Pending(goal, out, buf, allows) by {
          if start > 0 { ScanSkip(b0, allows, out0); }
        }
        var again;
        out, again := TakeFrame(out, goal);
        if !again {
          break;
        }
      }
    }

    /** The rest of one round of the loop, from a preamble at the head of the buffer; tells
        whether the loop goes on. */
    method TakeFrame(emitted: seq<Entry>, ghost goal: Scan) returns (out: seq<Entry>, again: bool)
      requires FindPair(buf, 0) == 0 && Pending(goal, emitted, buf, allows)
      modifies `buf
      ensures if again then Pending(goal, out, buf, allows) && |buf| < |old(buf)| else goal == Scan(out, buf)
    {
      hide ScanBuffer;
      ghost var b1 := buf;
      out := emitted;
      var end := Find(buf, FD, 2);
      if end < 0 {
        if |buf| > MAX_FRAME {
          var restart := RFindPair(buf, 2, |buf|);
          var cut := if restart > 0 then restart else |buf|;
          out := out + [Entry(buf[..cut], false)];
          buf := buf[cut..];
          if restart > 0 {
            assert Pending(goal, out, buf, allows) by { ScanUnterminated(b1, allows, emitted); }
            return out, true;
          }
        }
        assert goal == Scan(out, buf) by { ScanUnterminated(b1, allows, emitted); }
        return out, false;
      }
      var restart := RFindPair(buf, 2, end);
      if restart > 0 {
        out := out + [Entry(buf[..restart], false)];
        buf := buf[restart..];
        end := end - restart;
      }
      assert FindPair(buf, 0) == 0 && Find(buf, FD, 2) == end && RFindPair(buf, 2, end) < 0
          && Pending(goal, out, buf, allows) by {
        if restart > 0 { ScanRestart(b1, allows, emitted); }
      }
      ghost var b2, out2 := buf, out;
      var frame := buf[..end + 1];
      buf := buf[end + 1..];
      out := out + [Entry(frame, allows(frame))];
      assert Pending(goal, out, buf, allows) by { ScanFrame(b2, allows, out2); }
      again := true;
    }
  }

  /** The feed's result is what was emitted so far and what a scan of the buffer still yields. */
  ghost predicate Pending(goal: Scan, out: seq<Entry>, b: Bytes, allows: Bytes -> bool) {
    goal.out == out + ScanBuffer(b, allows).out && goal.rest == ScanBuffer(b, allows).rest
  }

  lemma ScanNoPair(b: Bytes, allows: Bytes -> bool, out: seq<Entry>)
    requires FindPair(b, 0) < 0
    ensures var keep := if b != [] && b[|b| - 1] == FE then 1 else 0;
            && out + ScanBuffer(b, allows).out
               == (if |b| > keep then out + [Entry(b[..|b| - keep], false)] else out)
            && ScanBuffer(b, allows).rest == b[|b| - keep..]
  {
  }

  lemma ScanUnterminated(b: Bytes, allows: Bytes -> bool, out: seq<Entry>)
    requires FindPair(b, 0) == 0 && Find(b, FD, 2) < 0
    ensures var restart := RFindPair(b, 2, |b|);
            var r := ScanBuffer(b, allows);
            if |b| <= MAX_FRAME then out + r.out == out && r.rest == b
            else if restart > 0 then
              && out + r.out == (out + [Entry(b[..restart], false)]) + ScanBuffer(b[restart..], allows).out
              && r.rest == ScanBuffer(b[restart..], allows).rest
            else out + r.out == out + [Entry(b[..|b|], false)] && r.rest == b[|b|..]
  {
    assert b[..|b|] == b;
  }

  lemma Emit(out: seq<Entry>, chunk: Bytes, allowed: bool, more: seq<Entry>)
    ensures out + ([Entry(chunk, allowed)] + more) == (out + [Entry(chunk, allowed)]) + more
  {
  }

  lemma ScanSkip(b: Bytes, allows: Bytes -> bool, out: seq<Entry>)
    requires FindPair(b, 0) > 0
    ensures var k := FindPair(b, 0);
            && out + ScanBuffer(b, allows).out
               == (out + [Entry(b[..k], false)]) + ScanBuffer(b[k..], allows).out
            && ScanBuffer(b, allows).rest == ScanBuffer(b[k..], allows).rest
            && FindPair(b[k..], 0) == 0
  {
    var k := FindPair(b, 0);
    Emit(out, b[..k], false, ScanBuffer(b[k..], allows).out);
    PairShift(b, k);
    FindPairIs(b[k..], 0, 0);
  }

  lemma ScanRestart(b: Bytes, allows: Bytes -> bool, out: seq<Entry>)
    requires FindPair(b, 0) == 0 && Find(b, FD, 2) >= 0 && RFindPair(b, 2, Find(b, FD, 2)) > 0
    ensures var end := Find(b, FD, 2);
            var k := RFindPair(b, 2, end);
            && out + ScanBuffer(b, allows).out
               == (out + [Entry(b[..k], false)]) + ScanBuffer(b[k..], allows).out
            && ScanBuffer(b, allows).rest == ScanBuffer(b[k..], allows).rest
            && FindPair(b[k..], 0) == 0 && Find(b[k..], FD, 2) == end - k
            && RFindPair(b[k..], 2, end - k) == -1
  {
    var end := Find(b, FD, 2);
    var k := RFindPair(b, 2, end);
    Emit(out, b[..k], false, ScanBuffer(b[k..], allows).out);
    RestartScan(b, k, end);
  }

  lemma ScanFrame(b: Bytes, allows: Bytes -> bool, out: seq<Entry>)
    requires FindPair(b, 0) == 0 && Find(b, FD, 2) >= 0 && RFindPair(b, 2, Find(b, FD, 2)) < 0
    ensures var end := Find(b, FD, 2);
            var frame := b[..end + 1];
            && out + ScanBuffer(b, allows).out
               == (out + [Entry(frame, allows(frame))]) + ScanBuffer(b[end + 1..], allows).out
            && ScanBuffer(b, allows).rest == ScanBuffer(b[end + 1..], allows).rest
  {
    hide Find;
    hide FindPair;
    hide RFindPair;
    var end := Find(b, FD, 2);
    Emit(out, b[..end + 1], allows(b[..end + 1]), ScanBuffer(b[end + 1..], allows).out);
  }

  /** After the restart cut the frame is found where it was. */
  lemma RestartScan(b: Bytes, restart: nat, end: nat)
    requires end == Find(b, FD, 2) && restart == RFindPair(b, 2, end) > 0
    ensures var c := b[restart..];
            FindPair(c, 0) == 0 && Find(c, FD, 2) == end - restart && RFindPair(c, 2, end - restart) == -1
  {
    var c := b[restart..];
    PairShift(b, restart);
    FindPairIs(c, 0, 0);
    FindIs(c, FD, 2, end - restart);
    RFindPairIs(c, 2, end - restart, -1);
  }
}
