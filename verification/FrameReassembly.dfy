/** `civ_frames`: re-assembly of the CI-V frames of a recording whose chunks split and join
    frames at will, one buffer per direction. */
module FrameReassembly {
  import opened CivFraming

  datatype Direction = ClientToRadio | RadioToClient | Refused

  datatype Chunk = Chunk(t: int, dir: Direction, bytes: Bytes)

  /** A complete frame, stamped with the time of the chunk that completed it. */
  datatype Timed = Timed(t: int, dir: Direction, frame: Bytes)

  datatype Taken = Taken(frames: seq<Bytes>, rest: Bytes)

  /** What the inner loop takes out of one buffer. */
  function Take(b: Bytes): Taken
    decreases |b|
  {
    var start := FindPair(b, 0);
    if start < 0 then Taken([], if b != [] && b[|b| - 1] == FE then b[|b| - 1..] else [])
    else
      var end := Find(b, FD, start + 2);
      if end < 0 then Taken([], b[start..])
      else
        var more := Take(b[end + 1..]);
        Taken([b[start..end + 1]] + more.frames, more.rest)
  }

  // ---- against the whole stream ------------------------------------------------------

  lemma {:induction false} TakeIsReference(b: Bytes)
    ensures Take(b) == Taken(Frames(b, false), Kept(Open(b)))
    decreases |b|
  {
    hide Frames;
    hide Kept;
    hide Open;
    hide Find;
    hide FindPair;
    var start := FindPair(b, 0);
    if start < 0 {
      NoPairFrames(b, false);
    } else {
      var c := b[start..];
      SkipGarbage(b, start, false, 0);
      PairShift(b, start);
      FindPairIs(c, 0, 0);
      var end := Find(b, FD, start + 2);
      if end < 0 {
        TakeOpen(b, start);
      } else {
        TakeFrame(b, start, end);
        TakeIsReference(b[end + 1..]);
      }
    }
  }

  lemma TakeOpen(b: Bytes, start: nat)
    requires FindPair(b, 0) == start && Find(b, FD, start + 2) < 0
    requires FindPair(b[start..], 0) == 0
    ensures Frames(b[start..], false) == [] && Kept(Open(b[start..])) == b[start..]
  {
    var c := b[start..];
    assert FD !in c by {
      assert forall i :: 2 <= i < |c| ==> c[i] == b[start + i];
      assert c[0] == FE && c[1] == FE;
    }
    OnlySegment(c, false, 0);
  }

  /** The first frame of a buffer that starts with a preamble is its first segment. */
  lemma TakeFrame(b: Bytes, start: nat, end: nat)
    requires FindPair(b, 0) == start && Find(b, FD, start + 2) == end
    requires FindPair(b[start..], 0) == 0
    ensures Frames(b[start..], false) == [b[start..end + 1]] + Frames(b[end + 1..], false)
    ensures Open(b[start..]) == Open(b[end + 1..])
  {
    hide Frames;
    hide Open;
    var c, s, rest := b[start..], b[start..end], b[end + 1..];
    assert c == s + [FD] + rest;
    assert FD !in s by {
      assert forall i :: 2 <= i < |s| ==> s[i] == b[start + i];
      assert s[0] == FE && s[1] == FE;
    }
    FirstSegment(s, rest, false, 0);
    assert PairAt(s, 0) by { assert PairAt(c, 0); }
    FindPairIs(s, 0, 0);
    assert SegmentFrame(s, false) == [s + [FD]];
    assert s + [FD] == b[start..end + 1];
  }

  /** All bytes of one direction, in order. */
  function BytesOf(chunks: seq<Chunk>, d: Direction): Bytes {
    if chunks == [] then []
    else
      var last := chunks[|chunks| - 1];
      BytesOf(chunks[..|chunks| - 1], d) + if last.dir == d then last.bytes else []
  }

  function Stamp(frames: seq<Bytes>, t: int, d: Direction): (r: seq<Timed>)
    ensures |r| == |frames|
  {
    seq(|frames|, i requires 0 <= i < |frames| => Timed(t, d, frames[i]))
  }

  /** What the recording amounts to, said without buffers: each chunk completes the frames
      that its direction's stream holds with it and did not hold before it. */
  function Completed(chunks: seq<Chunk>): seq<Timed> {
    if chunks == [] then []
    else
      var init, last := chunks[..|chunks| - 1], chunks[|chunks| - 1];
      var before := |Frames(BytesOf(init, last.dir), false)|;
      var after := Frames(BytesOf(chunks, last.dir), false);
      Completed(init)
      + Stamp(if before <= |after| then after[before..] else [], last.t, last.dir)
  }

  /** A frame carries the time and the direction of the chunk that completed it, and what later
      chunks bring changes nothing about it. */
  lemma StampedOnCompletion(init: seq<Chunk>, c: Chunk)
    ensures var was, now := Completed(init), Completed(init + [c]);
            && was <= now
            && forall i :: |was| <= i < |now| ==> now[i].t == c.t && now[i].dir == c.dir
  {
    hide Frames;
    assert (init + [c])[..|init|] == init;
  }

  /** The frames of one direction, times dropped. */
  function FramesOf(out: seq<Timed>, d: Direction): seq<Bytes> {
    if out == [] then []
    else (if out[0].dir == d then [out[0].frame] else []) + FramesOf(out[1..], d)
  }

  lemma {:induction false} FramesOfAppend(a: seq<Timed>, b: seq<Timed>, d: Direction)
    ensures FramesOf(a + b, d) == FramesOf(a, d) + FramesOf(b, d)
  {
    if a == [] {
      assert a + b == b;
    } else {
      assert (a + b)[1..] == a[1..] + b;
      FramesOfAppend(a[1..], b, d);
    }
  }

  lemma {:induction false} FramesOfStamp(frames: seq<Bytes>, t: int, d: Direction, want: Direction)
    ensures FramesOf(Stamp(frames, t, d), want) == if d == want then frames else []
  {
    if frames != [] {
      FramesOfStamp(frames[1..], t, d, want);
      assert Stamp(frames, t, d)[1..] == Stamp(frames[1..], t, d);
    }
  }

  /** Independence of chunking and interleaving: per direction, the frames are those of that
      direction's whole byte stream. */
  lemma {:induction false} ChunkingIndependent(chunks: seq<Chunk>, d: Direction)
    ensures FramesOf(Completed(chunks), d) == Frames(BytesOf(chunks, d), false)
  {
    if chunks == [] {
      TinyKept(false);
    } else {
      var init, last := chunks[..|chunks| - 1], chunks[|chunks| - 1];
      ChunkingIndependent(init, d);
      var w := BytesOf(init, last.dir);
      Continue(w, last.bytes, false, 0);
      var after := Frames(BytesOf(chunks, last.dir), false);
      var news := after[|Frames(w, false)|..];
      FramesOfAppend(Completed(init), Stamp(news, last.t, last.dir), d);
      FramesOfStamp(news, last.t, last.dir, d);
      if last.dir != d {
        assert BytesOf(init, d) + [] == BytesOf(init, d);
        assert FramesOf(Completed(init), d) + [] == FramesOf(Completed(init), d);
      }
    }
  }

  /** Every emitted frame is `FE FE ... FD`, at least three bytes, with no FD inside. */
  ghost predicate WellFormed(f: Bytes) {
    |f| >= 3 && f[0] == FE && f[1] == FE && f[|f| - 1] == FD && FD !in f[..|f| - 1]
  }

  lemma SegmentWellFormed(s: Bytes, trim: bool)
    requires FD !in s
    ensures forall f :: f in SegmentFrame(s, trim) ==> WellFormed(f)
  {
    hide FrameStart;
    var p := FrameStart(s, trim);
    if p >= 0 {
      var f := s[p..] + [FD];
      assert f[..|f| - 1] == s[p..];
    }
  }

  lemma {:induction false} FramesAreWellFormed(w: Bytes, trim: bool)
    ensures forall f :: f in Frames(w, trim) ==> WellFormed(f)
    decreases |w|
  {
    hide Find;
    hide SegmentFrame;
    hide WellFormed;
    var end := Find(w, FD, 0);
    if end >= 0 {
      FramesAreWellFormed(w[end + 1..], trim);
      SegmentWellFormed(w[..end], trim);
    }
  }

  lemma {:induction false} CompletedWellFormed(chunks: seq<Chunk>)
    ensures forall e :: e in Completed(chunks) ==> WellFormed(e.frame)
  {
    if chunks != [] {
      var init, last := chunks[..|chunks| - 1], chunks[|chunks| - 1];
      CompletedWellFormed(init);
      FramesAreWellFormed(BytesOf(chunks, last.dir), false);
    }
  }

  // ---- the loops ---------------------------------------------------------------------

  /** The inner loop: cut every complete frame out of a direction's buffer. */
  method TakeFrames(data: Bytes) returns (frames: seq<Bytes>, buf: Bytes)
    ensures Taken(frames, buf) == Take(data)
  {
    hide Find;
    hide FindPair;
    buf, frames := data, [];
    while true
      invariant Take(data).frames == frames + Take(buf).frames && Take(data).rest == Take(buf).rest
      decreases |buf|
    {
      var start := FindPair(buf, 0);
      if start < 0 {
        buf := if buf != [] && buf[|buf| - 1] == FE then buf[|buf| - 1..] else [];
        break;
      }
      var end := Find(buf, FD, start + 2);
      if end < 0 {
        buf := buf[start..];
        break;
      }
      Associate(frames, [buf[start..end + 1]], Take(buf[end + 1..]).frames);
      frames := frames + [buf[start..end + 1]];
      buf := buf[end + 1..];
    }
  }

  /** `civ_frames`, with its lazily created buffer per direction. */
  method CivFrames(chunks: seq<Chunk>) returns (out: seq<Timed>)
    ensures out == Completed(chunks)
  {
    hide Frames;
    hide Kept;
    hide Open;
    hide Take;
    hide BytesOf;
    hide Completed;
    var buffers: map<Direction, Bytes> := map[];
    out := [];
    NoChunks();
    assert chunks[..0] == [];
    for i := 0 to |chunks|
      invariant out == Completed(chunks[..i])
      invariant forall d :: Buffered(buffers, d) == Kept(Open(BytesOf(chunks[..i], d)))
    {
      var c := chunks[i];
      var buf := if c.dir in buffers then buffers[c.dir] else [];
      var frames;
      frames, buf := TakeFrames(buf + c.bytes);
      NextChunk(chunks[..i], c);
      assert chunks[..i] + [c] == chunks[..i + 1];
      out := out + Stamp(frames, c.t, c.dir);
      buffers := buffers[c.dir := buf];
    }
    assert chunks[..|chunks|] == chunks;
  }

  ghost function Buffered(buffers: map<Direction, Bytes>, d: Direction): Bytes {
    if d in buffers then buffers[d] else []
  }

  lemma NoChunks()
    ensures Completed([]) == [] && forall d :: Kept(Open(BytesOf([], d))) == []
  {
    TinyKept(false);
  }

  /** One chunk on top of what its direction's buffer remembers. */
  lemma NextChunk(init: seq<Chunk>, c: Chunk)
    ensures var taken := Take(Kept(Open(BytesOf(init, c.dir))) + c.bytes);
            && Completed(init + [c]) == Completed(init) + Stamp(taken.frames, c.t, c.dir)
            && Kept(Open(BytesOf(init + [c], c.dir))) == taken.rest
    ensures forall d :: d != c.dir ==> BytesOf(init + [c], d) == BytesOf(init, d)
  {
    hide Frames;
    hide Kept;
    hide Open;
    hide Take;
    var w := BytesOf(init, c.dir);
    var now := init + [c];
    assert now[..|init|] == init && BytesOf(now, c.dir) == w + c.bytes;
    Continue(w, c.bytes, false, 0);
    KeptSuffices(Open(w), c.bytes, false, 0);
    TakeIsReference(Kept(Open(w)) + c.bytes);
    assert Frames(w + c.bytes, false)[|Frames(w, false)|..] == Take(Kept(Open(w)) + c.bytes).frames;
    forall d | d != c.dir
      ensures BytesOf(now, d) == BytesOf(init, d)
    {
      assert BytesOf(init, d) + [] == BytesOf(init, d);
    }
  }
}
