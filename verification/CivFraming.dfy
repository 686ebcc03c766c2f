/** CI-V framing on a byte stream: searches, and a reference that cuts a whole stream into
    `FE FE ... FD` frames one FD-terminated segment at a time. */
module CivFraming {
  import opened Wrappers

  const FE: byte := 0xFE
  const FD: byte := 0xFD

  type Bytes = seq<byte>

  /** First index of `x` at or after `from`, or -1. */
  function Find(b: Bytes, x: byte, from: nat): (r: int)
    ensures -1 <= r < |b|
    ensures r >= 0 ==> from <= r && b[r] == x
    ensures forall i :: from <= i < |b| && (r < 0 || i < r) ==> b[i] != x
    decreases |b| - from
  {
    if from >= |b| then -1 else if b[from] == x then from else Find(b, x, from + 1)
  }

  lemma NotFound(b: Bytes, x: byte)
    requires Find(b, x, 0) < 0
    ensures x !in b
  {
    hide Find;
    assert forall i :: 0 <= i < |b| ==> b[i] != x;
  }

  /** A preamble starts at `i`. */
  predicate PairAt(b: Bytes, i: int) {
    0 <= i && i + 1 < |b| && b[i] == FE && b[i + 1] == FE
  }

  /** First preamble at or after `from`, or -1. */
  function FindPair(b: Bytes, from: nat): (r: int)
    ensures -1 <= r < |b|
    ensures r >= 0 ==> from <= r && PairAt(b, r)
    ensures forall i :: from <= i && (r < 0 || i < r) ==> !PairAt(b, i)
    decreases |b| - from
  {
    if from >= |b| then -1 else if PairAt(b, from) then from else FindPair(b, from + 1)
  }

  /** Last preamble that lies within `[from, stop)`, or -1. */
  function RFindPair(b: Bytes, from: nat, stop: nat): (r: int)
    requires stop <= |b|
    ensures -1 <= r < |b|
    ensures r >= 0 ==> from <= r && r + 2 <= stop && PairAt(b, r)
    ensures forall i :: from <= i && i + 2 <= stop && r < i ==> !PairAt(b, i)
    decreases stop
  {
    if stop < from + 2 then -1 else if PairAt(b, stop - 2) then stop - 2 else RFindPair(b, from, stop - 1)
  }

  // ---- the reference -----------------------------------------------------------------

  /** Where the frame of one FD-less segment starts: its first preamble or, when `trim`,
      the last preamble that does not overlap the first one. -1 when there is none. */
  function FrameStart(s: Bytes, trim: bool): (r: int)
    ensures -1 <= r < |s| && (r >= 0 ==> PairAt(s, r))
    ensures r < 0 <==> FindPair(s, 0) < 0
  {
    var first := FindPair(s, 0);
    if first < 0 then -1
    else
      var last := RFindPair(s, first + 2, |s|);
      if trim && last >= 0 then last else first
  }

  /** The frame a segment `s` and its FD amount to, if any. */
  function SegmentFrame(s: Bytes, trim: bool): seq<Bytes> {
    var p := FrameStart(s, trim);
    if p < 0 then [] else [s[p..] + [FD]]
  }

  /** The frames of a whole stream: cut at every FD, one frame per segment with a preamble. */
  function Frames(w: Bytes, trim: bool): seq<Bytes> {
    var end := Find(w, FD, 0);
    if end < 0 then [] else SegmentFrame(w[..end], trim) + Frames(w[end + 1..], trim)
  }

  /** What follows the last FD. */
  function Open(w: Bytes): (r: Bytes)
    ensures FD !in r
  {
    var end := Find(w, FD, 0);
    if end < 0 then NotFound(w, FD); w else Open(w[end + 1..])
  }

  /** What has to be remembered of an unfinished segment: from its first preamble on, or a
      trailing lone FE. */
  function Kept(s: Bytes): Bytes {
    var p := FindPair(s, 0);
    if p >= 0 then s[p..]
    else if s != [] && s[|s| - 1] == FE then [FE]
    else []
  }

  /** No unfinished or finished segment runs longer than `cap` from its first preamble. */
  predicate Within(w: Bytes, cap: nat) {
    var end := Find(w, FD, 0);
    if end < 0 then FindPair(w, 0) < 0 || |w| - FindPair(w, 0) <= cap
    else
      && (FindPair(w[..end], 0) < 0 || end - FindPair(w[..end], 0) <= cap)
      && Within(w[end + 1..], cap)
  }

  // ---- dropping garbage changes nothing ----------------------------------------------

  lemma FindPairIs(b: Bytes, from: nat, r: int)
    requires r == -1 || (from <= r && PairAt(b, r))
    requires forall i :: from <= i && (r < 0 || i < r) ==> !PairAt(b, i)
    ensures FindPair(b, from) == r
  {
  }

  lemma RFindPairIs(b: Bytes, from: nat, stop: nat, r: int)
    requires stop <= |b|
    requires r == -1 || (from <= r && r + 2 <= stop && PairAt(b, r))
    requires forall i :: from <= i && i + 2 <= stop && r < i ==> !PairAt(b, i)
    ensures RFindPair(b, from, stop) == r
  {
  }

  lemma FindIs(b: Bytes, x: byte, from: nat, r: int)
    requires r == -1 || (from <= r < |b| && b[r] == x)
    requires forall i :: from <= i < |b| && (r < 0 || i < r) ==> b[i] != x
    ensures Find(b, x, from) == r
  {
  }

  lemma CutAt(b: Bytes, k: nat)
    requires k <= |b|
    ensures b[..k] + b[k..] == b
  {
  }

  lemma PairShift(b: Bytes, k: nat)
    requires k <= |b|
    ensures forall i :: PairAt(b[k..], i) <==> i >= 0 && PairAt(b, i + k)
  {
  }

  /** A segment without its pairless head: the same frame, the same memory. */
  lemma SegmentSkip(s: Bytes, k: nat, trim: bool)
    requires k <= |s| && forall i :: 0 <= i < k ==> !PairAt(s, i)
    ensures FindPair(s[k..], 0) == if FindPair(s, 0) < 0 then -1 else FindPair(s, 0) - k
    ensures SegmentFrame(s[k..], trim) == SegmentFrame(s, trim)
  {
    hide FindPair;
    hide RFindPair;
    hide FrameStart;
    StartSkip(s, k, trim);
    var p := FrameStart(s, trim);
    if p >= 0 {
      SuffixOf(s, k, p);
    }
  }

  lemma StartSkip(s: Bytes, k: nat, trim: bool)
    requires k <= |s| && forall i :: 0 <= i < k ==> !PairAt(s, i)
    ensures FindPair(s[k..], 0) == if FindPair(s, 0) < 0 then -1 else FindPair(s, 0) - k
    ensures FrameStart(s[k..], trim) == if FrameStart(s, trim) < 0 then -1 else FrameStart(s, trim) - k
    ensures FrameStart(s, trim) >= 0 ==> FrameStart(s, trim) >= k
  {
    hide FindPair;
    hide RFindPair;
    PairShift(s, k);
    var first := FindPair(s, 0);
    FindPairIs(s[k..], 0, if first < 0 then -1 else first - k);
    if first >= 0 {
      var last := RFindPair(s, first + 2, |s|);
      RFindPairIs(s[k..], first - k + 2, |s| - k, if last < 0 then -1 else last - k);
    }
  }

  lemma SuffixOf(s: Bytes, k: nat, p: nat)
    requires k <= p <= |s|
    ensures s[k..][p - k..] == s[p..]
  {
  }

  lemma KeptSkip(s: Bytes, k: nat)
    requires k <= |s| && forall i :: 0 <= i < k ==> !PairAt(s, i)
    requires k == |s| && s != [] ==> s[|s| - 1] != FE
    ensures Kept(s[k..]) == Kept(s)
  {
    SegmentSkip(s, k, false);
    var p := FindPair(s, 0);
    if p >= 0 {
      assert s[k..][p - k..] == s[p..];
    }
  }

  predicate SegmentWithin(s: Bytes, cap: nat) {
    FindPair(s, 0) < 0 || |s| - FindPair(s, 0) <= cap
  }

  /** The three readings of a stream whose first segment is `s`. */
  lemma FirstSegment(s: Bytes, rest: Bytes, trim: bool, cap: nat)
    requires FD !in s
    ensures var w := s + [FD] + rest;
            && Frames(w, trim) == SegmentFrame(s, trim) + Frames(rest, trim)
            && Open(w) == Open(rest)
            && (Within(w, cap) <==> SegmentWithin(s, cap) && Within(rest, cap))
  {
    var w := s + [FD] + rest;
    FindIs(w, FD, 0, |s|);
    assert w[..|s|] == s && w[|s| + 1..] == rest;
  }

  lemma OnlySegment(s: Bytes, trim: bool, cap: nat)
    requires FD !in s
    ensures Frames(s, trim) == [] && Open(s) == s && (Within(s, cap) <==> SegmentWithin(s, cap))
  {
    FindIs(s, FD, 0, -1);
  }

  /** A stream is one open segment, or a first segment, its FD and the rest. */
  lemma SplitStream(w: Bytes) returns (s: Bytes, rest: Bytes)
    ensures FD in w ==> w == s + [FD] + rest && FD !in s && |rest| < |w|
  {
    s, rest := [], [];
    var end := Find(w, FD, 0);
    if FD in w {
      s, rest := w[..end], w[end + 1..];
      assert w == s + [FD] + rest;
    }
  }

  /** A stream without its pairless head (which may hold FDs): the same frames. */
  lemma {:induction false} SkipGarbage(w: Bytes, k: nat, trim: bool, cap: nat)
    requires k <= |w| && forall i :: 0 <= i < k ==> !PairAt(w, i)
    ensures Frames(w[k..], trim) == Frames(w, trim)
    ensures Within(w, cap) ==> Within(w[k..], cap)
    ensures (k == |w| && w != [] ==> w[|w| - 1] != FE) ==> Kept(Open(w[k..])) == Kept(Open(w))
    decreases |w|
  {
    if FD !in w {
      SkipInSegment(w, k, trim, cap);
    } else {
      var s, rest := SplitStream(w);
      if k <= |s| {
        SkipInFirst(s, rest, k, trim, cap);
      } else {
        SkipFirst(s, rest, trim, cap);
        assert w[|s| + 1..] == rest;
        PairShift(w, |s| + 1);
        DropDrop(w, rest, |s| + 1, k);
        SkipGarbage(rest, k - |s| - 1, trim, cap);
      }
    }
  }

  lemma CutSegment(s: Bytes, rest: Bytes, k: nat)
    requires k <= |s|
    ensures (s + [FD] + rest)[k..] == s[k..] + [FD] + rest
    ensures (s + [FD] + rest)[..k] == s[..k]
  {
  }

  lemma SkipInFirst(s: Bytes, rest: Bytes, k: nat, trim: bool, cap: nat)
    requires FD !in s && k <= |s| && forall i :: 0 <= i < k ==> !PairAt(s + [FD] + rest, i)
    ensures var w := s + [FD] + rest;
            && Frames(w[k..], trim) == Frames(w, trim) && Open(w[k..]) == Open(w)
            && (Within(w, cap) ==> Within(w[k..], cap))
  {
    var w := s + [FD] + rest;
    assert forall i :: PairAt(s, i) ==> PairAt(w, i);
    FirstSegment(s, rest, trim, cap);
    CutSegment(s, rest, k);
    SegmentSkip(s, k, trim);
    FirstSegment(s[k..], rest, trim, cap);
  }

  lemma SkipFirst(s: Bytes, rest: Bytes, trim: bool, cap: nat)
    requires FD !in s && forall i :: 0 <= i <= |s| ==> !PairAt(s + [FD] + rest, i)
    ensures var w := s + [FD] + rest;
            && Frames(rest, trim) == Frames(w, trim) && Open(rest) == Open(w)
            && (Within(w, cap) ==> Within(rest, cap))
  {
    FirstSegment(s, rest, trim, cap);
    assert forall i :: PairAt(s, i) ==> PairAt(s + [FD] + rest, i);
    assert FindPair(s, 0) < 0;
  }

  lemma SkipInSegment(w: Bytes, k: nat, trim: bool, cap: nat)
    requires FD !in w && k <= |w| && forall i :: 0 <= i < k ==> !PairAt(w, i)
    ensures Frames(w[k..], trim) == Frames(w, trim)
    ensures Within(w, cap) ==> Within(w[k..], cap)
    ensures (k == |w| && w != [] ==> w[|w| - 1] != FE) ==> Kept(Open(w[k..])) == Kept(Open(w))
  {
    OnlySegment(w, trim, cap);
    OnlySegment(w[k..], trim, cap);
    SegmentSkip(w, k, trim);
    if k == |w| && w != [] ==> w[|w| - 1] != FE {
      KeptSkip(w, k);
    }
  }

  /** Only the memory of an unfinished segment matters to what follows. */
  lemma KeptSuffices(s: Bytes, d: Bytes, trim: bool, cap: nat)
    requires FD !in s
    ensures Frames(Kept(s) + d, trim) == Frames(s + d, trim)
    ensures Kept(Open(Kept(s) + d)) == Kept(Open(s + d))
    ensures Within(s + d, cap) ==> Within(Kept(s) + d, cap)
  {
    var k := |s| - |Kept(s)|;
    var w := s + d;
    assert w[k..] == Kept(s) + d;
    forall i | 0 <= i < k
      ensures !PairAt(w, i)
    {
      assert PairAt(w, i) && i + 1 < |s| ==> PairAt(s, i);
    }
    SkipGarbage(w, k, trim, cap);
  }

  lemma DropDrop(w: Bytes, rest: Bytes, a: nat, k: nat)
    requires a <= k <= |w| && rest == w[a..]
    ensures rest[k - a..] == w[k..]
    ensures rest != [] ==> rest[|rest| - 1] == w[|w| - 1]
  {
  }

  lemma Associate<T>(a: seq<T>, b: seq<T>, c: seq<T>)
    ensures a + (b + c) == (a + b) + c
  {
  }

  /** A stream continues from its unfinished last segment. */
  lemma {:induction false} Continue(w: Bytes, d: Bytes, trim: bool, cap: nat)
    ensures Frames(w + d, trim) == Frames(w, trim) + Frames(Open(w) + d, trim)
    ensures Open(w + d) == Open(Open(w) + d)
    ensures Within(w + d, cap) ==> Within(w, cap) && Within(Open(w) + d, cap)
    decreases |w|
  {
    hide Frames;
    hide Open;
    hide Within;
    hide SegmentFrame;
    if FD !in w {
      OnlySegment(w, trim, cap);
      if Within(w + d, cap) {
        WithinPrefix(w, d, cap);
      }
    } else {
      var s, rest := SplitStream(w);
      FirstSegment(s, rest, trim, cap);
      assert w + d == s + [FD] + (rest + d);
      FirstSegment(s, rest + d, trim, cap);
      Continue(rest, d, trim, cap);
      Associate(SegmentFrame(s, trim), Frames(rest, trim), Frames(Open(rest) + d, trim));
    }
  }

  lemma WithinPrefix(w: Bytes, d: Bytes, cap: nat)
    requires FD !in w && Within(w + d, cap)
    ensures Within(w, cap)
  {
    OnlySegment(w, false, cap);
    var p := FindPair(w, 0);
    if p >= 0 {
      var end := Find(w + d, FD, 0);
      var seg := if end < 0 then w + d else (w + d)[..end];
      assert end < 0 || end >= |w|;
      assert forall i :: 0 <= i && i + 1 < |w| ==> (PairAt(seg, i) <==> PairAt(w, i));
      FindPairIs(seg, 0, p);
    }
  }

  lemma TinyKept(trim: bool)
    ensures Frames([FE], trim) == [] && Frames([], trim) == []
    ensures Kept(Open([FE])) == [FE] && Kept(Open([])) == []
  {
    OnlySegment([FE], trim, 0);
    OnlySegment([], trim, 0);
  }

  lemma LastByte(b: Bytes)
    requires b != []
    ensures b[|b| - 1..] == [b[|b| - 1]]
  {
  }

  /** A stream with no preamble holds no frame; at most a trailing lone FE is remembered. */
  lemma NoPairFrames(b: Bytes, trim: bool)
    requires FindPair(b, 0) < 0
    ensures Frames(b, trim) == []
    ensures Kept(Open(b)) == b[|b| - (if b != [] && b[|b| - 1] == FE then 1 else 0)..]
  {
    hide Kept;
    hide Open;
    hide Frames;
    TinyKept(trim);
    if b != [] && b[|b| - 1] == FE {
      SkipGarbage(b, |b| - 1, trim, 0);
      LastByte(b);
    } else {
      SkipGarbage(b, |b|, trim, 0);
      assert |b[|b|..]| == 0;
    }
  }
}
