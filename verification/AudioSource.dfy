/** A recording as the simulator's RX audio: `WavSource`, and the burst clock of
    `_audio_rx_loop` that reads it. */
module AudioSource {
  import opened Wrappers
  import opened Modular

  type Bytes = seq<byte>

  /** One burst is 20 ms: 960 stereo frames of 4 bytes. */
  const FRAMES_PER_BURST := 960
  const BURST_BYTES := 3840
  const BURST_PERIOD := 20_000

  const SILENT: byte := 0

  /** Zero bytes. */
  function Zeros(n: nat): (r: Bytes)
    ensures |r| == n && forall i :: 0 <= i < n ==> r[i] == 0
  {
    if n == 0 then [] else [SILENT] + Zeros(n - 1)
  }

  /** What a source is meant to play: byte `i` of the endlessly repeated file, or of the file
      followed by silence. */
  function Sample(pcm: Bytes, looped: bool, i: nat): byte
    requires |pcm| > 0
  {
    if looped then pcm[i % |pcm|] else if i < |pcm| then pcm[i] else 0
  }

  /** Burst `k` of what the source is meant to play. */
  function Burst(pcm: Bytes, looped: bool, k: nat): (r: Bytes)
    requires |pcm| > 0
    ensures |r| == BURST_BYTES
  {
    seq<byte>(BURST_BYTES, i requires 0 <= i < BURST_BYTES => Sample(pcm, looped, BURST_BYTES * k + i))
  }

  lemma BurstIs(pcm: Bytes, looped: bool, k: nat, r: Bytes)
    requires |pcm| > 0 && |r| == BURST_BYTES
    requires forall i :: 0 <= i < BURST_BYTES ==> r[i] == Sample(pcm, looped, BURST_BYTES * k + i)
    ensures r == Burst(pcm, looped, k)
  {
  }

  /** Where the source stands, in frames, before burst `k`. */
  ghost predicate Standing(pos: nat, frames: nat, looped: bool, k: nat)
    requires frames > 0
  {
    if looped then pos <= frames && (pos - FRAMES_PER_BURST * k) % frames == 0
    else pos == FRAMES_PER_BURST * k || (pos >= frames && FRAMES_PER_BURST * k >= frames)
  }

  /** Frame `at` of the file is where burst `k` of its repetition starts. */
  ghost predicate AtFrame(at: nat, frames: nat, k: nat)
    requires frames > 0
  {
    (at - FRAMES_PER_BURST * k) % frames == 0
  }

  /** A byte of the repetition, counted from a standing position. */
  lemma RepeatedByte(frames: nat, pos: nat, k: nat, i: nat)
    requires frames > 0 && (pos - FRAMES_PER_BURST * k) % frames == 0
    ensures (BURST_BYTES * k + i) % (4 * frames) == (4 * pos + i) % (4 * frames)
  {
    MultipleOfFour(pos - FRAMES_PER_BURST * k, frames);
    SameRemainder(BURST_BYTES * k + i, 4 * pos + i, 4 * frames);
  }

  /** Standing moves on by one burst, modulo the file. */
  lemma StandsOn(frames: nat, pos: nat, k: nat, pos': nat)
    requires frames > 0 && (pos - FRAMES_PER_BURST * k) % frames == 0
    requires (pos' - pos - FRAMES_PER_BURST) % frames == 0
    ensures (pos' - FRAMES_PER_BURST * (k + 1)) % frames == 0
  {
    MultiplesAdd(pos - FRAMES_PER_BURST * k, pos' - pos - FRAMES_PER_BURST, frames);
  }

  lemma StandsAt(pos: nat, frames: nat, k: nat)
    requires frames > 0 && Standing(pos, frames, true, k)
    ensures var at := if pos >= frames then 0 else pos;
            at < frames && AtFrame(at, frames, k)
  {
    if pos == frames {
      WrapsToZero(frames, k);
    }
  }

  lemma StandsAfter(frames: nat, at: nat, k: nat)
    requires frames > 0 && at + FRAMES_PER_BURST <= frames && AtFrame(at, frames, k)
    ensures Standing(at + FRAMES_PER_BURST, frames, true, k + 1)
  {
    MultipleIs(0, frames, 0);
    StandsOn(frames, at, k, at + FRAMES_PER_BURST);
  }

  lemma StandsWrapped(frames: nat, at: nat, over: nat, k: nat)
    requires frames > 0 && over == at + FRAMES_PER_BURST - frames && AtFrame(at, frames, k)
    ensures Standing(over % frames, frames, true, k + 1)
  {
    WrapsOver(frames, at, over, over % frames);
    StandsOn(frames, at, k, over % frames);
  }

  class WavSource {
    const pcm: Bytes
    const frames: nat
    const looped: bool
    var pos: nat
    var silentBursts: nat
    /** Bursts read since the silence before the slot start ended. */
    ghost var served: nat

    ghost predicate Valid()
      reads this
    {
      && frames > 0 && |pcm| == 4 * frames
      && Standing(pos, frames, looped, served)
    }

    constructor (pcm: Bytes, looped: bool, silent: nat)
      requires |pcm| >= 4 && |pcm| % 4 == 0
      ensures Valid() && this.pcm == pcm && this.looped == looped
      ensures silentBursts == silent && served == 0
    {
      this.pcm, this.frames, this.looped := pcm, |pcm| / 4, looped;
      pos, silentBursts, served := 0, silent, 0;
      new;
      MultipleIs(0, frames, 0);
    }

    /** `reset`: from the file head, after the silence that the slot start asks for. */
    method Reset(silent: nat)
      requires Valid()
      modifies this
      ensures Valid() && silentBursts == silent && served == 0
    {
      pos, silentBursts, served := 0, silent, 0;
      MultipleIs(0, frames, 0);
    }

    /** `read_burst`: silence first, then exactly the next burst of the (repeated) file. */
    method ReadBurst() returns (r: Bytes)
      requires Valid()
      modifies this
      ensures Valid()
      ensures if old(silentBursts) > 0 then
                r == Zeros(BURST_BYTES) && silentBursts == old(silentBursts) - 1 && served == old(served)
              else
                r == Burst(pcm, looped, old(served)) && silentBursts == 0 && served == old(served) + 1
    {
      if silentBursts > 0 {
        silentBursts := silentBursts - 1;
        return Zeros(BURST_BYTES);
      }
      if looped {
        r := ReadLooped();
      } else {
        r := ReadOnce();
      }
    }

    /** The unlooped branch: a truncated tail is padded, the rest is silence. */
    method ReadOnce() returns (r: Bytes)
      requires Valid() && !looped && silentBursts == 0
      modifies `pos, `served
      ensures Valid() && r == Burst(pcm, looped, old(served)) && served == old(served) + 1
    {
      ghost var k := served;
      served := served + 1;
      if pos >= frames {
        r := Zeros(BURST_BYTES);
        BurstIs(pcm, false, k, r);
        return;
      }
      var end := pos * 4 + BURST_BYTES;
      var chunk := pcm[pos * 4..if end <= |pcm| then end else |pcm|];
      pos := pos + FRAMES_PER_BURST;
      r := chunk + Zeros(BURST_BYTES - |chunk|);
      BurstIs(pcm, false, k, r);
    }

    /** The looped branch: wraps at the file end, in the middle of a burst too. */
    method ReadLooped() returns (r: Bytes)
      requires Valid() && looped && silentBursts == 0
      modifies `pos, `served
      ensures Valid() && r == Burst(pcm, looped, old(served)) && served == old(served) + 1
    {
      hide Burst;
      hide Standing;
      hide AtFrame;
      ghost var k := served;
      var at := if pos >= frames then 0 else pos;
      StandsAt(pos, frames, k);
      var end := at * 4 + BURST_BYTES;
      var chunk := pcm[at * 4..if end <= |pcm| then end else |pcm|];
      served := served + 1;
      if |chunk| == BURST_BYTES {
        pos := at + FRAMES_PER_BURST;
        StandsAfter(frames, at, k);
        WholeBurst(pcm, frames, at, k, chunk);
        return chunk;
      }
      var over := (BURST_BYTES - |chunk|) / 4;
      pos := over % frames;
      StandsWrapped(frames, at, over, k);
      r := FillFromHead(chunk, at, k);
    }

    /** Repeat the head until the burst is exactly full. */
    method FillFromHead(chunk: Bytes, at: nat, ghost k: nat) returns (out: Bytes)
      requires frames > 0 && |pcm| == 4 * frames && at < frames
      requires chunk == pcm[at * 4..] && |chunk| < BURST_BYTES
      requires AtFrame(at, frames, k)
      ensures out == Burst(pcm, true, k)
    {
      hide Burst;
      hide AtFrame;
      out := chunk;
      FileEnd(|pcm|, at, |chunk|);
      assert Follows(pcm, at, out) by { ChunkFollows(pcm, at, chunk); }
      while |out| < BURST_BYTES
        invariant |chunk| <= |out| <= BURST_BYTES
        invariant (4 * at + |out|) % |pcm| == 0 || |out| == BURST_BYTES
        invariant Follows(pcm, at, out)
        decreases BURST_BYTES - |out|
      {
        var need := BURST_BYTES - |out|;
        var head := pcm[..if need <= |pcm| then need else |pcm|];
        HeadContinues(|pcm|, 4 * at + |out|, |head|);
        HeadFollows(pcm, at, out, |head|);
        out := out + head;
      }
      BurstFrom(pcm, frames, at, k, out);
    }
  }

  /** `out` is what the repetition plays from frame `at` on. */
  ghost predicate Follows(pcm: Bytes, at: nat, out: Bytes)
    requires |pcm| > 0
  {
    forall i :: 0 <= i < |out| ==> out[i] == pcm[(4 * at + i) % |pcm|]
  }

  lemma FileEnd(n: nat, at: nat, rest: nat)
    requires n > 0 && 4 * at + rest == n
    ensures (4 * at + rest) % n == 0
  {
    MultipleIs(n, n, 1);
  }

  lemma ChunkFollows(pcm: Bytes, at: nat, chunk: Bytes)
    requires |pcm| > 0 && 4 * at + |chunk| <= |pcm| && chunk == pcm[4 * at..4 * at + |chunk|]
    ensures Follows(pcm, at, chunk)
  {
    forall i | 0 <= i < |chunk|
      ensures chunk[i] == pcm[(4 * at + i) % |pcm|]
    {
      QuotientIs(4 * at + i, |pcm|, 0, 4 * at + i);
    }
  }

  lemma HeadFollows(pcm: Bytes, at: nat, out: Bytes, n: nat)
    requires |pcm| > 0 && n <= |pcm| && Follows(pcm, at, out) && (4 * at + |out|) % |pcm| == 0
    ensures Follows(pcm, at, out + pcm[..n])
  {
    var all := out + pcm[..n];
    forall i | 0 <= i < |all|
      ensures all[i] == pcm[(4 * at + i) % |pcm|]
    {
      if i >= |out| {
        HeadContinues(|pcm|, 4 * at + |out|, i - |out|);
      }
    }
  }

  lemma WholeBurst(pcm: Bytes, frames: nat, at: nat, k: nat, chunk: Bytes)
    requires frames > 0 && |pcm| == 4 * frames && |chunk| == BURST_BYTES
    requires 4 * at + BURST_BYTES <= |pcm| && chunk == pcm[4 * at..4 * at + BURST_BYTES]
    requires AtFrame(at, frames, k)
    ensures chunk == Burst(pcm, true, k)
  {
    ChunkFollows(pcm, at, chunk);
    BurstFrom(pcm, frames, at, k, chunk);
  }

  lemma WrapsToZero(frames: nat, k: nat)
    requires frames > 0 && (frames - FRAMES_PER_BURST * k) % frames == 0
    ensures (0 - FRAMES_PER_BURST * k) % frames == 0
  {
    MultipleIs(0 - frames, frames, -1);
    MultiplesAdd(frames - FRAMES_PER_BURST * k, 0 - frames, frames);
  }

  lemma WrapsOver(frames: nat, at: nat, over: nat, pos: nat)
    requires frames > 0 && over == at + FRAMES_PER_BURST - frames && pos == over % frames
    ensures (pos - at - FRAMES_PER_BURST) % frames == 0
  {
    Euclid(over, frames);
    MulNeg(over / frames, frames);
    MultipleIs(pos - over, frames, -(over / frames));
    MultipleIs(0 - frames, frames, -1);
    MultiplesAdd(pos - over, 0 - frames, frames);
  }

  /** From a multiple of `n` the remainders count up from zero. */
  lemma HeadContinues(n: nat, base: nat, j: nat)
    requires n > 0 && base % n == 0 && j <= n
    ensures (base + j) % n == if j < n then j else 0
  {
    var q := Multiple(base, n);
    if j < n {
      QuotientIs(base + j, n, q, j);
    } else {
      MultipleIs(n, n, 1);
      MultiplesAdd(base, n, n);
    }
  }

  /** Bytes read from a standing position are the burst of the repetition. */
  lemma BurstFrom(pcm: Bytes, frames: nat, at: nat, k: nat, out: Bytes)
    requires frames > 0 && |pcm| == 4 * frames && |out| == BURST_BYTES
    requires AtFrame(at, frames, k)
    requires Follows(pcm, at, out)
    ensures out == Burst(pcm, true, k)
  {
    forall i | 0 <= i < BURST_BYTES
      ensures out[i] == Sample(pcm, true, BURST_BYTES * k + i)
    {
      RepeatedByte(frames, at, k, i);
    }
  }

  // ---- the burst clock ---------------------------------------------------------------

  /** `_audio_rx_loop`: bursts sit at absolute deadlines; more than five bursts behind, stale
      deadlines are skipped, their source bursts read and dropped. A deadline without a client
      passes unread. */
  class BurstClock {
    const origin: int
    const source: WavSource
    const silent: nat
    var nextAt: int
    /** Deadlines passed, and those of them that had no client. */
    ghost var deadlines: nat
    ghost var unheard: nat

    ghost predicate Valid()
      reads this, source
    {
      && source.Valid()
      && nextAt == origin + BURST_PERIOD * (deadlines + 1)
      && unheard <= deadlines
      && StoodAt(deadlines - unheard)
    }

    /** The source after `read` bursts. */
    ghost predicate StoodAt(read: nat)
      reads this, source
    {
      if read < silent then source.silentBursts == silent - read && source.served == 0
      else source.silentBursts == 0 && source.served == read - silent
    }

    constructor (origin: int, source: WavSource, silent: nat)
      requires source.Valid() && source.silentBursts == silent && source.served == 0
      ensures Valid() && this.origin == origin && this.source == source && this.silent == silent
      ensures deadlines == 0 && unheard == 0
    {
      this.origin, this.source, this.silent := origin, source, silent;
      nextAt, deadlines, unheard := origin + BURST_PERIOD, 0, 0;
    }

    /** The burst that follows `read` others. */
    ghost function Meant(read: nat): Bytes
      requires |source.pcm| > 0
    {
      if read < silent then Zeros(BURST_BYTES) else Burst(source.pcm, source.looped, read - silent)
    }

    /** One turn of the loop: skip if late, wait for the deadline, play its burst if there is a
        client. Deadlines stay on `origin` plus whole periods; while there always is a client,
        deadline `j` plays what follows exactly `j - 1` source bursts. */
    method Turn(now: int, client: bool) returns (deadline: int, burst: Option<Bytes>)
      requires Valid()
      modifies this, source
      ensures Valid()
      ensures deadline == origin + BURST_PERIOD * deadlines
      ensures deadlines > old(deadlines) && unheard == old(unheard) + if client then 0 else 1
      ensures burst == if client then Some(Meant(deadlines - unheard - 1)) else None
      ensures old(nextAt) - now >= -5 * BURST_PERIOD ==> deadlines == old(deadlines) + 1
      ensures old(nextAt) - now < -5 * BURST_PERIOD ==> now - BURST_PERIOD < deadline <= now
    {
      if nextAt - now < -5 * BURST_PERIOD {
        var skipped := (now - nextAt) / BURST_PERIOD;
        Skip(skipped);
      }
      deadline := nextAt;
      nextAt := nextAt + BURST_PERIOD;
      deadlines := deadlines + 1;
      if !client {
        unheard := unheard + 1;
        return deadline, None;
      }
      var played := source.ReadBurst();
      burst := Some(played);
    }

    method Skip(skipped: nat)
      requires Valid()
      modifies this, source
      ensures Valid() && deadlines == old(deadlines) + skipped && unheard == old(unheard)
    {
      for i := 0 to skipped
        invariant source.Valid() && nextAt == old(nextAt)
        invariant deadlines == old(deadlines) && unheard == old(unheard)
        invariant StoodAt(deadlines - unheard + i)
      {
        var dropped := source.ReadBurst();
      }
      nextAt := nextAt + skipped * BURST_PERIOD;
      deadlines := deadlines + skipped;
    }
  }
}
