/** `extract_window`, the scope rows: contiguous wave packets assembled into whole sweeps. */
module SweepAssembly {
  import opened Wrappers
  import opened FrameReassembly
  import opened WindowExtract

  /** A scope wave packet: its number in the sweep, and how many the sweep has. */
  datatype Wave = Wave(row: Row, number: nat, total: nat)

  /** A packed decimal byte. */
  function Bcd(b: byte): nat {
    var n: int := b;
    n / 16 * 10 + n % 16
  }

  function WaveOf(e: Timed): Wave
    requires |e.frame| > 9
  {
    Wave(Row(e.t, RadioToClient, e.frame), Bcd(e.frame[7]), Bcd(e.frame[8]))
  }

  predicate Streams(e: Timed, radio: byte) {
    e.dir == RadioToClient && |e.frame| > 9 && IsWave(e.frame, radio)
  }

  /** The wave packets of a recording, in order. */
  function Waves(evs: seq<Timed>, radio: byte): seq<Wave> {
    if evs == [] then []
    else
      var e := evs[|evs| - 1];
      Waves(evs[..|evs| - 1], radio) + if Streams(e, radio) then [WaveOf(e)] else []
  }

  // ---- one packet at a time ----------------------------------------------------------

  /** The sweep under assembly, the length its first packet announced, and the whole sweeps. */
  datatype Assembly = Assembly(sweep: seq<Wave>, announced: nat, done: seq<seq<Wave>>)

  function Take(a: Assembly, w: Wave): Assembly {
    var s := if w.number == 1 then a.(sweep := [], announced := w.total) else a;
    if w.number >= 1 && |s.sweep| == w.number - 1 && w.total == s.announced then
      if w.number == w.total then s.(sweep := [], done := s.done + [s.sweep + [w]])
      else s.(sweep := s.sweep + [w])
    else s.(sweep := [])
  }

  function Walk(ws: seq<Wave>): Assembly {
    if ws == [] then Assembly([], 0, []) else Take(Walk(ws[..|ws| - 1]), ws[|ws| - 1])
  }

  // ---- against the stream ------------------------------------------------------------

  /** The stream ends with packets 1 to `k` of a sweep of `total`. */
  ghost predicate EndsWith(ws: seq<Wave>, k: nat, total: nat) {
    && k <= |ws|
    && forall j :: |ws| - k <= j < |ws| ==> ws[j].number == j - (|ws| - k) + 1 && ws[j].total == total
  }

  /** The stream ends with a whole sweep. */
  ghost predicate Completes(ws: seq<Wave>) {
    ws != [] && var w := ws[|ws| - 1]; w.number == w.total && w.number >= 1 && EndsWith(ws, w.number, w.total)
  }

  /** How many packets of an unfinished sweep the stream ends with; a sweep that announces 0
      packets never finishes. */
  ghost function Unfinished(ws: seq<Wave>): (k: nat)
    ensures k <= |ws|
  {
    if ws == [] then 0
    else
      var w := ws[|ws| - 1];
      if w.number >= 1 && EndsWith(ws, w.number, w.total) && (w.total == 0 || w.number < w.total)
      then w.number else 0
  }

  lemma EndsWithSnoc(init: seq<Wave>, w: Wave, k: nat)
    ensures EndsWith(init + [w], k + 1, w.total) <==> EndsWith(init, k, w.total) && w.number == k + 1
  {
    var ws := init + [w];
    if EndsWith(ws, k + 1, w.total) {
      assert ws[|init|] == w;
      assert forall j :: |init| - k <= j < |init| ==> init[j] == ws[j];
    }
  }

  lemma SuffixSnoc(init: seq<Wave>, w: Wave, k: nat)
    requires k <= |init|
    ensures (init + [w])[|init| - k..] == init[|init| - k..] + [w]
  {
  }

  /** What the walk holds after any packets. */
  ghost predicate Holds(ws: seq<Wave>) {
    var a := Walk(ws);
    && a.sweep == ws[|ws| - Unfinished(ws)..]
    && (a.sweep != [] ==> a.announced == ws[|ws| - 1].total)
  }

  /** One more packet: it is taken exactly when it continues the unfinished sweep, and closes
      the sweep exactly when the stream then ends with a whole one. */
  lemma HoldsSnoc(init: seq<Wave>, w: Wave)
    requires Holds(init)
    ensures var ws := init + [w];
            && Holds(ws)
            && Walk(ws).done == Walk(init).done + if Completes(ws) then [ws[|ws| - w.number..]] else []
  {
    hide EndsWith;
    hide Walk;
    var ws, a := init + [w], Walk(init);
    WalkSnoc(init, w);
    assert |ws[|ws|..]| == 0;
    if w.number >= 1 {
      EndsWithSnoc(init, w, w.number - 1);
      Continues(init, w);
      if w.number - 1 <= |init| {
        SuffixSnoc(init, w, w.number - 1);
      }
    } else {
      assert Unfinished(ws) == 0 && !Completes(ws);
    }
  }

  lemma WalkSnoc(init: seq<Wave>, w: Wave)
    ensures Walk(init + [w]) == Take(Walk(init), w)
  {
    assert (init + [w])[..|init|] == init;
  }

  /** A packet continues what is unfinished exactly when the stream ends with its forerunners. */
  lemma Continues(init: seq<Wave>, w: Wave)
    requires w.number >= 1
    ensures w.number == 1 ==> EndsWith(init, 0, w.total)
    ensures w.number > 1 && (w.total == 0 || w.number <= w.total) ==>
              (EndsWith(init, w.number - 1, w.total)
               <==> Unfinished(init) == w.number - 1 && init[|init| - 1].total == w.total)
    ensures w.number > 1 && w.total > 0 && w.number > w.total ==>
              !(Unfinished(init) == w.number - 1 && init[|init| - 1].total == w.total)
  {
    if w.number > 1 && EndsWith(init, w.number - 1, w.total) {
      LastOf(init, w.number - 1, w.total);
    }
  }

  lemma LastOf(ws: seq<Wave>, k: nat, total: nat)
    requires k > 0 && EndsWith(ws, k, total)
    ensures k <= |ws| && ws[|ws| - 1].number == k && ws[|ws| - 1].total == total
  {
  }

  lemma {:induction false} WalkHolds(ws: seq<Wave>)
    ensures Holds(ws)
  {
    if ws != [] {
      var init, w := ws[..|ws| - 1], ws[|ws| - 1];
      assert ws == init + [w];
      WalkHolds(init);
      HoldsSnoc(init, w);
    }
  }

  /** A whole sweep: all the packets that its packets announce, in order. */
  ghost predicate Whole(s: seq<Wave>) {
    s != [] && forall j :: 0 <= j < |s| ==> s[j].number == j + 1 && s[j].total == |s|
  }

  /** `s` stands in the stream from packet `i` on, without a gap. */
  ghost predicate StandsAt(ws: seq<Wave>, s: seq<Wave>, i: nat) {
    i + |s| <= |ws| && s == ws[i..i + |s|]
  }

  lemma CompletesWhole(ws: seq<Wave>, s: seq<Wave>)
    ensures Whole(s) && |s| <= |ws| && s == ws[|ws| - |s|..]
            <==> Completes(ws) && s == ws[|ws| - ws[|ws| - 1].number..]
  {
    if Whole(s) && |s| <= |ws| && s == ws[|ws| - |s|..] {
      assert s[|s| - 1] == ws[|ws| - 1];
      assert forall j :: |ws| - |s| <= j < |ws| ==> ws[j] == s[j - (|ws| - |s|)];
    }
  }

  /** The main result: the assembled sweeps are exactly the whole sweeps that stand in the
      stream without a gap, wherever they stand and whatever surrounds them. */
  lemma {:induction false} AssembledIffWhole(ws: seq<Wave>, s: seq<Wave>)
    ensures s in Walk(ws).done <==> Whole(s) && exists i :: StandsAt(ws, s, i)
  {
    hide Take;
    hide Whole;
    hide Completes;
    if ws == [] {
      assert !Whole(s) || s != [] by { WholeIsSome(s); }
    } else {
      var init, w := ws[..|ws| - 1], ws[|ws| - 1];
      assert ws == init + [w];
      AssembledIffWhole(init, s);
      WalkHolds(init);
      HoldsSnoc(init, w);
      CompletesWhole(ws, s);
      WholeIsSome(s);
      if s != [] {
        StandsSnoc(init, w, s);
      }
    }
  }

  lemma WholeIsSome(s: seq<Wave>)
    ensures Whole(s) ==> s != []
  {
  }

  lemma StandsAtSnoc(init: seq<Wave>, w: Wave, s: seq<Wave>, i: nat)
    requires s != []
    ensures var ws := init + [w];
            StandsAt(ws, s, i)
            <==> StandsAt(init, s, i) || (i + |s| == |ws| && s == ws[i..])
  {
    var ws := init + [w];
    if i + |s| <= |init| {
      assert ws[i..i + |s|] == init[i..i + |s|];
    } else if i + |s| == |ws| {
      assert ws[i..i + |s|] == ws[i..];
    }
  }

  lemma StandsSnoc(init: seq<Wave>, w: Wave, s: seq<Wave>)
    requires s != []
    ensures var ws := init + [w];
            (exists i :: StandsAt(ws, s, i))
            <==> (exists i :: StandsAt(init, s, i)) || (|s| <= |ws| && s == ws[|ws| - |s|..])
  {
    var ws := init + [w];
    forall i: nat
      ensures StandsAt(ws, s, i) <==> StandsAt(init, s, i) || (i + |s| == |ws| && s == ws[i..])
    {
      StandsAtSnoc(init, w, s, i);
    }
    hide StandsAt;
    if |s| <= |ws| {
      assert StandsAt(ws, s, |ws| - |s|) <==> StandsAt(init, s, |ws| - |s|) || s == ws[|ws| - |s|..];
    }
  }

  // ---- the rows ----------------------------------------------------------------------

  function SweepRows(s: seq<Wave>): (r: seq<Row>)
    ensures |r| == |s|
  {
    seq(|s|, i requires 0 <= i < |s| => s[i].row)
  }

  /** The rows of the first `limit` sweeps. */
  function FirstSweeps(sweeps: seq<seq<Wave>>, limit: int): seq<Row> {
    if sweeps == [] then []
    else
      FirstSweeps(sweeps[..|sweeps| - 1], limit)
      + if |sweeps| <= limit then SweepRows(sweeps[|sweeps| - 1]) else []
  }

  lemma OneMoreSweep(sweeps: seq<seq<Wave>>, s: seq<Wave>, limit: int)
    ensures FirstSweeps(sweeps + [s], limit)
            == FirstSweeps(sweeps, limit) + if AtMost(|sweeps|, limit) < limit then SweepRows(s) else []
  {
    assert (sweeps + [s])[..|sweeps|] == sweeps;
  }

  function AllRows(sweeps: seq<seq<Wave>>): seq<Row> {
    if sweeps == [] then [] else SweepRows(sweeps[0]) + AllRows(sweeps[1..])
  }

  /** `FirstSweeps` is the rows of the first `limit` sweeps, one sweep after the other. */
  lemma {:induction false} FirstSweepsAre(sweeps: seq<seq<Wave>>, limit: int)
    ensures FirstSweeps(sweeps, limit) == AllRows(sweeps[..AtMost(|sweeps|, limit)])
  {
    if sweeps != [] {
      var init, last := sweeps[..|sweeps| - 1], sweeps[|sweeps| - 1];
      FirstSweepsAre(init, limit);
      if |sweeps| <= limit {
        assert sweeps[..|sweeps|] == init + [last] && init[..|init|] == init;
        AllRowsSnoc(init, last);
      } else {
        assert sweeps[..AtMost(|sweeps|, limit)] == init[..AtMost(|init|, limit)];
        assert FirstSweeps(init, limit) + [] == FirstSweeps(init, limit);
      }
    }
  }

  lemma {:induction false} AllRowsSnoc(init: seq<seq<Wave>>, last: seq<Wave>)
    ensures AllRows(init + [last]) == AllRows(init) + SweepRows(last)
  {
    if init == [] {
      assert [] + [last] == [last] && |[last][1..]| == 0;
      assert SweepRows(last) + [] == SweepRows(last);
    } else {
      assert (init + [last])[1..] == init[1..] + [last];
      AllRowsSnoc(init[1..], last);
    }
  }

  /** A byte whose nibbles are decimal digits. */
  predicate Decimal(b: byte) {
    var n: int := b;
    n / 16 < 10 && n % 16 < 10
  }

  /** `b` is `n` in packed decimal. */
  predicate Packs(b: byte, n: nat) {
    n < 100 && (b as int) == n / 10 * 16 + n % 10
  }

  lemma DecimalPacks(b: byte)
    requires Decimal(b)
    ensures Packs(b, Bcd(b))
  {
    var n: int := b;
    Digits(n / 16, n % 16);
  }

  lemma Digits(tens: nat, ones: nat)
    requires tens < 10 && ones < 10
    ensures (tens * 10 + ones) / 10 == tens && (tens * 10 + ones) % 10 == ones
  {
  }

  /** A scope wave from the radio, in bytes. */
  ghost predicate ScopeWave(f: seq<byte>, radio: byte) {
    |f| > 9 && f[3] == radio && f[4] == 0x27 && f[5] == 0x00
  }

  lemma {:induction false} WavesAreEntries(evs: seq<Timed>, radio: byte)
    ensures forall e :: e in evs && e.dir == RadioToClient && ScopeWave(e.frame, radio) ==>
              exists w :: w in Waves(evs, radio) && w.row == Row(e.t, RadioToClient, e.frame)
    ensures forall w :: w in Waves(evs, radio) ==>
              && Timed(w.row.t, w.row.dir, w.row.frame) in evs && ScopeWave(w.row.frame, radio)
              && (Decimal(w.row.frame[7]) ==> Packs(w.row.frame[7], w.number))
              && (Decimal(w.row.frame[8]) ==> Packs(w.row.frame[8], w.total))
  {
    if evs != [] {
      var init, e := evs[..|evs| - 1], evs[|evs| - 1];
      WavesAreEntries(init, radio);
      assert evs == init + [e] && e == Timed(e.t, e.dir, e.frame);
      forall x | x in evs && x.dir == RadioToClient && ScopeWave(x.frame, radio)
        ensures exists w :: w in Waves(evs, radio) && w.row == Row(x.t, RadioToClient, x.frame)
      {
        if x in init {
          var w :| w in Waves(init, radio) && w.row == Row(x.t, RadioToClient, x.frame);
          assert w in Waves(evs, radio);
        } else {
          assert WaveOf(e) in Waves(evs, radio);
        }
      }
      if Streams(e, radio) {
        if Decimal(e.frame[7]) {
          DecimalPacks(e.frame[7]);
        }
        if Decimal(e.frame[8]) {
          DecimalPacks(e.frame[8]);
        }
      }
    }
  }

  /** What an assembled sweep is, in frames: wave frames of the recording, byte 7 of the j-th of
      them the packed number j, byte 8 of each the packed length of the sweep. */
  lemma AssembledFrames(evs: seq<Timed>, radio: byte, s: seq<Wave>, j: nat)
    requires s in Walk(Waves(evs, radio)).done && j < |s|
    ensures var row := s[j].row;
            && Timed(row.t, row.dir, row.frame) in evs && ScopeWave(row.frame, radio)
            && (Decimal(row.frame[7]) ==> Packs(row.frame[7], j + 1))
            && (Decimal(row.frame[8]) ==> Packs(row.frame[8], |s|))
  {
    hide Walk;
    hide Packs;
    hide Decimal;
    hide ScopeWave;
    var ws := Waves(evs, radio);
    AssembledIffWhole(ws, s);
    WavesAreEntries(evs, radio);
    var i: nat :| StandsAt(ws, s, i);
    assert s[j] == ws[i + j] && s[j] in ws;
  }

  /** One packet: the sweep under assembly, and a whole sweep's rows while fewer than `limit`
      went out. */
  method TakePacket(w: Wave, limit: int, sweep0: seq<Wave>, announced0: nat, sent: nat, rows: seq<Row>,
                    ghost done0: seq<seq<Wave>>)
    returns (sweep: seq<Wave>, announced: nat, sweeps: nat, out: seq<Row>, ghost done: seq<seq<Wave>>)
    requires rows == FirstSweeps(done0, limit) && sent == AtMost(|done0|, limit)
    ensures Assembly(sweep, announced, done) == Take(Assembly(sweep0, announced0, done0), w)
    ensures out == FirstSweeps(done, limit) && sweeps == AtMost(|done|, limit)
  {
    hide FirstSweeps;
    hide SweepRows;
    sweep, announced, sweeps, out, done := sweep0, announced0, sent, rows, done0;
    if w.number == 1 {
      sweep := [];
      announced := w.total;
    }
    if w.number >= 1 && |sweep| == w.number - 1 && w.total == announced {
      sweep := sweep + [w];
      if w.number == w.total {
        done := done0 + [sweep];
        OneMoreSweep(done0, sweep, limit);
        if sweeps < limit {
          out := out + SweepRows(sweep);
          sweeps := sweeps + 1;
        }
        sweep := [];
      }
    } else {
      sweep := [];
    }
  }

  function AtMost(n: nat, limit: int): nat {
    if n <= limit then n else if limit >= 0 then limit else 0
  }

  /** The scope branch of the loop of `extract_window`. */
  method ScopeRows(evs: seq<Timed>, radio: byte, limit: int) returns (rows: seq<Row>)
    ensures rows == FirstSweeps(Walk(Waves(evs, radio)).done, limit)
  {
    hide Take;
    hide FirstSweeps;
    rows := [];
    var sweep: seq<Wave>, announced, sweeps := [], 0, 0;
    ghost var done: seq<seq<Wave>> := [];
    NoSweeps(limit);
    for i := 0 to |evs|
      invariant Assembly(sweep, announced, done) == Walk(Waves(evs[..i], radio))
      invariant rows == FirstSweeps(done, limit) && sweeps == AtMost(|done|, limit)
    {
      assert evs[..i + 1] == evs[..i] + [evs[i]];
      WavesSnoc(evs[..i], evs[i], radio);
      if Streams(evs[i], radio) {
        WalkSnoc(Waves(evs[..i], radio), WaveOf(evs[i]));
        sweep, announced, sweeps, rows, done :=
          TakePacket(WaveOf(evs[i]), limit, sweep, announced, sweeps, rows, done);
      }
    }
    assert evs[..|evs|] == evs;
  }

  lemma NoSweeps(limit: int)
    ensures FirstSweeps([], limit) == [] && AtMost(0, limit) == 0
  {
  }

  lemma WavesSnoc(init: seq<Timed>, e: Timed, radio: byte)
    ensures Waves(init + [e], radio)
            == if Streams(e, radio) then Waves(init, radio) + [WaveOf(e)] else Waves(init, radio)
  {
    assert (init + [e])[..|init|] == init;
    assert Waves(init, radio) + [] == Waves(init, radio);
  }
}
