/** The retransmit-request packet: run-length encoding on the radio side, decoding as the
    production client does it, and what a round trip through both serves. */
module RetransmitRequest {
  import opened Wrappers
  import opened SerialNumbers

  const HEADER_SIZE := 0x10
  const PT_CONTROL := 0x01
  /** The client serves at most this many numbers of one range. */
  const MAX_MISSING := 50

  /** An inclusive range of numbers, `first <= last`. */
  datatype Stretch = Stretch(first: Seq, last: Seq)

  // ---- runs --------------------------------------------------------------------------

  /** The members of `s` from `lo` on, in ascending numeric order. */
  function Ascending(s: set<Seq>, lo: nat): (r: seq<Seq>)
    requires lo <= MODULUS
    ensures forall x :: x in s && lo <= x ==> x in r
    ensures forall i :: 0 <= i < |r| ==> r[i] in s && lo <= r[i]
    ensures forall i, j :: 0 <= i < j < |r| ==> r[i] < r[j]
    decreases MODULUS - lo
  {
    if lo == MODULUS then []
    else
      var rest := Ascending(s, lo + 1);
      if lo in s then [lo] + rest else rest
  }

  /** Grow the last run by `n`, or start a new one. */
  function Extend(runs: seq<Stretch>, n: Seq): seq<Stretch> {
    if runs != [] && n == runs[|runs| - 1].last + 1 then
      runs[..|runs| - 1] + [Stretch(runs[|runs| - 1].first, n)]
    else runs + [Stretch(n, n)]
  }

  function RunsOf(sorted: seq<Seq>): seq<Stretch> {
    if sorted == [] then []
    else Extend(RunsOf(sorted[..|sorted| - 1]), sorted[|sorted| - 1])
  }

  function MissingRuns(missing: set<Seq>): seq<Stretch> {
    RunsOf(Ascending(missing, 0))
  }

  ghost predicate InRun(run: Stretch, x: Seq) {
    run.first <= x <= run.last
  }

  /** Runs are ordered, and no two of them touch. */
  ghost predicate Separated(runs: seq<Stretch>) {
    && (forall i :: 0 <= i < |runs| ==> runs[i].first <= runs[i].last)
    && (forall i, j :: 0 <= i < j < |runs| ==> runs[i].last + 1 < runs[j].first)
  }

  ghost predicate InRuns(runs: seq<Stretch>, x: Seq) {
    exists i :: 0 <= i < |runs| && InRun(runs[i], x)
  }

  lemma ExtendSeparated(runs: seq<Stretch>, n: Seq)
    requires Separated(runs) && (runs != [] ==> runs[|runs| - 1].last < n)
    ensures var r := Extend(runs, n);
            && Separated(r) && r != [] && r[|r| - 1].last == n
            && (runs != [] ==> runs[|runs| - 1].first <= runs[|runs| - 1].last)
  {
  }

  lemma ExtendRuns(runs: seq<Stretch>, n: Seq)
    requires Separated(runs) && (runs != [] ==> runs[|runs| - 1].last < n)
    ensures var r := Extend(runs, n);
            && Separated(r) && r != [] && r[|r| - 1].last == n
            && forall x :: InRuns(r, x) <==> InRuns(runs, x) || x == n
  {
    ExtendSeparated(runs, n);
    hide Separated;
    hide InRuns;
    if runs != [] && n == runs[|runs| - 1].last + 1 {
      var init, run := runs[..|runs| - 1], runs[|runs| - 1];
      assert runs == init + [run];
      forall x: Seq
        ensures InRuns(Extend(runs, n), x) <==> InRuns(runs, x) || x == n
      {
        InRunsSnoc(init, run, x);
        InRunsSnoc(init, Stretch(run.first, n), x);
      }
    } else {
      forall x: Seq
        ensures InRuns(Extend(runs, n), x) <==> InRuns(runs, x) || x == n
      {
        InRunsSnoc(runs, Stretch(n, n), x);
      }
    }
  }

  lemma InRunsSnoc(init: seq<Stretch>, run: Stretch, x: Seq)
    ensures InRuns(init + [run], x) <==> InRuns(init, x) || InRun(run, x)
  {
    var r := init + [run];
    assert r[|init|] == run;
    if i :| 0 <= i < |init| && InRun(init[i], x) {
      assert InRun(r[i], x);
    }
  }

  lemma NoRuns()
    ensures Separated([]) && forall x :: !InRuns([], x)
  {
  }

  lemma {:induction false} RunsOfSorted(sorted: seq<Seq>)
    requires forall i, j :: 0 <= i < j < |sorted| ==> sorted[i] < sorted[j]
    ensures var runs := RunsOf(sorted);
            && Separated(runs)
            && (sorted == [] <==> runs == [])
            && (sorted != [] ==> runs[|runs| - 1].last == sorted[|sorted| - 1])
            && forall x :: InRuns(runs, x) <==> x in sorted
  {
    hide Extend;
    hide Separated;
    hide InRuns;
    NoRuns();
    if sorted != [] {
      var init, n := sorted[..|sorted| - 1], sorted[|sorted| - 1];
      RunsOfSorted(init);
      ExtendRuns(RunsOf(init), n);
      assert sorted == init + [n];
    }
  }

  /** `_missing_runs` is the canonical run-length form: it covers exactly the missing
      numbers with ordered runs that never touch. */
  lemma MissingRunsExact(missing: set<Seq>)
    ensures var runs := MissingRuns(missing);
            Separated(runs) && forall x: Seq :: InRuns(runs, x) <==> x in missing
  {
    RunsOfSorted(Ascending(missing, 0));
  }

  /** The loop of `_missing_runs` over the sorted numbers. */
  method GroupRuns(sorted: seq<Seq>) returns (runs: seq<Stretch>)
    ensures runs == RunsOf(sorted)
  {
    runs := [];
    for i := 0 to |sorted|
      invariant runs == RunsOf(sorted[..i])
    {
      var n := sorted[i];
      assert sorted[..i + 1][..i] == sorted[..i];
      if runs != [] && n == runs[|runs| - 1].last + 1 {
        runs := runs[|runs| - 1 := Stretch(runs[|runs| - 1].first, n)];
      } else {
        runs := runs + [Stretch(n, n)];
      }
    }
    assert sorted[..|sorted|] == sorted;
  }

  // ---- bytes -------------------------------------------------------------------------

  function U16(n: nat): (r: seq<byte>)
    ensures |r| == 2
  {
    [n % 0x100, n / 0x100 % 0x100]
  }

  function U32(n: nat): (r: seq<byte>)
    ensures |r| == 4
  {
    U16(n % 0x1_0000) + U16(n / 0x1_0000)
  }

  function ReadU16(b: seq<byte>, at: nat): (r: Seq)
    requires at + 2 <= |b|
  {
    var low: int, high: int := b[at], b[at + 1];
    low + 0x100 * high
  }

  function ReadU32(b: seq<byte>, at: nat): nat
    requires at + 4 <= |b|
  {
    ReadU16(b, at) + 0x1_0000 * ReadU16(b, at + 2)
  }

  lemma ReadBack(pre: seq<byte>, n: nat, post: seq<byte>)
    ensures n < 0x1_0000 ==> ReadU16(pre + U16(n) + post, |pre|) == n
    ensures n < 0x1_0000_0000 ==> ReadU32(pre + U32(n) + post, |pre|) == n
  {
    var b := pre + U32(n) + post;
    assert b[|pre|] == U32(n)[0] && b[|pre| + 1] == U32(n)[1];
    assert b[|pre| + 2] == U32(n)[2] && b[|pre| + 3] == U32(n)[3];
  }

  /** The 16-byte header every packet starts with. */
  function Header(length: nat, number: Seq, radioId: nat, clientId: nat): (r: seq<byte>)
    ensures |r| == HEADER_SIZE
  {
    U32(length) + U16(PT_CONTROL) + U16(number) + U32(radioId) + U32(clientId)
  }

  function EncodeRuns(runs: seq<Stretch>): (r: seq<byte>)
    ensures |r| == 4 * |runs|
  {
    if runs == [] then []
    else U16(runs[0].first) + U16(runs[0].last) + EncodeRuns(runs[1..])
  }

  /** Single form for one missing number, otherwise one packet of inclusive ranges. */
  function Request(missing: set<Seq>, radioId: nat, clientId: nat): seq<byte> {
    var sorted := Ascending(missing, 0);
    if |sorted| == 1 then Header(HEADER_SIZE, sorted[0], radioId, clientId)
    else
      var runs := MissingRuns(missing);
      Header(HEADER_SIZE + 4 * |runs|, 0, radioId, clientId) + EncodeRuns(runs)
  }

  lemma EncodeSnoc(runs: seq<Stretch>, run: Stretch)
    ensures EncodeRuns(runs + [run]) == EncodeRuns(runs) + (U16(run.first) + U16(run.last))
  {
    if runs == [] {
      assert runs + [run] == [run];
    } else {
      assert (runs + [run])[1..] == runs[1..] + [run];
    }
  }

  /** One little-endian pair per run, written in place behind the header. */
  method WriteRuns(pkt: array<byte>, runs: seq<Stretch>)
    requires pkt.Length == HEADER_SIZE + 4 * |runs|
    modifies pkt
    ensures pkt[..] == old(pkt[..HEADER_SIZE]) + EncodeRuns(runs)
  {
    var off := HEADER_SIZE;
    for i := 0 to |runs|
      invariant off == HEADER_SIZE + 4 * i
      invariant pkt[..off] == old(pkt[..HEADER_SIZE]) + EncodeRuns(runs[..i])
    {
      assert runs[..i + 1] == runs[..i] + [runs[i]];
      EncodeSnoc(runs[..i], runs[i]);
      var first, last := U16(runs[i].first), U16(runs[i].last);
      ghost var done := pkt[..off];
      pkt[off], pkt[off + 1], pkt[off + 2], pkt[off + 3] := first[0], first[1], last[0], last[1];
      assert pkt[..off + 4] == done + (first + last);
      off := off + 4;
    }
    assert runs[..|runs|] == runs;
    assert pkt[..off] == pkt[..];
  }

  method NewPacket(header: seq<byte>, length: nat) returns (pkt: array<byte>)
    requires |header| == HEADER_SIZE <= length
    ensures fresh(pkt) && pkt.Length == length && pkt[..HEADER_SIZE] == header
  {
    pkt := new byte[length](i => if 0 <= i < HEADER_SIZE then header[i] else 0);
  }

  /** `_civ_gap_request` */
  method BuildRequest(missing: set<Seq>, radioId: nat, clientId: nat) returns (pkt: array<byte>)
    ensures fresh(pkt) && pkt[..] == Request(missing, radioId, clientId)
  {
    hide Ascending;
    hide RunsOf;
    hide EncodeRuns;
    var sorted := Ascending(missing, 0);
    if |sorted| == 1 {
      pkt := NewPacket(Header(HEADER_SIZE, sorted[0], radioId, clientId), HEADER_SIZE);
      assert pkt[..HEADER_SIZE] == pkt[..];
    } else {
      var runs := GroupRuns(sorted);
      var total := HEADER_SIZE + 4 * |runs|;
      pkt := NewPacket(Header(total, 0, radioId, clientId), total);
      WriteRuns(pkt, runs);
    }
  }

  // ---- what the packet says ----------------------------------------------------------

  /** The complete 4-byte pairs from `at` on, as inclusive ranges. */
  function ReadPairs(b: seq<byte>, at: nat): seq<Stretch>
    decreases |b| - at
  {
    if at + 4 > |b| then []
    else [Stretch(ReadU16(b, at), ReadU16(b, at + 2))] + ReadPairs(b, at + 4)
  }

  lemma {:induction false} PairsRoundTrip(pre: seq<byte>, runs: seq<Stretch>)
    ensures ReadPairs(pre + EncodeRuns(runs), |pre|) == runs
    decreases |runs|
  {
    if runs != [] {
      var b := pre + EncodeRuns(runs);
      var pair := U16(runs[0].first) + U16(runs[0].last);
      FirstPair(pre, runs);
      assert b == (pre + pair) + EncodeRuns(runs[1..]);
      PairsRoundTrip(pre + pair, runs[1..]);
    }
  }

  lemma FirstPair(pre: seq<byte>, runs: seq<Stretch>)
    requires runs != []
    ensures var b := pre + EncodeRuns(runs);
            ReadU16(b, |pre|) == runs[0].first && ReadU16(b, |pre| + 2) == runs[0].last
  {
    hide U16;
    hide ReadU16;
    PairBack(pre, runs[0].first, runs[0].last, EncodeRuns(runs[1..]));
  }

  lemma PairBack(pre: seq<byte>, first: Seq, last: Seq, rest: seq<byte>)
    ensures var b := pre + (U16(first) + U16(last) + rest);
            ReadU16(b, |pre|) == first && ReadU16(b, |pre| + 2) == last
  {
    hide U16;
    hide ReadU16;
    var b := pre + (U16(first) + U16(last) + rest);
    assert b == pre + U16(first) + (U16(last) + rest);
    ReadBack(pre, first, U16(last) + rest);
    assert b == (pre + U16(first)) + U16(last) + rest;
    ReadBack(pre + U16(first), last, rest);
  }

  /** The packet's content, whatever the client makes of it: the number in the header of the
      single form, else every number of every range. */
  ghost predicate Names(b: seq<byte>, x: Seq)
    requires |b| >= HEADER_SIZE
  {
    if ReadU32(b, 0) == HEADER_SIZE && |b| == HEADER_SIZE then x == ReadU16(b, 6)
    else InRuns(ReadPairs(b, HEADER_SIZE), x)
  }

  /** The packet names exactly the missing numbers, for every non-empty set and runs of any
      length, gaps across 65535 to 0 included; its ranges are the canonical runs. */
  lemma RequestNamesMissing(missing: set<Seq>, radioId: nat, clientId: nat)
    requires missing != {}
    ensures var b := Request(missing, radioId, clientId);
            && (forall x: Seq :: Names(b, x) <==> x in missing)
            && (|b| > HEADER_SIZE ==> ReadPairs(b, HEADER_SIZE) == MissingRuns(missing))
  {
    hide Ascending;
    hide RunsOf;
    hide Header;
    hide EncodeRuns;
    hide InRuns;
    hide ReadPairs;
    var sorted := Ascending(missing, 0);
    var runs := MissingRuns(missing);
    MissingRunsExact(missing);
    if |sorted| == 1 {
      SingleHeader(sorted[0], radioId, clientId);
      assert forall x :: x in sorted <==> x == sorted[0];
    } else {
      var m :| m in missing;
      RunsOfSorted(sorted);
      assert m in sorted && runs != [];
      PairsRoundTrip(Header(HEADER_SIZE + 4 * |runs|, 0, radioId, clientId), runs);
    }
  }

  lemma {:induction false} RunsAreFew(runs: seq<Stretch>, i: nat)
    requires Separated(runs) && i < |runs|
    ensures runs[i].first >= 2 * i
    decreases i
  {
    if i > 0 {
      RunsAreFew(runs, i - 1);
    }
  }

  lemma HeaderFields(length: nat, number: Seq, radioId: nat, clientId: nat, rest: seq<byte>)
    requires length < 0x1_0000_0000 && radioId < 0x1_0000_0000 && clientId < 0x1_0000_0000
    ensures var b := Header(length, number, radioId, clientId) + rest;
            && ReadU32(b, 0) == length && ReadU16(b, 4) == PT_CONTROL && ReadU16(b, 6) == number
            && ReadU32(b, 8) == radioId && ReadU32(b, 12) == clientId
  {
    hide U16;
    hide U32;
    hide ReadU16;
    hide ReadU32;
    var b := Header(length, number, radioId, clientId) + rest;
    var l, t, n, r, c := U32(length), U16(PT_CONTROL), U16(number), U32(radioId), U32(clientId);
    assert b == [] + l + (t + n + r + c + rest);
    ReadBack([], length, t + n + r + c + rest);
    assert b == l + t + (n + r + c + rest);
    ReadBack(l, PT_CONTROL, n + r + c + rest);
    assert b == (l + t) + n + (r + c + rest);
    ReadBack(l + t, number, r + c + rest);
    assert b == (l + t + n) + r + (c + rest);
    ReadBack(l + t + n, radioId, c + rest);
    assert b == (l + t + n + r) + c + rest;
    ReadBack(l + t + n + r, clientId, rest);
  }

  /** The header of a request, field by field: its length, type 0x01, the one missing number in
      the single form or 0 in the other, and the ids of the radio and of the client. */
  lemma RequestHeader(missing: set<Seq>, radioId: nat, clientId: nat)
    requires radioId < 0x1_0000_0000 && clientId < 0x1_0000_0000
    ensures var b := Request(missing, radioId, clientId);
            && ReadU32(b, 0) == |b| && ReadU16(b, 4) == 0x01
            && (if |b| == 16 && missing != {} then missing == {ReadU16(b, 6)} else ReadU16(b, 6) == 0)
            && ReadU32(b, 8) == radioId && ReadU32(b, 12) == clientId
  {
    hide Ascending;
    hide Header;
    hide EncodeRuns;
    hide ReadU16;
    hide ReadU32;
    var sorted := Ascending(missing, 0);
    if |sorted| == 1 {
      HeaderFields(HEADER_SIZE, sorted[0], radioId, clientId, []);
      assert Header(HEADER_SIZE, sorted[0], radioId, clientId) + []
          == Header(HEADER_SIZE, sorted[0], radioId, clientId);
      assert forall x :: x in missing <==> x == sorted[0];
    } else {
      var runs := MissingRuns(missing);
      RunsOfSorted(sorted);
      if runs != [] {
        RunsAreFew(runs, |runs| - 1);
      } else {
        assert forall x :: x in missing ==> x in sorted;
      }
      HeaderFields(HEADER_SIZE + 4 * |runs|, 0, radioId, clientId, EncodeRuns(runs));
    }
  }

  lemma SingleHeader(n: Seq, radioId: nat, clientId: nat)
    ensures var b := Header(HEADER_SIZE, n, radioId, clientId);
            ReadU32(b, 0) == HEADER_SIZE && ReadU16(b, 6) == n
  {
    var b := Header(HEADER_SIZE, n, radioId, clientId);
    var tail := U32(radioId) + U32(clientId);
    assert b == [] + U32(HEADER_SIZE) + (U16(PT_CONTROL) + U16(n) + tail);
    ReadBack([], HEADER_SIZE, U16(PT_CONTROL) + U16(n) + tail);
    assert b == (U32(HEADER_SIZE) + U16(PT_CONTROL)) + U16(n) + tail;
    ReadBack(U32(HEADER_SIZE) + U16(PT_CONTROL), n, tail);
  }

  // ---- the client's side -------------------------------------------------------------

  /** The numbers the client resends for one range. */
  function ServeRange(first: Seq, last: Seq): seq<Seq> {
    var span := Distance(first, last);
    if span >= HALF then [] else Span(first, if span + 1 < MAX_MISSING then span + 1 else MAX_MISSING)
  }

  /** Complete 4-byte pairs from `at` on; a trailing partial pair carries no range. */
  function ServeRanges(b: seq<byte>, at: nat): seq<Seq>
    decreases |b| - at
  {
    if at + 4 > |b| then []
    else ServeRange(ReadU16(b, at), ReadU16(b, at + 2)) + ServeRanges(b, at + 4)
  }

  /** What the production client resends on receiving a type-0x01 packet. */
  function Serve(b: seq<byte>): seq<Seq>
    requires |b| >= HEADER_SIZE
  {
    if ReadU32(b, 0) == HEADER_SIZE && |b| == HEADER_SIZE then [ReadU16(b, 6)]
    else ServeRanges(b, HEADER_SIZE)
  }

  /** Two packed numbers as the client reads them: forward from the first, at most half the
      circle, and no more than the cap; backward ranges carry nothing. */
  ghost predicate Asks(pair: Stretch, x: Seq) {
    && Distance(pair.first, pair.last) < 0x8000
    && Distance(pair.first, x) <= Distance(pair.first, pair.last) && Distance(pair.first, x) < 50
  }

  lemma RangeIs(first: Seq, last: Seq, x: Seq)
    ensures x in ServeRange(first, last) <==> Asks(Stretch(first, last), x)
  {
    var span := Distance(first, last);
    if Asks(Stretch(first, last), x) {
      assert ServeRange(first, last)[Distance(first, x)] == x;
    }
  }

  ghost predicate Asked(pairs: seq<Stretch>, x: Seq) {
    exists i :: 0 <= i < |pairs| && Asks(pairs[i], x)
  }

  lemma AskedOneMore(first: Stretch, rest: seq<Stretch>, x: Seq)
    ensures Asked([first] + rest, x) <==> Asks(first, x) || Asked(rest, x)
  {
    hide Asks;
    var all := [first] + rest;
    if Asks(first, x) {
      assert Asks(all[0], x);
    }
    if i :| 0 <= i < |rest| && Asks(rest[i], x) {
      assert Asks(all[i + 1], x);
    }
    if i :| 0 <= i < |all| && Asks(all[i], x) {
      assert i > 0 ==> Asks(rest[i - 1], x);
    }
  }

  /** For any packet of the range form, well formed or not, whoever built it: the client resends
      exactly what one of its complete pairs asks for. */
  lemma {:induction false} ServesExactly(b: seq<byte>, at: nat, x: Seq)
    ensures x in ServeRanges(b, at) <==> Asked(ReadPairs(b, at), x)
    decreases |b| - at
  {
    hide Asks;
    hide ServeRange;
    if at + 4 <= |b| {
      var first, last := ReadU16(b, at), ReadU16(b, at + 2);
      RangeIs(first, last, x);
      ServesExactly(b, at + 4, x);
      AskedOneMore(Stretch(first, last), ReadPairs(b, at + 4), x);
      hide Asked;
    }
  }

  function ServeRuns(runs: seq<Stretch>): seq<Seq> {
    if runs == [] then [] else ServeRange(runs[0].first, runs[0].last) + ServeRuns(runs[1..])
  }

  lemma {:induction false} DecodeEncode(pre: seq<byte>, runs: seq<Stretch>)
    ensures ServeRanges(pre + EncodeRuns(runs), |pre|) == ServeRuns(runs)
    decreases |runs|
  {
    if runs != [] {
      var b := pre + EncodeRuns(runs);
      var pair := U16(runs[0].first) + U16(runs[0].last);
      FirstPair(pre, runs);
      assert b == (pre + pair) + EncodeRuns(runs[1..]);
      DecodeEncode(pre + pair, runs[1..]);
    }
  }

  /** Whether the client resends `x` for `run`: its first `MAX_MISSING` numbers. */
  ghost predicate Served(run: Stretch, x: Seq) {
    InRun(run, x) && x < run.first + MAX_MISSING
  }

  ghost predicate ServedBy(runs: seq<Stretch>, x: Seq) {
    exists i :: 0 <= i < |runs| && Served(runs[i], x)
  }

  ghost predicate Increasing(r: seq<Seq>) {
    forall i, j :: 0 <= i < j < |r| ==> r[i] < r[j]
  }

  /** No run reaches across half the number circle. */
  ghost predicate ShortRuns(runs: seq<Stretch>) {
    forall i :: 0 <= i < |runs| ==> runs[i].last - runs[i].first < HALF
  }

  lemma {:induction false} ServeRunsExact(runs: seq<Stretch>)
    requires Separated(runs) && ShortRuns(runs)
    ensures Increasing(ServeRuns(runs))
    ensures forall x :: x in ServeRuns(runs) <==> ServedBy(runs, x)
    decreases |runs|
  {
    if runs != [] {
      var tail := runs[1..];
      var head := ServeRange(runs[0].first, runs[0].last);
      assert forall i :: 0 <= i < |tail| ==> tail[i] == runs[i + 1];
      ServeRunsExact(tail);
      ServeRangeExact(runs[0]);
      ServedByCons(runs);
      forall x, y | x in head && y in ServeRuns(tail)
        ensures x < y
      {
        var i :| 0 <= i < |tail| && Served(tail[i], y);
        assert Served(runs[0], x);
      }
      IncreasingAppend(head, ServeRuns(tail));
    }
  }

  lemma ServedByCons(runs: seq<Stretch>)
    requires runs != []
    ensures forall x :: ServedBy(runs, x) <==> Served(runs[0], x) || ServedBy(runs[1..], x)
  {
    forall x
      ensures ServedBy(runs, x) <==> Served(runs[0], x) || ServedBy(runs[1..], x)
    {
      if ServedBy(runs, x) && !Served(runs[0], x) {
        var i :| 0 <= i < |runs| && Served(runs[i], x);
        assert Served(runs[1..][i - 1], x);
      }
      if ServedBy(runs[1..], x) {
        var i :| 0 <= i < |runs[1..]| && Served(runs[1..][i], x);
        assert Served(runs[i + 1], x);
      }
    }
  }

  lemma IncreasingAppend(a: seq<Seq>, b: seq<Seq>)
    requires Increasing(a) && Increasing(b) && forall x, y :: x in a && y in b ==> x < y
    ensures Increasing(a + b)
  {
    forall i, j | 0 <= i < j < |a + b|
      ensures (a + b)[i] < (a + b)[j]
    {
      if i < |a| <= j {
        assert a[i] in a && b[j - |a|] in b;
      }
    }
  }

  lemma ServeRangeExact(run: Stretch)
    requires 0 <= run.last - run.first < HALF
    ensures Increasing(ServeRange(run.first, run.last))
    ensures forall x :: x in ServeRange(run.first, run.last) <==> Served(run, x)
  {
    var r := ServeRange(run.first, run.last);
    forall x: Seq | Served(run, x)
      ensures x in r
    {
      assert r[x - run.first] == x;
    }
  }

  /** The packet decodes, at the client, to distinct numbers: the head of every missing run. */
  lemma RequestServes(missing: set<Seq>, radioId: nat, clientId: nat)
    requires missing != {} && ShortRuns(MissingRuns(missing))
    ensures var r := Serve(Request(missing, radioId, clientId));
            Increasing(r) && forall x :: x in r <==> ServedBy(MissingRuns(missing), x)
  {
    hide Ascending;
    hide RunsOf;
    hide Header;
    hide Serve;
    hide ServeRuns;
    hide EncodeRuns;
    hide ServedBy;
    hide InRuns;
    var sorted := Ascending(missing, 0);
    var runs := MissingRuns(missing);
    RunsOfSorted(sorted);
    if |sorted| == 1 {
      SingleForm(sorted[0], radioId, clientId);
      OneRun(sorted[0]);
      assert sorted == [sorted[0]];
    } else {
      var m :| m in missing;
      assert m in sorted;
      RangesForm(runs, radioId, clientId);
      ServeRunsExact(runs);
    }
  }

  lemma OneRun(n: Seq)
    ensures RunsOf([n]) == [Stretch(n, n)]
    ensures forall x :: ServedBy([Stretch(n, n)], x) <==> x == n
  {
    assert [n][..0] == [];
    assert Served([Stretch(n, n)][0], n);
  }

  lemma RangesForm(runs: seq<Stretch>, radioId: nat, clientId: nat)
    requires runs != []
    ensures Serve(Header(HEADER_SIZE + 4 * |runs|, 0, radioId, clientId) + EncodeRuns(runs))
            == ServeRuns(runs)
  {
    DecodeEncode(Header(HEADER_SIZE + 4 * |runs|, 0, radioId, clientId), runs);
  }

  lemma SingleForm(n: Seq, radioId: nat, clientId: nat)
    ensures Serve(Header(HEADER_SIZE, n, radioId, clientId)) == [n]
  {
    SingleHeader(n, radioId, clientId);
  }

  /** No run of missing numbers is longer than the client's per-range cap. */
  ghost predicate WithinCap(runs: seq<Stretch>) {
    forall i :: 0 <= i < |runs| ==> runs[i].last - runs[i].first < MAX_MISSING
  }

  lemma ServedAreMissing(runs: seq<Stretch>)
    requires Separated(runs)
    ensures forall x :: ServedBy(runs, x) ==> InRuns(runs, x)
    ensures runs != [] ==> ServedBy(runs, runs[0].first)
  {
    forall x | ServedBy(runs, x)
      ensures InRuns(runs, x)
    {
      var i :| 0 <= i < |runs| && Served(runs[i], x);
      assert InRun(runs[i], x);
    }
    assert runs != [] ==> Served(runs[0], runs[0].first);
  }

  lemma AllServedIff(runs: seq<Stretch>)
    requires Separated(runs)
    ensures (forall x: Seq :: InRuns(runs, x) <==> ServedBy(runs, x)) <==> WithinCap(runs)
  {
    ServedAreMissing(runs);
    if WithinCap(runs) {
      forall x | InRuns(runs, x)
        ensures ServedBy(runs, x)
      {
        var i :| 0 <= i < |runs| && InRun(runs[i], x);
        assert Served(runs[i], x);
      }
    } else {
      var i :| 0 <= i < |runs| && runs[i].last - runs[i].first >= MAX_MISSING;
      var x: Seq := runs[i].first + MAX_MISSING;
      assert InRun(runs[i], x);
      forall j | 0 <= j < |runs|
        ensures !Served(runs[j], x)
      {
      }
      assert !ServedBy(runs, x);
    }
  }

  lemma ServedSet(missing: set<Seq>, runs: seq<Stretch>, served: set<Seq>)
    requires missing != {} && Separated(runs)
    requires forall x: Seq :: InRuns(runs, x) <==> x in missing
    requires forall x: Seq :: x in served <==> ServedBy(runs, x)
    ensures served != {} && served <= missing && (served == missing <==> WithinCap(runs))
  {
    ServedAreMissing(runs);
    AllServedIff(runs);
    var m :| m in missing;
    assert InRuns(runs, m);
    assert runs[0].first in served;
  }

  /** The client resends only missing numbers, at least one of them, and exactly the missing
      set if and only if no run is longer than its cap. */
  lemma RequestExactIff(missing: set<Seq>, radioId: nat, clientId: nat)
    requires missing != {} && ShortRuns(MissingRuns(missing))
    ensures var served := set x | x in Serve(Request(missing, radioId, clientId));
            && served != {} && served <= missing
            && (served == missing <==> WithinCap(MissingRuns(missing)))
  {
    RequestServes(missing, radioId, clientId);
    MissingRunsExact(missing);
    var served := set x | x in Serve(Request(missing, radioId, clientId));
    ServedSet(missing, MissingRuns(missing), served);
  }
}
