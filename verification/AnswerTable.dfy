/** `RecordedAnswerTable`: recorded request/reply rows as a stateful answer table keyed on
    CI-V bodies. */
module AnswerTable {
  import opened Wrappers
  import opened CivFraming
  import opened FrameReassembly
  import opened WindowExtract

  datatype Table = Table(
    registers: map<Bytes, Bytes>,
    fixed: map<Bytes, Bytes>,
    writes: set<Bytes>,
    acks: set<Bytes>,
    naks: set<Bytes>)

  const EmptyTable := Table(map[], map[], {}, {}, {})

  /** The key of length below `n`, longest first, that `body` starts with. */
  function PrefixBelow(keys: set<Bytes>, body: Bytes, n: nat): (r: Option<Bytes>)
    requires n <= |body|
    ensures r.Some? ==> |r.value| < n
  {
    if n == 0 then None
    else if body[..n - 1] in keys then Some(body[..n - 1])
    else PrefixBelow(keys, body, n - 1)
  }

  /** `_longest_prefix`: the longest key that is a proper prefix of `body`. */
  function LongestPrefix(keys: set<Bytes>, body: Bytes): (r: Option<Bytes>)
    ensures r.Some? ==> |r.value| < |body|
  {
    PrefixBelow(keys, body, |body|)
  }

  ghost predicate ProperPrefix(key: Bytes, body: Bytes) {
    |key| < |body| && key <= body
  }

  lemma {:induction false} PrefixBelowIs(keys: set<Bytes>, body: Bytes, n: nat)
    requires n <= |body|
    ensures var r := PrefixBelow(keys, body, n);
            && (r.Some? ==> r.value in keys && |r.value| < n && r.value <= body)
            && forall k :: k in keys && |k| < n && k <= body ==> r.Some? && |k| <= |r.value|
  {
    if n > 0 {
      PrefixBelowIs(keys, body, n - 1);
      forall k | k in keys && |k| == n - 1 && k <= body
        ensures k == body[..n - 1]
      {
      }
    }
  }

  /** The longest writable prefix exists exactly when some key is a proper prefix, is one of
      them, and is the only one of its length: whatever order the keys are visited in. */
  lemma LongestPrefixUnique(keys: set<Bytes>, body: Bytes)
    ensures var r := LongestPrefix(keys, body);
            && (r.None? <==> forall k :: k in keys ==> !ProperPrefix(k, body))
            && (r.Some? ==> r.value in keys && ProperPrefix(r.value, body))
            && (r.Some? ==> forall k :: k in keys && ProperPrefix(k, body) && k != r.value ==> |k| < |r.value|)
  {
    PrefixBelowIs(keys, body, |body|);
    var r := LongestPrefix(keys, body);
    if r.Some? {
      forall k | k in keys && ProperPrefix(k, body) && |k| == |r.value|
        ensures k == r.value
      {
        assert k == body[..|k|] == r.value;
      }
    }
  }

  // ---- learning ----------------------------------------------------------------------

  /** `_learn`, on bodies. */
  function Learn(t: Table, body: Bytes, reply: Bytes): Table {
    if reply == [ACK] then
      var key := LongestPrefix(t.registers.Keys, body);
      if key.None? then t.(acks := t.acks + {body}) else t.(writes := t.writes + {key.value})
    else if reply == [NAK] then t.(naks := t.naks + {body})
    else if body <= reply then t.(registers := t.registers[body := reply[|body|..]])
    else t.(fixed := t.fixed[body := reply])
  }

  function LearnPair(t: Table, p: Pair): Table {
    if p.reply.None? then t else Learn(t, Body(p.req), Body(p.reply.value))
  }

  function LearnAll(t: Table, ps: seq<Pair>): Table {
    if ps == [] then t else LearnPair(LearnAll(t, ps[..|ps| - 1]), ps[|ps| - 1])
  }

  // ---- answering ---------------------------------------------------------------------

  /** Some recorded entry names this exact body. */
  predicate Exact(t: Table, body: Bytes) {
    body in t.naks || body in t.fixed || body in t.registers || body in t.acks
  }

  /** `answer`, on bodies: the reply body, if any, and the table afterwards. */
  function Answer(t: Table, body: Bytes): (Table, Option<Bytes>) {
    if body in t.naks then (t, Some([NAK]))
    else if body in t.fixed then (t, Some(t.fixed[body]))
    else if body in t.registers then (t, Some(body + t.registers[body]))
    else if body in t.acks then (t, Some([ACK]))
    else
      var key := LongestPrefix(t.writes, body);
      if key.Some? then (t.(registers := t.registers[key.value := body[|key.value|..]]), Some([ACK]))
      else (t, None)
  }

  function AnswerAll(t: Table, bodies: seq<Bytes>): Table {
    if bodies == [] then t else Answer(AnswerAll(t, bodies[..|bodies| - 1]), bodies[|bodies| - 1]).0
  }

  /** `_reply`: addresses swapped around a body. */
  function ReplyFrame(request: Bytes, body: Bytes): Bytes
    requires |request| >= 4
  {
    [FE, FE, request[3], request[2]] + body + [FD]
  }

  /** `answer`, on frames. */
  function AnswerBytes(t: Table, frame: Bytes): (Table, Option<Bytes>)
    requires |frame| >= 4
  {
    var (u, body) := Answer(t, Body(frame));
    (u, if body.None? then None else Some(ReplyFrame(frame, body.value)))
  }

  /** The reply goes back to the requester, carries exactly the answered body, and is a whole
      frame when the request was one and the body holds no terminator. */
  lemma ReplyIsAddressedBack(t: Table, frame: Bytes)
    requires |frame| >= 5 && WellFormed(frame)
    ensures var (u, reply) := AnswerBytes(t, frame);
            var (v, body) := Answer(t, Body(frame));
            && u == v && (reply.Some? <==> body.Some?)
            && (reply.Some? ==>
                  && |reply.value| == |body.value| + 5
                  && reply.value[2] == frame[3] && reply.value[3] == frame[2]
                  && Body(reply.value) == body.value
                  && (FD !in body.value ==> WellFormed(reply.value)))
  {
    var body := Answer(t, Body(frame)).1;
    if body.Some? {
      var reply := ReplyFrame(frame, body.value);
      assert FD !in frame[..|frame| - 1];
      assert frame[..|frame| - 1][2] == frame[2] && frame[..|frame| - 1][3] == frame[3];
      assert reply[..|reply| - 1] == [FE, FE, frame[3], frame[2]] + body.value;
    }
  }

  /** A frame is its addresses and its body. */
  lemma FrameIs(f: Bytes, g: Bytes)
    requires WellFormed(f) && WellFormed(g) && |f| >= 5 && |g| >= 5
    requires f[2] == g[2] && f[3] == g[3] && Body(f) == Body(g)
    ensures f == g
  {
    assert f == f[..4] + Body(f) + [FD] by { FrameParts(f); }
    assert g == g[..4] + Body(g) + [FD] by { FrameParts(g); }
    assert f[..4] == g[..4];
  }

  lemma FrameParts(f: Bytes)
    requires WellFormed(f) && |f| >= 5
    ensures f == f[..4] + Body(f) + [FD] && FD !in Body(f)
  {
    assert f[|f| - 1..] == [f[|f| - 1]];
    forall i | 0 <= i < |Body(f)|
      ensures Body(f)[i] != FD
    {
      assert f[..|f| - 1][4 + i] == Body(f)[i];
    }
  }

  /** Writable keys are always registers. */
  ghost predicate Consistent(t: Table) {
    t.writes <= t.registers.Keys
  }

  lemma {:induction false} LearnedConsistent(t: Table, ps: seq<Pair>)
    requires Consistent(t)
    ensures Consistent(LearnAll(t, ps))
  {
    if ps != [] {
      LearnedConsistent(t, ps[..|ps| - 1]);
      var u, p := LearnAll(t, ps[..|ps| - 1]), ps[|ps| - 1];
      if p.reply.Some? {
        LongestPrefixUnique(u.registers.Keys, Body(p.req));
      }
    }
  }

  // ---- refinement to a last-write map ------------------------------------------------

  /** Request `body` is a write to register `key`. */
  predicate WritesTo(t: Table, body: Bytes, key: Bytes) {
    !Exact(t, body) && LongestPrefix(t.writes, body) == Some(key)
  }

  /** The reference: the remainder of the latest write to `key`, else the recorded value.
      It looks only at the table as learned and at the requests, never at a changing state. */
  function LastWrite(t: Table, bodies: seq<Bytes>, key: Bytes): Bytes
    requires key in t.registers
  {
    if bodies == [] then t.registers[key]
    else
      var body := bodies[|bodies| - 1];
      if WritesTo(t, body, key) then body[|key|..]
      else LastWrite(t, bodies[..|bodies| - 1], key)
  }

  /** Answers change nothing but the values of registers: the exact entries, the writable
      keys and the set of registers stay as learned. */
  ghost predicate SameShape(t: Table, u: Table) {
    u == t.(registers := u.registers) && u.registers.Keys == t.registers.Keys
  }

  /** The main result: after any requests, every register holds its last write. */
  lemma {:induction false} AnswersRefineLastWrite(t: Table, bodies: seq<Bytes>)
    requires Consistent(t)
    ensures var u := AnswerAll(t, bodies);
            SameShape(t, u) && forall key :: key in t.registers ==> u.registers[key] == LastWrite(t, bodies, key)
  {
    if bodies != [] {
      var init, body := bodies[..|bodies| - 1], bodies[|bodies| - 1];
      AnswersRefineLastWrite(t, init);
      LongestPrefixUnique(t.writes, body);
    }
  }

  /** Reading a register that no NAK or fixed entry hides returns its last write. */
  lemma ReadReturnsLastWrite(t: Table, bodies: seq<Bytes>, key: Bytes)
    requires Consistent(t) && key in t.registers && key !in t.naks && key !in t.fixed
    ensures Answer(AnswerAll(t, bodies), key).1 == Some(key + LastWrite(t, bodies, key))
  {
    AnswersRefineLastWrite(t, bodies);
  }

  /** A write is acknowledged, changes the one register of its longest writable prefix, and
      is read back; every other register keeps its value. */
  lemma WriteThenRead(t: Table, bodies: seq<Bytes>, body: Bytes, key: Bytes)
    requires Consistent(t) && WritesTo(t, body, key) && key !in t.naks && key !in t.fixed
    ensures var u := AnswerAll(t, bodies);
            var (v, reply) := Answer(u, body);
            && reply == Some([ACK]) && Answer(v, key).1 == Some(body)
            && forall k :: k in u.registers && k != key ==> v.registers[k] == u.registers[k]
  {
    AnswersRefineLastWrite(t, bodies);
    LongestPrefixUnique(t.writes, body);
    assert key + body[|key|..] == body;
  }

  // ---- learning, then asking ---------------------------------------------------------

  ghost predicate DistinctBodies(ps: seq<Pair>) {
    forall i, j :: 0 <= i < j < |ps| && ps[i].reply.Some? && ps[j].reply.Some? ==> Body(ps[i].req) != Body(ps[j].req)
  }

  /** No entry names a body that was not learned; a learned body answers as recorded. */
  ghost predicate Remembers(t: Table, ps: seq<Pair>) {
    && Consistent(t)
    && (forall b :: Exact(t, b) ==> exists i :: 0 <= i < |ps| && ps[i].reply.Some? && Body(ps[i].req) == b)
    && (forall i :: 0 <= i < |ps| && ps[i].reply.Some? ==>
          Answer(t, Body(ps[i].req)).1 == Some(Body(ps[i].reply.value)))
  }

  lemma {:induction false} LearnedRemembers(ps: seq<Pair>)
    requires DistinctBodies(ps)
    ensures Remembers(LearnAll(EmptyTable, ps), ps)
  {
    if ps != [] {
      var init, p := ps[..|ps| - 1], ps[|ps| - 1];
      LearnedRemembers(init);
      var t := LearnAll(EmptyTable, init);
      assert ps == init + [p];
      if p.reply.Some? {
        assert !Exact(t, Body(p.req));
        LearnOne(t, init, p);
      }
    }
  }

  /** Learning one more distinct body keeps every earlier answer. */
  lemma LearnOne(t: Table, init: seq<Pair>, p: Pair)
    requires Remembers(t, init) && p.reply.Some? && !Exact(t, Body(p.req))
    requires DistinctBodies(init + [p])
    ensures Remembers(LearnPair(t, p), init + [p])
  {
    var body, reply, ps := Body(p.req), Body(p.reply.value), init + [p];
    var u := LearnPair(t, p);
    LongestPrefixUnique(t.registers.Keys, body);
    LearnAnswers(t, body, reply);
    assert ps[|init|] == p;
    forall b | Exact(u, b)
      ensures exists i :: 0 <= i < |ps| && ps[i].reply.Some? && Body(ps[i].req) == b
    {
      if b != body {
        assert Exact(t, b);
        var i :| 0 <= i < |init| && init[i].reply.Some? && Body(init[i].req) == b;
        assert ps[i] == init[i];
      }
    }
    forall i | 0 <= i < |ps| && ps[i].reply.Some?
      ensures Answer(u, Body(ps[i].req)).1 == Some(Body(ps[i].reply.value))
    {
      if i < |init| {
        assert ps[i] == init[i] && Body(ps[i].req) != Body(ps[|init|].req);
      }
    }
  }

  lemma LearnAnswers(t: Table, body: Bytes, reply: Bytes)
    requires Consistent(t) && !Exact(t, body)
    ensures var u := Learn(t, body, reply);
            && Consistent(u) && Answer(u, body).1 == Some(reply)
            && (forall b :: Exact(u, b) ==> Exact(t, b) || b == body)
            && (forall b :: b != body && Answer(t, b).1.Some? ==> Answer(u, b).1 == Answer(t, b).1)
  {
    hide LongestPrefix;
    var u := Learn(t, body, reply);
    LongestPrefixUnique(t.registers.Keys, body);
    LongestPrefixUnique(u.writes, body);
    if body <= reply {
      assert body + reply[|body|..] == reply;
    }
    forall b | b != body && Answer(t, b).1.Some?
      ensures Answer(u, b).1 == Answer(t, b).1
    {
      LearnKeeps(t, body, reply, b);
    }
  }

  /** Learning one body leaves the answer to every other body that had one. */
  lemma LearnKeeps(t: Table, body: Bytes, reply: Bytes, b: Bytes)
    requires !Exact(t, body) && b != body && Answer(t, b).1.Some?
    ensures Answer(Learn(t, body, reply), b).1 == Answer(t, b).1
  {
    hide LongestPrefix;
    LongestPrefixUnique(t.writes, b);
    LongestPrefixUnique(Learn(t, body, reply).writes, b);
  }

  // ---- repeated bodies: the latest recording wins, a NAK always does -----------------

  /** How a recorded reply to `body` is filed. */
  datatype Filed = AsAck | AsNak | AsRegister(value: Bytes) | AsFixed(reply: Bytes)

  function FiledAs(body: Bytes, reply: Bytes): Filed {
    if reply == [ACK] then AsAck
    else if reply == [NAK] then AsNak
    else if body <= reply then AsRegister(reply[|body|..])
    else AsFixed(reply)
  }

  /** What pair `p` records for `body`, if anything. */
  function RecordedFor(p: Pair, body: Bytes): Option<Filed> {
    if p.reply.Some? && Body(p.req) == body then Some(FiledAs(body, Body(p.reply.value))) else None
  }

  predicate HasNak(ps: seq<Pair>, body: Bytes) {
    exists i :: 0 <= i < |ps| && RecordedFor(ps[i], body) == Some(AsNak)
  }

  function LastFixed(ps: seq<Pair>, body: Bytes): Option<Bytes> {
    if ps == [] then None
    else
      var f := RecordedFor(ps[|ps| - 1], body);
      if f.Some? && f.value.AsFixed? then Some(f.value.reply) else LastFixed(ps[..|ps| - 1], body)
  }

  function LastValue(ps: seq<Pair>, body: Bytes): Option<Bytes> {
    if ps == [] then None
    else
      var f := RecordedFor(ps[|ps| - 1], body);
      if f.Some? && f.value.AsRegister? then Some(f.value.value) else LastValue(ps[..|ps| - 1], body)
  }

  function Lookup(m: map<Bytes, Bytes>, body: Bytes): Option<Bytes> {
    if body in m then Some(m[body]) else None
  }

  lemma HasNakSnoc(init: seq<Pair>, p: Pair, body: Bytes)
    ensures HasNak(init + [p], body) <==> HasNak(init, body) || RecordedFor(p, body) == Some(AsNak)
  {
    var ps := init + [p];
    assert forall i :: 0 <= i < |init| ==> ps[i] == init[i];
    assert ps[|init|] == p;
  }

  /** What a table knows about a body, bodies repeated at will: any NAK, the latest fixed reply
      and the latest register value. */
  lemma {:induction false} LearnedIsLatest(ps: seq<Pair>, body: Bytes)
    ensures var t := LearnAll(EmptyTable, ps);
            && (body in t.naks <==> HasNak(ps, body))
            && Lookup(t.fixed, body) == LastFixed(ps, body)
            && Lookup(t.registers, body) == LastValue(ps, body)
  {
    hide LongestPrefix;
    if ps != [] {
      var init, p := ps[..|ps| - 1], ps[|ps| - 1];
      assert ps == init + [p];
      LearnedIsLatest(init, body);
      HasNakSnoc(init, p, body);
    }
  }

  /** The answer to a recorded body after any requests: NAK if it was ever NAKed, else its
      latest fixed reply, else the register's last write. */
  lemma RecordedBodyAnswers(ps: seq<Pair>, bodies: seq<Bytes>, body: Bytes)
    ensures var t := LearnAll(EmptyTable, ps);
            var reply := Answer(AnswerAll(t, bodies), body).1;
            && (HasNak(ps, body) ==> reply == Some([NAK]))
            && (!HasNak(ps, body) && LastFixed(ps, body).Some? ==> reply == LastFixed(ps, body))
            && (!HasNak(ps, body) && LastFixed(ps, body).None? && LastValue(ps, body).Some? ==>
                  body in t.registers && reply == Some(body + LastWrite(t, bodies, body)))
  {
    hide LongestPrefix;
    var t := LearnAll(EmptyTable, ps);
    LearnedConsistent(EmptyTable, ps);
    LearnedIsLatest(ps, body);
    AnswersRefineLastWrite(t, bodies);
  }

  // ---- from rows ---------------------------------------------------------------------

  /** Some radio row repeats the client row before it: the transport echoes. */
  predicate Echoes(rows: seq<Row>) {
    exists i :: 0 < i < |rows| && rows[i].dir == RadioToClient && rows[i - 1].dir == ClientToRadio
                && rows[i - 1].frame == rows[i].frame
  }

  /** The pairing walk of `from_civ_pairs`. */
  function Paired(rows: seq<Row>, echo: bool): seq<Pair>
    decreases |rows|
  {
    if rows == [] then []
    else if rows[0].dir != ClientToRadio then Paired(rows[1..], echo)
    else
      var request := rows[0].frame;
      var rest := rows[1..];
      var after := if echo && rest != [] && rest[0].dir == RadioToClient && rest[0].frame == request
                   then rest[1..] else rest;
      if after != [] && after[0].dir == RadioToClient then
        [Pair(request, Some(after[0].frame))] + Paired(after[1..], echo)
      else [Pair(request, None)] + Paired(after, echo)
  }

  lemma {:induction false} PairedRows(cs: seq<Closed>, echo: bool)
    requires forall c :: c in cs ==> EchoFirst(c) && (c.reply.Some? ==> c.reply.value.dir == RadioToClient)
    requires forall c :: c in cs && c.item.kept && c.item.echoT.Some? ==> echo
    ensures Paired(Rows(cs), echo) == Decided(cs)
    ensures Rows(cs) != [] ==> Rows(cs)[0].dir == ClientToRadio
  {
    if cs != [] {
      var c, rest := cs[0], Rows(cs[1..]);
      PairedRows(cs[1..], echo);
      if c.item.kept {
        PairedOne(c, rest, echo);
      } else {
        assert RowsOf(c) + rest == rest;
        assert [] + Decided(cs[1..]) == Decided(cs[1..]);
      }
    }
  }

  lemma PairedOne(c: Closed, rest: seq<Row>, echo: bool)
    requires c.item.kept && EchoFirst(c) && (c.item.echoT.Some? ==> echo)
    requires rest != [] ==> rest[0].dir == ClientToRadio
    ensures Paired(RowsOf(c) + rest, echo)
            == [Pair(c.item.req, if c.reply.Some? then Some(c.reply.value.frame) else None)] + Paired(rest, echo)
    ensures (RowsOf(c) + rest)[0].dir == ClientToRadio
  {
    hide Paired;
    var request := Row(c.item.t, ClientToRadio, c.item.req);
    var echoRow := if c.item.echoT.Some? then [Row(c.item.echoT.value, RadioToClient, c.item.req)] else [];
    var replyRow := if c.reply.Some? then [Row(c.reply.value.t, RadioToClient, c.reply.value.frame)] else [];
    assert RowsOf(c) + rest == [request] + (echoRow + (replyRow + rest));
    PairedRequest(request, echoRow, replyRow, rest, echo);
  }

  /** One request in the pairing walk: its echo row and its reply row, if any. */
  lemma PairedRequest(request: Row, echoRow: seq<Row>, replyRow: seq<Row>, rest: seq<Row>, echo: bool)
    requires request.dir == ClientToRadio && |echoRow| <= 1 && |replyRow| <= 1
    requires rest != [] ==> rest[0].dir == ClientToRadio
    requires echoRow != [] ==> echo && echoRow[0].dir == RadioToClient && echoRow[0].frame == request.frame
    requires replyRow != [] ==> replyRow[0].dir == RadioToClient
    requires replyRow != [] && echoRow == [] ==> replyRow[0].frame != request.frame
    ensures Paired([request] + (echoRow + (replyRow + rest)), echo)
            == [Pair(request.frame, if replyRow == [] then None else Some(replyRow[0].frame))] + Paired(rest, echo)
  {
    var rows := [request] + (echoRow + (replyRow + rest));
    assert rows[1..] == echoRow + (replyRow + rest);
    assert echoRow != [] ==> rows[1..][1..] == replyRow + rest;
    assert echoRow == [] ==> rows[1..] == replyRow + rest;
    assert replyRow != [] ==> (replyRow + rest)[1..] == rest;
    assert replyRow == [] ==> replyRow + rest == rest;
  }

  /** An echo row in the output shows the table that the transport echoes. */
  lemma {:induction false} EchoRowsEcho(cs: seq<Closed>, c: Closed)
    requires c in cs && c.item.kept && c.item.echoT.Some?
    ensures Echoes(Rows(cs))
  {
    var k :| 0 <= k < |cs| && cs[k] == c;
    assert cs == cs[..k] + ([c] + cs[k + 1..]);
    RowsAppend(cs[..k], [c] + cs[k + 1..]);
    RowsAppend([c], cs[k + 1..]);
    OneRow(c);
    var i := |Rows(cs[..k])| + 1;
    var rows := Rows(cs);
    assert rows[i - 1] == RowsOf(c)[0] && rows[i] == RowsOf(c)[1];
  }

  lemma {:induction false} RepliesAreRadioFrames(evs: seq<Timed>, radio: byte)
    requires AllWellFormed(evs) && radio != FD
    ensures forall c :: c in Walk(evs, radio).1 && c.reply.Some? ==> c.reply.value.dir == RadioToClient
  {
    if evs != [] {
      RepliesAreRadioFrames(evs[..|evs| - 1], radio);
    }
  }

  /** The cross-file round trip: for every interleaving of client and radio frames, the table
      built from the extracted rows learns exactly the pairs the extraction decided. An echo
      row is never taken for a reply, and no reply for an echo. */
  lemma PairingRoundTrip(evs: seq<Timed>, radio: byte)
    requires AllWellFormed(evs) && radio != FD
    ensures var rows := Rows(Closings(evs, radio));
            Paired(rows, Echoes(rows)) == Decided(Closings(evs, radio))
  {
    hide Walk;
    var cs := Closings(evs, radio);
    ClosingsEchoFirst(evs, radio);
    RepliesAreRadioFrames(evs, radio);
    forall c | c in cs && c.item.kept && c.item.echoT.Some?
      ensures Echoes(Rows(cs))
    {
      EchoRowsEcho(cs, c);
    }
    PairedRows(cs, Echoes(Rows(cs)));
  }

  /** End to end: the recording of a session whose decided requests have distinct bodies
      yields a table that answers each of them, first time asked, as the radio did. */
  lemma RecordingAnswersItself(evs: seq<Timed>, radio: byte, p: Pair)
    requires AllWellFormed(evs) && radio != FD
    requires DistinctBodies(Decided(Closings(evs, radio)))
    requires p in Decided(Closings(evs, radio)) && p.reply.Some?
    ensures var rows := Rows(Closings(evs, radio));
            Answer(LearnAll(EmptyTable, Paired(rows, Echoes(rows))), Body(p.req)).1 == Some(Body(p.reply.value))
  {
    PairingRoundTrip(evs, radio);
    LearnedRemembers(Decided(Closings(evs, radio)));
  }

  /** Re-assembled frames are always well formed, so extraction never meets a malformed one. */
  lemma RecordingsAreWellFormed(chunks: seq<Chunk>)
    ensures AllWellFormed(Completed(chunks))
  {
    CompletedWellFormed(chunks);
    var evs := Completed(chunks);
    assert forall i :: 0 <= i < |evs| ==> evs[i] in evs;
  }

  /** Re-assembly and extraction of a recording's raw chunks. */
  function ClosingsOf(chunks: seq<Chunk>, radio: byte): seq<Closed>
    requires radio != FD
  {
    RecordingsAreWellFormed(chunks);
    Closings(Completed(chunks), radio)
  }

  /** ... and from the raw chunks of the recording, however they split and join the frames. */
  lemma RawRecordingAnswersItself(chunks: seq<Chunk>, radio: byte, p: Pair)
    requires radio != FD && DistinctBodies(Decided(ClosingsOf(chunks, radio)))
    requires p in Decided(ClosingsOf(chunks, radio)) && p.reply.Some?
    ensures var rows := Rows(ClosingsOf(chunks, radio));
            Answer(LearnAll(EmptyTable, Paired(rows, Echoes(rows))), Body(p.req)).1 == Some(Body(p.reply.value))
    ensures Requests(Decided(ClosingsOf(chunks, radio))) == FirstSeen(Completed(chunks))
  {
    RecordingsAreWellFormed(chunks);
    RecordingAnswersItself(Completed(chunks), radio, p);
    EachRequestOnce(Completed(chunks), radio);
  }

  /** Byte for byte: when the client's request was addressed from the controller to this radio,
      the table learned from the recording answers it with the very frame the radio sent. */
  lemma RecordingAnswersFrames(evs: seq<Timed>, radio: byte, p: Pair)
    requires AllWellFormed(evs) && radio != FD
    requires DistinctBodies(Decided(Closings(evs, radio)))
    requires p in Decided(Closings(evs, radio)) && p.reply.Some?
    requires |p.req| >= 5 && p.req[2] == radio && p.req[3] == CONTROLLER
    ensures var rows := Rows(Closings(evs, radio));
            AnswerBytes(LearnAll(EmptyTable, Paired(rows, Echoes(rows))), p.req).1 == p.reply
  {
    var cs := Closings(evs, radio);
    var rows := Rows(cs);
    var t := LearnAll(EmptyTable, Paired(rows, Echoes(rows)));
    RecordingAnswersItself(evs, radio, p);
    hide Closings;
    hide LearnAll;
    hide Answer;
    ExtractedRowsAreEntries(evs, radio);
    DecidedAreClosed(cs, evs, radio, p);
    ReplyIsAddressedBack(t, p.req);
    FrameParts(p.reply.value);
    FrameIs(AnswerBytes(t, p.req).1.value, p.reply.value);
  }

  lemma {:induction false} DecidedAreClosed(cs: seq<Closed>, evs: seq<Timed>, radio: byte, p: Pair)
    requires AllWellFormed(evs) && (forall c :: c in cs ==> ClosedFrom(c, evs, radio)) && p in Decided(cs)
    ensures WellFormed(p.req)
    ensures p.reply.Some? ==> WellFormed(p.reply.value) && ToController(p.reply.value, radio)
  {
    if cs[0].item.kept && p == Decided(cs)[0] {
      assert ClosedFrom(cs[0], evs, radio);
      var i :| 0 <= i < |evs| && evs[i] == Timed(cs[0].item.t, ClientToRadio, cs[0].item.req);
      assert WellFormed(evs[i].frame);
      if p.reply.Some? {
        var j :| 0 <= j < |evs| && evs[j] == cs[0].reply.value;
        assert WellFormed(evs[j].frame);
      }
    } else {
      DecidedAreClosed(cs[1..], evs, radio, p);
    }
  }

  /** The rows show the transport echoing if and only if a request among them was echoed. */
  lemma EchoesIff(evs: seq<Timed>, radio: byte)
    requires AllWellFormed(evs) && radio != FD
    ensures Echoes(Rows(Closings(evs, radio)))
            <==> exists c :: c in Closings(evs, radio) && c.item.kept && c.item.echoT.Some?
  {
    hide Closings;
    var cs := Closings(evs, radio);
    if c :| c in cs && c.item.kept && c.item.echoT.Some? {
      EchoRowsEcho(cs, c);
    }
    ClosingsEchoFirst(evs, radio);
    if Echoes(Rows(cs)) {
      EchoRowsFrom(cs);
    }
  }

  lemma {:induction false} EchoRowsFrom(cs: seq<Closed>)
    requires (forall c :: c in cs ==> EchoFirst(c)) && Echoes(Rows(cs))
    ensures exists c :: c in cs && c.item.kept && c.item.echoT.Some?
  {
    if cs[0].item.kept && cs[0].item.echoT.Some? {
      assert cs[0] in cs;
    } else {
      assert EchoFirst(cs[0]);
      FirstRowIsRequest(cs[1..]);
      EchoesLater(RowsOf(cs[0]), Rows(cs[1..]));
      EchoRowsFrom(cs[1..]);
    }
  }

  /** A first request without an echo leaves the echo to the later ones. */
  lemma EchoesLater(one: seq<Row>, rest: seq<Row>)
    requires |one| <= 2 && (|one| == 2 ==> one[0].frame != one[1].frame)
    requires Echoes(one + rest) && (rest != [] ==> rest[0].dir == ClientToRadio)
    ensures Echoes(rest)
  {
    var rows := one + rest;
    var i :| 0 < i < |rows| && rows[i].dir == RadioToClient && rows[i - 1].dir == ClientToRadio
             && rows[i - 1].frame == rows[i].frame;
    assert rest[i - |one|] == rows[i] && rest[i - |one| - 1] == rows[i - 1];
  }

  lemma {:induction false} FirstRowIsRequest(cs: seq<Closed>)
    ensures Rows(cs) != [] ==> Rows(cs)[0].dir == ClientToRadio
  {
    if cs != [] {
      FirstRowIsRequest(cs[1..]);
    }
  }

  // ---- the table object --------------------------------------------------------------

  class RecordedAnswerTable {
    var echo: bool
    var registers: map<Bytes, Bytes>
    var fixed: map<Bytes, Bytes>
    var writes: set<Bytes>
    var acks: set<Bytes>
    var naks: set<Bytes>

    function Model(): Table
      reads this
    {
      Table(registers, fixed, writes, acks, naks)
    }

    constructor ()
      ensures Model() == EmptyTable && !echo
    {
      echo, registers, fixed, writes, acks, naks := false, map[], map[], {}, {}, {};
    }

    /** `_learn` */
    method LearnReply(request: Bytes, reply: Option<Bytes>)
      modifies this
      ensures Model() == LearnPair(old(Model()), Pair(request, reply)) && echo == old(echo)
    {
      if reply.None? {
        return;
      }
      var body, replyBody := Body(request), Body(reply.value);
      if replyBody == [ACK] {
        var key := LongestPrefix(registers.Keys, body);
        if key.None? {
          acks := acks + {body};
        } else {
          writes := writes + {key.value};
        }
      } else if replyBody == [NAK] {
        naks := naks + {body};
      } else if body <= replyBody {
        registers := registers[body := replyBody[|body|..]];
      } else {
        fixed := fixed[body := replyBody];
      }
    }

    /** `from_civ_pairs`, on the rows of one transport. */
    method FromRows(rows: seq<Row>)
      requires Model() == EmptyTable
      modifies this
      ensures echo == Echoes(rows) && Model() == LearnAll(EmptyTable, Paired(rows, Echoes(rows)))
    {
      hide LearnPair;
      hide Paired;
      echo := DetectEcho(rows);
      var index := 0;
      ghost var done: seq<Pair> := [];
      assert rows[0..] == rows;
      while index < |rows|
        invariant 0 <= index <= |rows| && echo == Echoes(rows)
        invariant Paired(rows, echo) == done + Paired(rows[index..], echo)
        invariant Model() == LearnAll(EmptyTable, done)
      {
        ghost var at := index;
        var row := rows[index];
        index := index + 1;
        if row.dir == ClientToRadio {
          if echo && index < |rows| && rows[index].dir == RadioToClient && rows[index].frame == row.frame {
            index := index + 1;
          }
          var reply := None;
          if index < |rows| && rows[index].dir == RadioToClient {
            reply := Some(rows[index].frame);
            index := index + 1;
          }
          LearnReply(row.frame, reply);
          ghost var p := Pair(row.frame, reply);
          PairedFrom(rows, at, index, echo, p);
          Associate(done, [p], Paired(rows[index..], echo));
          assert (done + [p])[..|done|] == done;
          done := done + [p];
        } else {
          PairedSkips(rows, at, echo);
        }
      }
      PairedEnds(rows, echo);
      assert done + [] == done;
    }

    /** `answer` */
    method AnswerFrame(frame: Bytes) returns (reply: Option<Bytes>)
      requires |frame| >= 4
      modifies `registers
      ensures (Model(), reply) == AnswerBytes(old(Model()), frame)
      ensures reply.Some? ==> |reply.value| >= 5 && reply.value[2] == frame[3] && reply.value[3] == frame[2]
    {
      var body := Body(frame);
      if body in naks {
        return Some(ReplyFrame(frame, [NAK]));
      }
      if body in fixed {
        return Some(ReplyFrame(frame, fixed[body]));
      }
      if body in registers {
        return Some(ReplyFrame(frame, body + registers[body]));
      }
      if body in acks {
        return Some(ReplyFrame(frame, [ACK]));
      }
      var key := LongestPrefix(writes, body);
      if key.Some? {
        PrefixBelowIs(writes, body, |body|);
        registers := registers[key.value := body[|key.value|..]];
        return Some(ReplyFrame(frame, [ACK]));
      }
      return None;
    }
  }

  /** Whether any radio row repeats the client row before it. */
  method DetectEcho(rows: seq<Row>) returns (echo: bool)
    ensures echo == Echoes(rows)
  {
    echo := false;
    for i := 0 to |rows|
      invariant echo == Echoes(rows[..i])
    {
      var now := i > 0 && rows[i].dir == RadioToClient && rows[i - 1].dir == ClientToRadio
                 && rows[i - 1].frame == rows[i].frame;
      EchoesSnoc(rows[..i], rows[i]);
      assert rows[..i + 1] == rows[..i] + [rows[i]];
      echo := echo || now;
    }
    assert rows[..|rows|] == rows;
  }

  lemma EchoesSnoc(init: seq<Row>, row: Row)
    ensures Echoes(init + [row])
            <==> Echoes(init) || (init != [] && row.dir == RadioToClient && init[|init| - 1].dir == ClientToRadio
                                  && init[|init| - 1].frame == row.frame)
  {
    var rows := init + [row];
    assert forall i :: 0 <= i < |init| ==> rows[i] == init[i];
    assert rows[|init|] == row;
  }

  lemma PairedSkips(rows: seq<Row>, at: nat, echo: bool)
    requires at < |rows| && rows[at].dir != ClientToRadio
    ensures Paired(rows[at..], echo) == Paired(rows[at + 1..], echo)
  {
    assert rows[at..][1..] == rows[at + 1..];
  }

  lemma PairedEnds(rows: seq<Row>, echo: bool)
    ensures Paired(rows[|rows|..], echo) == []
  {
  }

  /** One turn of the pairing loop, by indices. */
  lemma PairedFrom(rows: seq<Row>, at: nat, next: nat, echo: bool, p: Pair)
    requires at < next <= |rows| && rows[at].dir == ClientToRadio && p.req == rows[at].frame
    requires var e := if echo && at + 1 < |rows| && rows[at + 1].dir == RadioToClient
                         && rows[at + 1].frame == rows[at].frame then at + 2 else at + 1;
             if e < |rows| && rows[e].dir == RadioToClient then next == e + 1 && p.reply == Some(rows[e].frame)
             else next == e && p.reply == None
    ensures Paired(rows[at..], echo) == [p] + Paired(rows[next..], echo)
  {
    assert rows[at..][1..] == rows[at + 1..];
    assert at + 2 <= |rows| ==> rows[at + 1..][1..] == rows[at + 2..];
    assert at + 3 <= |rows| ==> rows[at + 2..][1..] == rows[at + 3..];
  }
}
