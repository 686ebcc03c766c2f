/** `extract_window`: trims a bridge recording to request/reply rows. Requests may be
    pipelined; the radio answers in order. */
module WindowExtract {
  import opened Wrappers
  import opened CivFraming
  import opened FrameReassembly

  const CONTROLLER: byte := 0xE0
  const ACK: byte := 0xFB
  const NAK: byte := 0xFA

  /** An outstanding request; `kept` when it is the first of its kind in the window. */
  datatype Item = Item(req: Bytes, kept: bool, t: int, echoT: Option<int>)

  /** A request that was closed, by a reply or by being passed over. */
  datatype Closed = Closed(item: Item, reply: Option<Timed>)

  datatype Row = Row(t: int, dir: Direction, frame: Bytes)

  datatype Pair = Pair(req: Bytes, reply: Option<Bytes>)

  datatype State = State(pending: seq<Item>, seen: set<Bytes>)

  /** The CI-V body: from the command byte to before the terminator, as a Python slice. */
  function Body(f: Bytes): Bytes {
    if |f| > 5 then f[4..|f| - 1] else []
  }

  // ---- pairing -----------------------------------------------------------------------

  /** First pending item at or after `from` whose request `p` accepts, or -1. */
  function FirstIndex(pending: seq<Item>, p: Bytes -> bool, from: nat): (r: int)
    ensures -1 <= r < |pending| && (r >= 0 ==> from <= r && p(pending[r].req))
    ensures forall i :: from <= i < |pending| && (r < 0 || i < r) ==> !p(pending[i].req)
    decreases |pending| - from
  {
    if from >= |pending| then -1
    else if p(pending[from].req) then from
    else FirstIndex(pending, p, from + 1)
  }

  predicate Extends(body: Bytes, req: Bytes) {
    Body(req) <= body
  }

  /** Same command and sub-command, either of which may be absent. */
  predicate SameCommand(body: Bytes, req: Bytes) {
    && (if body == [] then [] else [body[0]]) == (if Body(req) == [] then [] else [Body(req)[0]])
    && (if |body| < 2 then [] else [body[1]]) == (if |Body(req)| < 2 then [] else [Body(req)[1]])
  }

  /** Index of the pending request a radio frame closes, or -1. */
  function Match(pending: seq<Item>, frame: Bytes, radio: byte): (r: int)
    requires WellFormed(frame) && radio != FD
    ensures -1 <= r < |pending|
  {
    if frame[2] != CONTROLLER || |frame| < 5 || frame[3] != radio then -1
    else if frame[4] == ACK || frame[4] == NAK then (if pending == [] then -1 else 0)
    else
      var extended := FirstIndex(pending, (q: Bytes) => Extends(Body(frame), q), 0);
      if extended >= 0 then extended
      else FirstIndex(pending, (q: Bytes) => SameCommand(Body(frame), q), 0)
  }

  function EchoIndex(pending: seq<Item>, frame: Bytes): (r: int)
    ensures -1 <= r < |pending| && (r >= 0 ==> pending[r].req == frame)
    ensures forall i :: 0 <= i < |pending| && (r < 0 || i < r) ==> pending[i].req != frame
  {
    FirstIndex(pending, (q: Bytes) => q == frame, 0)
  }

  function Silent(items: seq<Item>): (r: seq<Closed>)
    ensures |r| == |items| && forall i :: 0 <= i < |r| ==> r[i] == Closed(items[i], None)
  {
    seq(|items|, i requires 0 <= i < |items| => Closed(items[i], None))
  }

  /** A scope wave frame is a stream, never a reply. */
  predicate IsWave(f: Bytes, radio: byte) {
    |f| > 9 && f[3] == radio && f[4] == 0x27 && f[5] == 0
  }

  /** One frame: the new state and the requests it closes, oldest first. */
  function Step(s: State, e: Timed, radio: byte): (State, seq<Closed>)
    requires WellFormed(e.frame) && radio != FD
  {
    match e.dir
    case Refused => (s, [])
    case ClientToRadio =>
      (State(s.pending + [Item(e.frame, e.frame !in s.seen, e.t, None)], s.seen + {e.frame}), [])
    case RadioToClient =>
      if IsWave(e.frame, radio) then (s, [])
      else
        var echoed := EchoIndex(s.pending, e.frame);
        if echoed >= 0 && s.pending[echoed].echoT.None? then
          (s.(pending := s.pending[echoed := s.pending[echoed].(echoT := Some(e.t))]), [])
        else
          var k := Match(s.pending, e.frame, radio);
          if k < 0 then (s, [])
          else (s.(pending := s.pending[k + 1..]),
                Silent(s.pending[..k]) + [Closed(s.pending[k], Some(e))])
  }

  function Head(b: Bytes): Bytes {
    if |b| <= 2 then b else b[..2]
  }

  /** Which request a frame to the controller closes, in bytes: the oldest, when it is an ACK or a
      NAK; else the first whose body it begins with; failing that, the first with the same
      first two bytes; and none when there is no such request. */
  lemma ClosesExactly(pending: seq<Item>, frame: Bytes, radio: byte)
    requires WellFormed(frame) && |frame| > 5 && radio != FD && frame[2] == CONTROLLER && frame[3] == radio
    ensures var k, body := Match(pending, frame, radio), frame[4..|frame| - 1];
            if frame[4] == 0xFB || frame[4] == 0xFA then k == if pending == [] then -1 else 0
            else if exists i :: 0 <= i < |pending| && Body(pending[i].req) <= body then
              && k >= 0 && Body(pending[k].req) <= body
              && forall i :: 0 <= i < k ==> !(Body(pending[i].req) <= body)
            else if exists i :: 0 <= i < |pending| && Head(Body(pending[i].req)) == Head(body) then
              && k >= 0 && Head(Body(pending[k].req)) == Head(body)
              && forall i :: 0 <= i < k ==> Head(Body(pending[i].req)) != Head(body)
            else k == -1
  {
    forall i | 0 <= i < |pending|
      ensures SameCommand(Body(frame), pending[i].req) <==> Head(Body(pending[i].req)) == Head(Body(frame))
    {
      SameHeads(Body(frame), pending[i].req);
    }
    hide SameCommand;
    hide Head;
  }

  lemma SameHeads(body: Bytes, req: Bytes)
    ensures SameCommand(body, req) <==> Head(Body(req)) == Head(body)
  {
    var q := Body(req);
    if Head(q) == Head(body) {
      assert |body| > 0 ==> Head(body)[0] == body[0];
      assert |q| > 0 ==> Head(q)[0] == q[0];
      assert |body| > 1 ==> Head(body)[1] == body[1];
      assert |q| > 1 ==> Head(q)[1] == q[1];
    }
  }

  /** Only a scope wave (command 27, sub-command 00, long enough for a header) is never a reply:
      anything else from the radio that extends the oldest request closes it. */
  lemma OnlyWavesPass(s: State, e: Timed, radio: byte)
    requires WellFormed(e.frame) && radio != FD && e.dir == RadioToClient
    requires |e.frame| > 5 && e.frame[2] == CONTROLLER && e.frame[3] == radio
    requires s.pending != [] && Body(s.pending[0].req) <= Body(e.frame)
    requires forall i :: 0 <= i < |s.pending| ==> s.pending[i].req != e.frame
    ensures var wave := |e.frame| > 9 && e.frame[4] == 0x27 && e.frame[5] == 0x00;
            Step(s, e, radio).1 == if wave then [] else [Closed(s.pending[0], Some(e))]
  {
    ClosesExactly(s.pending, e.frame, radio);
    hide Match;
    assert EchoIndex(s.pending, e.frame) < 0;
    assert Silent(s.pending[..0]) == [];
  }

  ghost predicate AllWellFormed(evs: seq<Timed>) {
    forall i :: 0 <= i < |evs| ==> WellFormed(evs[i].frame)
  }

  /** The state after a recording, and everything closed on the way. */
  function Walk(evs: seq<Timed>, radio: byte): (State, seq<Closed>)
    requires AllWellFormed(evs) && radio != FD
  {
    if evs == [] then (State([], {}), [])
    else
      var (s, closed) := Walk(evs[..|evs| - 1], radio);
      var (n, more) := Step(s, evs[|evs| - 1], radio);
      (n, closed + more)
  }

  /** Every request's fate: what is still pending at the end got nothing. */
  function Closings(evs: seq<Timed>, radio: byte): seq<Closed>
    requires AllWellFormed(evs) && radio != FD
  {
    var (s, closed) := Walk(evs, radio);
    closed + Silent(s.pending)
  }

  // ---- rows --------------------------------------------------------------------------

  /** The rows of one closed request: itself, its echo, its reply. */
  function RowsOf(c: Closed): seq<Row> {
    if !c.item.kept then []
    else
      [Row(c.item.t, ClientToRadio, c.item.req)]
      + (if c.item.echoT.Some? then [Row(c.item.echoT.value, RadioToClient, c.item.req)] else [])
      + (if c.reply.Some? then [Row(c.reply.value.t, RadioToClient, c.reply.value.frame)] else [])
  }

  function Rows(cs: seq<Closed>): seq<Row> {
    if cs == [] then [] else RowsOf(cs[0]) + Rows(cs[1..])
  }

  /** The pairs that were decided: kept requests with their reply or none. */
  function Decided(cs: seq<Closed>): seq<Pair> {
    if cs == [] then []
    else
      (if cs[0].item.kept then
         [Pair(cs[0].item.req, if cs[0].reply.Some? then Some(cs[0].reply.value.frame) else None)]
       else [])
      + Decided(cs[1..])
  }

  lemma {:induction false} RowsAppend(a: seq<Closed>, b: seq<Closed>)
    ensures Rows(a + b) == Rows(a) + Rows(b)
  {
    if a == [] {
      assert a + b == b;
    } else {
      assert (a + b)[1..] == a[1..] + b;
      RowsAppend(a[1..], b);
      Associate(RowsOf(a[0]), Rows(a[1..]), Rows(b));
    }
  }

  // ---- what every state keeps --------------------------------------------------------

  /** Pending requests were seen, and a kept one is the first of its kind in the queue. */
  ghost predicate Queued(s: State) {
    && (forall i :: 0 <= i < |s.pending| ==> s.pending[i].req in s.seen)
    && (forall i, j :: 0 <= i < j < |s.pending| && s.pending[j].kept ==> s.pending[i].req != s.pending[j].req)
  }

  /** A reply with the bytes of its own request was preceded by the echo. */
  ghost predicate EchoFirst(c: Closed) {
    c.item.kept && c.reply.Some? && c.reply.value.frame == c.item.req ==> c.item.echoT.Some?
  }

  lemma StepKeeps(s: State, e: Timed, radio: byte)
    requires WellFormed(e.frame) && radio != FD && Queued(s)
    ensures var (n, closed) := Step(s, e, radio);
            Queued(n) && forall c :: c in closed ==> EchoFirst(c)
  {
    hide Match;
    if e.dir == RadioToClient && !IsWave(e.frame, radio) {
      var echoed := EchoIndex(s.pending, e.frame);
      if echoed < 0 || s.pending[echoed].echoT.Some? {
        var k := Match(s.pending, e.frame, radio);
        if k >= 0 && s.pending[k].kept && s.pending[k].req == e.frame {
          assert echoed == k;
        }
      }
    }
  }

  lemma {:induction false} WalkKeeps(evs: seq<Timed>, radio: byte)
    requires AllWellFormed(evs) && radio != FD
    ensures Queued(Walk(evs, radio).0) && forall c :: c in Walk(evs, radio).1 ==> EchoFirst(c)
  {
    hide Step;
    if evs != [] {
      WalkKeeps(evs[..|evs| - 1], radio);
      StepKeeps(Walk(evs[..|evs| - 1], radio).0, evs[|evs| - 1], radio);
    }
  }

  /** The client frames, first occurrences only, in order. */
  function FirstSeen(evs: seq<Timed>): seq<Bytes> {
    if evs == [] then []
    else
      var init, e := FirstSeen(evs[..|evs| - 1]), evs[|evs| - 1];
      if e.dir == ClientToRadio && e.frame !in init then init + [e.frame] else init
  }

  function KeptItems(items: seq<Item>): seq<Bytes> {
    if items == [] then []
    else KeptItems(items[..|items| - 1])
         + if items[|items| - 1].kept then [items[|items| - 1].req] else []
  }

  function ItemsOf(cs: seq<Closed>): (r: seq<Item>)
    ensures |r| == |cs| && forall i :: 0 <= i < |r| ==> r[i] == cs[i].item
  {
    seq(|cs|, i requires 0 <= i < |cs| => cs[i].item)
  }

  /** The requests of the decided pairs, in emission order. */
  function Requests(pairs: seq<Pair>): (r: seq<Bytes>)
    ensures |r| == |pairs| && forall i :: 0 <= i < |r| ==> r[i] == pairs[i].req
  {
    seq(|pairs|, i requires 0 <= i < |pairs| => pairs[i].req)
  }

  lemma {:induction false} KeptItemsAppend(a: seq<Item>, b: seq<Item>)
    ensures KeptItems(a + b) == KeptItems(a) + KeptItems(b)
    decreases |b|
  {
    if b == [] {
      assert a + b == a;
    } else {
      var init := b[..|b| - 1];
      assert (a + b)[..|a + b| - 1] == a + init;
      KeptItemsAppend(a, init);
      Associate(KeptItems(a), KeptItems(init), if b[|b| - 1].kept then [b[|b| - 1].req] else []);
    }
  }

  lemma KeptItemsEcho(items: seq<Item>, k: nat, t: int)
    requires k < |items|
    ensures KeptItems(items[k := items[k].(echoT := Some(t))]) == KeptItems(items)
  {
    var items' := items[k := items[k].(echoT := Some(t))];
    assert items == items[..k] + [items[k]] + items[k + 1..];
    assert items' == items[..k] + [items'[k]] + items[k + 1..];
    KeptItemsAppend(items[..k] + [items[k]], items[k + 1..]);
    KeptItemsAppend(items[..k], [items[k]]);
    KeptItemsAppend(items[..k] + [items'[k]], items[k + 1..]);
    KeptItemsAppend(items[..k], [items'[k]]);
    assert [items[k]][..0] == [] && [items'[k]][..0] == [];
  }

  lemma OneKept(item: Item)
    ensures KeptItems([item]) == if item.kept then [item.req] else []
  {
    assert [item][..0] == [];
  }

  /** Requests enter and leave the queue in order. */
  lemma StepOrder(s: State, e: Timed, radio: byte)
    requires WellFormed(e.frame) && radio != FD
    ensures var (n, closed) := Step(s, e, radio);
            KeptItems(ItemsOf(closed) + n.pending)
            == KeptItems(s.pending) + if e.dir == ClientToRadio && e.frame !in s.seen then [e.frame] else []
    ensures Step(s, e, radio).0.seen == s.seen + if e.dir == ClientToRadio then {e.frame} else {}
  {
    hide Match;
    hide IsWave;
    hide KeptItems;
    var (n, closed) := Step(s, e, radio);
    if closed == [] {
      assert ItemsOf(closed) + n.pending == n.pending;
    }
    match e.dir
    case Refused =>
    case ClientToRadio =>
      var item := Item(e.frame, e.frame !in s.seen, e.t, None);
      KeptItemsAppend(s.pending, [item]);
      OneKept(item);
    case RadioToClient =>
      if !IsWave(e.frame, radio) {
        var echoed := EchoIndex(s.pending, e.frame);
        if echoed >= 0 && s.pending[echoed].echoT.None? {
          KeptItemsEcho(s.pending, echoed, e.t);
        } else if closed != [] {
          assert ItemsOf(closed) + n.pending == s.pending;
        }
      }
  }

  lemma {:induction false} WalkOrder(evs: seq<Timed>, radio: byte)
    requires AllWellFormed(evs) && radio != FD
    ensures var (s, closed) := Walk(evs, radio);
            && KeptItems(ItemsOf(closed) + s.pending) == FirstSeen(evs)
            && forall f :: f in s.seen <==> f in FirstSeen(evs)
  {
    hide Step;
    hide WellFormed;
    if evs == [] {
      assert ItemsOf([]) + [] == [];
    } else {
      var init, e := evs[..|evs| - 1], evs[|evs| - 1];
      WalkOrder(init, radio);
      var (s, closed) := Walk(init, radio);
      var (n, more) := Step(s, e, radio);
      StepOrder(s, e, radio);
      assert ItemsOf(closed + more) + n.pending == ItemsOf(closed) + (ItemsOf(more) + n.pending);
      KeptItemsAppend(ItemsOf(closed), ItemsOf(more) + n.pending);
      KeptItemsAppend(ItemsOf(closed), s.pending);
      Associate(KeptItems(ItemsOf(closed)), KeptItems(s.pending),
                if e.dir == ClientToRadio && e.frame !in s.seen then [e.frame] else []);
    }
  }

  lemma {:induction false} DecidedRequests(cs: seq<Closed>)
    ensures Requests(Decided(cs)) == KeptItems(ItemsOf(cs))
    decreases |cs|
  {
    if cs == [] {
      assert ItemsOf(cs) == [];
    } else {
      DecidedRequests(cs[1..]);
      assert ItemsOf(cs) == [cs[0].item] + ItemsOf(cs[1..]);
      KeptItemsAppend([cs[0].item], ItemsOf(cs[1..]));
      assert [cs[0].item][..0] == [];
    }
  }

  /** Every distinct client request is decided exactly once, in the order of first arrival,
      whatever the interleaving and the pairing. */
  lemma EachRequestOnce(evs: seq<Timed>, radio: byte)
    requires AllWellFormed(evs) && radio != FD
    ensures Requests(Decided(Closings(evs, radio))) == FirstSeen(evs)
  {
    hide Walk;
    hide Decided;
    hide KeptItems;
    hide FirstSeen;
    var (s, closed) := Walk(evs, radio);
    WalkOrder(evs, radio);
    DecidedRequests(closed + Silent(s.pending));
    assert ItemsOf(closed + Silent(s.pending)) == ItemsOf(closed) + s.pending;
  }

  lemma ClosingsEchoFirst(evs: seq<Timed>, radio: byte)
    requires AllWellFormed(evs) && radio != FD
    ensures forall c :: c in Closings(evs, radio) ==> EchoFirst(c)
  {
    WalkKeeps(evs, radio);
  }

  // ---- everything comes from the recording -------------------------------------------

  /** The request, its echo if any, are entries of the recording. */
  ghost predicate FromRecording(item: Item, evs: seq<Timed>) {
    && Timed(item.t, ClientToRadio, item.req) in evs
    && (item.echoT.Some? ==> Timed(item.echoT.value, RadioToClient, item.req) in evs)
  }

  /** The reply is an entry too, of this radio to the controller. */
  ghost predicate ClosedFrom(c: Closed, evs: seq<Timed>, radio: byte) {
    && FromRecording(c.item, evs)
    && (c.reply.Some? ==>
          c.reply.value in evs && c.reply.value.dir == RadioToClient && ToController(c.reply.value.frame, radio))
  }

  lemma {:induction false} WalkIsFrom(evs: seq<Timed>, radio: byte)
    requires AllWellFormed(evs) && radio != FD
    ensures var (s, closed) := Walk(evs, radio);
            && (forall item :: item in s.pending ==> FromRecording(item, evs))
            && (forall c :: c in closed ==> ClosedFrom(c, evs, radio))
  {
    hide Step;
    if evs != [] {
      var init, e := evs[..|evs| - 1], evs[|evs| - 1];
      WalkIsFrom(init, radio);
      var (s, closed) := Walk(init, radio);
      assert evs == init + [e];
      forall c | c in closed
        ensures ClosedFrom(c, evs, radio)
      {
        ClosedGrows(c, init, e, radio);
      }
      StepIsFrom(s, init, e, radio);
    }
  }

  lemma ClosedGrows(c: Closed, init: seq<Timed>, e: Timed, radio: byte)
    requires ClosedFrom(c, init, radio)
    ensures ClosedFrom(c, init + [e], radio)
  {
    FromGrows(c.item, init, e);
  }

  lemma FromGrows(item: Item, init: seq<Timed>, e: Timed)
    requires FromRecording(item, init)
    ensures FromRecording(item, init + [e])
  {
  }

  lemma StepIsFrom(s: State, init: seq<Timed>, e: Timed, radio: byte)
    requires WellFormed(e.frame) && radio != FD && forall item :: item in s.pending ==> FromRecording(item, init)
    ensures var (n, more) := Step(s, e, radio);
            && (forall item :: item in n.pending ==> FromRecording(item, init + [e]))
            && (forall c :: c in more ==> ClosedFrom(c, init + [e], radio))
  {
    hide FirstIndex;
    hide FromRecording;
    var evs := init + [e];
    forall item | item in s.pending
      ensures FromRecording(item, evs)
    {
      FromGrows(item, init, e);
    }
    var (n, more) := Step(s, e, radio);
    NewFrom(s, init, e);
    if e.dir == RadioToClient && more != [] {
      MatchAddressed(s.pending, e.frame, radio);
    }
    hide Match;
  }

  /** A new request, and a request that is echoed now. */
  lemma NewFrom(s: State, init: seq<Timed>, e: Timed)
    requires forall item :: item in s.pending ==> FromRecording(item, init)
    ensures e in init + [e]
    ensures e.dir == ClientToRadio ==> forall kept :: FromRecording(Item(e.frame, kept, e.t, None), init + [e])
    ensures e.dir == RadioToClient ==>
              forall item :: item in s.pending && item.req == e.frame ==>
                FromRecording(item.(echoT := Some(e.t)), init + [e])
  {
    assert e == Timed(e.t, e.dir, e.frame);
    assert e in init + [e];
  }

  lemma MatchAddressed(pending: seq<Item>, f: Bytes, radio: byte)
    requires WellFormed(f) && radio != FD && Match(pending, f, radio) >= 0
    ensures ToController(f, radio)
  {
  }

  /** Every row is an entry of the recording, with its time and direction. */
  lemma {:induction false} RowsAreEntries(cs: seq<Closed>, evs: seq<Timed>, radio: byte)
    requires forall c :: c in cs ==> ClosedFrom(c, evs, radio)
    ensures forall row :: row in Rows(cs) ==> Timed(row.t, row.dir, row.frame) in evs
  {
    if cs != [] {
      RowsAreEntries(cs[1..], evs, radio);
      assert ClosedFrom(cs[0], evs, radio);
      OneIsEntries(cs[0], evs, radio);
    }
  }

  lemma OneIsEntries(c: Closed, evs: seq<Timed>, radio: byte)
    requires ClosedFrom(c, evs, radio)
    ensures forall row :: row in RowsOf(c) ==> Timed(row.t, row.dir, row.frame) in evs
  {
    if c.reply.Some? {
      assert c.reply.value == Timed(c.reply.value.t, RadioToClient, c.reply.value.frame);
    }
  }

  lemma ExtractedRowsAreEntries(evs: seq<Timed>, radio: byte)
    requires AllWellFormed(evs) && radio != FD
    ensures forall row :: row in Rows(Closings(evs, radio)) ==> Timed(row.t, row.dir, row.frame) in evs
    ensures forall c :: c in Closings(evs, radio) ==> ClosedFrom(c, evs, radio)
  {
    WalkIsFrom(evs, radio);
    RowsAreEntries(Closings(evs, radio), evs, radio);
  }

  // ---- a radio, described without the walk -------------------------------------------

  /** What an entry of a recording is: a request of the client; the radio's echo of the k-th
      request, or its reply to it; a scope wave; anything else the radio sends; or a frame the
      recorder blocked. */
  datatype Label = Sent | Echoed(k: nat) | Replied(k: nat) | Waved | Unsolicited | Blocked

  /** A frame of this radio to the controller, with a command. */
  predicate ToController(f: Bytes, radio: byte) {
    |f| >= 5 && f[2] == CONTROLLER && f[3] == radio
  }

  /** The client frames of a recording, repeats included. */
  function ClientFrames(evs: seq<Timed>): seq<Bytes> {
    if evs == [] then []
    else
      var e := evs[|evs| - 1];
      ClientFrames(evs[..|evs| - 1]) + if e.dir == ClientToRadio then [e.frame] else []
  }

  /** The radio answers in order: requests before this one are over, answered or never to be. */
  function Over(labels: seq<Label>): nat {
    if labels == [] then 0
    else
      var l := labels[|labels| - 1];
      if l.Replied? then l.k + 1 else Over(labels[..|labels| - 1])
  }

  /** How a radio answers request `k` while those from `over` on are outstanding: an ACK or NAK
      is for the oldest; data extends the request's body and no older one's; or it extends no
      outstanding body and repeats the request's command and sub-command, and no older one's. */
  ghost predicate Answers(f: Bytes, requests: seq<Bytes>, over: nat, k: nat)
    requires |f| >= 5
  {
    && over <= k < |requests|
    && if f[4] == ACK || f[4] == NAK then k == over
       else if Extends(Body(f), requests[k]) then forall j :: over <= j < k ==> !Extends(Body(f), requests[j])
       else
         && SameCommand(Body(f), requests[k])
         && (forall j :: over <= j < |requests| ==> !Extends(Body(f), requests[j]))
         && (forall j :: over <= j < k ==> !SameCommand(Body(f), requests[j]))
  }

  ghost predicate Fits(e: Timed, l: Label, requests: seq<Bytes>, over: nat, radio: byte)
    requires WellFormed(e.frame)
  {
    match l
    case Sent => e.dir == ClientToRadio && !ToController(e.frame, radio)
    case Blocked => e.dir == Refused
    case Waved => e.dir == RadioToClient && IsWave(e.frame, radio)
    case Echoed(k) => e.dir == RadioToClient && k < |requests| && e.frame == requests[k]
    case Unsolicited => e.dir == RadioToClient && !ToController(e.frame, radio)
    case Replied(k) =>
      && e.dir == RadioToClient && ToController(e.frame, radio) && !IsWave(e.frame, radio)
      && Answers(e.frame, requests, over, k)
  }

  /** The labels describe the recording of a radio that answers in order. */
  ghost predicate Describes(labels: seq<Label>, evs: seq<Timed>, radio: byte)
    requires AllWellFormed(evs)
    decreases |evs|
  {
    && |labels| == |evs|
    && (evs != [] ==>
          var n := |evs| - 1;
          Describes(labels[..n], evs[..n], radio)
          && Fits(evs[n], labels[n], ClientFrames(evs[..n]), Over(labels[..n]), radio))
  }

  /** The entries labelled as replies, by the number of their request. */
  function RepliesOf(evs: seq<Timed>, labels: seq<Label>): map<nat, Timed>
    requires |labels| == |evs|
  {
    if evs == [] then map[]
    else
      var n := |evs| - 1;
      var before := RepliesOf(evs[..n], labels[..n]);
      if labels[n].Replied? then before[labels[n].k := evs[n]] else before
  }

  function Got(replies: map<nat, Timed>, k: nat): Option<Timed> {
    if k in replies then Some(replies[k]) else None
  }

  /** The queue holds the requests from `over` on. */
  ghost predicate Waiting(pending: seq<Item>, requests: seq<Bytes>, over: nat) {
    && over + |pending| == |requests|
    && forall k :: 0 <= k < |pending| ==> pending[k].req == requests[over + k]
  }

  /** A radio frame that is not addressed to the controller closes nothing. */
  lemma AsideStep(s: State, e: Timed, radio: byte)
    requires WellFormed(e.frame) && radio != FD
    requires e.dir == RadioToClient && (IsWave(e.frame, radio) || !ToController(e.frame, radio))
    ensures var (n, more) := Step(s, e, radio);
            more == [] && |n.pending| == |s.pending|
            && forall k :: 0 <= k < |s.pending| ==> n.pending[k].req == s.pending[k].req
  {
  }

  lemma MatchIs(pending: seq<Item>, f: Bytes, requests: seq<Bytes>, over: nat, k: nat, radio: byte)
    requires WellFormed(f) && radio != FD && ToController(f, radio)
    requires Waiting(pending, requests, over) && Answers(f, requests, over, k)
    ensures over <= k < over + |pending| && Match(pending, f, radio) == k - over
  {
    hide FirstIndex;
    hide Extends;
    hide SameCommand;
    assert pending[k - over].req == requests[k];
    assert forall j :: 0 <= j < |pending| ==> pending[j].req == requests[over + j];
  }

  /** The reply to request `k` closes it, and the requests it passes over, which got nothing. */
  lemma ReplyStep(s: State, e: Timed, requests: seq<Bytes>, over: nat, k: nat, radio: byte)
    requires WellFormed(e.frame) && radio != FD && Waiting(s.pending, requests, over)
    requires Fits(e, Replied(k), requests, over, radio)
    requires forall j :: 0 <= j < |requests| ==> !ToController(requests[j], radio)
    ensures over <= k < over + |s.pending|
    ensures Step(s, e, radio)
            == (s.(pending := s.pending[k + 1 - over..]),
                Silent(s.pending[..k - over]) + [Closed(s.pending[k - over], Some(e))])
  {
    hide Answers;
    MatchIs(s.pending, e.frame, requests, over, k, radio);
    hide Match;
    assert EchoIndex(s.pending, e.frame) < 0;
  }

  /** What is closed so far, and what is waited for. */
  ghost predicate PairedUp(s: State, closed: seq<Closed>, requests: seq<Bytes>, replies: map<nat, Timed>, radio: byte) {
    && Waiting(s.pending, requests, |closed|)
    && (forall k :: 0 <= k < |closed| ==>
          closed[k].item.req == requests[k] && closed[k].reply == Got(replies, k))
    && (forall k :: k in replies ==> k < |closed|)
    && (forall k :: 0 <= k < |requests| ==> !ToController(requests[k], radio))
  }

  lemma SentStep(s: State, closed: seq<Closed>, requests: seq<Bytes>, replies: map<nat, Timed>, e: Timed, radio: byte)
    requires PairedUp(s, closed, requests, replies, radio) && WellFormed(e.frame) && radio != FD
    requires e.dir == ClientToRadio && !ToController(e.frame, radio)
    ensures var (n, more) := Step(s, e, radio);
            more == [] && PairedUp(n, closed, requests + [e.frame], replies, radio)
  {
    hide ToController;
  }

  lemma AsideKeeps(s: State, closed: seq<Closed>, requests: seq<Bytes>, replies: map<nat, Timed>, e: Timed, radio: byte)
    requires PairedUp(s, closed, requests, replies, radio) && WellFormed(e.frame) && radio != FD
    requires e.dir == Refused
             || (e.dir == RadioToClient && (IsWave(e.frame, radio) || !ToController(e.frame, radio)))
    ensures var (n, more) := Step(s, e, radio);
            more == [] && PairedUp(n, closed, requests, replies, radio)
  {
    hide ToController;
    if e.dir == RadioToClient {
      AsideStep(s, e, radio);
      hide Step;
    }
  }

  lemma ReplyKeeps(s: State, closed: seq<Closed>, requests: seq<Bytes>, replies: map<nat, Timed>, e: Timed, k: nat, radio: byte)
    requires PairedUp(s, closed, requests, replies, radio) && WellFormed(e.frame) && radio != FD
    requires Fits(e, Replied(k), requests, |closed|, radio)
    ensures var (n, more) := Step(s, e, radio);
            |closed + more| == k + 1 && PairedUp(n, closed + more, requests, replies[k := e], radio)
  {
    hide Step;
    hide Fits;
    hide ToController;
    hide Silent;
    ReplyStep(s, e, requests, |closed|, k, radio);
    ReplyPairs(s, closed, requests, replies, e, k, radio);
  }

  lemma ReplyPairs(s: State, closed: seq<Closed>, requests: seq<Bytes>, replies: map<nat, Timed>, e: Timed, k: nat, radio: byte)
    requires PairedUp(s, closed, requests, replies, radio) && |closed| <= k < |closed| + |s.pending|
    ensures var p := k - |closed|;
            var all := closed + (Silent(s.pending[..p]) + [Closed(s.pending[p], Some(e))]);
            |all| == k + 1 && PairedUp(s.(pending := s.pending[p + 1..]), all, requests, replies[k := e], radio)
  {
    hide ToController;
    var p := k - |closed|;
    var more := Silent(s.pending[..p]) + [Closed(s.pending[p], Some(e))];
    var all := closed + more;
    forall j | 0 <= j < |all|
      ensures all[j].item.req == requests[j] && all[j].reply == Got(replies[k := e], j)
    {
      if j < |closed| {
        assert all[j] == closed[j];
      } else if j < k {
        assert all[j] == Closed(s.pending[j - |closed|], None);
      } else {
        assert all[j] == Closed(s.pending[p], Some(e));
      }
    }
  }

  /** What the walk has paired after a described recording. */
  ghost predicate PairedSoFar(evs: seq<Timed>, labels: seq<Label>, radio: byte)
    requires AllWellFormed(evs) && radio != FD && |labels| == |evs|
  {
    var (s, closed) := Walk(evs, radio);
    |closed| == Over(labels) && PairedUp(s, closed, ClientFrames(evs), RepliesOf(evs, labels), radio)
  }

  lemma {:induction false} RepliesFindTheirRequests(evs: seq<Timed>, labels: seq<Label>, radio: byte)
    requires AllWellFormed(evs) && radio != FD && Describes(labels, evs, radio)
    ensures PairedSoFar(evs, labels, radio)
    decreases |evs|
  {
    hide Step;
    hide PairedUp;
    hide ToController;
    hide Answers;
    if evs == [] {
      NothingPaired(radio);
    } else {
      var n := |evs| - 1;
      RepliesFindTheirRequests(evs[..n], labels[..n], radio);
      var (s, closed) := Walk(evs[..n], radio);
      var requests, replies := ClientFrames(evs[..n]), RepliesOf(evs[..n], labels[..n]);
      match labels[n]
      case Sent =>
        SentStep(s, closed, requests, replies, evs[n], radio);
        assert closed + [] == closed;
      case Replied(k) =>
        ReplyKeeps(s, closed, requests, replies, evs[n], k, radio);
        assert requests + [] == requests;
      case Echoed(k) =>
        EchoIsAside(s, closed, requests, replies, evs[n], k, radio);
        assert requests + [] == requests && closed + [] == closed;
        AsideKeeps(s, closed, requests, replies, evs[n], radio);
      case _ =>
        assert requests + [] == requests && closed + [] == closed;
        AsideKeeps(s, closed, requests, replies, evs[n], radio);
    }
  }

  lemma EchoIsAside(s: State, closed: seq<Closed>, requests: seq<Bytes>, replies: map<nat, Timed>, e: Timed, k: nat, radio: byte)
    requires PairedUp(s, closed, requests, replies, radio) && k < |requests| && e.frame == requests[k]
    ensures !ToController(e.frame, radio)
  {
  }

  lemma NothingPaired(radio: byte)
    ensures PairedUp(State([], {}), [], [], map[], radio)
  {
  }

  /** Pipelined requests and a radio that answers in order, with echoes, waves and unsolicited
      frames in between, and requests it never answers: the k-th request is closed with the
      radio's reply to it, or with none when there was none. */
  lemma EachGetsItsReply(evs: seq<Timed>, labels: seq<Label>, radio: byte)
    requires AllWellFormed(evs) && radio != FD && Describes(labels, evs, radio)
    ensures var cs := Closings(evs, radio);
            && |cs| == |ClientFrames(evs)|
            && forall k :: 0 <= k < |cs| ==>
                 cs[k].item.req == ClientFrames(evs)[k] && cs[k].reply == Got(RepliesOf(evs, labels), k)
  {
    hide Walk;
    hide PairedUp;
    hide Silent;
    RepliesFindTheirRequests(evs, labels, radio);
    var (s, closed) := Walk(evs, radio);
    PairedInTheEnd(s, closed, ClientFrames(evs), RepliesOf(evs, labels), radio);
  }

  lemma PairedInTheEnd(s: State, closed: seq<Closed>, requests: seq<Bytes>, replies: map<nat, Timed>, radio: byte)
    requires PairedUp(s, closed, requests, replies, radio)
    ensures var cs := closed + Silent(s.pending);
            && |cs| == |requests|
            && forall k :: 0 <= k < |cs| ==> cs[k].item.req == requests[k] && cs[k].reply == Got(replies, k)
  {
    hide ToController;
    var cs := closed + Silent(s.pending);
    forall k | 0 <= k < |cs|
      ensures cs[k].item.req == requests[k] && cs[k].reply == Got(replies, k)
    {
      if k >= |closed| {
        assert cs[k] == Silent(s.pending)[k - |closed|];
      }
    }
  }

  // ---- the loop ----------------------------------------------------------------------

  /** `emit_request` and the reply row. */
  method EmitClosed(rows: seq<Row>, item: Item, reply: Option<Timed>) returns (out: seq<Row>)
    ensures out == rows + RowsOf(Closed(item, reply))
  {
    out := rows;
    if item.kept {
      out := out + [Row(item.t, ClientToRadio, item.req)];
      if item.echoT.Some? {
        out := out + [Row(item.echoT.value, RadioToClient, item.req)];
      }
      if reply.Some? {
        out := out + [Row(reply.value.t, RadioToClient, reply.value.frame)];
      }
    }
  }

  /** The loop over requests that got nothing. */
  method EmitSilent(rows: seq<Row>, items: seq<Item>) returns (out: seq<Row>)
    ensures out == rows + Rows(Silent(items))
  {
    out := rows;
    for i := 0 to |items|
      invariant out == rows + Rows(Silent(items[..i]))
    {
      ghost var before := Silent(items[..i]);
      assert Silent(items[..i + 1]) == before + [Closed(items[i], None)];
      RowsAppend(before, [Closed(items[i], None)]);
      OneRow(Closed(items[i], None));
      Associate(rows, Rows(before), RowsOf(Closed(items[i], None)));
      out := EmitClosed(out, items[i], None);
    }
    assert items[..|items|] == items;
  }

  lemma OneRow(c: Closed)
    ensures Rows([c]) == RowsOf(c)
  {
    assert RowsOf(c) + [] == RowsOf(c);
    assert |[c][1..]| == 0;
  }

  /** Some request was echoed. */
  ghost predicate EchoSeen(pending: seq<Item>, closed: seq<Closed>) {
    (exists i :: 0 <= i < |pending| && pending[i].echoT.Some?)
    || (exists i :: 0 <= i < |closed| && closed[i].item.echoT.Some?)
  }

  lemma EchoStays(p: seq<Item>, c: seq<Closed>, q: seq<Item>, d: seq<Closed>)
    requires c == d && |p| < |q| && q[..|p|] == p && forall i :: |p| <= i < |q| ==> q[i].echoT.None?
    ensures EchoSeen(p, c) <==> EchoSeen(q, d)
  {
    assert forall i :: 0 <= i < |p| ==> q[i] == p[i];
  }

  lemma ClosingKeepsEcho(pending: seq<Item>, closed: seq<Closed>, k: nat, e: Timed)
    requires k < |pending|
    ensures EchoSeen(pending, closed)
            <==> EchoSeen(pending[k + 1..], closed + (Silent(pending[..k]) + [Closed(pending[k], Some(e))]))
  {
    var all := closed + (Silent(pending[..k]) + [Closed(pending[k], Some(e))]);
    var rest := pending[k + 1..];
    assert forall i :: 0 <= i < |closed| ==> all[i] == closed[i];
    assert forall i :: 0 <= i <= k ==> all[|closed| + i].item == pending[i];
    assert forall i :: 0 <= i < |rest| ==> rest[i] == pending[k + 1 + i];
    if i :| 0 <= i < |pending| && pending[i].echoT.Some? {
      if i <= k {
        assert all[|closed| + i].item.echoT.Some?;
      } else {
        assert rest[i - k - 1].echoT.Some?;
      }
    }
    if j :| 0 <= j < |all| && all[j].item.echoT.Some? {
      if j >= |closed| {
        assert pending[j - |closed|].echoT.Some?;
      }
    }
  }

  /** Chunks the recorder refused. */
  function RefusedCount(evs: seq<Timed>): nat {
    if evs == [] then 0
    else RefusedCount(evs[..|evs| - 1]) + if evs[|evs| - 1].dir == Refused then 1 else 0
  }

  class Extractor {
    const radio: byte
    var rows: seq<Row>
    var pending: seq<Item>
    var seen: set<Bytes>
    var echo: bool
    var blockedFrames: nat
    ghost var closed: seq<Closed>

    ghost predicate Valid()
      reads this
    {
      radio != FD && rows == Rows(closed) && (echo <==> EchoSeen(pending, closed))
    }

    constructor (radio: byte)
      requires radio != FD
      ensures Valid() && this.radio == radio && pending == [] && seen == {} && closed == []
      ensures !echo && blockedFrames == 0
    {
      this.radio := radio;
      rows, pending, seen, echo, blockedFrames, closed := [], [], {}, false, 0, [];
    }

    /** One turn of the loop. */
    method Frame(e: Timed)
      requires Valid() && WellFormed(e.frame)
      modifies this
      ensures Valid()
      ensures var (n, more) := Step(State(old(pending), old(seen)), e, radio);
              pending == n.pending && seen == n.seen && closed == old(closed) + more
      ensures blockedFrames == old(blockedFrames) + if e.dir == Refused then 1 else 0
    {
      hide Match;
      hide EchoIndex;
      hide IsWave;
      hide Rows;
      if e.dir == Refused {
        blockedFrames := blockedFrames + 1;
        return;
      }
      if e.dir == ClientToRadio {
        var kept := e.frame !in seen;
        seen := seen + {e.frame};
        pending := pending + [Item(e.frame, kept, e.t, None)];
        EchoStays(old(pending), closed, pending, closed);
        return;
      }
      if IsWave(e.frame, radio) {
        return;
      }
      var echoed := EchoIndex(pending, e.frame);
      if echoed >= 0 && pending[echoed].echoT.None? {
        echo := true;
        pending := pending[echoed := pending[echoed].(echoT := Some(e.t))];
        assert pending[echoed].echoT.Some?;
        return;
      }
      var k := Match(pending, e.frame, radio);
      if k < 0 {
        return;
      }
      Close(k, e);
    }

    /** Older requests got nothing; request `k` got `e`. */
    method Close(k: nat, e: Timed)
      requires Valid() && k < |pending|
      modifies `rows, `pending, `closed
      ensures Valid() && pending == old(pending)[k + 1..]
      ensures closed == old(closed) + (Silent(old(pending)[..k]) + [Closed(old(pending)[k], Some(e))])
    {
      ghost var silent, last := Silent(pending[..k]), Closed(pending[k], Some(e));
      rows := EmitSilent(rows, pending[..k]);
      rows := EmitClosed(rows, pending[k], Some(e));
      RowsAppend(closed, silent + [last]);
      RowsAppend(silent, [last]);
      OneRow(last);
      Associate(Rows(closed), Rows(silent), RowsOf(last));
      ClosingKeepsEcho(pending, closed, k, e);
      pending := pending[k + 1..];
      closed := closed + (silent + [last]);
    }
  }

  /** `extract_window`: the pair rows, whether the radio was seen to echo a request, and how
      many frames the recorder had blocked. */
  method ExtractWindow(evs: seq<Timed>, radio: byte) returns (rows: seq<Row>, echo: bool, blocked: nat)
    requires AllWellFormed(evs) && radio != FD
    ensures rows == Rows(Closings(evs, radio))
    ensures echo <==> exists c :: c in Closings(evs, radio) && c.item.echoT.Some?
    ensures blocked == RefusedCount(evs)
  {
    hide Step;
    hide EchoSeen;
    var x := new Extractor(radio);
    for i := 0 to |evs|
      invariant fresh(x) && x.Valid() && x.radio == radio && x.blockedFrames == RefusedCount(evs[..i])
      invariant (State(x.pending, x.seen), x.closed) == Walk(evs[..i], radio)
    {
      assert evs[..i + 1][..i] == evs[..i];
      x.Frame(evs[i]);
    }
    assert evs[..|evs|] == evs;
    RowsAppend(x.closed, Silent(x.pending));
    rows := EmitSilent(x.rows, x.pending);
    EchoOfClosings(x.pending, x.closed);
    echo, blocked := x.echo, x.blockedFrames;
  }

  lemma EchoOfClosings(pending: seq<Item>, closed: seq<Closed>)
    ensures EchoSeen(pending, closed) <==> exists c :: c in closed + Silent(pending) && c.item.echoT.Some?
  {
    var all := closed + Silent(pending);
    assert forall i :: 0 <= i < |closed| ==> all[i] == closed[i];
    assert forall i :: 0 <= i < |pending| ==> all[|closed| + i].item == pending[i];
    if i :| 0 <= i < |pending| && pending[i].echoT.Some? {
      assert all[|closed| + i] in all;
    }
    if i :| 0 <= i < |closed| && closed[i].item.echoT.Some? {
      assert all[i] in all;
    }
  }
}
