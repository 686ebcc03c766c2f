/** What the order theorems of one tracker mean for a session: the frames that are processed for
    a client, from the open that starts its tracker to the tracker's end, come in sequence. */
module SessionOrder {
  import opened Wrappers
  import opened SerialNumbers
  import G = GapTracker
  import GapOrder
  import opened Session
  import SessionFence

  // ---- one step ----------------------------------------------------------------------

  /** What an event of the session is for the tracker of `who`. */
  function Tracked(r: Radio, ev: Event, who: Identity): Option<G.Event> {
    if ev.GapLoop? then Some(G.Tick(G.Env(ev.at.pace, r.standby)))
    else if ev.Civ? && ev.from == who && Heard(r, ev) then
      var env := G.Env(ev.at.pace, r.standby);
      match ev.civ
      case Open(n) =>
        if r.fenced && !OpenAllowed(r, who) then None else Some(G.Arrive(env, n, G.Packet(G.OpenClose, [])))
      case Close(n) => Some(G.Arrive(env, n, G.Packet(G.OpenClose, [])))
      case CivIdle(n) => Some(G.Arrive(env, n, G.Packet(G.Idle, [])))
      case CivData(n, body) => if Fenced(r, who) then None else Some(G.Arrive(env, n, G.Packet(G.Data, body)))
      case _ => None
    else None
  }

  /** The frames of one identity. */
  function FramesFrom(ps: seq<Processed>, who: Identity): seq<Processed> {
    if ps == [] then [] else (if ps[0].from == who then [ps[0]] else []) + FramesFrom(ps[1..], who)
  }

  lemma {:induction false} FramesOfOne(ps: seq<Processed>, from: Identity, who: Identity)
    requires forall p :: p in ps ==> p.from == from
    ensures FramesFrom(ps, who) == if from == who then ps else []
  {
    if ps != [] {
      FramesOfOne(ps[1..], from, who);
      assert ps[0] in ps;
    }
  }

  /** The tracker's reaction to an event of the session. */
  function Reacts(t: G.Tracker, s: Settings, e: Option<G.Event>): G.Reaction {
    if e.None? then G.Reaction(t, [], []) else G.Step(t, s.gap, e.value)
  }

  /** A step of the session is a step of each living tracker, and what it processes for the
      tracker's client is the DATA among what the tracker consumes. */
  lemma StepTracks(r: Radio, s: Settings, ev: Event, who: Identity)
    requires who in r.trackers && who in Step(r, s, ev).radio.trackers
    ensures var q := Reacts(r.trackers[who], s, Tracked(r, ev, who));
            && Step(r, s, ev).radio.trackers[who] == q.tracker
            && FramesFrom(Step(r, s, ev).processed, who) == ProcessedOf(who, r.standby, q.consumed)
  {
    hide G.Accept;
    hide G.LoopTick;
    match ev
    case Ctrl(at, from, m) => SessionFence.CtrlServes(r, s, at.wall, from, m);
    case Civ(at, from, m) =>
      if Heard(r, ev) {
        CivTracks(r, s, at, from, m, who);
      }
    case GapLoop(at) => TickConsumesNothing(r.trackers[who], s.gap, G.Env(at.pace, r.standby));
    case _ =>
  }

  lemma TickConsumesNothing(t: G.Tracker, cfg: G.Config, env: G.Env)
    ensures G.LoopTick(t, cfg, env).consumed == []
  {
  }

  lemma TrackOne(r: Radio, s: Settings, pace: int, from: Identity, n: Seq, p: G.Packet, who: Identity)
    requires who in r.trackers
    ensures var o := Track(r, s, pace, from, n, p);
            var a := G.Accept(r.trackers[who], s.gap, G.Env(pace, r.standby), n, p);
            && who in o.radio.trackers
            && o.radio.trackers[who] == (if from == who then a.tracker else r.trackers[who])
            && FramesFrom(o.processed, who) == if from == who then ProcessedOf(who, r.standby, a.consumed) else []
  {
    hide G.Accept;
    FramesOfOne(Track(r, s, pace, from, n, p).processed, from, who);
  }

  lemma OpenTracks(r: Radio, s: Settings, at: Moment, from: Identity, n: Seq, who: Identity)
    requires who in r.trackers && Heard(r, Civ(at, from, Open(n)))
    ensures var o := HandleOpen(r, s, at, from, n);
            var q := Reacts(r.trackers[who], s, Tracked(r, Civ(at, from, Open(n)), who));
            && who in o.radio.trackers && o.radio.trackers[who] == q.tracker
            && FramesFrom(o.processed, who) == ProcessedOf(who, r.standby, q.consumed)
  {
    hide Track;
    hide G.Accept;
    if !(r.fenced && !OpenAllowed(r, from)) {
      TrackOne(SeedTracker(r.(civOwner := Some(from)), s, at.wall, from), s, at.pace, from, n,
               G.Packet(G.OpenClose, []), who);
    }
  }

  lemma CloseTracks(r: Radio, s: Settings, at: Moment, from: Identity, n: Seq, who: Identity)
    requires who in r.trackers && Heard(r, Civ(at, from, Close(n)))
    ensures var o := HandleClose(r, s, at, from, n);
            var q := Reacts(r.trackers[who], s, Tracked(r, Civ(at, from, Close(n)), who));
            && who in o.radio.trackers && o.radio.trackers[who] == q.tracker
            && FramesFrom(o.processed, who) == ProcessedOf(who, r.standby, q.consumed)
  {
    hide Track;
    hide G.Accept;
    var c := if s.singleOwner && r.owner.Some? && r.civOwner == Some(from)
             then RetireToken(Release(r, false)) else r;
    TrackOne(c, s, at.pace, from, n, G.Packet(G.OpenClose, []), who);
  }

  lemma CivTracks(r: Radio, s: Settings, at: Moment, from: Identity, m: CivMessage, who: Identity)
    requires who in r.trackers && Heard(r, Civ(at, from, m))
    ensures var o := HandleCiv(r, s, at, from, m);
            var q := Reacts(r.trackers[who], s, Tracked(r, Civ(at, from, m), who));
            && who in o.radio.trackers && o.radio.trackers[who] == q.tracker
            && FramesFrom(o.processed, who) == ProcessedOf(who, r.standby, q.consumed)
  {
    hide Track;
    hide G.Accept;
    match m
    case Open(n) => hide Tracked; OpenTracks(r, s, at, from, n, who);
    case Close(n) => hide Tracked; CloseTracks(r, s, at, from, n, who);
    case CivIdle(n) => TrackOne(r, s, at.pace, from, n, G.Packet(G.Idle, []), who);
    case CivData(n, body) => TrackOne(r, s, at.pace, from, n, G.Packet(G.Data, body), who);
    case _ =>
  }

  /** A tracker that starts without inherited state starts fresh, with the number of its open. */
  lemma StepStarts(r: Radio, s: Settings, ev: Event, who: Identity)
    requires who !in r.trackers && who in Step(r, s, ev).radio.trackers
    requires Step(r, s, ev).radio.trackers[who].frontier.None?
    ensures ev.Civ? && ev.civ.Open? && ev.from == who && Tracked(r, ev, who).Some?
    ensures var q := G.Step(G.Fresh, s.gap, Tracked(r, ev, who).value);
            && Step(r, s, ev).radio.trackers[who] == q.tracker
            && FramesFrom(Step(r, s, ev).processed, who) == ProcessedOf(who, r.standby, q.consumed) == []
  {
    match ev
    case Ctrl(at, from, m) => SessionFence.CtrlServes(r, s, at.wall, from, m);
    case Civ(at, from, m) =>
      if Heard(r, ev) {
        OpenStarts(r, s, at, from, m, who);
      }
    case _ =>
  }

  lemma OpenStarts(r: Radio, s: Settings, at: Moment, from: Identity, m: CivMessage, who: Identity)
    requires who !in r.trackers && Heard(r, Civ(at, from, m))
    requires who in HandleCiv(r, s, at, from, m).radio.trackers
    requires HandleCiv(r, s, at, from, m).radio.trackers[who].frontier.None?
    ensures m.Open? && from == who && !(r.fenced && !OpenAllowed(r, who))
    ensures var o := HandleCiv(r, s, at, from, m);
            var q := G.Accept(G.Fresh, s.gap, G.Env(at.pace, r.standby), m.number, G.Packet(G.OpenClose, []));
            && o.radio.trackers[who] == q.tracker
            && FramesFrom(o.processed, who) == ProcessedOf(who, r.standby, q.consumed) == []
  {
    hide Track;
    if m.Open? {
      var p := G.Packet(G.OpenClose, []);
      var o := SeedTracker(r.(civOwner := Some(from)), s, at.wall, from);
      if from == who && !(r.fenced && !OpenAllowed(r, who)) {
        TrackOne(o, s, at.pace, who, m.number, p, who);
        KeepsFrontier(o.trackers[who], s.gap, G.Env(at.pace, r.standby), m.number, p);
        SessionFence.NoDataNoProcess(who, r.standby, [G.Entry(m.number, p)]);
      }
    }
  }

  lemma KeepsFrontier(t: G.Tracker, cfg: G.Config, env: G.Env, n: Seq, p: G.Packet)
    ensures G.Accept(t, cfg, env, n, p).tracker.frontier == t.frontier
    ensures t == G.Fresh ==> G.Accept(t, cfg, env, n, p).consumed == [G.Entry(n, p)]
  {
    hide G.GateAhead;
  }

  // ---- runs --------------------------------------------------------------------------

  /** Event `i` starts a fresh tracker for `who`, which lives on at least until event `j`. */
  ghost predicate Lives(r0: Radio, s: Settings, evs: seq<Event>, who: Identity, i: nat, j: nat)
    requires i < j <= |evs|
  {
    && who !in Play(r0, s, evs, i).trackers
    && (forall k :: i < k <= j ==> who in Play(r0, s, evs, k).trackers)
    && Play(r0, s, evs, i + 1).trackers[who].frontier.None?
  }

  /** The events of the session as the tracker of `who` sees them. */
  function Seen(r0: Radio, s: Settings, evs: seq<Event>, who: Identity, i: nat, j: nat): seq<G.Event>
    requires i <= j <= |evs|
  {
    if i == j then []
    else
      var e := Tracked(Play(r0, s, evs, j - 1), evs[j - 1], who);
      Seen(r0, s, evs, who, i, j - 1) + if e.Some? then [e.value] else []
  }

  /** What the session processes for `who` from event `i` on. */
  function Frames(r0: Radio, s: Settings, evs: seq<Event>, who: Identity, i: nat, j: nat): seq<Processed>
    requires i <= j <= |evs|
  {
    if i == j then []
    else Frames(r0, s, evs, who, i, j - 1) + FramesFrom(At(r0, s, evs, j - 1).processed, who)
  }

  /** The DATA among some entries. */
  function DataOnly(es: seq<G.Entry>): seq<G.Entry> {
    if es == [] then [] else (if es[0].packet.kind == G.Data then [es[0]] else []) + DataOnly(es[1..])
  }

  function AsFrames(who: Identity, es: seq<G.Entry>): (r: seq<Processed>)
    ensures |r| == |es| && forall k :: 0 <= k < |r| ==> r[k] == Processed(who, es[k].packet.body)
  {
    seq(|es|, k requires 0 <= k < |es| => Processed(who, es[k].packet.body))
  }

  lemma {:induction false} ProcessedIsData(who: Identity, es: seq<G.Entry>)
    ensures ProcessedOf(who, false, es) == AsFrames(who, DataOnly(es))
  {
    if es != [] {
      ProcessedIsData(who, es[1..]);
    }
  }

  /** What the tracker of `who` consumed at event `k`. */
  function ConsumedAt(r0: Radio, s: Settings, evs: seq<Event>, who: Identity, i: nat, k: nat): seq<G.Entry>
    requires i <= k < |evs|
  {
    var r := Play(r0, s, evs, k);
    if who in r.trackers then Reacts(r.trackers[who], s, Tracked(r, evs[k], who)).consumed
    else Reacts(G.Fresh, s, Tracked(r, evs[k], who)).consumed
  }

  /** The entries behind the processed frames: what was consumed out of standby, DATA only. */
  function Handled(r0: Radio, s: Settings, evs: seq<Event>, who: Identity, i: nat, j: nat): seq<G.Entry>
    requires i <= j <= |evs|
  {
    if i == j then []
    else
      Handled(r0, s, evs, who, i, j - 1)
      + if Play(r0, s, evs, j - 1).standby then [] else DataOnly(ConsumedAt(r0, s, evs, who, i, j - 1))
  }

  /** The session's tracker is the run of a fresh tracker over what it sees; each event consumes
      what that run gains. */
  ghost predicate Follows(r0: Radio, s: Settings, evs: seq<Event>, who: Identity, i: nat, j: nat)
    requires i < j <= |evs|
  {
    var run := G.Run(G.Fresh, s.gap, Seen(r0, s, evs, who, i, j));
    && who in Play(r0, s, evs, j).trackers && Play(r0, s, evs, j).trackers[who] == run.tracker
    && run.consumed
       == G.Run(G.Fresh, s.gap, Seen(r0, s, evs, who, i, j - 1)).consumed + ConsumedAt(r0, s, evs, who, i, j - 1)
    && FramesFrom(At(r0, s, evs, j - 1).processed, who)
       == ProcessedOf(who, Play(r0, s, evs, j - 1).standby, ConsumedAt(r0, s, evs, who, i, j - 1))
  }

  lemma Play1(r0: Radio, s: Settings, evs: seq<Event>, j: nat)
    requires 0 < j <= |evs|
    ensures Play(r0, s, evs, j) == Step(Play(r0, s, evs, j - 1), s, evs[j - 1]).radio
    ensures At(r0, s, evs, j - 1) == Step(Play(r0, s, evs, j - 1), s, evs[j - 1])
  {
  }

  /** The step that starts the tracker. */
  lemma FollowsFirst(r0: Radio, s: Settings, evs: seq<Event>, who: Identity, i: nat)
    requires i < |evs| && Lives(r0, s, evs, who, i, i + 1)
    ensures Follows(r0, s, evs, who, i, i + 1)
  {
    hide Step;
    hide Tracked;
    hide FramesFrom;
    hide ProcessedOf;
    hide G.Step;
    var r, ev := Play(r0, s, evs, i), evs[i];
    Play1(r0, s, evs, i + 1);
    hide Play;
    StepStarts(r, s, ev, who);
    var e := Tracked(r, ev, who);
    G.RunSnoc(G.Fresh, s.gap, [], e.value);
    assert Seen(r0, s, evs, who, i, i + 1) == [] + [e.value];
  }

  /** Any later step. */
  lemma FollowsNext(r0: Radio, s: Settings, evs: seq<Event>, who: Identity, i: nat, j: nat)
    requires i + 1 < j <= |evs| && Follows(r0, s, evs, who, i, j - 1) && who in Play(r0, s, evs, j).trackers
    ensures Follows(r0, s, evs, who, i, j)
  {
    hide Step;
    hide Tracked;
    hide FramesFrom;
    hide ProcessedOf;
    hide G.Step;
    var r, ev := Play(r0, s, evs, j - 1), evs[j - 1];
    Play1(r0, s, evs, j);
    hide Play;
    hide G.Run;
    StepTracks(r, s, ev, who);
    var before, e := Seen(r0, s, evs, who, i, j - 1), Tracked(r, ev, who);
    var log := G.Run(G.Fresh, s.gap, before).consumed;
    assert before + [] == before && log + [] == log;
    if e.Some? {
      G.RunSnoc(G.Fresh, s.gap, before, e.value);
      assert Seen(r0, s, evs, who, i, j) == before + [e.value];
    } else {
      assert Seen(r0, s, evs, who, i, j) == before;
    }
  }

  lemma {:induction false} TrackerFollows(r0: Radio, s: Settings, evs: seq<Event>, who: Identity, i: nat, j: nat)
    requires i < j <= |evs| && Lives(r0, s, evs, who, i, j)
    ensures Follows(r0, s, evs, who, i, j)
    decreases j
  {
    hide Follows;
    hide Play;
    if j == i + 1 {
      FollowsFirst(r0, s, evs, who, i);
    } else {
      TrackerFollows(r0, s, evs, who, i, j - 1);
      FollowsNext(r0, s, evs, who, i, j);
    }
  }

  // ---- order -------------------------------------------------------------------------

  /** Sequence numbers strictly ascend from `f`, all of them below `c` past it. */
  ghost predicate Ascends(es: seq<G.Entry>, f: Seq, c: nat) {
    && (forall a :: 0 <= a < |es| ==> Distance(f, es[a].number) < c)
    && (forall a, b :: 0 <= a < b < |es| ==> Distance(f, es[a].number) < Distance(f, es[b].number))
  }

  lemma {:induction false} DataAmong(es: seq<G.Entry>)
    ensures forall d :: d in DataOnly(es) ==> d in es && d.packet.kind == G.Data
  {
    if es != [] {
      DataAmong(es[1..]);
    }
  }

  lemma {:induction false} DataAscends(es: seq<G.Entry>, f: Seq, c: nat)
    requires Ascends(es, f, c)
    ensures Ascends(DataOnly(es), f, c)
  {
    if es != [] {
      var rest := es[1..];
      RestAscends(es, f, c);
      DataAscends(rest, f, c);
      DataAmong(rest);
      hide Ascends;
      PrependAscends(es[0], DataOnly(rest), f, c);
      assert [] + DataOnly(rest) == DataOnly(rest);
    }
  }

  lemma RestAscends(es: seq<G.Entry>, f: Seq, c: nat)
    requires es != [] && Ascends(es, f, c)
    ensures Ascends(es[1..], f, c) && Distance(f, es[0].number) < c
    ensures forall d :: d in es[1..] ==> Distance(f, es[0].number) < Distance(f, d.number)
  {
    forall d | d in es[1..]
      ensures Distance(f, es[0].number) < Distance(f, d.number)
    {
      var k :| 0 <= k < |es[1..]| && es[1..][k] == d;
      assert es[k + 1] == d;
    }
  }

  lemma PrependAscends(e: G.Entry, es: seq<G.Entry>, f: Seq, c: nat)
    requires Ascends(es, f, c) && Distance(f, e.number) < c
    requires forall d :: d in es ==> Distance(f, e.number) < Distance(f, d.number)
    ensures Ascends([e] + es, f, c)
  {
    forall x, y | 0 <= x < y < |[e] + es|
      ensures Distance(f, ([e] + es)[x].number) < Distance(f, ([e] + es)[y].number)
    {
      assert es[y - 1] in es;
    }
  }

  lemma AscendsAppend(a: seq<G.Entry>, b: seq<G.Entry>, f: Seq, c: nat, c': nat)
    requires Ascends(a, f, c) && Ascends(b, f, c') && c <= c'
    requires forall e :: e in b ==> Distance(f, e.number) >= c
    ensures Ascends(a + b, f, c')
  {
    forall x, y | 0 <= x < y < |a + b|
      ensures Distance(f, (a + b)[x].number) < Distance(f, (a + b)[y].number)
    {
      if y >= |a| {
        assert b[y - |a|] in b;
      }
    }
  }

  /** A stretch of a gapless log ascends. */
  lemma StretchAscends(log: seq<G.Entry>, before: seq<G.Entry>, part: seq<G.Entry>, f: Seq)
    requires log == before + part && |log| < MODULUS && G.Numbers(log) == Span(f, |log|)
    ensures Ascends(part, f, |log|) && forall e :: e in part ==> Distance(f, e.number) >= |before|
  {
    forall k | 0 <= k < |part|
      ensures Distance(f, part[k].number) == |before| + k
    {
      assert log[|before| + k] == part[k];
      assert G.Numbers(log)[|before| + k] == Add(f, |before| + k);
    }
  }

  /** Every packet that the tracker of `who` sees lies within `n` of the open's number `f`. */
  ghost predicate WithinWindow(seen: seq<G.Event>, f: Seq, n: nat) {
    && seen != [] && seen[0].Arrive? && seen[0].number == f
    && forall k :: 0 <= k < |seen| && seen[k].Arrive? ==> Distance(f, seen[k].number) <= n
  }

  lemma LogIsGapless(cfg: G.Config, seen: seq<G.Event>, f: Seq, n: nat)
    requires n < HALF && WithinWindow(seen, f, n)
    ensures var log := G.Run(G.Fresh, cfg, seen).consumed;
            |log| <= n + 1 && G.Numbers(log) == Span(f, |log|)
  {
    GapOrder.ConsumedInOrder(cfg, seen, f, n);
    var log := G.Run(G.Fresh, cfg, seen).consumed;
    var numbers := G.Numbers(log);
    assert numbers <= Span(f, n + 1);
    assert numbers == Span(f, n + 1)[..|log|];
  }

  lemma OpenIsTracked(r: Radio, ev: Event, who: Identity)
    requires ev.Civ? && ev.civ.Open? && Tracked(r, ev, who).Some?
    ensures Tracked(r, ev, who).value.Arrive? && Tracked(r, ev, who).value.number == ev.civ.number
  {
  }

  lemma {:induction false} SeenStarts(r0: Radio, s: Settings, evs: seq<Event>, who: Identity, i: nat, j: nat)
    requires i < j <= |evs| && Lives(r0, s, evs, who, i, j)
    ensures var seen := Seen(r0, s, evs, who, i, j);
            seen != [] && seen[0].Arrive? && evs[i].Civ? && evs[i].civ.Open? && seen[0].number == evs[i].civ.number
    ensures j > i + 1 ==> Seen(r0, s, evs, who, i, j - 1) <= Seen(r0, s, evs, who, i, j)
    decreases j
  {
    hide Step;
    hide Tracked;
    if j == i + 1 {
      Play1(r0, s, evs, j);
      var r := Play(r0, s, evs, i);
      hide Play;
      StepStarts(r, s, evs[i], who);
      OpenIsTracked(r, evs[i], who);
      assert Seen(r0, s, evs, who, i, j) == [] + [Tracked(r, evs[i], who).value];
    } else {
      hide Play;
      SeenStarts(r0, s, evs, who, i, j - 1);
    }
  }

  lemma {:induction false} DataAppend(a: seq<G.Entry>, b: seq<G.Entry>)
    ensures DataOnly(a + b) == DataOnly(a) + DataOnly(b)
  {
    if a == [] {
      assert a + b == b;
    } else {
      assert (a + b)[1..] == a[1..] + b;
      DataAppend(a[1..], b);
    }
  }

  /** What was handled so far, in terms of the log of everything consumed so far. */
  ghost predicate Sequenced(handled: seq<G.Entry>, log: seq<G.Entry>, f: Seq) {
    && Ascends(handled, f, |log|)
    && forall d :: d in handled ==> d.packet.kind == G.Data && d in log
  }

  lemma HandleMore(handled: seq<G.Entry>, before: seq<G.Entry>, part: seq<G.Entry>, standby: bool, f: Seq)
    requires Sequenced(handled, before, f)
    requires |before + part| < MODULUS && G.Numbers(before + part) == Span(f, |before + part|)
    ensures Sequenced(handled + if standby then [] else DataOnly(part), before + part, f)
  {
    var log := before + part;
    StretchAscends(log, before, part, f);
    DataAscends(part, f, |log|);
    DataAmong(part);
    if standby {
      assert handled + [] == handled;
    } else {
      AscendsAppend(handled, DataOnly(part), f, |before|, |log|);
    }
  }

  ghost predicate InSequence(r0: Radio, s: Settings, evs: seq<Event>, who: Identity, i: nat, j: nat, f: Seq)
    requires i <= j <= |evs|
  {
    var handled := Handled(r0, s, evs, who, i, j);
    && Frames(r0, s, evs, who, i, j) == AsFrames(who, handled)
    && Sequenced(handled, G.Run(G.Fresh, s.gap, Seen(r0, s, evs, who, i, j)).consumed, f)
  }

  lemma NothingHandled(r0: Radio, s: Settings, evs: seq<Event>, who: Identity, i: nat, f: Seq)
    requires i <= |evs|
    ensures InSequence(r0, s, evs, who, i, i, f)
  {
  }

  lemma FramesAppend(who: Identity, handled: seq<G.Entry>, part: seq<G.Entry>, standby: bool)
    ensures AsFrames(who, handled) + ProcessedOf(who, standby, part)
            == AsFrames(who, handled + if standby then [] else DataOnly(part))
  {
    ProcessedIsData(who, part);
  }

  lemma InSequenceStep(r0: Radio, s: Settings, evs: seq<Event>, who: Identity, i: nat, j: nat, f: Seq)
    requires i < j <= |evs| && Follows(r0, s, evs, who, i, j) && InSequence(r0, s, evs, who, i, j - 1, f)
    requires var log := G.Run(G.Fresh, s.gap, Seen(r0, s, evs, who, i, j)).consumed;
             |log| < MODULUS && G.Numbers(log) == Span(f, |log|)
    ensures InSequence(r0, s, evs, who, i, j, f)
  {
    hide Step;
    hide FramesFrom;
    hide G.Run;
    hide ConsumedAt;
    hide Seen;
    hide At;
    hide Play;
    hide DataOnly;
    hide Sequenced;
    hide AsFrames;
    hide ProcessedOf;
    hide Span;
    hide G.Numbers;
    var before := G.Run(G.Fresh, s.gap, Seen(r0, s, evs, who, i, j - 1)).consumed;
    var part := ConsumedAt(r0, s, evs, who, i, j - 1);
    var standby := Play(r0, s, evs, j - 1).standby;
    var handled := Handled(r0, s, evs, who, i, j - 1);
    HandleMore(handled, before, part, standby, f);
    FramesAppend(who, handled, part, standby);
  }

  lemma {:induction false} SessionSequence(r0: Radio, s: Settings, evs: seq<Event>, who: Identity, i: nat, j: nat, f: Seq, n: nat)
    requires i < j <= |evs| && Lives(r0, s, evs, who, i, j) && n < HALF
    requires WithinWindow(Seen(r0, s, evs, who, i, j), f, n)
    ensures InSequence(r0, s, evs, who, i, j, f)
    decreases j
  {
    hide Step;
    hide InSequence;
    hide Follows;
    hide Seen;
    if j == i + 1 {
      NothingHandled(r0, s, evs, who, i, f);
    } else {
      SeenStarts(r0, s, evs, who, i, j);
      SeenStarts(r0, s, evs, who, i, j - 1);
      WindowOfPrefix(Seen(r0, s, evs, who, i, j - 1), Seen(r0, s, evs, who, i, j), f, n);
      SessionSequence(r0, s, evs, who, i, j - 1, f, n);
    }
    TrackerFollows(r0, s, evs, who, i, j);
    LogIsGapless(s.gap, Seen(r0, s, evs, who, i, j), f, n);
    InSequenceStep(r0, s, evs, who, i, j, f);
  }

  lemma WindowOfPrefix(a: seq<G.Event>, b: seq<G.Event>, f: Seq, n: nat)
    requires a != [] && a <= b && WithinWindow(b, f, n)
    ensures WithinWindow(a, f, n)
  {
    assert forall k :: 0 <= k < |a| ==> a[k] == b[k];
  }

  /** The main result for sessions: while the tracker that an open with number `f` started lives,
      and the client's packets stay within half the circle of `f`, the frames processed for the
      client are those of DATA packets it sent, with strictly ascending numbers, whatever the
      order, loss and repetition of the packets, the standby switch and everybody else's
      traffic. */
  lemma FramesInSequence(r0: Radio, s: Settings, evs: seq<Event>, who: Identity, i: nat, j: nat, f: Seq, n: nat)
    requires i < j <= |evs| && Lives(r0, s, evs, who, i, j) && n < HALF
    requires WithinWindow(Seen(r0, s, evs, who, i, j), f, n)
    ensures var seen := Seen(r0, s, evs, who, i, j);
            var handled := Handled(r0, s, evs, who, i, j);
            && Frames(r0, s, evs, who, i, j) == AsFrames(who, handled)
            && (forall a, b :: 0 <= a < b < |handled| ==>
                  Distance(f, handled[a].number) < Distance(f, handled[b].number))
            && (forall d :: d in handled ==> d.packet.kind == G.Data && GapOrder.CameIn(seen, d))
  {
    hide Lives;
    hide WithinWindow;
    hide Seen;
    hide Frames;
    hide Handled;
    hide GapOrder.CameIn;
    SessionSequence(r0, s, evs, who, i, j, f, n);
    GapOrder.OnlyArrivals(s.gap, Seen(r0, s, evs, who, i, j));
  }

  lemma {:induction false} AwakeHandlesAll(r0: Radio, s: Settings, evs: seq<Event>, who: Identity, i: nat, j: nat)
    requires i < j <= |evs| && Lives(r0, s, evs, who, i, j)
    requires forall k :: i <= k < j ==> !Play(r0, s, evs, k).standby
    ensures Handled(r0, s, evs, who, i, j) == DataOnly(G.Run(G.Fresh, s.gap, Seen(r0, s, evs, who, i, j)).consumed)
    decreases j
  {
    hide Step;
    hide DataOnly;
    hide ConsumedAt;
    hide Seen;
    hide G.Run;
    TrackerFollows(r0, s, evs, who, i, j);
    var before := G.Run(G.Fresh, s.gap, Seen(r0, s, evs, who, i, j - 1)).consumed;
    if j == i + 1 {
      NothingSeen(r0, s, evs, who, i);
    } else {
      AwakeHandlesAll(r0, s, evs, who, i, j - 1);
    }
    DataAppend(before, ConsumedAt(r0, s, evs, who, i, j - 1));
  }

  lemma NothingSeen(r0: Radio, s: Settings, evs: seq<Event>, who: Identity, i: nat)
    requires i <= |evs|
    ensures G.Run(G.Fresh, s.gap, Seen(r0, s, evs, who, i, i)).consumed == [] && DataOnly([]) == []
  {
  }

  /** ... and nothing is lost on the way: once all of f .. f+n came in, out of standby, the
      frames processed are those of all the DATA packets of a log whose numbers are exactly
      f, f+1, ..., f+n. */
  lemma AllFramesInSequence(r0: Radio, s: Settings, evs: seq<Event>, who: Identity, i: nat, j: nat, f: Seq, n: nat)
    requires i < j <= |evs| && Lives(r0, s, evs, who, i, j) && n < HALF
    requires WithinWindow(Seen(r0, s, evs, who, i, j), f, n)
    requires forall x: Seq :: Distance(f, x) <= n ==> x in GapOrder.Arrived(Seen(r0, s, evs, who, i, j))
    requires forall k :: i <= k < j ==> !Play(r0, s, evs, k).standby
    ensures var log := G.Run(G.Fresh, s.gap, Seen(r0, s, evs, who, i, j)).consumed;
            && Frames(r0, s, evs, who, i, j) == AsFrames(who, DataOnly(log))
            && G.Numbers(log) == Span(f, n + 1)
  {
    hide Lives;
    hide Seen;
    hide Frames;
    hide Handled;
    hide G.Run;
    SessionSequence(r0, s, evs, who, i, j, f, n);
    AwakeHandlesAll(r0, s, evs, who, i, j);
    GapOrder.OrderIndependence(s.gap, Seen(r0, s, evs, who, i, j), f, n);
  }
}
