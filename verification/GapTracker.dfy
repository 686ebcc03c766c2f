/** One CI-V client's sequence-gap tracker: the state of `_CivGapState` and what
    one packet, one drain and one tick of the 0.1 s loop do to it. */
module GapTracker {
  import opened Wrappers
  import opened SerialNumbers

  /** Minimum age of the previous round before a packet draws a new one (microseconds). */
  const ROUND_MIN_SPACING := 75_000
  /** Period of the fallback loop (microseconds). */
  const RETRANSMIT_PERIOD := 100_000

  datatype Kind = Idle | OpenClose | Data

  datatype Packet = Packet(kind: Kind, body: seq<byte>)

  /** A tracked packet that was consumed, under its number. */
  datatype Entry = Entry(number: Seq, packet: Packet)

  /** One retransmit round: when it went out and which numbers it asked for. */
  datatype Round = Round(at: int, asked: set<Seq>)

  /** `fillsPerRound` and `dropAfter` are the two knobs of inherited trackers (0 = off). */
  datatype Config = Config(fillsPerRound: int, dropAfter: int)

  /** What the outside contributes to a step: the clock, and the standby switch. */
  datatype Env = Env(now: int, standby: bool)

  /** `frontier` is None exactly for trackers that are not inherited. */
  datatype Tracker = Tracker(
    next: Option<Seq>,
    missing: set<Seq>,
    held: map<Seq, Packet>,
    lastRoundAt: Option<int>,
    frontier: Option<Seq>,
    armed: bool,
    fills: nat,
    unanswered: map<Seq, nat>)

  const Fresh := Tracker(None, {}, map[], None, None, false, 0, map[])

  /** The tracker an opener inherits from a kept orphan. */
  function Inherited(frontier: Seq, missing: set<Seq>): Tracker {
    Fresh.(next := Some(frontier), missing := missing, frontier := Some(frontier))
  }

  datatype Reaction = Reaction(tracker: Tracker, consumed: seq<Entry>, rounds: seq<Round>)

  /** `process`: the caller processes the packet itself and drains. */
  datatype Verdict = Verdict(process: bool, reaction: Reaction)

  /** The numbers marked missing when a gap of `delta` opens: those not held already. */
  function Opened(expected: Seq, delta: nat, held: map<Seq, Packet>): set<Seq> {
    set x: Seq | 0 <= x < MODULUS && Distance(expected, x) < delta && x !in held
  }

  /** Pop held packets from the expected number on, in order. */
  function DrainHeld(t: Tracker): (r: Reaction)
    requires t.next.Some?
    ensures r.tracker == t.(next := r.tracker.next, held := r.tracker.held)
    ensures r.tracker.next.Some? && r.rounds == []
    decreases |t.held|
  {
    var e := t.next.value;
    if e in t.held then
      var r := DrainHeld(t.(next := Some(Add(e, 1)), held := t.held - {e}));
      r.(consumed := [Entry(e, t.held[e])] + r.consumed)
    else
      Reaction(t, [], [])
  }

  /** Held packets are released only once nothing is missing. */
  function Drain(t: Tracker): (r: Reaction)
    requires t.next.Some?
    ensures r.tracker.next.Some? && r.rounds == []
    ensures r.tracker == t.(next := r.tracker.next, held := r.tracker.held)
  {
    if t.missing == {} then DrainHeld(t) else Reaction(t, [], [])
  }

  /** One retransmit round; standby tracks but never asks. */
  function SendRound(t: Tracker, env: Env): Reaction {
    if env.standby then Reaction(t, [], [])
    else Reaction(t.(lastRoundAt := Some(env.now)), [], [Round(env.now, t.missing)])
  }

  predicate RoundDue(t: Tracker, env: Env, spacing: int) {
    t.lastRoundAt.None? || env.now - t.lastRoundAt.value >= spacing
  }

  function RoundIfDue(t: Tracker, env: Env, spacing: int): Reaction {
    if RoundDue(t, env, spacing) then SendRound(t, env) else Reaction(t, [], [])
  }

  /** The first packet past the inherited frontier arms the loop rounds. */
  function Arm(t: Tracker, s: Seq): Tracker {
    if t.frontier.Some? && !t.armed && Ahead(t.frontier.value, s) then t.(armed := true) else t
  }

  predicate OverBudget(t: Tracker, cfg: Config, s: Seq) {
    s in t.missing && t.frontier.Some? && cfg.fillsPerRound > 0 && t.fills >= cfg.fillsPerRound
  }

  /** Mark or fill: what an ahead packet does to `missing`. */
  function Note(t: Tracker, s: Seq): Tracker
    requires t.next.Some?
  {
    if t.missing == {} then
      t.(missing := Opened(t.next.value, Distance(t.next.value, s), t.held))
    else if s in t.missing then
      t.(missing := t.missing - {s}, fills := t.fills + 1, unanswered := t.unanswered - {s})
    else t
  }

  function Hold(t: Tracker, s: Seq, p: Packet): Tracker {
    if s in t.held then t else t.(held := t.held[s := p])
  }

  /** A packet ahead of the expected number. */
  function GateAhead(t: Tracker, cfg: Config, env: Env, s: Seq, p: Packet): (r: Reaction)
    requires t.next.Some?
    ensures r.tracker.next.Some? && r.tracker.frontier == t.frontier && r.tracker.armed == t.armed
    ensures t.missing != {} ==> t.missing - {s} <= r.tracker.missing <= t.missing
  {
    if t.missing != {} && OverBudget(t, cfg, s) then Reaction(t, [], [])
    else
      var u := Hold(Note(t, s), s, p);
      if u.missing != {} then RoundIfDue(u, env, ROUND_MIN_SPACING) else Drain(u)
  }

  function Gate(t: Tracker, cfg: Config, env: Env, s: Seq, p: Packet): (v: Verdict)
    ensures v.reaction.tracker.next.Some?
    ensures v.process ==> v.reaction.consumed == [] && v.reaction.rounds == []
  {
    if t.next.None? then Verdict(true, Reaction(t.(next := Some(Add(s, 1))), [], []))
    else
      var e := t.next.value;
      var a := Arm(t, s);
      if s == e then
        Verdict(true, Reaction(a.(next := Some(Add(e, 1)), missing := a.missing - {s},
                                  unanswered := a.unanswered - {s}), [], []))
      else if Ahead(e, s) then
        Verdict(false, GateAhead(a, cfg, env, s, p))
      else
        Verdict(false, Reaction(a, [], []))
  }

  /** One tracked packet as every caller handles it: gate, and when the gate says so
      consume the packet and drain. */
  function Accept(t: Tracker, cfg: Config, env: Env, s: Seq, p: Packet): (r: Reaction)
    ensures r.tracker.next.Some?
  {
    var v := Gate(t, cfg, env, s, p);
    if v.process then
      var d := Drain(v.reaction.tracker);
      d.(consumed := [Entry(s, p)] + d.consumed)
    else v.reaction
  }

  /** Unanswered-round counts after one more tick. */
  function Counted(t: Tracker): map<Seq, nat> {
    map x | x in t.missing :: if x in t.unanswered then t.unanswered[x] + 1 else 1
  }

  /** The pacing window of an inherited tracker: budget reset, stale numbers dropped. */
  function PacingTick(t: Tracker, cfg: Config): Tracker {
    var u := t.(fills := 0);
    if cfg.dropAfter > 0 && t.missing != {} then
      var counts := Counted(t);
      var kept := set x | x in t.missing && counts[x] < cfg.dropAfter;
      u.(missing := kept, unanswered := map x | x in kept :: counts[x])
    else u
  }

  /** One tick of the 0.1 s loop for one tracker. */
  function LoopTick(t: Tracker, cfg: Config, env: Env): Reaction {
    if t.frontier.Some? && !t.armed then Reaction(t, [], [])
    else
      var u := if t.frontier.Some? then PacingTick(t, cfg) else t;
      if u.missing != {} then RoundIfDue(u, env, RETRANSMIT_PERIOD) else Reaction(u, [], [])
  }

  datatype Event =
    | Arrive(env: Env, number: Seq, packet: Packet)
    | Tick(env: Env)

  function Step(t: Tracker, cfg: Config, ev: Event): Reaction {
    match ev
    case Arrive(env, s, p) => Accept(t, cfg, env, s, p)
    case Tick(env) => LoopTick(t, cfg, env)
  }

  /** A whole run, latest event last. */
  function Run(t: Tracker, cfg: Config, evs: seq<Event>): Reaction
    decreases |evs|
  {
    if evs == [] then Reaction(t, [], [])
    else
      var before := Run(t, cfg, evs[..|evs| - 1]);
      var r := Step(before.tracker, cfg, evs[|evs| - 1]);
      Reaction(r.tracker, before.consumed + r.consumed, before.rounds + r.rounds)
  }

  lemma RunSnoc(t: Tracker, cfg: Config, evs: seq<Event>, ev: Event)
    ensures var before := Run(t, cfg, evs);
            var r := Step(before.tracker, cfg, ev);
            Run(t, cfg, evs + [ev])
            == Reaction(r.tracker, before.consumed + r.consumed, before.rounds + r.rounds)
  {
    assert (evs + [ev])[..|evs|] == evs;
  }

  function Numbers(es: seq<Entry>): (r: seq<Seq>)
    ensures |r| == |es|
    ensures forall i :: 0 <= i < |es| ==> r[i] == es[i].number
  {
    seq(|es|, i requires 0 <= i < |es| => es[i].number)
  }
}
