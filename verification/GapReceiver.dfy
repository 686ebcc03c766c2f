/** The tracker as the simulator keeps it: a mutable object, updated in place by the gate,
    the drain and the 0.1 s loop. Every method is proved against the step functions of
    `GapTracker`, which the run theorems are about. */
module GapReceiver {
  import opened Wrappers
  import opened SerialNumbers
  import opened GapTracker

  class Receiver {
    var next: Option<Seq>
    var missing: set<Seq>
    var held: map<Seq, Packet>
    var lastRoundAt: Option<int>
    var frontier: Option<Seq>
    var armed: bool
    var fills: nat
    var unanswered: map<Seq, nat>

    function Model(): Tracker
      reads this
    {
      Tracker(next, missing, held, lastRoundAt, frontier, armed, fills, unanswered)
    }

    constructor ()
      ensures Model() == Fresh
    {
      next, missing, held, lastRoundAt := None, {}, map[], None;
      frontier, armed, fills, unanswered := None, false, 0, map[];
    }

    /** Seeded from a kept orphan: frontier and gap list, nothing held. */
    constructor Inherit(from: Seq, gaps: set<Seq>)
      ensures Model() == Inherited(from, gaps)
    {
      next, missing, held, lastRoundAt := Some(from), gaps, map[], None;
      frontier, armed, fills, unanswered := Some(from), false, 0, map[];
    }

    /** `_civ_gap_drain` */
    method DrainPackets() returns (consumed: seq<Entry>)
      requires next.Some?
      modifies this
      ensures Reaction(Model(), consumed, []) == Drain(old(Model()))
    {
      consumed := [];
      if missing != {} {
        return;
      }
      ghost var start := Model();
      while next.value in held
        invariant next.Some? && missing == {}
        invariant Model() == start.(next := next, held := held)
        invariant DrainHeld(start).tracker == DrainHeld(Model()).tracker
        invariant DrainHeld(start).consumed == consumed + DrainHeld(Model()).consumed
        decreases |held|
      {
        var e := next.value;
        consumed := consumed + [Entry(e, held[e])];
        held := held - {e};
        next := Some(Add(e, 1));
      }
    }

    /** `_civ_gap_send_round` */
    method Ask(env: Env) returns (rounds: seq<Round>)
      modifies `lastRoundAt
      ensures Reaction(Model(), [], rounds) == SendRound(old(Model()), env)
    {
      rounds := [];
      if !env.standby {
        lastRoundAt := Some(env.now);
        rounds := [Round(env.now, missing)];
      }
    }

    /** The loop that opens a gap: numbers already held are never marked. */
    method OpenGap(expected: Seq, delta: nat)
      requires delta < MODULUS
      modifies `missing
      ensures missing == old(missing) + Opened(expected, delta, held)
    {
      for off := 0 to delta
        invariant missing == old(missing) + Opened(expected, off, held)
      {
        var n := Add(expected, off);
        assert forall x: Seq :: Distance(expected, x) < off + 1 <==> Distance(expected, x) < off || x == n;
        if n !in held {
          missing := missing + {n};
        }
      }
    }

    /** The ahead branch of `_civ_gap_gate`. */
    method GateAheadPacket(cfg: Config, env: Env, s: Seq, p: Packet)
      returns (consumed: seq<Entry>, rounds: seq<Round>)
      requires next.Some?
      modifies this
      ensures Reaction(Model(), consumed, rounds) == GateAhead(old(Model()), cfg, env, s, p)
    {
      consumed, rounds := [], [];
      if missing != {} {
        var isFill := s in missing;
        if isFill && frontier.Some? && cfg.fillsPerRound > 0 && fills >= cfg.fillsPerRound {
          return;
        }
        if isFill {
          missing := missing - {s};
          fills := fills + 1;
          unanswered := unanswered - {s};
        }
      } else {
        OpenGap(next.value, Distance(next.value, s));
      }
      assert Model() == Note(old(Model()), s);
      if s !in held {
        held := held[s := p];
      }
      if missing != {} {
        if lastRoundAt.None? || env.now - lastRoundAt.value >= ROUND_MIN_SPACING {
          rounds := Ask(env);
        }
      } else {
        consumed := DrainPackets();
      }
    }

    /** `_civ_gap_gate`; `process` tells the caller to process the packet and then drain. */
    method GatePacket(cfg: Config, env: Env, s: Seq, p: Packet)
      returns (process: bool, consumed: seq<Entry>, rounds: seq<Round>)
      modifies this
      ensures Verdict(process, Reaction(Model(), consumed, rounds)) == Gate(old(Model()), cfg, env, s, p)
    {
      process, consumed, rounds := false, [], [];
      if next.None? {
        next := Some(Add(s, 1));
        return true, [], [];
      }
      var e := next.value;
      if frontier.Some? && !armed && Ahead(frontier.value, s) {
        armed := true;
      }
      if s == e {
        missing := missing - {s};
        unanswered := unanswered - {s};
        next := Some(Add(e, 1));
        process := true;
      } else if Ahead(e, s) {
        consumed, rounds := GateAheadPacket(cfg, env, s, p);
      }
    }

    /** Gate, then consume and drain, as the idle, OpenClose and DATA branches all do. */
    method AcceptPacket(cfg: Config, env: Env, s: Seq, p: Packet)
      returns (consumed: seq<Entry>, rounds: seq<Round>)
      modifies this
      ensures Reaction(Model(), consumed, rounds) == Accept(old(Model()), cfg, env, s, p)
      ensures next.Some?
    {
      var process;
      process, consumed, rounds := GatePacket(cfg, env, s, p);
      if process {
        var drained := DrainPackets();
        consumed := [Entry(s, p)] + drained;
      }
    }

    /** Count one more unanswered round for every missing number. */
    method CountRound()
      modifies `unanswered
      ensures forall x :: x in missing ==> x in unanswered && unanswered[x] == Counted(old(Model()))[x]
    {
      var todo := missing;
      while todo != {}
        invariant todo <= missing
        invariant forall x :: x in todo ==> (x in unanswered <==> x in old(unanswered))
        invariant forall x :: x in todo && x in unanswered ==> unanswered[x] == old(unanswered)[x]
        invariant forall x :: x in missing - todo ==>
                    x in unanswered && unanswered[x] == Counted(old(Model()))[x]
        decreases |todo|
      {
        var x :| x in todo;
        unanswered := unanswered[x := (if x in unanswered then unanswered[x] else 0) + 1];
        todo := todo - {x};
      }
    }

    /** The tracker's share of one tick of `_civ_gap_loop`. */
    method TickLoop(cfg: Config, env: Env) returns (rounds: seq<Round>)
      modifies this
      ensures Reaction(Model(), [], rounds) == LoopTick(old(Model()), cfg, env)
    {
      rounds := [];
      if frontier.Some? && !armed {
        return;
      }
      if frontier.Some? {
        fills := 0;
        if cfg.dropAfter > 0 && missing != {} {
          CountRound();
          var dropped := set x | x in missing && unanswered[x] >= cfg.dropAfter;
          missing := missing - dropped;
          unanswered := map x | x in unanswered && x in missing :: unanswered[x];
        }
        assert Model() == PacingTick(old(Model()), cfg);
      }
      if missing != {} {
        if lastRoundAt.None? || env.now - lastRoundAt.value >= RETRANSMIT_PERIOD {
          rounds := Ask(env);
        }
      }
    }
  }
}
