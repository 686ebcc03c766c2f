/** Pacing of the retransmit rounds, in every run of one tracker. */
module GapPacing {
  import opened Wrappers
  import opened SerialNumbers
  import opened GapTracker
  import opened GapInvariant

  /** Rounds are spaced, and `last` is the time of the latest one. */
  ghost predicate Paced(rounds: seq<Round>, last: Option<int>) {
    && (rounds == [] <==> last.None?)
    && (last.Some? ==> rounds[|rounds| - 1].at == last.value)
    && (forall i :: 1 <= i < |rounds| ==> rounds[i].at - rounds[i - 1].at >= ROUND_MIN_SPACING)
  }

  /** A step sends at most one round: for the numbers missing afterwards, never in standby,
      and no closer than the minimum spacing to the round before (a loop tick waits longer). */
  lemma StepRounds(t: Tracker, cfg: Config, ev: Event)
    ensures var r := Step(t, cfg, ev);
            && |r.rounds| <= 1
            && (r.rounds == [] ==> r.tracker.lastRoundAt == t.lastRoundAt)
            && (r.rounds != [] ==>
                  && r.rounds[0] == Round(ev.env.now, r.tracker.missing) && r.tracker.missing != {}
                  && r.tracker.lastRoundAt == Some(ev.env.now) && !ev.env.standby
                  && (t.lastRoundAt.Some? ==>
                        ev.env.now - t.lastRoundAt.value
                        >= if ev.Tick? then RETRANSMIT_PERIOD else ROUND_MIN_SPACING))
  {
    hide Opened;
    hide DrainHeld;
    hide Counted;
  }

  lemma {:induction false} RunIsPaced(t: Tracker, cfg: Config, evs: seq<Event>)
    requires t.lastRoundAt.None?
    ensures Paced(Run(t, cfg, evs).rounds, Run(t, cfg, evs).tracker.lastRoundAt)
    decreases |evs|
  {
    if evs != [] {
      var init, ev := evs[..|evs| - 1], evs[|evs| - 1];
      RunIsPaced(t, cfg, init);
      StepRounds(Run(t, cfg, init).tracker, cfg, ev);
    }
  }

  lemma {:induction false} SpacingAdds(rounds: seq<Round>, last: Option<int>, i: nat, j: nat)
    requires Paced(rounds, last) && i <= j < |rounds|
    ensures rounds[j].at - rounds[i].at >= ROUND_MIN_SPACING * (j - i)
    decreases j
  {
    if i < j {
      SpacingAdds(rounds, last, i, j - 1);
    }
  }

  /** However packets and loop ticks interleave, any `k + 1` rounds to one tracker span at
      least `k` times 75 ms; the clock need not even be monotone. */
  lemma RoundRate(t: Tracker, cfg: Config, evs: seq<Event>, i: nat, j: nat)
    requires t.lastRoundAt.None? && i <= j < |Run(t, cfg, evs).rounds|
    ensures Run(t, cfg, evs).rounds[j].at - Run(t, cfg, evs).rounds[i].at >= ROUND_MIN_SPACING * (j - i)
  {
    RunIsPaced(t, cfg, evs);
    SpacingAdds(Run(t, cfg, evs).rounds, Run(t, cfg, evs).tracker.lastRoundAt, i, j);
  }

  /** How old the latest round may be when an event leaves a gap open. */
  function Patience(ev: Event): int {
    if ev.Tick? then RETRANSMIT_PERIOD else ROUND_MIN_SPACING
  }

  /** Events that ask: a loop tick of a tracker that is not waiting to be armed, and a packet
      ahead of the expected number that the fill budget does not drop. */
  ghost predicate Asks(t: Tracker, cfg: Config, ev: Event) {
    && !ev.env.standby
    && (ev.Tick? ==> t.frontier.None? || t.armed)
    && (ev.Arrive? ==> t.next.Some? && Ahead(t.next.value, ev.number) && !OverBudget(t, cfg, ev.number))
  }

  lemma StepAsks(t: Tracker, cfg: Config, ev: Event)
    requires Asks(t, cfg, ev) && Step(t, cfg, ev).tracker.missing != {}
    ensures var r := Step(t, cfg, ev);
            r.tracker.lastRoundAt.Some? && ev.env.now - r.tracker.lastRoundAt.value < Patience(ev)
  {
    hide Opened;
    hide DrainHeld;
  }

  /** The partner of the spacing: in every run, an event that asks and leaves a gap open finds
      a round younger than its patience, or sends one: no open gap goes unasked. */
  lemma GapIsAsked(t: Tracker, cfg: Config, evs: seq<Event>, ev: Event)
    requires t.lastRoundAt.None? && Asks(Run(t, cfg, evs).tracker, cfg, ev)
    requires Run(t, cfg, evs + [ev]).tracker.missing != {}
    ensures var rounds := Run(t, cfg, evs + [ev]).rounds;
            rounds != [] && ev.env.now - rounds[|rounds| - 1].at < Patience(ev)
  {
    RunSnoc(t, cfg, evs, ev);
    StepAsks(Run(t, cfg, evs).tracker, cfg, ev);
    RunIsPaced(t, cfg, evs + [ev]);
  }

  // ---- inherited trackers ------------------------------------------------------------

  ghost predicate Brings(ev: Event, n: Seq) {
    ev.Arrive? && ev.number == n
  }

  /** Some packet strictly past the frontier arrived. */
  ghost predicate PastFrontier(evs: seq<Event>, f: Seq) {
    exists i :: 0 <= i < |evs| && evs[i].Arrive? && Ahead(f, evs[i].number)
  }

  ghost predicate FrontierArrived(evs: seq<Event>, f: Seq) {
    exists i :: 0 <= i < |evs| && Brings(evs[i], f)
  }

  /** The frontier number arrived, and later, out of standby, the number half the circle
      past it: behind the frontier by the comparison, ahead of the number expected then. */
  ghost predicate Antipode(evs: seq<Event>, f: Seq) {
    exists i, j :: 0 <= i < j < |evs| && Brings(evs[i], f)
                   && Brings(evs[j], Add(f, HALF)) && !evs[j].env.standby
  }

  ghost predicate Silent(r: Reaction, evs: seq<Event>, f: Seq, missing: set<Seq>) {
    var t := r.tracker;
    && Sound(t) && t.frontier == Some(f) && !t.armed
    && t.next == Some(if FrontierArrived(evs, f) then Add(f, 1) else f)
    && t.held.Keys <= {Add(f, HALF)}
    && (!FrontierArrived(evs, f) ==> t.held == map[] && t.missing == missing)
    && (r.rounds == [] ==> t.lastRoundAt.None?)
    && (r.rounds != [] <==> Antipode(evs, f))
  }

  lemma FrontierArrivedSnoc(init: seq<Event>, ev: Event, f: Seq)
    ensures FrontierArrived(init + [ev], f) <==> FrontierArrived(init, f) || Brings(ev, f)
    ensures PastFrontier(init + [ev], f)
            <==> PastFrontier(init, f) || (ev.Arrive? && Ahead(f, ev.number))
    ensures Antipode(init + [ev], f)
            <==> Antipode(init, f)
                 || (FrontierArrived(init, f) && Brings(ev, Add(f, HALF)) && !ev.env.standby)
  {
    var evs := init + [ev];
    assert forall i :: 0 <= i < |init| ==> evs[i] == init[i];
    assert evs[|init|] == ev;
  }

  /** The loop and the packets at or behind the frontier, before anything arms the tracker. */
  lemma SilentStep(before: Reaction, cfg: Config, init: seq<Event>, ev: Event, f: Seq, missing: set<Seq>)
    requires Silent(before, init, f, missing) && !(ev.Arrive? && Ahead(f, ev.number))
    ensures var r := Step(before.tracker, cfg, ev);
            Silent(Reaction(r.tracker, before.consumed + r.consumed, before.rounds + r.rounds),
                   init + [ev], f, missing)
  {
    var t := before.tracker;
    var r := Step(t, cfg, ev);
    FrontierArrivedSnoc(init, ev, f);
    StepKeeps(t, cfg, ev);
    if ev.Arrive? {
      var x := ev.number;
      if x == f {
        SilentFrontier(t, cfg, ev, f);
      } else if x == Add(f, HALF) && FrontierArrived(init, f) {
        SilentAntipode(t, cfg, ev, f);
      } else {
        assert !Ahead(t.next.value, x) && x != t.next.value;
        assert r == Reaction(t, [], []);
      }
    }
  }

  lemma SilentFrontier(t: Tracker, cfg: Config, ev: Event, f: Seq)
    requires ev.Arrive? && ev.number == f && t.frontier == Some(f) && !t.armed
    requires t.next == Some(f) || t.next == Some(Add(f, 1))
    requires t.held.Keys <= {Add(f, HALF)}
    ensures var r := Step(t, cfg, ev);
            && r.rounds == [] && !r.tracker.armed && r.tracker.frontier == t.frontier
            && r.tracker.next == Some(Add(f, 1)) && r.tracker.held == t.held
            && r.tracker.lastRoundAt == t.lastRoundAt
  {
    assert Add(f, 1) !in t.held;
  }

  lemma SilentAntipode(t: Tracker, cfg: Config, ev: Event, f: Seq)
    requires ev.Arrive? && ev.number == Add(f, HALF) && t.frontier == Some(f) && !t.armed
    requires Sound(t) && t.next == Some(Add(f, 1)) && t.held.Keys <= {Add(f, HALF)}
    ensures var r := Step(t, cfg, ev);
            && !r.tracker.armed && r.tracker.frontier == t.frontier && r.tracker.next == t.next
            && r.tracker.held.Keys <= {Add(f, HALF)}
            && (t.lastRoundAt.None? ==> (r.rounds != [] <==> !ev.env.standby))
            && (r.rounds == [] ==> r.tracker.lastRoundAt == t.lastRoundAt)
  {
    var e, x := Add(f, 1), ev.number;
    assert Distance(e, x) == HALF - 1 && x !in t.missing;
    assert e in Opened(e, HALF - 1, t.held);
    var u := Hold(Note(t, x), x, ev.packet);
    assert u.missing != {};
  }

  lemma StepArms(t: Tracker, cfg: Config, ev: Event, f: Seq)
    requires t.frontier == Some(f) && t.next.Some?
    ensures var u := Step(t, cfg, ev).tracker;
            && u.next.Some? && u.frontier == Some(f)
            && (u.armed <==> t.armed || (ev.Arrive? && Ahead(f, ev.number)))
  {
    hide GateAhead;
    hide Drain;
    hide Counted;
  }

  /** An inherited tracker is armed exactly by a packet strictly past its frontier. */
  lemma {:induction false} ArmedIff(t: Tracker, cfg: Config, evs: seq<Event>, f: Seq)
    requires t.frontier == Some(f) && t.next.Some? && !t.armed
    ensures var u := Run(t, cfg, evs).tracker;
            u.next.Some? && u.frontier == Some(f) && (u.armed <==> PastFrontier(evs, f))
    decreases |evs|
  {
    if evs != [] {
      var init, ev := evs[..|evs| - 1], evs[|evs| - 1];
      ArmedIff(t, cfg, init, f);
      assert evs == init + [ev];
      FrontierArrivedSnoc(init, ev, f);
      StepArms(Run(t, cfg, init).tracker, cfg, ev, f);
    }
  }

  /** Before a packet strictly past its inherited frontier arrives, an inherited tracker
      asks for a retransmission if and only if the frontier number itself arrived and then,
      out of standby, the number 0x8000 past it. Without that one pair it stays silent. */
  lemma {:induction false} InheritedSilence(f: Seq, missing: set<Seq>, cfg: Config, evs: seq<Event>)
    requires Sound(Inherited(f, missing)) && !PastFrontier(evs, f)
    ensures Run(Inherited(f, missing), cfg, evs).rounds != [] <==> Antipode(evs, f)
    ensures Silent(Run(Inherited(f, missing), cfg, evs), evs, f, missing)
    decreases |evs|
  {
    if evs != [] {
      var init, ev := evs[..|evs| - 1], evs[|evs| - 1];
      assert evs == init + [ev];
      FrontierArrivedSnoc(init, ev, f);
      InheritedSilence(f, missing, cfg, init);
      SilentStep(Run(Inherited(f, missing), cfg, init), cfg, init, ev, f, missing);
      RunSnoc(Inherited(f, missing), cfg, init, ev);
    }
  }
}
