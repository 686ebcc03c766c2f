/** The pacing of an inherited tracker, said in events: how many fills one round accepts, and
    when a number that nobody fills is given up. */
module GapBudget {
  import opened Wrappers
  import opened SerialNumbers
  import opened GapTracker
  import opened GapPacing
  import GapOrder

  /** The tracker a client inherits, after some events. */
  function After(f: Seq, missing: set<Seq>, cfg: Config, evs: seq<Event>): Tracker {
    Run(Inherited(f, missing), cfg, evs).tracker
  }

  lemma AfterSnoc(f: Seq, missing: set<Seq>, cfg: Config, init: seq<Event>, ev: Event)
    ensures After(f, missing, cfg, init + [ev]) == Step(After(f, missing, cfg, init), cfg, ev).tracker
  {
    RunSnoc(Inherited(f, missing), cfg, init, ev);
  }

  /** The packet fills the gap from ahead of the expected number. */
  ghost predicate Fills(t: Tracker, ev: Event) {
    ev.Arrive? && t.next.Some? && Ahead(t.next.value, ev.number) && ev.number in t.missing
  }

  // ---- the fill budget ---------------------------------------------------------------

  /** Fills from ahead that were accepted since the last tick of the armed tracker. */
  ghost function FillsThisRound(f: Seq, missing: set<Seq>, cfg: Config, evs: seq<Event>): nat
    decreases |evs|
  {
    if evs == [] then 0
    else
      var init, ev := evs[..|evs| - 1], evs[|evs| - 1];
      var before := FillsThisRound(f, missing, cfg, init);
      if ev.Tick? then if PastFrontier(init, f) then 0 else before
      else if Fills(After(f, missing, cfg, init), ev) && ev.number !in After(f, missing, cfg, evs).missing
      then before + 1
      else before
  }

  lemma AheadCounts(t: Tracker, cfg: Config, env: Env, s: Seq, p: Packet)
    requires t.next.Some?
    ensures var n := GateAhead(t, cfg, env, s, p).tracker;
            n.fills == t.fills + if s in t.missing && s !in n.missing then 1 else 0
  {
    hide Drain;
    hide Opened;
  }

  /** What one arrival does to the count of fills. */
  lemma ArriveCounts(t: Tracker, cfg: Config, ev: Event)
    requires t.next.Some? && ev.Arrive?
    ensures var n := Step(t, cfg, ev).tracker;
            n.fills == t.fills + if Fills(t, ev) && ev.number !in n.missing then 1 else 0
  {
    hide Drain;
    hide GateAhead;
    if Ahead(t.next.value, ev.number) {
      AheadCounts(Arm(t, ev.number), cfg, ev.env, ev.number, ev.packet);
    }
  }

  lemma TickCounts(t: Tracker, cfg: Config, env: Env)
    requires t.frontier.Some?
    ensures LoopTick(t, cfg, env).tracker.fills == if t.armed then 0 else t.fills
  {
    hide Counted;
  }

  lemma StillInherited(f: Seq, missing: set<Seq>, cfg: Config, evs: seq<Event>)
    ensures var t := After(f, missing, cfg, evs);
            t.next.Some? && t.frontier == Some(f) && (t.armed <==> PastFrontier(evs, f))
  {
    ArmedIff(Inherited(f, missing), cfg, evs, f);
  }

  lemma {:induction false} CounterIsFills(f: Seq, missing: set<Seq>, cfg: Config, evs: seq<Event>)
    ensures After(f, missing, cfg, evs).fills == FillsThisRound(f, missing, cfg, evs)
    decreases |evs|
  {
    hide Step;
    hide Run;
    hide PastFrontier;
    if evs == [] {
      NothingYet(f, missing, cfg);
    } else {
      var init, ev := evs[..|evs| - 1], evs[|evs| - 1];
      assert evs == init + [ev];
      CounterIsFills(f, missing, cfg, init);
      AfterSnoc(f, missing, cfg, init, ev);
      StillInherited(f, missing, cfg, init);
      var t := After(f, missing, cfg, init);
      hide After;
      if ev.Arrive? {
        ArriveCounts(t, cfg, ev);
      } else {
        TickSteps(t, cfg, ev);
        TickCounts(t, cfg, ev.env);
      }
    }
  }

  lemma TickSteps(t: Tracker, cfg: Config, ev: Event)
    requires ev.Tick?
    ensures Step(t, cfg, ev) == LoopTick(t, cfg, ev.env)
  {
  }

  lemma NothingYet(f: Seq, missing: set<Seq>, cfg: Config)
    ensures After(f, missing, cfg, []) == Inherited(f, missing)
  {
  }

  /** What the tracker makes of a fill that it accepts: the number leaves the gap, and the packet
      is held, unless it was the last one and is released at once. */
  ghost predicate Takes(t: Tracker, r: Reaction, ev: Event)
    requires ev.Arrive?
  {
    && r.tracker.missing == t.missing - {ev.number}
    && (ev.number !in t.held ==>
          (ev.number in r.tracker.held && r.tracker.held[ev.number] == ev.packet)
          || Entry(ev.number, ev.packet) in r.consumed)
  }

  /** ... and of one it refuses: nothing happens to the gap, and nothing goes out. */
  ghost predicate Ignores(t: Tracker, r: Reaction) {
    && r.tracker.missing == t.missing && r.tracker.held == t.held && r.tracker.next == t.next
    && r.consumed == [] && r.rounds == []
  }

  lemma FillDecides(t: Tracker, cfg: Config, ev: Event)
    requires t.frontier.Some? && Fills(t, ev)
    ensures var r := Step(t, cfg, ev);
            if cfg.fillsPerRound <= 0 || t.fills < cfg.fillsPerRound then Takes(t, r, ev) else Ignores(t, r)
  {
    hide DrainHeld;
    hide Opened;
    var a := Arm(t, ev.number);
    var u := Hold(Note(a, ev.number), ev.number, ev.packet);
    if u.missing == {} {
      DrainKeepsOrReleases(u);
    }
  }

  lemma {:induction false} DrainKeepsOrReleases(t: Tracker)
    requires t.next.Some?
    ensures var r := DrainHeld(t);
            forall h :: h in t.held ==>
              (h in r.tracker.held && r.tracker.held[h] == t.held[h]) || Entry(h, t.held[h]) in r.consumed
    decreases |t.held|
  {
    var e := t.next.value;
    if e in t.held {
      DrainKeepsOrReleases(t.(next := Some(Add(e, 1)), held := t.held - {e}));
    }
  }

  /** The main result on the budget, in every run of an inherited tracker: a fill from ahead is
      accepted if and only if the knob is off or fewer than `fillsPerRound` such fills were
      accepted since the last tick of the armed tracker; otherwise nothing happens. */
  lemma BudgetExact(f: Seq, missing: set<Seq>, cfg: Config, evs: seq<Event>, ev: Event)
    requires Fills(After(f, missing, cfg, evs), ev)
    ensures var t := After(f, missing, cfg, evs);
            var r := Step(t, cfg, ev);
            if cfg.fillsPerRound <= 0 || FillsThisRound(f, missing, cfg, evs) < cfg.fillsPerRound
            then Takes(t, r, ev) && ev.number !in r.tracker.missing
            else Ignores(t, r) && ev.number in r.tracker.missing
  {
    CounterIsFills(f, missing, cfg, evs);
    StillInherited(f, missing, cfg, evs);
    FillDecides(After(f, missing, cfg, evs), cfg, ev);
  }

  // ---- giving up ---------------------------------------------------------------------

  /** For how many ticks of the armed tracker in a row `x` has been missing. */
  ghost function MissedTicks(f: Seq, missing: set<Seq>, cfg: Config, evs: seq<Event>, x: Seq): nat
    decreases |evs|
  {
    if evs == [] then 0
    else
      var init, ev := evs[..|evs| - 1], evs[|evs| - 1];
      if x !in After(f, missing, cfg, init).missing || x !in After(f, missing, cfg, evs).missing then 0
      else
        MissedTicks(f, missing, cfg, init, x) + if ev.Tick? && PastFrontier(init, f) then 1 else 0
  }

  /** The count the tracker keeps for a number. */
  function Count(t: Tracker, x: Seq): nat {
    if x in t.unanswered then t.unanswered[x] else 0
  }

  lemma AheadKeepsCounts(t: Tracker, cfg: Config, env: Env, s: Seq, p: Packet)
    requires t.next.Some? && t.unanswered.Keys <= t.missing
    ensures var n := GateAhead(t, cfg, env, s, p).tracker;
            && n.unanswered.Keys <= n.missing
            && forall x :: x in n.missing ==> Count(n, x) == if x in t.missing then Count(t, x) else 0
  {
    hide Drain;
    hide Opened;
  }

  lemma ArriveKeepsCounts(t: Tracker, cfg: Config, ev: Event)
    requires t.next.Some? && ev.Arrive? && t.unanswered.Keys <= t.missing
    ensures var n := Step(t, cfg, ev).tracker;
            && n.unanswered.Keys <= n.missing
            && forall x :: x in n.missing ==> Count(n, x) == if x in t.missing then Count(t, x) else 0
  {
    hide Drain;
    hide GateAhead;
    if Ahead(t.next.value, ev.number) {
      AheadKeepsCounts(Arm(t, ev.number), cfg, ev.env, ev.number, ev.packet);
    }
  }

  /** One tick of the armed tracker: a number goes when it has been missing often enough. */
  lemma TickDrops(t: Tracker, cfg: Config, env: Env)
    requires t.frontier.Some? && t.unanswered.Keys <= t.missing
    ensures var n := LoopTick(t, cfg, env).tracker;
            && n.unanswered.Keys <= n.missing <= t.missing
            && (t.armed && cfg.dropAfter > 0 ==>
                  forall x :: x in t.missing ==>
                    && (x in n.missing <==> Count(t, x) + 1 < cfg.dropAfter)
                    && (x in n.missing ==> Count(n, x) == Count(t, x) + 1))
            && (!(t.armed && cfg.dropAfter > 0) ==>
                  n.missing == t.missing && forall x :: x in t.missing ==> Count(n, x) == Count(t, x))
  {
  }

  lemma {:induction false} CountersAreMissedTicks(f: Seq, missing: set<Seq>, cfg: Config, evs: seq<Event>)
    requires cfg.dropAfter > 0
    ensures var t := After(f, missing, cfg, evs);
            && t.unanswered.Keys <= t.missing
            && forall x :: x in t.missing ==>
                 Count(t, x) == MissedTicks(f, missing, cfg, evs, x) < cfg.dropAfter
    decreases |evs|
  {
    hide Step;
    hide Run;
    hide PastFrontier;
    if evs == [] {
      NothingYet(f, missing, cfg);
    } else {
      var init, ev := evs[..|evs| - 1], evs[|evs| - 1];
      assert evs == init + [ev];
      CountersAreMissedTicks(f, missing, cfg, init);
      AfterSnoc(f, missing, cfg, init, ev);
      StillInherited(f, missing, cfg, init);
      var t := After(f, missing, cfg, init);
      hide After;
      if ev.Arrive? {
        ArriveKeepsCounts(t, cfg, ev);
      } else {
        TickSteps(t, cfg, ev);
        TickDrops(t, cfg, ev.env);
      }
    }
  }

  /** The main result on giving up, in every run of an inherited tracker: a tick drops a missing
      number if and only if the knob is on, the tracker is armed, and this is the
      `dropAfter`-th tick of the armed tracker in a row at which the number is missing. */
  lemma DroppedExactlyWhen(f: Seq, missing: set<Seq>, cfg: Config, evs: seq<Event>, env: Env, x: Seq)
    requires x in After(f, missing, cfg, evs).missing
    ensures x !in After(f, missing, cfg, evs + [Tick(env)]).missing
            <==> && cfg.dropAfter > 0 && PastFrontier(evs, f)
                 && MissedTicks(f, missing, cfg, evs, x) + 1 == cfg.dropAfter
    ensures After(f, missing, cfg, evs + [Tick(env)]).missing <= After(f, missing, cfg, evs).missing
  {
    hide Step;
    var t := After(f, missing, cfg, evs);
    AfterSnoc(f, missing, cfg, evs, Tick(env));
    StillInherited(f, missing, cfg, evs);
    TickSteps(t, cfg, Tick(env));
    if cfg.dropAfter > 0 {
      CountersAreMissedTicks(f, missing, cfg, evs);
      TickDrops(t, cfg, env);
    } else {
      TickKeepsAll(t, cfg, env);
    }
  }

  lemma TickKeepsAll(t: Tracker, cfg: Config, env: Env)
    requires cfg.dropAfter <= 0
    ensures LoopTick(t, cfg, env).tracker.missing == t.missing
  {
  }

  // ---- what is held ------------------------------------------------------------------

  /** What was held stays as it was or comes out as it was. */
  ghost predicate KeepsCopies(t: Tracker, r: Reaction) {
    && (forall h :: h in t.held && h in r.tracker.held ==> r.tracker.held[h] == t.held[h])
    && (forall e :: e in r.consumed && e.number in t.held ==> e.packet == t.held[e.number])
  }

  lemma AheadKeepsCopies(t: Tracker, cfg: Config, env: Env, s: Seq, p: Packet)
    requires t.next.Some?
    ensures KeepsCopies(t, GateAhead(t, cfg, env, s, p))
  {
    hide Opened;
    hide DrainHeld;
    GapOrder.DrainFrom(Hold(Note(t, s), s, p));
  }

  /** A later copy of a held number never replaces the first one; and when the number is
      consumed, the first copy is, unless the later one came just as the number was expected. */
  lemma FirstCopyStays(t: Tracker, cfg: Config, ev: Event)
    requires t.next.Some?
    ensures var r := Step(t, cfg, ev);
            && (forall h :: h in t.held && h in r.tracker.held ==> r.tracker.held[h] == t.held[h])
            && (forall e :: e in r.consumed && e.number in t.held ==>
                  e.packet == t.held[e.number] || (ev.Arrive? && t.next == Some(ev.number) && e.number == ev.number))
  {
    hide GateAhead;
    hide DrainHeld;
    hide Counted;
    if ev.Arrive? {
      var s, p := ev.number, ev.packet;
      if s == t.next.value {
        GapOrder.DrainFrom(Gate(t, cfg, ev.env, s, p).reaction.tracker);
      } else if Ahead(t.next.value, s) {
        AheadKeepsCopies(Arm(t, s), cfg, ev.env, s, p);
      }
    }
  }

  /** Over a run: as long as a number stays held, it is with the packet it was first held with. */
  lemma {:induction false} HeldPacketStays(t: Tracker, cfg: Config, evs: seq<Event>, h: Seq)
    requires t.next.Some? && forall n :: 0 <= n <= |evs| ==> h in Run(t, cfg, evs[..n]).tracker.held
    ensures h in t.held && h in Run(t, cfg, evs).tracker.held && Run(t, cfg, evs).tracker.next.Some?
    ensures Run(t, cfg, evs).tracker.held[h] == t.held[h]
    decreases |evs|
  {
    hide Step;
    assert evs[..|evs|] == evs && |evs[..0]| == 0;
    if evs != [] {
      var init, ev := evs[..|evs| - 1], evs[|evs| - 1];
      assert forall n :: 0 <= n <= |init| ==> init[..n] == evs[..n];
      HeldPacketStays(t, cfg, init, h);
      FirstCopyStays(Run(t, cfg, init).tracker, cfg, ev);
      ExpectsOn(Run(t, cfg, init).tracker, cfg, ev);
    }
  }

  lemma ExpectsOn(t: Tracker, cfg: Config, ev: Event)
    requires t.next.Some?
    ensures Step(t, cfg, ev).tracker.next.Some?
  {
    hide Counted;
  }
}
