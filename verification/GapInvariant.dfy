/** What every reachable tracker keeps. */
module GapInvariant {
  import opened Wrappers
  import opened SerialNumbers
  import opened GapTracker

  /** Holds of every tracker, inherited or not, with any knob settings. */
  ghost predicate Sound(t: Tracker) {
    && t.missing !! t.held.Keys
    && (t.next.None? ==> t.missing == {} && t.held == map[])
    && (t.next.Some? ==> forall m :: m in t.missing ==> Distance(t.next.value, m) < HALF - 1)
  }

  /** Every number up to the furthest missing one is missing or held. */
  ghost predicate Covered(t: Tracker) {
    t.next.Some? ==>
      forall m, x: Seq :: m in t.missing && Distance(t.next.value, x) <= Distance(t.next.value, m)
        ==> x in t.missing || x in t.held
  }

  /** With nothing missing, the expected number is not waiting in `held`. */
  ghost predicate Drained(t: Tracker) {
    t.next.Some? && t.missing == {} ==> t.next.value !in t.held
  }

  /** The invariant of a tracker that was not inherited. */
  ghost predicate Inv(t: Tracker) {
    Sound(t) && Covered(t) && Drained(t) && t.frontier.None?
  }

  /** Every held number is ahead of the expected one, or is that number itself. */
  ghost predicate HeldAhead(t: Tracker) {
    t.next.Some? ==> forall h :: h in t.held ==> Distance(t.next.value, h) < HALF
  }

  lemma {:induction false} DrainHeldKeeps(t: Tracker)
    requires t.next.Some? && t.missing == {}
    ensures var r := DrainHeld(t).tracker;
            r.next.value !in r.held && r.held.Keys <= t.held.Keys
    ensures HeldAhead(t) ==> HeldAhead(DrainHeld(t).tracker)
    decreases |t.held|
  {
    var e := t.next.value;
    if e in t.held {
      DrainHeldKeeps(t.(next := Some(Add(e, 1)), held := t.held - {e}));
    }
  }

  /** A gap that opens: everything from the expected number up to `s` is missing or held. */
  lemma OpeningKeeps(t: Tracker, s: Seq, p: Packet)
    requires Sound(t) && t.next.Some? && Ahead(t.next.value, s) && t.missing == {}
    ensures var u := Hold(Note(t, s), s, p);
            && Sound(u) && Covered(u) && u.held.Keys == t.held.Keys + {s}
            && (Drained(t) ==> u.missing != {})
            && (HeldAhead(t) ==> HeldAhead(u))
  {
    var e := t.next.value;
    var u := Hold(Note(t, s), s, p);
    assert u.missing == Opened(e, Distance(e, s), t.held);
    assert u.held.Keys == t.held.Keys + {s};
    if Drained(t) {
      assert e in u.missing;
    }
  }

  /** A gap that is already open: the packet fills or is only held. */
  lemma HoldingKeeps(t: Tracker, s: Seq, p: Packet)
    requires Sound(t) && t.next.Some? && Ahead(t.next.value, s) && t.missing != {}
    ensures var u := Hold(Note(t, s), s, p);
            && Sound(u) && u.missing == t.missing - {s} && u.held.Keys == t.held.Keys + {s}
            && (Covered(t) ==> Covered(u))
            && (HeldAhead(t) ==> HeldAhead(u))
  {
    var u := Hold(Note(t, s), s, p);
    assert u.held.Keys == t.held.Keys + {s};
    assert u.missing == t.missing - {s};
  }

  lemma GateAheadKeeps(t: Tracker, cfg: Config, env: Env, s: Seq, p: Packet)
    requires Sound(t) && t.next.Some? && Ahead(t.next.value, s)
    ensures Sound(GateAhead(t, cfg, env, s, p).tracker)
    ensures Covered(t) && Drained(t) ==> Covered(GateAhead(t, cfg, env, s, p).tracker)
    ensures Drained(t) ==> Drained(GateAhead(t, cfg, env, s, p).tracker)
    ensures HeldAhead(t) ==> HeldAhead(GateAhead(t, cfg, env, s, p).tracker)
  {
    var u := Hold(Note(t, s), s, p);
    if t.missing == {} {
      OpeningKeeps(t, s, p);
    } else {
      HoldingKeeps(t, s, p);
    }
    if u.missing == {} {
      DrainHeldKeeps(u);
    }
  }

  /** Consuming the expected number moves every other number one step closer. */
  lemma InOrderKeeps(t: Tracker, s: Seq)
    requires Sound(t) && t.next == Some(s)
    ensures var u := t.(next := Some(Add(s, 1)), missing := t.missing - {s},
                        unanswered := t.unanswered - {s});
            && Sound(u) && (Covered(t) ==> Covered(u))
            && (HeldAhead(t) && s !in t.held ==> HeldAhead(u))
  {
    var u := t.(next := Some(Add(s, 1)), missing := t.missing - {s});
    forall x: Seq | x != s
      ensures Distance(Add(s, 1), x) == Distance(s, x) - 1
    {
    }
    assert Distance(Add(s, 1), s) == MODULUS - 1;
  }

  /** One packet keeps the invariants; this is the inductive step of every run claim. */
  lemma AcceptKeeps(t: Tracker, cfg: Config, env: Env, s: Seq, p: Packet)
    requires Sound(t)
    ensures Sound(Accept(t, cfg, env, s, p).tracker)
    ensures Covered(t) && Drained(t) ==> Covered(Accept(t, cfg, env, s, p).tracker)
    ensures Drained(t) ==> Drained(Accept(t, cfg, env, s, p).tracker)
  {
    var a := Arm(t, s);
    if t.next == Some(s) {
      InOrderKeeps(a, s);
      var u := Gate(t, cfg, env, s, p).reaction.tracker;
      if u.missing == {} {
        DrainHeldKeeps(u);
      }
    } else if t.next.Some? && Ahead(t.next.value, s) {
      GateAheadKeeps(a, cfg, env, s, p);
    }
  }

  lemma TickKeeps(t: Tracker, cfg: Config, env: Env)
    requires Sound(t)
    ensures Sound(LoopTick(t, cfg, env).tracker)
    ensures LoopTick(t, cfg, env).tracker.missing <= t.missing
    ensures LoopTick(t, cfg, env).tracker.held == t.held
    ensures t.frontier.None? || cfg.dropAfter <= 0 ==>
              LoopTick(t, cfg, env).tracker.missing == t.missing
  {
  }

  lemma StepKeeps(t: Tracker, cfg: Config, ev: Event)
    requires Sound(t)
    ensures Sound(Step(t, cfg, ev).tracker)
    ensures Inv(t) ==> Inv(Step(t, cfg, ev).tracker)
  {
    match ev
    case Arrive(env, s, p) => AcceptKeeps(t, cfg, env, s, p); NeverInherited(t, cfg, ev);
    case Tick(env) => TickKeeps(t, cfg, env);
  }

  /** The frontier is set at the seed and never changes. */
  lemma NeverInherited(t: Tracker, cfg: Config, ev: Event)
    ensures Step(t, cfg, ev).tracker.frontier == t.frontier
  {
    hide GateAhead;
    hide Drain;
    hide Counted;
  }

  /** The invariant of a fresh tracker holds on from any state that has it. */
  lemma {:induction false} RunsKeepInv(t: Tracker, cfg: Config, evs: seq<Event>)
    requires Inv(t)
    ensures Inv(Run(t, cfg, evs).tracker)
    decreases |evs|
  {
    if evs != [] {
      RunsKeepInv(t, cfg, evs[..|evs| - 1]);
      StepKeeps(Run(t, cfg, evs[..|evs| - 1]).tracker, cfg, evs[|evs| - 1]);
    }
  }

  /** Every reachable state of a fresh tracker satisfies the full invariant. */
  lemma FreshRunsKeepInv(cfg: Config, evs: seq<Event>)
    ensures Inv(Run(Fresh, cfg, evs).tracker)
  {
    RunsKeepInv(Fresh, cfg, evs);
  }

  /** Every reachable state of any tracker, inherited with any gap list below 0x7FFF
      and any knobs, stays sound. */
  lemma {:induction false} RunsStaySound(t: Tracker, cfg: Config, evs: seq<Event>)
    requires Sound(t)
    ensures Sound(Run(t, cfg, evs).tracker)
    decreases |evs|
  {
    if evs != [] {
      RunsStaySound(t, cfg, evs[..|evs| - 1]);
      StepKeeps(Run(t, cfg, evs[..|evs| - 1]).tracker, cfg, evs[|evs| - 1]);
    }
  }

  /** While a gap is open, no event adds a missing number, and a number leaves only by
      arriving itself or by the loop's drop. */
  lemma OpenGapOnlyShrinks(t: Tracker, cfg: Config, ev: Event)
    requires Sound(t) && t.missing != {}
    ensures Step(t, cfg, ev).tracker.missing <= t.missing
    ensures ev.Arrive? ==> t.missing - {ev.number} <= Step(t, cfg, ev).tracker.missing
  {
    hide GateAhead;
    hide Drain;
    hide Counted;
  }

  /** A packet leaves an old held copy behind the expected number exactly when it repeats
      the expected number while that number is already held. */
  lemma HeldStaysAheadIff(t: Tracker, cfg: Config, env: Env, s: Seq, p: Packet)
    requires Sound(t) && Drained(t) && HeldAhead(t) && t.next.Some?
    ensures HeldAhead(Accept(t, cfg, env, s, p).tracker)
            <==> !(s == t.next.value && s in t.held)
  {
    var e := t.next.value;
    var v := Gate(t, cfg, env, s, p);
    if s == e {
      if s in t.held {
        assert t.missing != {};
        var m :| m in t.missing;
        assert m in v.reaction.tracker.missing;
        assert e in Accept(t, cfg, env, s, p).tracker.held;
      } else {
        InOrderKeeps(Arm(t, s), s);
        if v.reaction.tracker.missing == {} {
          DrainHeldKeeps(v.reaction.tracker);
        }
      }
    } else if Ahead(e, s) {
      GateAheadKeeps(Arm(t, s), cfg, env, s, p);
    }
  }

  /** The duplicate that leaves a held copy behind, from a fresh tracker: 0, 4, 2, 1, 2. */
  lemma StaleHeldCopy(cfg: Config, env: Env, p: Packet, evs: seq<Event>)
    requires evs == [Arrive(env, 0, p), Arrive(env, 4, p), Arrive(env, 2, p),
                     Arrive(env, 1, p), Arrive(env, 2, p)]
    ensures var t := Run(Fresh, cfg, evs).tracker;
            t.next == Some(3) && 2 in t.held && t.missing == {3}
  {
    forall i | 0 <= i < 5
      ensures Run(Fresh, cfg, evs[..i + 1]).tracker
              == Step(Run(Fresh, cfg, evs[..i]).tracker, cfg, evs[i]).tracker
    {
      RunSnoc(Fresh, cfg, evs[..i], evs[i]);
      assert evs[..i] + [evs[i]] == evs[..i + 1];
    }
    assert evs[..5] == evs;
    assert Run(Fresh, cfg, evs[..0]).tracker == Fresh;
    OpenThree(cfg, env, p);
    StaleAfterThree(Run(Fresh, cfg, evs[..2]).tracker, cfg, env, p);
  }

  lemma OpenThree(cfg: Config, env: Env, p: Packet)
    ensures var t := Step(Step(Fresh, cfg, Arrive(env, 0, p)).tracker, cfg, Arrive(env, 4, p)).tracker;
            && t.next == Some(1) && t.missing == {1, 2, 3} && t.held == map[4 := p]
            && t.frontier.None?
  {
    assert Opened(1, 3, map[]) == {1, 2, 3};
  }

  lemma StaleAfterThree(t: Tracker, cfg: Config, env: Env, p: Packet)
    requires t.next == Some(1) && t.missing == {1, 2, 3} && t.held == map[4 := p]
    requires t.frontier.None?
    ensures var t3 := Step(t, cfg, Arrive(env, 2, p)).tracker;
            var t4 := Step(t3, cfg, Arrive(env, 1, p)).tracker;
            var t5 := Step(t4, cfg, Arrive(env, 2, p)).tracker;
            t5.next == Some(3) && 2 in t5.held && t5.missing == {3}
  {
    var t3 := Step(t, cfg, Arrive(env, 2, p)).tracker;
    assert t3.next == Some(1) && t3.missing == {1, 3} && t3.held == map[4 := p, 2 := p];
    var t4 := Step(t3, cfg, Arrive(env, 1, p)).tracker;
    assert t4.next == Some(2) && t4.missing == {3} && t4.held == t3.held;
  }

  /** The loop's drop of unanswered numbers does not drain: it keeps `Drained` exactly
      when it does not empty the missing set over a held expected number. */
  lemma TickKeepsDrainedIff(t: Tracker, cfg: Config, env: Env)
    requires Sound(t) && Drained(t) && t.next.Some?
    ensures Drained(LoopTick(t, cfg, env).tracker)
            <==> !(&& t.next.value in t.held && t.frontier.Some? && t.armed && cfg.dropAfter > 0
                   && t.missing != {}
                   && forall m :: m in t.missing ==> Counted(t)[m] >= cfg.dropAfter)
  {
    var u := PacingTick(t, cfg);
    if t.frontier.Some? && t.armed && cfg.dropAfter > 0 && t.missing != {} {
      if forall m :: m in t.missing ==> Counted(t)[m] >= cfg.dropAfter {
        assert u.missing == {};
      } else {
        var m :| m in t.missing && Counted(t)[m] < cfg.dropAfter;
        assert m in u.missing;
      }
    }
  }

  /** A reachable run that strands a held packet: a client is served 9, 13 and 11 when its
      session's hold runs out; the next client inherits 10 with 10 and 12 missing, sends 11 and
      10, and one unanswered tick drops 12 while 11 waits and is expected. */
  lemma LoopStrandsHeld(cfg: Config, env: Env, p: Packet)
    requires cfg.dropAfter == 1
    ensures var dead := Run(Fresh, cfg, [Arrive(env, 9, p), Arrive(env, 13, p), Arrive(env, 11, p)]).tracker;
            var t := Run(Inherited(10, {10, 12}), cfg, [Arrive(env, 11, p), Arrive(env, 10, p), Tick(env)]).tracker;
            && dead.next == Some(10) && dead.missing == {10, 12}
            && t.next == Some(11) && t.missing == {} && 11 in t.held
  {
    ThreeSteps(Fresh, cfg, Arrive(env, 9, p), Arrive(env, 13, p), Arrive(env, 11, p));
    ThreeSteps(Inherited(10, {10, 12}), cfg, Arrive(env, 11, p), Arrive(env, 10, p), Tick(env));
    OldClient(cfg, env, p);
    NewClient(cfg, env, p);
  }

  lemma ThreeSteps(t: Tracker, cfg: Config, a: Event, b: Event, c: Event)
    ensures Run(t, cfg, [a, b, c]).tracker
            == Step(Step(Step(t, cfg, a).tracker, cfg, b).tracker, cfg, c).tracker
  {
    hide Step;
    assert [a, b, c] == [a, b] + [c] && [a, b] == [a] + [b] && [a] == [] + [a];
    RunSnoc(t, cfg, [a, b], c);
    RunSnoc(t, cfg, [a], b);
    RunSnoc(t, cfg, [], a);
  }

  lemma OldClient(cfg: Config, env: Env, p: Packet)
    ensures var t := Step(Step(Fresh, cfg, Arrive(env, 9, p)).tracker, cfg, Arrive(env, 13, p)).tracker;
            var u := Step(t, cfg, Arrive(env, 11, p)).tracker;
            u.next == Some(10) && u.missing == {10, 12}
  {
    var t := Step(Step(Fresh, cfg, Arrive(env, 9, p)).tracker, cfg, Arrive(env, 13, p)).tracker;
    assert Opened(10, 3, map[]) == {10, 11, 12};
    assert t.next == Some(10) && t.missing == {10, 11, 12};
  }

  lemma NewClient(cfg: Config, env: Env, p: Packet)
    requires cfg.dropAfter == 1
    ensures var t := Step(Step(Inherited(10, {10, 12}), cfg, Arrive(env, 11, p)).tracker, cfg, Arrive(env, 10, p)).tracker;
            var u := Step(t, cfg, Tick(env)).tracker;
            u.next == Some(11) && u.missing == {} && 11 in u.held
  {
    var s := Step(Inherited(10, {10, 12}), cfg, Arrive(env, 11, p)).tracker;
    assert s.next == Some(10) && s.missing == {10, 12} && s.held == map[11 := p];
    assert s.armed && s.frontier == Some(10) && 12 !in s.unanswered;
    assert s.missing - {10} == {12};
    var t := Step(s, cfg, Arrive(env, 10, p)).tracker;
    assert t.next == Some(11) && t.missing == {12} && t.held == s.held;
    assert t.armed && t.frontier == Some(10) && 12 !in t.unanswered;
    assert Counted(t) == map[12 := 1];
  }
}
