/** Retransmit rounds: delivering the missing numbers, in any order and however often each,
    closes the gap and releases everything that waited behind it. */
module GapRecovery {
  import opened Wrappers
  import opened SerialNumbers
  import opened GapTracker
  import opened GapInvariant
  import opened GapOrder
  import opened RetransmitRequest

  /** How many numbers from `e + k` on are in `covered` without a hole, counted from `e`. */
  function Reach(e: Seq, k: nat, covered: set<Seq>): (r: nat)
    requires k <= MODULUS
    ensures k <= r <= MODULUS
    ensures forall i :: k <= i < r ==> Add(e, i) in covered
    ensures r < MODULUS ==> Add(e, r) !in covered
    decreases MODULUS - k
  {
    if k < MODULUS && Add(e, k) in covered then Reach(e, k + 1, covered) else k
  }

  lemma AddDistance(e: Seq, c: nat)
    requires c < MODULUS
    ensures Distance(e, Add(e, c)) == c && Add(Add(e, c), 1) == Add(e, c + 1)
    ensures forall x: Seq :: Distance(e, x) == c ==> x == Add(e, c)
  {
  }

  /** Part-way through a round: `c` numbers from `e` on are consumed, `left` are still missing,
      and every other covered number further on is held. Old held copies of numbers that are
      already consumed may stay behind. */
  ghost predicate Filling(t: Tracker, e: Seq, c: nat, covered: set<Seq>, left: set<Seq>) {
    && c <= Reach(e, 0, covered) < MODULUS && t.next == Some(Add(e, c)) && t.frontier.None?
    && t.missing == left
    && (forall h :: h in t.held ==> h in covered && h !in left)
    && (forall x :: x in covered && Distance(e, x) >= c ==> x in left || x in t.held)
    && (forall m :: m in left ==> m in covered && c <= Distance(e, m))
  }

  /** ... and with nothing missing everything contiguous is released. */
  ghost predicate Recovering(t: Tracker, e: Seq, c: nat, covered: set<Seq>, left: set<Seq>) {
    Filling(t, e, c, covered, left) && (left == {} ==> c == Reach(e, 0, covered))
  }

  lemma FillingNext(t: Tracker, e: Seq, c: nat, covered: set<Seq>, left: set<Seq>)
    requires Filling(t, e, c, covered, left)
    ensures var x, k := t.next.value, Reach(e, 0, covered);
            && c <= k < MODULUS && Distance(e, x) == c && x == Add(e, c)
            && (x in t.held ==> c < k)
            && (left == {} && x !in t.held ==> c == k)
  {
    AddDistance(e, c);
  }

  lemma {:induction false} DrainRecovers(t: Tracker, e: Seq, c: nat, covered: set<Seq>)
    requires Filling(t, e, c, covered, {})
    ensures var k := Reach(e, 0, covered);
            && Recovering(DrainHeld(t).tracker, e, k, covered, {})
            && c <= k < MODULUS && Numbers(DrainHeld(t).consumed) == Span(Add(e, c), k - c)
    decreases |t.held|
  {
    hide Reach;
    FillingNext(t, e, c, covered, {});
    var x := t.next.value;
    if x in t.held {
      AddDistance(e, c);
      var u := t.(next := Some(Add(x, 1)), held := t.held - {x});
      assert Filling(u, e, c + 1, covered, {});
      DrainRecovers(u, e, c + 1, covered);
      ConsFirst(Entry(x, t.held[x]), DrainHeld(u).consumed, Reach(e, 0, covered) - c - 1);
    }
  }

  /** A number the round may bring: one of the gap, at a distance from which its duplicates
      count as behind once the round is over. */
  ghost predicate Asked(x: Seq, e: Seq, covered: set<Seq>) {
    var d := Distance(e, x);
    x in covered && d < HALF && d < Reach(e, 0, covered) <= d + HALF
  }

  /** What one arrival of the round establishes. */
  ghost predicate Advanced(r: Reaction, e: Seq, c: nat, c': nat, covered: set<Seq>, left: set<Seq>) {
    && c <= c' <= Reach(e, 0, covered) < MODULUS && Recovering(r.tracker, e, c', covered, left)
    && Numbers(r.consumed) == Span(Add(e, c), c' - c)
  }

  lemma ConsumeFilling(t: Tracker, e: Seq, c: nat, covered: set<Seq>, left: set<Seq>, unanswered: map<Seq, nat>)
    requires Filling(t, e, c, covered, left) && c < Reach(e, 0, covered)
    ensures Filling(t.(next := Some(Add(e, c + 1)), missing := left - {Add(e, c)}, unanswered := unanswered),
                    e, c + 1, covered, left - {Add(e, c)})
  {
    hide Reach;
    AddDistance(e, c);
  }

  lemma AcceptExpected(t: Tracker, cfg: Config, env: Env, p: Packet)
    requires t.next.Some? && t.frontier.None?
    ensures var x := t.next.value;
            var u := t.(next := Some(Add(x, 1)), missing := t.missing - {x}, unanswered := t.unanswered - {x});
            var r := Accept(t, cfg, env, x, p);
            && r.tracker == Drain(u).tracker
            && r.consumed == [Entry(x, p)] + Drain(u).consumed
  {
  }

  /** The expected number arrives: missing, or a duplicate of one that is already held. */
  lemma ExpectedArrives(t: Tracker, cfg: Config, env: Env, p: Packet, e: Seq, c: nat, covered: set<Seq>, left: set<Seq>)
    returns (c': nat)
    requires Recovering(t, e, c, covered, left) && c < Reach(e, 0, covered)
    ensures Advanced(Accept(t, cfg, env, Add(e, c), p), e, c, c', covered, left - {Add(e, c)})
  {
    hide Reach;
    var x, k := Add(e, c), Reach(e, 0, covered);
    AddDistance(e, c);
    AcceptExpected(t, cfg, env, p);
    ConsumeFilling(t, e, c, covered, left, t.unanswered - {x});
    var u := t.(next := Some(Add(x, 1)), missing := t.missing - {x}, unanswered := t.unanswered - {x});
    assert Filling(u, e, c + 1, covered, left - {x});
    if u.missing == {} {
      assert left - {x} == {};
      DrainRecovers(u, e, c + 1, covered);
      ConsFirst(Entry(x, p), DrainHeld(u).consumed, k - c - 1);
      c' := k;
    } else {
      ConsFirst(Entry(x, p), [], 0);
      c' := c + 1;
    }
  }

  lemma FillKeepsFilling(t: Tracker, x: Seq, p: Packet, e: Seq, c: nat, covered: set<Seq>, left: set<Seq>)
    requires Filling(t, e, c, covered, left) && left != {} && x in covered && x != t.next.value
    ensures var u := Hold(Note(t, x), x, p);
            Filling(u, e, c, covered, left - {x})
  {
    hide Reach;
    var u := Hold(Note(t, x), x, p);
    assert u.missing == left - {x};
    assert u.held.Keys == t.held.Keys + {x};
  }

  /** A number further on arrives while some are missing: it is held, once. */
  lemma LaterArrives(t: Tracker, cfg: Config, env: Env, x: Seq, p: Packet, e: Seq, c: nat, covered: set<Seq>, left: set<Seq>)
    returns (c': nat)
    requires Recovering(t, e, c, covered, left) && Asked(x, e, covered) && c < Distance(e, x)
    ensures Advanced(Accept(t, cfg, env, x, p), e, c, c', covered, left - {x})
  {
    hide Reach;
    hide DrainHeld;
    FillingNext(t, e, c, covered, left);
    Rebased(e, c, x);
    FillKeepsFilling(t, x, p, e, c, covered, left);
    var u := Hold(Note(t, x), x, p);
    if u.missing == {} {
      assert left - {x} == {};
      DrainRecovers(u, e, c, covered);
      c' := Reach(e, 0, covered);
    } else {
      c' := c;
    }
  }

  lemma Rebased(e: Seq, c: nat, x: Seq)
    requires c < MODULUS && Distance(e, x) < HALF
    ensures Distance(e, x) > c ==> Ahead(Add(e, c), x) && x != Add(e, c)
    ensures Distance(e, x) < c <= Distance(e, x) + HALF ==> !Ahead(Add(e, c), x) && x != Add(e, c)
  {
  }

  /** A duplicate of a consumed number changes nothing. */
  lemma EarlierArrives(t: Tracker, cfg: Config, env: Env, x: Seq, p: Packet, e: Seq, c: nat, covered: set<Seq>, left: set<Seq>)
    requires Recovering(t, e, c, covered, left) && Asked(x, e, covered) && Distance(e, x) < c
    ensures Accept(t, cfg, env, x, p) == Reaction(t, [], []) && left - {x} == left
  {
    hide Reach;
    FillingNext(t, e, c, covered, left);
    Rebased(e, c, x);
    assert x !in left;
  }

  lemma ArrivalAdvances(t: Tracker, cfg: Config, ev: Event, e: Seq, c: nat, covered: set<Seq>, left: set<Seq>)
    returns (c': nat)
    requires Recovering(t, e, c, covered, left)
    requires ev.Arrive? ==> Asked(ev.number, e, covered)
    ensures Advanced(Step(t, cfg, ev), e, c, c', covered, left - if ev.Arrive? then {ev.number} else {})
  {
    hide Reach;
    c' := c;
    if ev.Arrive? {
      var x := ev.number;
      if Distance(e, x) == c {
        AddDistance(e, c);
        c' := ExpectedArrives(t, cfg, ev.env, ev.packet, e, c, covered, left);
      } else if Distance(e, x) > c {
        c' := LaterArrives(t, cfg, ev.env, x, ev.packet, e, c, covered, left);
      } else {
        EarlierArrives(t, cfg, ev.env, x, ev.packet, e, c, covered, left);
      }
    } else {
      assert left - {} == left;
    }
  }

  lemma RecoveryExtend(before: Reaction, cfg: Config, ev: Event, e: Seq, c: nat, covered: set<Seq>, left: set<Seq>)
    returns (c': nat)
    requires Recovering(before.tracker, e, c, covered, left) && Numbers(before.consumed) == Span(e, c)
    requires ev.Arrive? ==> Asked(ev.number, e, covered)
    ensures var r := Step(before.tracker, cfg, ev);
            && Recovering(r.tracker, e, c', covered, left - if ev.Arrive? then {ev.number} else {})
            && c' < MODULUS && Numbers(before.consumed + r.consumed) == Span(e, c')
  {
    hide Reach;
    c' := ArrivalAdvances(before.tracker, cfg, ev, e, c, covered, left);
    NumbersAppend(before.consumed, Step(before.tracker, cfg, ev).consumed);
    SpanSnoc(e, c, c' - c);
  }

  /** The window of a round: no duplicate of a missing number comes from so far behind the
      number expected in the end that it counts as ahead again. */
  ghost predicate InWindow(t: Tracker)
    requires t.next.Some?
  {
    var e := t.next.value;
    forall m :: m in t.missing ==> Reach(e, 0, t.missing + t.held.Keys) <= Distance(e, m) + HALF
  }

  /** Without stale copies behind the expected number the window always suffices. */
  lemma HeldAheadInWindow(t: Tracker)
    requires Inv(t) && HeldAhead(t) && t.next.Some?
    ensures InWindow(t)
  {
    var e, covered := t.next.value, t.missing + t.held.Keys;
    if Reach(e, 0, covered) > HALF {
      assert Add(e, HALF) in covered;
      AddDistance(e, HALF);
    }
  }

  lemma MissingIsReached(t: Tracker)
    requires Inv(t) && t.next.Some?
    ensures var e := t.next.value;
            forall m :: m in t.missing ==> Distance(e, m) < Reach(e, 0, t.missing + t.held.Keys)
  {
    var e := t.next.value;
    var k := Reach(e, 0, t.missing + t.held.Keys);
    forall m | m in t.missing
      ensures Distance(e, m) < k
    {
      if k < MODULUS {
        AddDistance(e, k);
        assert Add(e, k) !in t.missing && Add(e, k) !in t.held;
      }
    }
  }

  lemma MissingIsAsked(t: Tracker)
    requires Inv(t) && t.next.Some? && t.missing != {} && InWindow(t)
    ensures var e, covered := t.next.value, t.missing + t.held.Keys;
            && (forall m :: m in t.missing ==> Asked(m, e, covered))
            && Recovering(t, e, 0, covered, t.missing)
  {
    hide Reach;
    MissingIsReached(t);
    var m :| m in t.missing;
    assert Distance(t.next.value, m) < HALF - 1;
  }

  /** Any arrivals of missing numbers, in any order, each as often as it comes. */
  lemma {:induction false} RecoveryRun(t: Tracker, cfg: Config, evs: seq<Event>)
    returns (c: nat)
    requires Inv(t) && t.next.Some? && t.missing != {} && InWindow(t)
    requires Arrived(evs) <= t.missing
    ensures var e, covered := t.next.value, t.missing + t.held.Keys;
            var r := Run(t, cfg, evs);
            && Recovering(r.tracker, e, c, covered, t.missing - Arrived(evs))
            && c < MODULUS && Numbers(r.consumed) == Span(e, c)
    decreases |evs|
  {
    hide Reach;
    hide Arrived;
    hide Recovering;
    hide Asked;
    hide InWindow;
    var e, covered := t.next.value, t.missing + t.held.Keys;
    MissingIsAsked(t);
    if evs == [] {
      NoneArrived();
      c := 0;
      assert t.missing - Arrived(evs) == t.missing;
    } else {
      var init, ev := evs[..|evs| - 1], evs[|evs| - 1];
      assert evs == init + [ev];
      ArrivedSnoc(init, ev);
      var c0 := RecoveryRun(t, cfg, init);
      c := RecoveryExtend(Run(t, cfg, init), cfg, ev, e, c0, covered, t.missing - Arrived(init));
      assert t.missing - Arrived(init) - (if ev.Arrive? then {ev.number} else {}) == t.missing - Arrived(evs);
    }
  }

  lemma NoneArrived()
    ensures Arrived([]) == {}
  {
  }

  /** The gap is closed, and everything contiguous behind it was consumed, once, in order. */
  ghost predicate Recovered(t: Tracker, cfg: Config, evs: seq<Event>)
    requires t.next.Some?
  {
    var e := t.next.value;
    var k := Reach(e, 0, t.missing + t.held.Keys);
    var r := Run(t, cfg, evs);
    && r.tracker.missing == {} && r.tracker.next == Some(Add(e, k))
    && Numbers(r.consumed) == Span(e, k)
  }

  /** From any reachable state of a fresh tracker with an open gap: when all the missing
      packets arrive, in any order and each any number of times (a request goes out twice and
      each copy is answered), with loop ticks in between, the gap is closed; the tracker
      consumes them and the whole contiguous held run behind them, once each and in order, and
      expects the first number it has not seen. */
  lemma RoundSuffices(t: Tracker, cfg: Config, evs: seq<Event>)
    requires Inv(t) && t.next.Some? && t.missing != {} && InWindow(t)
    requires Arrived(evs) == t.missing
    ensures Recovered(t, cfg, evs)
    ensures forall m :: m in t.missing ==>
              Distance(t.next.value, m) < Reach(t.next.value, 0, t.missing + t.held.Keys)
  {
    hide Reach;
    MissingIsReached(t);
    var c := RecoveryRun(t, cfg, evs);
    assert t.missing - Arrived(evs) == {};
  }

  function ArrivalOf(x: Seq): Event {
    Arrive(Env(0, false), x, Packet(Idle, []))
  }

  /** A run that brings each number of a set. */
  lemma {:induction false} Delivery(s: set<Seq>) returns (evs: seq<Event>)
    ensures Arrived(evs) == s
  {
    if s == {} {
      evs := [];
    } else {
      var x :| x in s;
      var init := Delivery(s - {x});
      evs := init + [ArrivalOf(x)];
      ArrivedSnoc(init, ArrivalOf(x));
    }
  }

  /** The window is the exact condition: outside it, one more copy of some missing number, after
      all of them, opens a new gap or is consumed a second time. */
  lemma RoundSufficesIff(t: Tracker, cfg: Config)
    requires Inv(t) && t.next.Some? && t.missing != {}
    ensures (forall evs :: Arrived(evs) == t.missing ==> Recovered(t, cfg, evs)) <==> InWindow(t)
  {
    if InWindow(t) {
      forall evs | Arrived(evs) == t.missing
        ensures Recovered(t, cfg, evs)
      {
        RoundSuffices(t, cfg, evs);
      }
    } else {
      var e := t.next.value;
      var m :| m in t.missing && Reach(e, 0, t.missing + t.held.Keys) > Distance(e, m) + HALF;
      var evs := Delivery(t.missing);
      var more := evs + [ArrivalOf(m)];
      ArrivedSnoc(evs, ArrivalOf(m));
      assert Arrived(more) == t.missing;
      if Recovered(t, cfg, evs) {
        OneTooMany(t, cfg, evs, m);
      }
    }
  }

  lemma OneTooMany(t: Tracker, cfg: Config, evs: seq<Event>, m: Seq)
    requires Inv(t) && t.next.Some? && m in t.missing && Recovered(t, cfg, evs)
    requires Reach(t.next.value, 0, t.missing + t.held.Keys) > Distance(t.next.value, m) + HALF
    ensures !Recovered(t, cfg, evs + [ArrivalOf(m)])
  {
    hide Reach;
    var e := t.next.value;
    var k, d := Reach(e, 0, t.missing + t.held.Keys), Distance(e, m);
    var r := Run(t, cfg, evs);
    RunSnoc(t, cfg, evs, ArrivalOf(m));
    RunsKeepInv(t, cfg, evs);
    var x := Add(e, k);
    var after := Step(r.tracker, cfg, ArrivalOf(m));
    if k == MODULUS && d == 0 {
      assert m == x;
      assert |after.consumed| >= 1;
      assert |Numbers(r.consumed + after.consumed)| > k;
    } else {
      assert Ahead(x, m);
      assert x in Opened(x, Distance(x, m), r.tracker.held);
    }
  }

  /** In a sound tracker no run of missing numbers is as long as half the circle, so every
      range of the request is a forward one. */
  lemma SoundRunsAreShort(t: Tracker)
    requires Sound(t) && t.next.Some?
    ensures ShortRuns(MissingRuns(t.missing))
  {
    var runs := MissingRuns(t.missing);
    MissingRunsExact(t.missing);
    forall i | 0 <= i < |runs|
      ensures runs[i].last - runs[i].first < HALF
    {
      var run := runs[i];
      assert InRun(run, run.first);
      assert run.first in t.missing;
      var x := Add(run.first, HALF - 1 - Distance(t.next.value, run.first));
      assert Distance(t.next.value, x) == HALF - 1;
      assert x !in t.missing;
      assert !InRun(run, x);
    }
  }

  /** The numbers the client resends in answer to one request of tracker `t`. */
  ghost function Resent(t: Tracker, radioId: nat, clientId: nat): set<Seq> {
    set x | x in Serve(Request(t.missing, radioId, clientId))
  }

  /** A round through the packet and the client: when the numbers that the client resends for
      one request arrive, in any order and each any number of times, they are removed from the
      missing set and no others are; at least one is; what is consumed is in order; and the
      gap closes if and only if no run exceeded the client's cap. */
  lemma RequestRound(t: Tracker, cfg: Config, radioId: nat, clientId: nat, evs: seq<Event>)
    requires Inv(t) && t.next.Some? && t.missing != {} && InWindow(t)
    requires Arrived(evs) == Resent(t, radioId, clientId)
    ensures var r := Run(t, cfg, evs);
            && r.tracker.missing == t.missing - Resent(t, radioId, clientId)
            && r.tracker.missing < t.missing
            && (r.tracker.missing == {} <==> WithinCap(MissingRuns(t.missing)))
            && exists c :: 0 <= c < MODULUS && Numbers(r.consumed) == Span(t.next.value, c)
  {
    hide Reach;
    hide Run;
    hide Request;
    hide Serve;
    hide MissingRuns;
    hide Arrived;
    SoundRunsAreShort(t);
    RequestExactIff(t.missing, radioId, clientId);
    var served := Resent(t, radioId, clientId);
    var c := RecoveryRun(t, cfg, evs);
    var x :| x in served;
    assert x !in t.missing - served;
    assert t.missing - served == {} <==> served == t.missing;
  }
}
