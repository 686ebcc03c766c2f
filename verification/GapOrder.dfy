/** Order independence: whatever the order, loss-and-resend pattern and duplication of
    arrivals, a fresh tracker consumes the numbers of a window in order, once each. */
module GapOrder {
  import opened Wrappers
  import opened SerialNumbers
  import opened GapTracker

  /** The numbers that arrived in a run. */
  function Arrived(evs: seq<Event>): set<Seq> {
    set i | 0 <= i < |evs| && evs[i].Arrive? :: evs[i].number
  }

  /** Everything up to `c` past `s` is consumed; what arrived further on is held. */
  ghost predicate Undrained(t: Tracker, s: Seq, n: nat, c: nat, got: set<Seq>)
    requires n < HALF
  {
    && c <= n && t.next == Some(Add(s, c + 1)) && t.frontier.None?
    && (forall x :: x in got ==> Distance(s, x) <= n)
    && (forall x: Seq :: Distance(s, x) <= c ==> x in got)
    && (forall x :: x in got && Distance(s, x) > c ==> x in t.held)
    && (forall x :: x in t.held ==> x in got)
    && (forall m :: m in t.missing ==> c < Distance(s, m) <= n && m !in got)
  }

  ghost predicate Window(t: Tracker, s: Seq, n: nat, c: nat, got: set<Seq>)
    requires n < HALF
  {
    Undrained(t, s, n, c, got) && (t.missing == {} ==> t.next.value !in t.held)
  }

  /** Distances from `s + c + 1` in terms of distances from `s`. */
  lemma Rebase(s: Seq, c: nat, x: Seq)
    requires c + 1 < MODULUS
    ensures Distance(Add(s, c + 1), x)
            == if Distance(s, x) > c then Distance(s, x) - c - 1 else Distance(s, x) - c - 1 + MODULUS
  {
  }

  lemma SpanSnoc(s: Seq, a: nat, b: nat)
    requires a + b <= MODULUS
    ensures Span(s, a) + Span(Add(s, a), b) == Span(s, a + b)
  {
    forall k | 0 <= k < b
      ensures Add(Add(s, a), k) == Add(s, a + k)
    {
    }
  }

  lemma Expects(t: Tracker, s: Seq, n: nat, c: nat, got: set<Seq>)
    requires n < HALF && Undrained(t, s, n, c, got)
    ensures c <= n && t.next == Some(Add(s, c + 1))
  {
  }

  lemma PopWindow(t: Tracker, s: Seq, n: nat, c: nat, got: set<Seq>)
    requires n < HALF && Undrained(t, s, n, c, got) && t.next.value in t.held
    ensures var e := t.next.value;
            && Distance(s, e) == c + 1 && Add(e, 1) == Add(s, c + 2)
            && Undrained(t.(next := Some(Add(e, 1)), held := t.held - {e}, missing := t.missing - {e}),
                         s, n, c + 1, got)
  {
    var e := t.next.value;
    assert Distance(s, e) == c + 1;
    forall x: Seq | Distance(s, x) == c + 1
      ensures x == e
    {
    }
  }

  lemma {:induction false} DrainWindow(t: Tracker, s: Seq, n: nat, c: nat, got: set<Seq>)
    returns (c': nat)
    requires n < HALF && Undrained(t, s, n, c, got) && t.missing == {}
    ensures c <= c' <= n && Window(DrainHeld(t).tracker, s, n, c', got)
    ensures Numbers(DrainHeld(t).consumed) == Span(Add(s, c + 1), c' - c)
    decreases |t.held|
  {
    hide Undrained;
    hide Span;
    Expects(t, s, n, c, got);
    var e := t.next.value;
    if e in t.held {
      PopWindow(t, s, n, c, got);
      var u := t.(next := Some(Add(e, 1)), held := t.held - {e});
      assert u.missing == t.missing - {e};
      c' := DrainWindow(u, s, n, c + 1, got);
      ConsFirst(Entry(e, t.held[e]), DrainHeld(u).consumed, c' - c - 1);
    } else {
      c' := c;
      assert Numbers([]) == Span(Add(s, c + 1), 0);
    }
  }

  lemma ConsFirst(e: Entry, es: seq<Entry>, k: nat)
    requires k < MODULUS && Numbers(es) == Span(Add(e.number, 1), k)
    ensures Numbers([e] + es) == Span(e.number, k + 1)
  {
    SpanSnoc(e.number, 1, k);
    assert Numbers([e] + es) == Span(e.number, 1) + Numbers(es);
  }

  lemma ArriveInOrder(t: Tracker, cfg: Config, env: Env, p: Packet, s: Seq, n: nat, c: nat, got: set<Seq>)
    returns (c': nat)
    requires n < HALF && Window(t, s, n, c, got) && c < n
    ensures var x := Add(s, c + 1);
            var r := Accept(t, cfg, env, x, p);
            && c <= c' && Window(r.tracker, s, n, c', got + {x})
            && Numbers(r.consumed) == Span(x, c' - c)
  {
    var x := Add(s, c + 1);
    var u := Gate(t, cfg, env, x, p).reaction.tracker;
    ConsumeWindow(t, s, n, c, got);
    if u.missing == {} {
      c' := DrainWindow(u, s, n, c + 1, got + {x});
      ConsFirst(Entry(x, p), DrainHeld(u).consumed, c' - c - 1);
    } else {
      c' := c + 1;
      ConsFirst(Entry(x, p), [], 0);
    }
  }

  /** Consuming the expected number as it arrives; an old held copy of it may stay. */
  lemma ConsumeWindow(t: Tracker, s: Seq, n: nat, c: nat, got: set<Seq>)
    requires n < HALF && Undrained(t, s, n, c, got) && c < n
    ensures var x := Add(s, c + 1);
            forall un :: Undrained(t.(next := Some(Add(x, 1)), missing := t.missing - {x}, unanswered := un),
                                   s, n, c + 1, got + {x})
    ensures Add(Add(s, c + 1), 1) == Add(s, c + 2)
  {
    var x := Add(s, c + 1);
    assert Distance(s, x) == c + 1;
    forall y: Seq | Distance(s, y) == c + 1
      ensures y == x
    {
    }
  }

  lemma OpenWindow(t: Tracker, x: Seq, s: Seq, n: nat, c: nat, got: set<Seq>)
    requires n < HALF && Window(t, s, n, c, got) && c + 1 < Distance(s, x) <= n && t.missing == {}
    ensures var e := t.next.value;
            && e in Opened(e, Distance(e, x), t.held)
            && forall m :: m in Opened(e, Distance(e, x), t.held) ==>
                 c < Distance(s, m) < Distance(s, x) && m !in got
  {
    var e := t.next.value;
    Rebase(s, c, x);
    forall m | m in Opened(e, Distance(e, x), t.held)
      ensures c < Distance(s, m) < Distance(s, x) && m !in got
    {
      Rebase(s, c, m);
    }
  }

  lemma HoldWindow(t: Tracker, x: Seq, p: Packet, s: Seq, n: nat, c: nat, got: set<Seq>)
    requires n < HALF && Window(t, s, n, c, got) && c + 1 < Distance(s, x) <= n
    ensures var u := Hold(Note(t, x), x, p);
            Undrained(u, s, n, c, got + {x}) && (u.missing == {} ==> t.missing != {})
  {
    var u := Hold(Note(t, x), x, p);
    assert u.held.Keys == t.held.Keys + {x};
    if t.missing == {} {
      OpenWindow(t, x, s, n, c, got);
    } else {
      assert u.missing == t.missing - {x};
    }
  }

  lemma ArriveAhead(t: Tracker, cfg: Config, env: Env, x: Seq, p: Packet, s: Seq, n: nat, c: nat, got: set<Seq>)
    returns (c': nat)
    requires n < HALF && Window(t, s, n, c, got) && c + 1 < Distance(s, x) <= n
    ensures var r := Accept(t, cfg, env, x, p);
            && c <= c' && Window(r.tracker, s, n, c', got + {x})
            && Numbers(r.consumed) == Span(Add(s, c + 1), c' - c)
  {
    hide DrainHeld;
    hide Opened;
    Rebase(s, c, x);
    HoldWindow(t, x, p, s, n, c, got);
    var u := Hold(Note(t, x), x, p);
    if u.missing == {} {
      c' := DrainWindow(u, s, n, c, got + {x});
    } else {
      c' := c;
    }
  }

  /** One event inside the window: consumed numbers continue where the last ones ended. */
  lemma WindowStep(t: Tracker, cfg: Config, ev: Event, s: Seq, n: nat, c: nat, got: set<Seq>)
    returns (c': nat)
    requires n < HALF && Window(t, s, n, c, got)
    requires ev.Arrive? ==> Distance(s, ev.number) <= n
    ensures var r := Step(t, cfg, ev);
            && c <= c' <= n
            && Window(r.tracker, s, n, c', got + if ev.Arrive? then {ev.number} else {})
            && Numbers(r.consumed) == Span(Add(s, c + 1), c' - c)
  {
    c' := c;
    if ev.Arrive? {
      var x := ev.number;
      Rebase(s, c, x);
      if Distance(s, x) == c + 1 {
        assert x == Add(s, c + 1);
        c' := ArriveInOrder(t, cfg, ev.env, ev.packet, s, n, c, got);
      } else if Distance(s, x) > c {
        c' := ArriveAhead(t, cfg, ev.env, x, ev.packet, s, n, c, got);
      } else {
        assert got + {x} == got;
      }
    } else {
      assert got + {} == got;
    }
  }

  lemma NumbersAppend(a: seq<Entry>, b: seq<Entry>)
    ensures Numbers(a + b) == Numbers(a) + Numbers(b)
  {
  }

  lemma ArrivedSnoc(init: seq<Event>, ev: Event)
    ensures Arrived(init + [ev]) == Arrived(init) + if ev.Arrive? then {ev.number} else {}
  {
    var evs := init + [ev];
    forall x
      ensures x in Arrived(evs) <==> x in Arrived(init) || (ev.Arrive? && x == ev.number)
    {
      if x in Arrived(init) {
        var i :| 0 <= i < |init| && init[i].Arrive? && init[i].number == x;
        assert evs[i] == init[i];
      }
      if ev.Arrive? && x == ev.number {
        assert evs[|init|] == ev;
      }
    }
  }

  lemma FirstArrival(cfg: Config, ev: Event, n: nat)
    requires n < HALF && ev.Arrive?
    ensures var r := Step(Fresh, cfg, ev);
            && Window(r.tracker, ev.number, n, 0, {ev.number})
            && Numbers(r.consumed) == Span(ev.number, 1)
  {
  }

  lemma {:induction false} WindowRun(cfg: Config, evs: seq<Event>, s: Seq, n: nat)
    returns (c: nat)
    requires n < HALF && evs != [] && evs[0].Arrive? && evs[0].number == s
    requires forall i :: 0 <= i < |evs| && evs[i].Arrive? ==> Distance(s, evs[i].number) <= n
    ensures var r := Run(Fresh, cfg, evs);
            && Window(r.tracker, s, n, c, Arrived(evs))
            && Numbers(r.consumed) == Span(s, c + 1)
    decreases |evs|
  {
    var last := |evs| - 1;
    var init, ev := evs[..last], evs[last];
    assert evs == init + [ev];
    RunSnoc(Fresh, cfg, init, ev);
    ArrivedSnoc(init, ev);
    if last == 0 {
      c := 0;
      assert init == [];
      FirstArrival(cfg, ev, n);
    } else {
      var c0 := WindowRun(cfg, init, s, n);
      c := ExtendWindow(cfg, Run(Fresh, cfg, init), ev, s, n, c0, Arrived(init));
    }
  }

  lemma ExtendWindow(cfg: Config, before: Reaction, ev: Event, s: Seq, n: nat, c0: nat, got: set<Seq>)
    returns (c: nat)
    requires n < HALF && Window(before.tracker, s, n, c0, got) && Numbers(before.consumed) == Span(s, c0 + 1)
    requires ev.Arrive? ==> Distance(s, ev.number) <= n
    ensures var r := Step(before.tracker, cfg, ev);
            && Window(r.tracker, s, n, c, got + if ev.Arrive? then {ev.number} else {})
            && Numbers(before.consumed + r.consumed) == Span(s, c + 1)
  {
    hide Window;
    hide Step;
    c := WindowStep(before.tracker, cfg, ev, s, n, c0, got);
    NumbersAppend(before.consumed, Step(before.tracker, cfg, ev).consumed);
    SpanSnoc(s, c0 + 1, c - c0);
  }

  /** The main result. A first tracked number `s`, then s+1 .. s+n (n <= 0x7FFF) in any
      order with any duplicates and any loop ticks in between: the consumed log is exactly
      s, s+1, ..., s+n, nothing is missing and s+n+1 is expected. */
  lemma OrderIndependence(cfg: Config, evs: seq<Event>, s: Seq, n: nat)
    requires n < HALF && evs != [] && evs[0].Arrive? && evs[0].number == s
    requires forall i :: 0 <= i < |evs| && evs[i].Arrive? ==> Distance(s, evs[i].number) <= n
    requires forall x: Seq :: Distance(s, x) <= n ==> x in Arrived(evs)
    ensures var r := Run(Fresh, cfg, evs);
            && Numbers(r.consumed) == Span(s, n + 1)
            && r.tracker.missing == {} && r.tracker.next == Some(Add(s, n + 1))
  {
    hide Run;
    hide Window;
    var c := WindowRun(cfg, evs, s, n);
    WindowFull(Run(Fresh, cfg, evs).tracker, s, n, c, Arrived(evs));
  }

  lemma WindowFull(t: Tracker, s: Seq, n: nat, c: nat, got: set<Seq>)
    requires n < HALF && Window(t, s, n, c, got)
    requires forall x: Seq :: Distance(s, x) <= n ==> x in got
    ensures c == n && t.missing == {} && t.next == Some(Add(s, n + 1))
  {
    assert t.missing == {};
    assert Distance(s, Add(s, c + 1)) == c + 1;
  }

  /** Safety on the way, whatever is still lost: the log is always a gapless prefix. */
  lemma ConsumedInOrder(cfg: Config, evs: seq<Event>, s: Seq, n: nat)
    requires n < HALF && evs != [] && evs[0].Arrive? && evs[0].number == s
    requires forall i :: 0 <= i < |evs| && evs[i].Arrive? ==> Distance(s, evs[i].number) <= n
    ensures Numbers(Run(Fresh, cfg, evs).consumed) <= Span(s, n + 1)
  {
    var c := WindowRun(cfg, evs, s, n);
    SpanSnoc(s, c + 1, n - c);
  }

  /** Nothing is invented: consumed and held entries are packets that arrived. */
  lemma {:induction false} OnlyArrivals(cfg: Config, evs: seq<Event>)
    ensures var r := Run(Fresh, cfg, evs);
            && (forall e :: e in r.consumed ==> CameIn(evs, e))
            && (forall h :: h in r.tracker.held ==> CameIn(evs, Entry(h, r.tracker.held[h])))
    decreases |evs|
  {
    if evs != [] {
      var last := |evs| - 1;
      var init, ev := evs[..last], evs[last];
      OnlyArrivals(cfg, init);
      var t := Run(Fresh, cfg, init).tracker;
      forall e | CameIn(init, e)
        ensures CameIn(evs, e)
      {
        var i :| 0 <= i < |init| && init[i].Arrive? && e == Entry(init[i].number, init[i].packet);
        assert evs[i] == init[i];
      }
      if ev.Arrive? {
        assert CameIn(evs, Entry(ev.number, ev.packet));
        AcceptFrom(t, cfg, ev.env, ev.number, ev.packet);
      }
    }
  }

  ghost predicate CameIn(evs: seq<Event>, e: Entry) {
    exists i :: 0 <= i < |evs| && evs[i].Arrive? && e == Entry(evs[i].number, evs[i].packet)
  }

  lemma {:induction false} DrainFrom(t: Tracker)
    requires t.next.Some?
    ensures var r := DrainHeld(t);
            && (forall e :: e in r.consumed ==> e.number in t.held && t.held[e.number] == e.packet)
            && (forall h :: h in r.tracker.held ==> h in t.held && t.held[h] == r.tracker.held[h])
    decreases |t.held|
  {
    var e := t.next.value;
    if e in t.held {
      DrainFrom(t.(next := Some(Add(e, 1)), held := t.held - {e}));
    }
  }

  lemma GateAheadFrom(t: Tracker, cfg: Config, env: Env, s: Seq, p: Packet)
    requires t.next.Some?
    ensures var r := GateAhead(t, cfg, env, s, p);
            && (forall e :: e in r.consumed ==>
                  e == Entry(s, p) || (e.number in t.held && t.held[e.number] == e.packet))
            && (forall h :: h in r.tracker.held ==>
                  (h == s && r.tracker.held[h] == p) || (h in t.held && t.held[h] == r.tracker.held[h]))
  {
    hide Opened;
    hide DrainHeld;
    var u := Hold(Note(t, s), s, p);
    assert forall h :: h in u.held ==> (h == s && u.held[h] == p) || (h in t.held && t.held[h] == u.held[h]);
    DrainFrom(u);
  }

  lemma AcceptFrom(t: Tracker, cfg: Config, env: Env, s: Seq, p: Packet)
    ensures var r := Accept(t, cfg, env, s, p);
            && (forall e :: e in r.consumed ==>
                  e == Entry(s, p) || (e.number in t.held && t.held[e.number] == e.packet))
            && (forall h :: h in r.tracker.held ==>
                  (h == s && r.tracker.held[h] == p) || (h in t.held && t.held[h] == r.tracker.held[h]))
  {
    var v := Gate(t, cfg, env, s, p);
    if v.process {
      DrainFrom(v.reaction.tracker);
    } else if Ahead(t.next.value, s) {
      GateAheadFrom(Arm(t, s), cfg, env, s, p);
    }
  }

  /** When every resend of a number carries the same packet, the consumed log is the same
      packets in the same order however two runs of the window interleave. */
  lemma SameLog(cfg: Config, a: seq<Event>, b: seq<Event>, s: Seq, n: nat)
    requires n < HALF && a != [] && a[0].Arrive? && a[0].number == s
    requires b != [] && b[0].Arrive? && b[0].number == s
    requires forall x: Seq :: Distance(s, x) <= n <==> x in Arrived(a)
    requires forall x: Seq :: Distance(s, x) <= n <==> x in Arrived(b)
    requires forall d, e :: CameIn(a, d) && CameIn(b, e) && d.number == e.number ==> d == e
    ensures Run(Fresh, cfg, a).consumed == Run(Fresh, cfg, b).consumed
  {
    OrderIndependence(cfg, a, s, n);
    OrderIndependence(cfg, b, s, n);
    OnlyArrivals(cfg, a);
    OnlyArrivals(cfg, b);
    var la, lb := Run(Fresh, cfg, a).consumed, Run(Fresh, cfg, b).consumed;
    assert |la| == |Numbers(la)| == |Numbers(lb)| == |lb|;
    forall k | 0 <= k < |la|
      ensures la[k] == lb[k]
    {
      assert Numbers(la)[k] == Numbers(lb)[k];
      assert la[k] in la && lb[k] in lb;
    }
  }

  // ---- the clock and the standby switch ----------------------------------------------

  /** The same arrivals and ticks, at other times and with the standby switch set otherwise. */
  ghost predicate Retimed(a: Event, b: Event) {
    if a.Arrive? then b.Arrive? && b.number == a.number && b.packet == a.packet else b.Tick?
  }

  ghost predicate SameButRounds(t: Tracker, u: Tracker) {
    u == t.(lastRoundAt := u.lastRoundAt)
  }

  lemma {:induction false} DrainIgnoresRounds(t: Tracker, u: Tracker)
    requires t.next.Some? && SameButRounds(t, u)
    ensures var r, q := DrainHeld(t), DrainHeld(u);
            SameButRounds(r.tracker, q.tracker) && q.consumed == r.consumed
    decreases |t.held|
  {
    var e := t.next.value;
    if e in t.held {
      DrainIgnoresRounds(t.(next := Some(Add(e, 1)), held := t.held - {e}),
                         u.(next := Some(Add(e, 1)), held := u.held - {e}));
    }
  }

  lemma NoteIgnoresRounds(t: Tracker, u: Tracker, s: Seq, p: Packet)
    requires t.next.Some? && SameButRounds(t, u)
    ensures SameButRounds(Hold(Note(t, s), s, p), Hold(Note(u, s), s, p))
    ensures Note(t, s).next == t.next
  {
    hide Opened;
  }

  lemma AheadIgnoresClock(t: Tracker, u: Tracker, cfg: Config, d: Env, e: Env, s: Seq, p: Packet)
    requires t.next.Some? && SameButRounds(t, u)
    ensures var r, q := GateAhead(t, cfg, d, s, p), GateAhead(u, cfg, e, s, p);
            SameButRounds(r.tracker, q.tracker) && q.consumed == r.consumed
  {
    hide Opened;
    hide DrainHeld;
    NoteIgnoresRounds(t, u, s, p);
    var v, w := Hold(Note(t, s), s, p), Hold(Note(u, s), s, p);
    DrainIgnoresRounds(v, w);
    hide Note;
    hide Hold;
  }

  lemma AcceptIgnoresClock(t: Tracker, u: Tracker, cfg: Config, d: Env, e: Env, s: Seq, p: Packet)
    requires SameButRounds(t, u)
    ensures var r, q := Accept(t, cfg, d, s, p), Accept(u, cfg, e, s, p);
            SameButRounds(r.tracker, q.tracker) && q.consumed == r.consumed
  {
    hide GateAhead;
    hide DrainHeld;
    if t.next.None? || s == t.next.value {
      var v, w := Gate(t, cfg, d, s, p).reaction.tracker, Gate(u, cfg, e, s, p).reaction.tracker;
      assert SameButRounds(v, w);
      DrainIgnoresRounds(v, w);
    } else if Ahead(t.next.value, s) {
      AheadIgnoresClock(Arm(t, s), Arm(u, s), cfg, d, e, s, p);
    }
  }

  lemma StepIgnoresClock(t: Tracker, u: Tracker, cfg: Config, a: Event, b: Event)
    requires SameButRounds(t, u) && Retimed(a, b)
    ensures var r, q := Step(t, cfg, a), Step(u, cfg, b);
            SameButRounds(r.tracker, q.tracker) && q.consumed == r.consumed
  {
    hide Accept;
    if a.Arrive? {
      AcceptIgnoresClock(t, u, cfg, a.env, b.env, a.number, a.packet);
    }
  }

  /** Neither the clock nor standby ever decides what is consumed: two runs of the same
      arrivals and ticks at different times, with the switch toggled at will, consume the same
      packets and end in the same state but for the time of the last round. */
  lemma {:induction false} ConsumptionIgnoresClock(t: Tracker, cfg: Config, a: seq<Event>, b: seq<Event>)
    requires |a| == |b| && forall i :: 0 <= i < |a| ==> Retimed(a[i], b[i])
    ensures var r, q := Run(t, cfg, a), Run(t, cfg, b);
            SameButRounds(r.tracker, q.tracker) && q.consumed == r.consumed
    decreases |a|
  {
    if a != [] {
      var last := |a| - 1;
      ConsumptionIgnoresClock(t, cfg, a[..last], b[..last]);
      StepIgnoresClock(Run(t, cfg, a[..last]).tracker, Run(t, cfg, b[..last]).tracker, cfg, a[last], b[last]);
    }
  }

  // ---- the window bound --------------------------------------------------------------

  /** The numbers `s`, `s+1`, ... each arriving once, in order. */
  function InOrder(env: Env, p: Packet, s: Seq, k: nat): (r: seq<Event>)
    requires k <= MODULUS
    ensures |r| == k
  {
    seq(k, i requires 0 <= i < k => Arrive(env, Add(s, i), p))
  }

  lemma {:induction false} InOrderRun(cfg: Config, env: Env, p: Packet, s: Seq, k: nat)
    requires 0 < k < MODULUS
    ensures Run(Fresh, cfg, InOrder(env, p, s, k)).tracker == Fresh.(next := Some(Add(s, k)))
  {
    var evs := InOrder(env, p, s, k);
    var init := InOrder(env, p, s, k - 1);
    assert evs == init + [Arrive(env, Add(s, k - 1), p)];
    RunSnoc(Fresh, cfg, init, evs[k - 1]);
    if k > 1 {
      InOrderRun(cfg, env, p, s, k - 1);
      assert Add(Add(s, k - 1), 1) == Add(s, k);
    }
  }

  /** The bound of `OrderIndependence` is tight. Over one number more, s .. s+0x8000 in
      order and then a duplicate of `s`, the duplicate counts as ahead and opens a gap over
      numbers that were never sent. */
  lemma WindowBoundIsTight(cfg: Config, env: Env, p: Packet, s: Seq, evs: seq<Event>)
    requires evs == InOrder(env, p, s, HALF + 1) + [Arrive(env, s, p)]
    ensures forall i :: 0 <= i < |evs| ==> evs[i].Arrive? && Distance(s, evs[i].number) <= HALF
    ensures Run(Fresh, cfg, evs).tracker.missing != {}
  {
    InOrderRun(cfg, env, p, s, HALF + 1);
    RunSnoc(Fresh, cfg, InOrder(env, p, s, HALF + 1), Arrive(env, s, p));
    var e := Add(s, HALF + 1);
    assert Distance(e, s) == HALF - 1;
    assert e in Opened(e, HALF - 1, map[]);
  }
}
