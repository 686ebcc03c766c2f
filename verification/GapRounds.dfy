/** Repeated retransmit rounds through the packet and the client's cap: how many of them close
    a gap. */
module GapRounds {
  import opened Wrappers
  import opened SerialNumbers
  import opened GapTracker
  import opened GapInvariant
  import opened GapOrder
  import opened RetransmitRequest
  import opened GapRecovery

  // ---- what a round leaves -----------------------------------------------------------

  /** Numbers that are missing without a break lie in one run. */
  lemma {:induction false} InOneRun(runs: seq<Stretch>, i: nat, a: Seq, b: Seq)
    requires Separated(runs) && i < |runs| && InRun(runs[i], a) && a <= b
    requires forall x: Seq :: a <= x <= b ==> InRuns(runs, x)
    ensures InRun(runs[i], b)
    decreases b - a
  {
    if a < b {
      InOneRun(runs, i, a, b - 1);
      assert InRuns(runs, b);
      var j :| 0 <= j < |runs| && InRun(runs[j], b);
      assert InRun(runs[i], b - 1);
    }
  }

  /** A run starts where the numbers before it are not missing. */
  lemma RunStarts(missing: set<Seq>, j: nat)
    requires j < |MissingRuns(missing)|
    ensures var first := MissingRuns(missing)[j].first; first > 0 ==> first - 1 !in missing
  {
    hide MissingRuns;
    MissingRunsExact(missing);
    var runs := MissingRuns(missing);
    assert forall m :: 0 <= m < |runs| && runs[j].first > 0 ==> !InRun(runs[m], runs[j].first - 1);
  }

  /** `x` is past the first `n` numbers of its run. */
  ghost predicate Past(runs: seq<Stretch>, n: nat, x: Seq) {
    exists i :: 0 <= i < |runs| && InRun(runs[i], x) && x >= runs[i].first + n
  }

  /** `x` is one of the next `MAX_MISSING` numbers of its run after the first `n`. */
  ghost predicate NextUp(runs: seq<Stretch>, n: nat, x: Seq) {
    exists i :: 0 <= i < |runs| && InRun(runs[i], x) && runs[i].first + n <= x < runs[i].first + n + MAX_MISSING
  }

  /** `rest` is what the first `n` numbers of every run leave. */
  ghost predicate Tails(runs: seq<Stretch>, n: nat, rest: set<Seq>) {
    Separated(runs) && forall x: Seq :: x in rest <==> Past(runs, n, x)
  }

  /** The runs of the tails are the tails of the runs. */
  lemma TailRun(runs: seq<Stretch>, n: nat, rest: set<Seq>, i: nat, j: nat, x: Seq)
    requires Tails(runs, n, rest) && i < |runs| && InRun(runs[i], x) && x >= runs[i].first + n
    requires j < |MissingRuns(rest)| && InRun(MissingRuns(rest)[j], x)
    ensures MissingRuns(rest)[j].first == runs[i].first + n
  {
    hide MissingRuns;
    MissingRunsExact(rest);
    var tails := MissingRuns(rest);
    var first := tails[j].first;
    assert InRun(tails[j], first) && InRuns(tails, first);
    var k :| 0 <= k < |runs| && InRun(runs[k], first) && first >= runs[k].first + n;
    forall y: Seq | first <= y <= x
      ensures InRuns(runs, y)
    {
      assert InRun(tails[j], y) && InRuns(tails, y);
      var m :| 0 <= m < |runs| && InRun(runs[m], y) && y >= runs[m].first + n;
    }
    InOneRun(runs, k, first, x);
    assert k == i;
    RunStarts(rest, j);
    StepBack(runs, n, i, first);
  }

  lemma StepBack(runs: seq<Stretch>, n: nat, i: nat, x: Seq)
    requires i < |runs| && InRun(runs[i], x)
    ensures x > runs[i].first + n ==> Past(runs, n, x - 1)
  {
    if x > runs[i].first + n {
      assert InRun(runs[i], x - 1);
    }
  }

  /** Serving the tails serves the next numbers of every run. */
  lemma TailServed(runs: seq<Stretch>, n: nat, rest: set<Seq>)
    requires Tails(runs, n, rest)
    ensures forall x: Seq :: ServedBy(MissingRuns(rest), x) <==> NextUp(runs, n, x)
  {
    hide MissingRuns;
    MissingRunsExact(rest);
    var tails := MissingRuns(rest);
    forall x: Seq
      ensures ServedBy(tails, x) <==> NextUp(runs, n, x)
    {
      if ServedBy(tails, x) {
        var j :| 0 <= j < |tails| && Served(tails[j], x);
        assert InRuns(tails, x);
        var i :| 0 <= i < |runs| && InRun(runs[i], x) && x >= runs[i].first + n;
        TailRun(runs, n, rest, i, j, x);
      }
      if NextUp(runs, n, x) {
        var i :| 0 <= i < |runs| && InRun(runs[i], x) && runs[i].first + n <= x < runs[i].first + n + MAX_MISSING;
        assert Past(runs, n, x);
        var j :| 0 <= j < |tails| && InRun(tails[j], x);
        TailRun(runs, n, rest, i, j, x);
        assert Served(tails[j], x);
      }
    }
  }

  /** A round takes the next numbers of every run. */
  lemma TailsShrink(runs: seq<Stretch>, n: nat, rest: set<Seq>, served: set<Seq>)
    requires Tails(runs, n, rest)
    requires forall x: Seq :: x in served <==> NextUp(runs, n, x)
    ensures Tails(runs, n + MAX_MISSING, rest - served)
  {
    forall x: Seq
      ensures x in rest - served <==> Past(runs, n + MAX_MISSING, x)
    {
      if x in rest - served {
        var i :| 0 <= i < |runs| && InRun(runs[i], x) && x >= runs[i].first + n;
        assert x >= runs[i].first + n + MAX_MISSING;
      }
      if Past(runs, n + MAX_MISSING, x) {
        var i :| 0 <= i < |runs| && InRun(runs[i], x) && x >= runs[i].first + (n + MAX_MISSING);
        assert Past(runs, n, x);
        if NextUp(runs, n, x) {
          assert false;
        }
      }
    }
  }

  // ---- runs of rounds ----------------------------------------------------------------

  /** All events of some rounds. */
  function Flat(rounds: seq<seq<Event>>): seq<Event> {
    if rounds == [] then [] else Flat(rounds[..|rounds| - 1]) + rounds[|rounds| - 1]
  }

  /** What a round has to bring: the client's answer to the request of the moment. Nothing is
      asked once nothing is missing. */
  ghost function Asks(t: Tracker, radioId: nat, clientId: nat): set<Seq> {
    if t.missing == {} then {} else Resent(t, radioId, clientId)
  }

  /** In each round the numbers that the client resends arrive, any number of times. */
  ghost predicate Answered(t: Tracker, cfg: Config, radioId: nat, clientId: nat, rounds: seq<seq<Event>>)
    decreases |rounds|
  {
    rounds == [] ||
    var init := rounds[..|rounds| - 1];
    && Answered(t, cfg, radioId, clientId, init)
    && Arrived(rounds[|rounds| - 1]) == Asks(Run(t, cfg, Flat(init)).tracker, radioId, clientId)
  }

  lemma {:induction false} ArrivedAppend(a: seq<Event>, b: seq<Event>)
    ensures Arrived(a + b) == Arrived(a) + Arrived(b)
    decreases |b|
  {
    if b == [] {
      assert a + b == a;
    } else {
      var init, ev := b[..|b| - 1], b[|b| - 1];
      assert b == init + [ev] && a + b == (a + init) + [ev];
      ArrivedAppend(a, init);
      ArrivedSnoc(a + init, ev);
      ArrivedSnoc(init, ev);
    }
  }

  /** Of a set of missing numbers the client serves the heads of the runs, if any. */
  lemma AsksServed(t: Tracker, radioId: nat, clientId: nat)
    requires Sound(t) && t.next.Some?
    ensures forall x: Seq :: x in Asks(t, radioId, clientId) <==> ServedBy(MissingRuns(t.missing), x)
  {
    hide MissingRuns;
    hide Request;
    hide Serve;
    if t.missing == {} {
      MissingRunsExact(t.missing);
      ServedAreMissing(MissingRuns(t.missing));
    } else {
      SoundRunsAreShort(t);
      RequestServes(t.missing, radioId, clientId);
    }
  }

  lemma NoTail(missing: set<Seq>)
    ensures Tails(MissingRuns(missing), 0, missing)
  {
    hide MissingRuns;
    MissingRunsExact(missing);
  }

  /** After `n` rounds exactly the numbers past the first `50 n` of their run are missing. */
  lemma {:induction false} RoundsLeaveTails(t: Tracker, cfg: Config, radioId: nat, clientId: nat, rounds: seq<seq<Event>>)
    requires Inv(t) && t.next.Some? && t.missing != {} && InWindow(t)
    requires Answered(t, cfg, radioId, clientId, rounds)
    ensures Arrived(Flat(rounds)) <= t.missing
    ensures Run(t, cfg, Flat(rounds)).tracker.missing == t.missing - Arrived(Flat(rounds))
    ensures Tails(MissingRuns(t.missing), MAX_MISSING * |rounds|, Run(t, cfg, Flat(rounds)).tracker.missing)
    decreases |rounds|
  {
    hide MissingRuns;
    hide Arrived;
    hide Run;
    hide Asks;
    hide InWindow;
    if rounds == [] {
      NoneArrived();
      NoTail(t.missing);
      assert t.missing - {} == t.missing;
      NothingRun(t, cfg);
    } else {
      var init, last := rounds[..|rounds| - 1], rounds[|rounds| - 1];
      RoundsLeaveTails(t, cfg, radioId, clientId, init);
      var u := Run(t, cfg, Flat(init)).tracker;
      RunsKeepInv(t, cfg, Flat(init));
      NextIsSome(t, cfg, Flat(init));
      AsksServed(u, radioId, clientId);
      TailServed(MissingRuns(t.missing), MAX_MISSING * |init|, u.missing);
      var served := Asks(u, radioId, clientId);
      TailsShrink(MissingRuns(t.missing), MAX_MISSING * |init|, u.missing, served);
      ServedAreTails(MissingRuns(t.missing), MAX_MISSING * |init|, u.missing, served);
      ArrivedAppend(Flat(init), last);
      var c := RecoveryRun(t, cfg, Flat(rounds));
      assert u.missing - served == t.missing - Arrived(Flat(rounds));
    }
  }

  lemma ServedAreTails(runs: seq<Stretch>, n: nat, rest: set<Seq>, served: set<Seq>)
    requires Tails(runs, n, rest)
    requires forall x: Seq :: x in served <==> NextUp(runs, n, x)
    ensures served <= rest
  {
    forall x | x in served
      ensures x in rest
    {
      var i :| 0 <= i < |runs| && InRun(runs[i], x) && runs[i].first + n <= x < runs[i].first + n + MAX_MISSING;
      assert Past(runs, n, x);
    }
  }

  lemma NothingRun(t: Tracker, cfg: Config)
    ensures Run(t, cfg, []).tracker == t
  {
  }

  lemma {:induction false} NextIsSome(t: Tracker, cfg: Config, evs: seq<Event>)
    requires t.next.Some?
    ensures Run(t, cfg, evs).tracker.next.Some?
    decreases |evs|
  {
    if evs != [] {
      NextIsSome(t, cfg, evs[..|evs| - 1]);
    }
  }

  /** No run of missing numbers is longer than `n`. */
  ghost predicate RunsWithin(missing: set<Seq>, n: nat) {
    forall i :: 0 <= i < |MissingRuns(missing)| ==> MissingRuns(missing)[i].last - MissingRuns(missing)[i].first < n
  }

  lemma TailsEmptyIff(missing: set<Seq>, n: nat, rest: set<Seq>)
    requires Tails(MissingRuns(missing), n, rest)
    ensures rest == {} <==> RunsWithin(missing, n)
  {
    hide MissingRuns;
    var runs := MissingRuns(missing);
    if !RunsWithin(missing, n) {
      var i :| 0 <= i < |runs| && runs[i].last - runs[i].first >= n;
      var x := runs[i].last;
      assert InRun(runs[i], x) && Past(runs, n, x);
    }
    if rest != {} {
      var x :| x in rest;
      var i :| 0 <= i < |runs| && InRun(runs[i], x) && x >= runs[i].first + n;
    }
  }

  /** The main result: from any reachable open gap of a fresh tracker, `n` answered rounds close
      it, and release everything contiguous in order, if and only if no run of missing numbers
      was longer than `50 n`. */
  lemma GapClosesIff(t: Tracker, cfg: Config, radioId: nat, clientId: nat, rounds: seq<seq<Event>>)
    requires Inv(t) && t.next.Some? && t.missing != {} && InWindow(t)
    requires Answered(t, cfg, radioId, clientId, rounds)
    ensures Recovered(t, cfg, Flat(rounds)) <==> RunsWithin(t.missing, MAX_MISSING * |rounds|)
    ensures Run(t, cfg, Flat(rounds)).tracker.missing == {} <==> RunsWithin(t.missing, MAX_MISSING * |rounds|)
  {
    hide MissingRuns;
    hide Arrived;
    hide Run;
    hide Recovered;
    hide RunsWithin;
    hide Tails;
    RoundsLeaveTails(t, cfg, radioId, clientId, rounds);
    var rest := Run(t, cfg, Flat(rounds)).tracker.missing;
    TailsEmptyIff(t.missing, MAX_MISSING * |rounds|, rest);
    if rest == {} {
      AllTaken(t.missing, Arrived(Flat(rounds)));
      RoundSuffices(t, cfg, Flat(rounds));
    }
    if Recovered(t, cfg, Flat(rounds)) {
      RecoveredCloses(t, cfg, Flat(rounds));
    }
  }

  lemma AllTaken(a: set<Seq>, b: set<Seq>)
    requires b <= a && a - b == {}
    ensures a == b
  {
    forall x | x in a
      ensures x in b
    {
      assert x !in a - b;
    }
  }

  lemma RecoveredCloses(t: Tracker, cfg: Config, evs: seq<Event>)
    requires t.next.Some? && Recovered(t, cfg, evs)
    ensures Run(t, cfg, evs).tracker.missing == {}
  {
  }

  /** One round may not be enough: packets 0 and 52 of a fresh client open a gap of 51, and the
      client resends 50 of it. */
  lemma CapLeavesOne(cfg: Config, env: Env, p: Packet, radioId: nat, clientId: nat)
    ensures var t := Run(Fresh, cfg, [Arrive(env, 0, p), Arrive(env, 52, p)]).tracker;
            && (forall x: Seq :: x in t.missing <==> 1 <= x <= 51)
            && 51 !in Resent(t, radioId, clientId)
  {
    hide Resent;
    var first, second := Arrive(env, 0, p), Arrive(env, 52, p);
    var evs := [first, second];
    assert evs == [first] + [second] && [first] == [] + [first];
    NothingRun(Fresh, cfg);
    RunSnoc(Fresh, cfg, [], first);
    RunSnoc(Fresh, cfg, [first], second);
    OpenFiftyOne(cfg, env, p);
    FreshRunsKeepInv(cfg, evs);
    FiftyOne(Run(Fresh, cfg, evs).tracker, radioId, clientId);
  }

  lemma OpenFiftyOne(cfg: Config, env: Env, p: Packet)
    ensures var t := Step(Step(Fresh, cfg, Arrive(env, 0, p)).tracker, cfg, Arrive(env, 52, p)).tracker;
            t.next == Some(1) && forall x: Seq :: x in t.missing <==> 1 <= x <= 51
  {
    assert forall x: Seq :: x in Opened(1, 51, map[]) <==> 1 <= x <= 51;
    assert 1 in Opened(1, 51, map[]);
  }

  lemma FiftyOne(t: Tracker, radioId: nat, clientId: nat)
    requires Sound(t) && t.next.Some? && forall x: Seq :: x in t.missing <==> 1 <= x <= 51
    ensures 51 !in Resent(t, radioId, clientId)
  {
    hide MissingRuns;
    hide Request;
    hide Serve;
    var last: Seq := 51;
    assert 1 in t.missing && last in t.missing;
    SoundRunsAreShort(t);
    RequestServes(t.missing, radioId, clientId);
    MissingRunsExact(t.missing);
    var runs := MissingRuns(t.missing);
    if ServedBy(runs, last) {
      var j :| 0 <= j < |runs| && Served(runs[j], last);
      var i :| 0 <= i < |runs| && InRun(runs[i], 1);
      InOneRun(runs, i, 1, last);
      assert false;
    }
  }
}
