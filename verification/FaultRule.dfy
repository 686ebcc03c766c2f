/** The declarative fault rule of one packet stream, `FaultRule`. Random draws are inputs. */
module FaultRule {
  import opened Wrappers
  import Modular

  type Bytes = seq<byte>

  datatype Emission = Emission(delay: int, payload: Bytes)

  datatype Knobs = Knobs(
    dropProbability: real,
    dropEvery: int,
    duplicateProbability: real,
    duplicateDelay: int,
    delay: int,
    jitter: int,
    reorderWindow: int,
    reorderFlush: int,
    corruptProbability: real,
    truncateProbability: real,
    truncateTo: int,
    maxPackets: Option<nat>,
    duration: Option<int>)

  /** What the random generator contributes to one packet: the draws compared with the
      probabilities, the jitter, the corrupted form of the packet, and the shuffle. */
  datatype Draws = Draws(drop: real, corrupt: real, truncate: real, duplicate: real, jitter: int, corrupted: Bytes)

  datatype Rule = Rule(
    matched: nat,
    dropped: nat,
    startedAt: Option<int>,
    buffer: seq<Emission>,
    since: Option<int>)

  const NewRule := Rule(0, 0, None, [], None)

  /** `_active` */
  predicate Active(k: Knobs, r: Rule, now: int) {
    && (k.maxPackets.None? || r.matched < k.maxPackets.value)
    && (k.duration.None? || r.startedAt.None? || now - r.startedAt.value < k.duration.value)
  }

  /** Whether the packet that makes the count `matched` is dropped. */
  predicate Drops(k: Knobs, matched: nat, d: Draws) {
    || (k.dropEvery > 0 && matched % k.dropEvery == 0)
    || (k.dropProbability > 0.0 && d.drop < k.dropProbability)
  }

  function Payload(k: Knobs, packet: Bytes, d: Draws): Bytes {
    var p := if k.corruptProbability > 0.0 && |packet| > 0 && d.corrupt < k.corruptProbability
             then d.corrupted else packet;
    if k.truncateProbability > 0.0 && d.truncate < k.truncateProbability then
      var cut := if k.truncateTo > 0 then k.truncateTo else 0;
      if cut <= |p| then p[..cut] else p
    else p
  }

  predicate Duplicates(k: Knobs, d: Draws) {
    k.duplicateProbability > 0.0 && d.duplicate < k.duplicateProbability
  }

  /** The emissions of one packet that is not dropped: itself, and maybe its duplicate. */
  function Emissions(k: Knobs, packet: Bytes, d: Draws): (r: seq<Emission>)
    ensures |r| == 1 + if Duplicates(k, d) then 1 else 0
  {
    var p := Payload(k, packet, d);
    var at := if k.jitter > 0 then k.delay + d.jitter else k.delay;
    [Emission(at, p)]
    + if Duplicates(k, d) then [Emission(at + if k.duplicateDelay > 0 then k.duplicateDelay else 0, p)] else []
  }

  /** What reached the caller, up to the order of a shuffle: None while everything is held. */
  datatype Decision = Decision(rule: Rule, held: bool, batch: seq<Emission>, tail: seq<Emission>)

  /** `flush`: the batch that is shuffled out. */
  function Flushed(r: Rule): Rule {
    if r.buffer == [] then r else r.(buffer := [], since := None)
  }

  /** `decide`: `batch` is emitted shuffled, then `tail` as it is. */
  function Decide(k: Knobs, r: Rule, packet: Bytes, now: int, d: Draws): Decision {
    if !Active(k, r, now) then Decision(Flushed(r), false, r.buffer, [Emission(0, packet)])
    else
      var m := r.(startedAt := if r.startedAt.None? then Some(now) else r.startedAt, matched := r.matched + 1);
      if Drops(k, m.matched, d) then Decision(m.(dropped := m.dropped + 1), false, [], [])
      else
        var es := Emissions(k, packet, d);
        if k.reorderWindow > 1 then
          var since := if m.since.None? then now else m.since.value;
          var b := m.(since := Some(since), buffer := m.buffer + es);
          if |b.buffer| >= k.reorderWindow || now - since >= k.reorderFlush then
            Decision(Flushed(b), false, b.buffer, [])
          else Decision(b, true, [], [])
        else Decision(m, false, [], es)
  }

  // ---- runs --------------------------------------------------------------------------

  datatype Event =
    | Packet(bytes: Bytes, now: int, draws: Draws)
    | FlushNow

  /** Totals of a run beside the rule's own counters. `out` is a bag: shuffles reorder it. */
  datatype Totals = Totals(rule: Rule, out: multiset<Emission>, passed: nat, duplicates: nat)

  function Step(k: Knobs, t: Totals, ev: Event): Totals {
    match ev
    case FlushNow => t.(rule := Flushed(t.rule), out := t.out + multiset(t.rule.buffer))
    case Packet(bytes, now, d) =>
      var c := Decide(k, t.rule, bytes, now, d);
      var active := Active(k, t.rule, now);
      Totals(c.rule, t.out + multiset(c.batch) + multiset(c.tail),
             t.passed + if active then 0 else 1,
             t.duplicates + if active && !Drops(k, t.rule.matched + 1, d) && Duplicates(k, d) then 1 else 0)
  }

  function Play(k: Knobs, evs: seq<Event>): Totals {
    if evs == [] then Totals(NewRule, multiset{}, 0, 0)
    else Step(k, Play(k, evs[..|evs| - 1]), evs[|evs| - 1])
  }

  /** Conservation: every emission made or held is a passed-through packet, a matched packet
      that was not dropped, or a duplicate of one. */
  ghost predicate Balanced(t: Totals) {
    && t.rule.dropped <= t.rule.matched
    && |t.out| + |t.rule.buffer| == t.passed + (t.rule.matched - t.rule.dropped) + t.duplicates
  }

  /** The buffer's own bookkeeping. */
  ghost predicate Bounded(k: Knobs, t: Totals) {
    && (t.rule.buffer != [] <==> t.rule.since.Some?)
    && (t.rule.buffer != [] ==> |t.rule.buffer| < k.reorderWindow)
    && (k.maxPackets.Some? ==> t.rule.matched <= k.maxPackets.value)
    && (t.rule.matched > 0 <==> t.rule.startedAt.Some?)
  }

  lemma StepKeeps(k: Knobs, t: Totals, ev: Event)
    requires Balanced(t) && Bounded(k, t)
    ensures Balanced(Step(k, t, ev)) && Bounded(k, Step(k, t, ev))
  {
    hide Decide;
    hide Emissions;
    hide Drops;
    hide Duplicates;
    match ev
    case FlushNow => BagSize(t.out, t.rule.buffer, []);
    case Packet(bytes, now, d) =>
      var c := Decide(k, t.rule, bytes, now, d);
      DecideCounts(k, t, bytes, now, d);
      BagSize(t.out, c.batch, c.tail);
  }

  /** One decision, counted. */
  lemma DecideCounts(k: Knobs, t: Totals, bytes: Bytes, now: int, d: Draws)
    requires Bounded(k, t)
    ensures var c := Decide(k, t.rule, bytes, now, d);
            var kept := Active(k, t.rule, now) && !Drops(k, t.rule.matched + 1, d);
            && |c.batch| + |c.tail| + |c.rule.buffer|
               == |t.rule.buffer| + (if !Active(k, t.rule, now) || kept then 1 else 0)
                  + (if kept && Duplicates(k, d) then 1 else 0)
            && c.rule.matched == t.rule.matched + (if Active(k, t.rule, now) then 1 else 0)
            && c.rule.dropped
               == t.rule.dropped + (if Active(k, t.rule, now) && !kept then 1 else 0)
            && Bounded(k, t.(rule := c.rule))
  {
    hide Emissions;
    hide Drops;
    hide Duplicates;
  }

  lemma BagSize(out: multiset<Emission>, a: seq<Emission>, b: seq<Emission>)
    ensures |out + multiset(a) + multiset(b)| == |out| + |a| + |b|
    ensures out + multiset(a) + multiset([]) == out + multiset(a)
  {
    assert |multiset(a)| == |a| && |multiset(b)| == |b|;
  }

  /** Conservation and bounds hold after any packets, flushes and random draws. */
  lemma {:induction false} Conservation(k: Knobs, evs: seq<Event>)
    ensures Balanced(Play(k, evs)) && Bounded(k, Play(k, evs))
  {
    if evs != [] {
      Conservation(k, evs[..|evs| - 1]);
      StepKeeps(k, Play(k, evs[..|evs| - 1]), evs[|evs| - 1]);
    }
  }

  /** With no drop probability, `drop_every = n` drops exactly every n-th matched packet. */
  lemma {:induction false} DropsEveryNth(k: Knobs, evs: seq<Event>)
    requires k.dropProbability == 0.0 && k.dropEvery > 0
    ensures Play(k, evs).rule.dropped == Play(k, evs).rule.matched / k.dropEvery
  {
    hide Step;
    if evs == [] {
      Modular.QuotientIs(0, k.dropEvery, 0, 0);
    } else {
      var t := Play(k, evs[..|evs| - 1]);
      DropsEveryNth(k, evs[..|evs| - 1]);
      CountsOf(k, t, evs[|evs| - 1]);
      NextMultiple(t.rule.matched, k.dropEvery);
    }
  }

  lemma CountsOf(k: Knobs, t: Totals, ev: Event)
    requires k.dropProbability == 0.0 && k.dropEvery > 0
    ensures var n := Step(k, t, ev).rule;
            || (n.matched == t.rule.matched && n.dropped == t.rule.dropped)
            || (n.matched == t.rule.matched + 1
                && n.dropped == t.rule.dropped + if (t.rule.matched + 1) % k.dropEvery == 0 then 1 else 0)
  {
    hide Emissions;
  }

  lemma NextMultiple(m: nat, n: int)
    requires n > 0
    ensures (m + 1) / n == m / n + if (m + 1) % n == 0 then 1 else 0
  {
    var q, r := m / n, m % n;
    Modular.Euclid(m, n);
    if r == n - 1 {
      Modular.MulSub(q, -1, n);
      Modular.QuotientIs(m + 1, n, q + 1, 0);
    } else {
      Modular.QuotientIs(m + 1, n, q, r + 1);
    }
  }

  /** The packets of a run. */
  function Payloads(evs: seq<Event>): multiset<Bytes> {
    if evs == [] then multiset{}
    else Payloads(evs[..|evs| - 1])
         + if evs[|evs| - 1].Packet? then multiset{evs[|evs| - 1].bytes} else multiset{}
  }

  /** How often a payload occurs in a bag of emissions, whatever the delay. */
  function PayloadsOf(es: seq<Emission>): multiset<Bytes> {
    if es == [] then multiset{} else multiset{es[0].payload} + PayloadsOf(es[1..])
  }

  lemma {:induction false} PayloadsOfAppend(a: seq<Emission>, b: seq<Emission>)
    ensures PayloadsOf(a + b) == PayloadsOf(a) + PayloadsOf(b)
  {
    if a == [] {
      assert a + b == b;
    } else {
      assert (a + b)[1..] == a[1..] + b;
      PayloadsOfAppend(a[1..], b);
    }
  }

  predicate ReorderOnly(k: Knobs) {
    && k.dropEvery <= 0 && k.dropProbability <= 0.0 && k.duplicateProbability <= 0.0
    && k.corruptProbability <= 0.0 && k.truncateProbability <= 0.0
  }

  /** One list of everything emitted in a run, each shuffle taken as the identity. */
  function Emitted(k: Knobs, evs: seq<Event>): seq<Emission> {
    if evs == [] then []
    else
      Emitted(k, evs[..|evs| - 1])
      + EmittedBy(k, Play(k, evs[..|evs| - 1]).rule, evs[|evs| - 1])
  }

  lemma {:induction false} EmittedIsOut(k: Knobs, evs: seq<Event>)
    ensures multiset(Emitted(k, evs)) == Play(k, evs).out
  {
    if evs != [] {
      EmittedIsOut(k, evs[..|evs| - 1]);
    }
  }

  /** An emission taken out of a batch. */
  lemma TakeOut(b: seq<Emission>, i: nat)
    requires i < |b|
    ensures var less := b[..i] + b[i + 1..];
            && multiset(b) == multiset(less) + multiset{b[i]}
            && PayloadsOf(b) == multiset{b[i].payload} + PayloadsOf(less)
  {
    hide PayloadsOf;
    assert b == b[..i] + ([b[i]] + b[i + 1..]);
    PayloadsOfAppend(b[..i], [b[i]] + b[i + 1..]);
    PayloadsOfAppend([b[i]], b[i + 1..]);
    PayloadsOfAppend(b[..i], b[i + 1..]);
    Alone(b[i]);
  }

  lemma Cancel<T>(x: multiset<T>, y: multiset<T>, e: T)
    requires x + multiset{e} == y + multiset{e}
    ensures x == y
  {
    assert x == x + multiset{e} - multiset{e};
  }

  /** A shuffle keeps the bag of payloads. */
  lemma {:induction false} PayloadsOfBag(a: seq<Emission>, b: seq<Emission>)
    requires multiset(a) == multiset(b)
    ensures PayloadsOf(a) == PayloadsOf(b)
    decreases |a|
  {
    hide PayloadsOf;
    SameSize(a, b);
    if a == [] {
      assert b == [];
    } else {
      assert a[0] in multiset(a);
      var i :| 0 <= i < |b| && b[i] == a[0];
      TakeOut(a, 0);
      TakeOut(b, i);
      Cancel(multiset(a[..0] + a[1..]), multiset(b[..i] + b[i + 1..]), a[0]);
      PayloadsOfBag(a[..0] + a[1..], b[..i] + b[i + 1..]);
    }
  }

  /** A rule that only delays and reorders keeps every payload exactly once: whatever order the
      shuffles gave the output of a run, it and what is held are the packets of the run. */
  lemma ReorderKeepsPayloads(k: Knobs, evs: seq<Event>, out: seq<Emission>)
    requires ReorderOnly(k) && multiset(out) == Play(k, evs).out
    ensures PayloadsOf(out) + PayloadsOf(Play(k, evs).rule.buffer) == Payloads(evs)
  {
    EmittedIsOut(k, evs);
    PayloadsOfBag(out, Emitted(k, evs));
    UnshuffledKeepsPayloads(k, evs);
  }

  lemma {:induction false} UnshuffledKeepsPayloads(k: Knobs, evs: seq<Event>)
    requires ReorderOnly(k)
    ensures PayloadsOf(Emitted(k, evs)) + PayloadsOf(Play(k, evs).rule.buffer) == Payloads(evs)
  {
    if evs != [] {
      var init, ev := evs[..|evs| - 1], evs[|evs| - 1];
      UnshuffledKeepsPayloads(k, init);
      ReorderStep(k, Play(k, init), Emitted(k, init), ev);
    }
  }

  /** What one event emits, in the order it would come out unshuffled. */
  function EmittedBy(k: Knobs, r: Rule, ev: Event): seq<Emission> {
    match ev
    case FlushNow => r.buffer
    case Packet(bytes, now, d) => Decide(k, r, bytes, now, d).batch + Decide(k, r, bytes, now, d).tail
  }

  lemma ReorderStep(k: Knobs, t: Totals, done: seq<Emission>, ev: Event)
    requires ReorderOnly(k)
    ensures PayloadsOf(done + EmittedBy(k, t.rule, ev)) + PayloadsOf(Step(k, t, ev).rule.buffer)
            == PayloadsOf(done) + PayloadsOf(t.rule.buffer)
               + if ev.Packet? then multiset{ev.bytes} else multiset{}
  {
    hide Decide;
    PayloadsOfAppend(done, EmittedBy(k, t.rule, ev));
    match ev
    case FlushNow =>
    case Packet(bytes, now, d) =>
      var c := Decide(k, t.rule, bytes, now, d);
      PayloadsOfAppend(c.batch, c.tail);
      OnePacket(k, t.rule, bytes, now, d);
      Regroup(PayloadsOf(done), PayloadsOf(c.batch), PayloadsOf(c.tail), PayloadsOf(c.rule.buffer),
              PayloadsOf(t.rule.buffer), multiset{bytes});
  }

  lemma Regroup<T>(d: multiset<T>, b: multiset<T>, t: multiset<T>, r: multiset<T>, x: multiset<T>, y: multiset<T>)
    requires b + t + r == x + y
    ensures d + (b + t) + r == d + x + y
  {
    assert d + (b + t) + r == d + (b + t + r);
  }

  lemma OnePacket(k: Knobs, r: Rule, bytes: Bytes, now: int, d: Draws)
    requires ReorderOnly(k)
    ensures var c := Decide(k, r, bytes, now, d);
            PayloadsOf(c.batch) + PayloadsOf(c.tail) + PayloadsOf(c.rule.buffer)
            == PayloadsOf(r.buffer) + multiset{bytes}
  {
    hide PayloadsOf;
    OneEmission(k, bytes, d);
    hide Emissions;
    Alone(Emission(0, bytes));
    Nothing();
    PayloadsOfAppend(r.buffer, Emissions(k, bytes, d));
    var c := Decide(k, r, bytes, now, d);
    if !Active(k, r, now) {
      assert c.batch == r.buffer && c.tail == [Emission(0, bytes)] && c.rule.buffer == [];
    } else if k.reorderWindow <= 1 {
      assert c.batch == [] && c.tail == Emissions(k, bytes, d) && c.rule.buffer == r.buffer;
    } else if c.held {
      assert c.batch == [] && c.tail == [] && c.rule.buffer == r.buffer + Emissions(k, bytes, d);
    } else {
      assert c.batch == r.buffer + Emissions(k, bytes, d) && c.tail == [] && c.rule.buffer == [];
    }
  }

  lemma Nothing()
    ensures PayloadsOf([]) == multiset{}
  {
  }

  lemma Alone(e: Emission)
    ensures PayloadsOf([e]) == multiset{e.payload}
  {
    assert |[e][1..]| == 0;
  }

  lemma OneEmission(k: Knobs, bytes: Bytes, d: Draws)
    requires ReorderOnly(k)
    ensures PayloadsOf(Emissions(k, bytes, d)) == multiset{bytes}
  {
    var es := Emissions(k, bytes, d);
    assert es == [es[0]] && es[0].payload == bytes;
    Alone(es[0]);
  }

  // ---- what comes out of a packet ----------------------------------------------------

  function Max(a: int, b: int): int {
    if a >= b then a else b
  }

  function Min(a: int, b: int): int {
    if a <= b then a else b
  }

  /** The packet itself or, when the corruption draw hits, its corrupted form; cut to its first
      `truncateTo` bytes when the truncation draw hits. */
  ghost predicate Carries(k: Knobs, packet: Bytes, d: Draws, payload: Bytes) {
    var hit := k.corruptProbability > 0.0 && packet != [] && d.corrupt < k.corruptProbability;
    var cut := k.truncateProbability > 0.0 && d.truncate < k.truncateProbability;
    var base := if hit then d.corrupted else packet;
    payload <= base && |payload| == if cut then Min(Max(0, k.truncateTo), |base|) else |base|
  }

  /** The delay: the fixed part and the jitter drawn; a duplicate comes later by its own delay. */
  ghost predicate Delays(k: Knobs, d: Draws, duplicate: bool, delay: int) {
    delay == k.delay + (if k.jitter > 0 then d.jitter else 0) + if duplicate then Max(0, k.duplicateDelay) else 0
  }

  /** The emissions of a packet that is not dropped. */
  ghost predicate Yields(k: Knobs, packet: Bytes, d: Draws, es: seq<Emission>) {
    && |es| == (if k.duplicateProbability > 0.0 && d.duplicate < k.duplicateProbability then 2 else 1)
    && Carries(k, packet, d, es[0].payload) && Delays(k, d, false, es[0].delay)
    && (|es| == 2 ==> es[1].payload == es[0].payload && Delays(k, d, true, es[1].delay))
  }

  lemma EmissionsYield(k: Knobs, packet: Bytes, d: Draws)
    ensures Yields(k, packet, d, Emissions(k, packet, d))
  {
  }

  /** A rule that does not act lets everything out and the packet through untouched. */
  lemma PassesThrough(k: Knobs, r: Rule, packet: Bytes, now: int, d: Draws)
    requires (k.maxPackets.Some? && r.matched >= k.maxPackets.value)
             || (k.duration.Some? && r.startedAt.Some? && now - r.startedAt.value >= k.duration.value)
    requires r.buffer == [] ==> r.since == None
    ensures var c := Decide(k, r, packet, now, d);
            && c.batch == r.buffer && c.tail == [Emission(0, packet)] && !c.held
            && c.rule == r.(buffer := [], since := None)
  {
  }

  /** A rule that acts drops the packet, or holds it, or lets it out with everything held. */
  lemma Acts(k: Knobs, r: Rule, packet: Bytes, now: int, d: Draws) returns (es: seq<Emission>)
    requires k.maxPackets.Some? ==> r.matched < k.maxPackets.value
    requires k.duration.Some? && r.startedAt.Some? ==> now - r.startedAt.value < k.duration.value
    requires r.buffer == [] ==> r.since == None
    ensures Yields(k, packet, d, es)
    ensures var c := Decide(k, r, packet, now, d);
            var drops := (k.dropEvery > 0 && (r.matched + 1) % k.dropEvery == 0)
                         || (k.dropProbability > 0.0 && d.drop < k.dropProbability);
            var waiting := if r.since.None? then 0 else now - r.since.value;
            && c.rule.matched == r.matched + 1
            && c.rule.startedAt == (if r.startedAt.None? then Some(now) else r.startedAt)
            && c.rule.dropped == r.dropped + (if drops then 1 else 0)
            && (if drops then
                  c.batch == [] && c.tail == [] && !c.held && c.rule.buffer == r.buffer && c.rule.since == r.since
                else if k.reorderWindow <= 1 then
                  c.batch == [] && c.tail == es && !c.held && c.rule.buffer == r.buffer && c.rule.since == r.since
                else if |r.buffer| + |es| >= k.reorderWindow || waiting >= k.reorderFlush then
                  c.batch == r.buffer + es && c.tail == [] && !c.held && c.rule.buffer == [] && c.rule.since == None
                else
                  c.batch == [] && c.tail == [] && c.held && c.rule.buffer == r.buffer + es
                  && c.rule.since == if r.since.None? then Some(now) else r.since)
  {
    es := Emissions(k, packet, d);
    EmissionsYield(k, packet, d);
    hide Emissions;
  }

  // ---- on which packets a rule acts --------------------------------------------------

  /** A packet after the run `evs`: fewer than `maxPackets` packets were acted on, and less than
      `duration` has passed since the first of them. */
  ghost predicate ActsOn(k: Knobs, evs: seq<Event>, ev: Event)
    decreases |evs|, 1
  {
    && ev.Packet?
    && (k.maxPackets.Some? ==> Acted(k, evs) < k.maxPackets.value)
    && (k.duration.Some? && FirstAct(k, evs).Some? ==> ev.now - FirstAct(k, evs).value < k.duration.value)
  }

  /** How many packets of a run were acted on. */
  ghost function Acted(k: Knobs, evs: seq<Event>): nat
    decreases |evs|, 0
  {
    if evs == [] then 0
    else Acted(k, evs[..|evs| - 1]) + if ActsOn(k, evs[..|evs| - 1], evs[|evs| - 1]) then 1 else 0
  }

  /** When the first of them came. */
  ghost function FirstAct(k: Knobs, evs: seq<Event>): Option<int>
    decreases |evs|, 0
  {
    if evs == [] then None
    else if FirstAct(k, evs[..|evs| - 1]).Some? then FirstAct(k, evs[..|evs| - 1])
    else if ActsOn(k, evs[..|evs| - 1], evs[|evs| - 1]) then Some(evs[|evs| - 1].now) else None
  }

  /** The rule's own counters are these: it acts on exactly these packets. */
  lemma {:induction false} ActsExactly(k: Knobs, evs: seq<Event>)
    ensures Play(k, evs).rule.matched == Acted(k, evs) && Play(k, evs).rule.startedAt == FirstAct(k, evs)
    decreases |evs|
  {
    if evs != [] {
      var init, ev := evs[..|evs| - 1], evs[|evs| - 1];
      ActsExactly(k, init);
      Conservation(k, init);
      StepActs(k, Play(k, init), ev);
      hide Step;
    }
  }

  lemma StepActs(k: Knobs, t: Totals, ev: Event)
    ensures var n := Step(k, t, ev).rule;
            var acts := && ev.Packet? && (k.maxPackets.Some? ==> t.rule.matched < k.maxPackets.value)
                        && (k.duration.Some? && t.rule.startedAt.Some? ==>
                              ev.now - t.rule.startedAt.value < k.duration.value);
            && n.matched == t.rule.matched + (if acts then 1 else 0)
            && n.startedAt == if acts && t.rule.startedAt.None? then Some(ev.now) else t.rule.startedAt
  {
    hide Emissions;
    hide Drops;
  }

  /** A bound that has run out stays so: with a clock that does not run backwards, a rule that
      did not act on a packet does not act on any later one. */
  lemma OverIsOver(k: Knobs, evs: seq<Event>, ev: Event, later: Event)
    requires ev.Packet? && later.Packet? && later.now >= ev.now && !ActsOn(k, evs, ev)
    ensures !ActsOn(k, evs + [ev], later)
  {
    assert (evs + [ev])[..|evs|] == evs;
  }

  /** The emission stems from event `i`: passed through untouched, or made by the rule. */
  ghost predicate StemsFrom(k: Knobs, evs: seq<Event>, i: nat, e: Emission) {
    && i < |evs| && evs[i].Packet?
    && if ActsOn(k, evs[..i], evs[i]) then
         && Carries(k, evs[i].bytes, evs[i].draws, e.payload)
         && (Delays(k, evs[i].draws, false, e.delay) || Delays(k, evs[i].draws, true, e.delay))
       else e == Emission(0, evs[i].bytes)
  }

  ghost predicate Stems(k: Knobs, evs: seq<Event>, e: Emission) {
    exists i: nat :: StemsFrom(k, evs, i, e)
  }

  lemma StemsGrows(k: Knobs, init: seq<Event>, ev: Event, e: Emission)
    requires Stems(k, init, e)
    ensures Stems(k, init + [ev], e)
  {
    hide ActsOn;
    hide Carries;
    hide Delays;
    var i: nat :| StemsFrom(k, init, i, e);
    var evs := init + [ev];
    assert evs[..i] == init[..i] && evs[i] == init[i];
    assert StemsFrom(k, evs, i, e);
  }

  lemma NewStems(k: Knobs, init: seq<Event>, ev: Event, e: Emission)
    requires ev.Packet?
    requires if ActsOn(k, init, ev) then
               exists es :: Yields(k, ev.bytes, ev.draws, es) && e in es
             else e == Emission(0, ev.bytes)
    ensures Stems(k, init + [ev], e)
  {
    hide ActsOn;
    hide Carries;
    hide Delays;
    var evs := init + [ev];
    assert evs[..|init|] == init && evs[|init|] == ev;
    if ActsOn(k, init, ev) {
      var es :| Yields(k, ev.bytes, ev.draws, es) && e in es;
      assert e == es[0] || e == es[1];
    }
    assert StemsFrom(k, evs, |init|, e);
  }

  /** Over any run: every emission, made or held, is a packet of the run that the rule did not
      act on, untouched and undelayed, or carries what the draws of a packet it acted on make of
      its bytes, at the delay they give. */
  lemma {:induction false} EmissionsStem(k: Knobs, evs: seq<Event>)
    ensures forall e :: e in Play(k, evs).out || e in Play(k, evs).rule.buffer ==> Stems(k, evs, e)
    decreases |evs|
  {
    hide Stems;
    if evs != [] {
      var init, ev := evs[..|evs| - 1], evs[|evs| - 1];
      assert evs == init + [ev];
      EmissionsStem(k, init);
      forall e | e in Play(k, evs).out || e in Play(k, evs).rule.buffer
        ensures Stems(k, evs, e)
      {
        StepStems(k, init, ev, e);
      }
    }
  }

  lemma StepStems(k: Knobs, init: seq<Event>, ev: Event, e: Emission)
    requires forall o :: o in Play(k, init).out || o in Play(k, init).rule.buffer ==> Stems(k, init, o)
    requires var n := Step(k, Play(k, init), ev); e in n.out || e in n.rule.buffer
    ensures Stems(k, init + [ev], e)
  {
    hide Stems;
    var t := Play(k, init);
    if e in t.out || e in t.rule.buffer {
      StemsGrows(k, init, ev, e);
    } else {
      ActsExactly(k, init);
      Conservation(k, init);
      hide Play;
      FreshEmission(k, t, ev, e);
      hide Step;
      NewStems(k, init, ev, e);
    }
  }

  /** What a step puts out or holds that was not there before. */
  lemma FreshEmission(k: Knobs, t: Totals, ev: Event, e: Emission)
    requires Bounded(k, t) && e !in t.out && e !in t.rule.buffer
    requires var n := Step(k, t, ev); e in n.out || e in n.rule.buffer
    ensures ev.Packet?
    ensures var acts := && (k.maxPackets.Some? ==> t.rule.matched < k.maxPackets.value)
                        && (k.duration.Some? && t.rule.startedAt.Some? ==>
                              ev.now - t.rule.startedAt.value < k.duration.value);
            if acts then exists es :: Yields(k, ev.bytes, ev.draws, es) && e in es
            else e == Emission(0, ev.bytes)
  {
    hide Decide;
    hide Yields;
    match ev
    case FlushNow =>
    case Packet(bytes, now, d) =>
      if (k.maxPackets.Some? ==> t.rule.matched < k.maxPackets.value)
         && (k.duration.Some? && t.rule.startedAt.Some? ==> now - t.rule.startedAt.value < k.duration.value) {
        var es := Acts(k, t.rule, bytes, now, d);
      } else {
        PassesThrough(k, t.rule, bytes, now, d);
      }
  }

  /** The delays stay in the interval that the knobs span, when the jitter is drawn in range. */
  lemma DelaysInRange(k: Knobs, d: Draws, duplicate: bool, delay: int)
    requires Delays(k, d, duplicate, delay) && (k.jitter > 0 ==> 0 <= d.jitter <= k.jitter)
    ensures k.delay <= delay <= k.delay + Max(0, k.jitter) + Max(0, k.duplicateDelay)
  {
  }

  // ---- the rule object ---------------------------------------------------------------

  /** `rng.shuffle`: callers know only that the elements stay. */
  method Shuffle(batch: seq<Emission>) returns (r: seq<Emission>)
    ensures multiset(r) == multiset(batch)
  {
    r := batch;
  }

  class FaultRule {
    const knobs: Knobs
    var matched: nat
    var dropped: nat
    var startedAt: Option<int>
    var buffer: seq<Emission>
    var since: Option<int>

    function Model(): Rule
      reads this
    {
      Rule(matched, dropped, startedAt, buffer, since)
    }

    constructor (knobs: Knobs)
      ensures Model() == NewRule && this.knobs == knobs
    {
      this.knobs := knobs;
      matched, dropped, startedAt, buffer, since := 0, 0, None, [], None;
    }

    /** `flush` */
    method Flush() returns (batch: seq<Emission>)
      modifies `buffer, `since
      ensures Model() == Flushed(old(Model())) && multiset(batch) == multiset(old(buffer))
    {
      if buffer == [] {
        return [];
      }
      batch := Shuffle(buffer);
      buffer := [];
      since := None;
    }

    /** `decide`: None when the packet was swallowed into the reorder buffer. */
    method DecidePacket(packet: Bytes, now: int, d: Draws) returns (r: Option<seq<Emission>>)
      modifies this
      ensures var c := Decide(knobs, old(Model()), packet, now, d);
              && Model() == c.rule
              && (r.None? <==> c.held)
              && (r.Some? ==>
                    |r.value| == |c.batch| + |c.tail|
                    && multiset(r.value[..|c.batch|]) == multiset(c.batch) && r.value[|c.batch|..] == c.tail)
    {
      if !Active(knobs, Model(), now) {
        var batch := Flush();
        SameSize(batch, old(buffer));
        assert (batch + [Emission(0, packet)])[..|batch|] == batch;
        return Some(batch + [Emission(0, packet)]);
      }
      if startedAt.None? {
        startedAt := Some(now);
      }
      matched := matched + 1;
      if Drops(knobs, matched, d) {
        dropped := dropped + 1;
        return Some([]);
      }
      var emissions := Emissions(knobs, packet, d);
      if knobs.reorderWindow > 1 {
        if since.None? {
          since := Some(now);
        }
        buffer := buffer + emissions;
        if |buffer| >= knobs.reorderWindow || now - since.value >= knobs.reorderFlush {
          ghost var all := buffer;
          var batch := Flush();
          SameSize(batch, all);
          assert batch[..|batch|] == batch;
          return Some(batch);
        }
        return None;
      }
      return Some(emissions);
    }
  }

  lemma SameSize(a: seq<Emission>, b: seq<Emission>)
    requires multiset(a) == multiset(b)
    ensures |a| == |b|
  {
    assert |multiset(a)| == |a| && |multiset(b)| == |b|;
  }
}
