/** The delayed-reply scheduler of one serial connection, `_Connection.deliver_after`. */
module ReplyScheduler {
  import opened Wrappers

  /** The smallest step between two scheduled replies. */
  const TICK := 1

  /** A reply in flight. `id` numbers the answers in the order they were given. */
  datatype Late = Late(id: nat, due: int, data: seq<byte>, fault: bool, baud: int)

  /** A reply that reached the host. */
  datatype Delivered = Delivered(id: nat, data: seq<byte>, fault: bool)

  datatype Link = Link(
    lastDue: int,
    lastDueOrdered: int,
    late: set<Late>,
    baud: int,
    closed: bool,
    answered: nat,
    log: seq<Delivered>)

  const Idle := Link(0, 0, {}, 0, false, 0, [])

  /** The non-fault replies still in flight, which a zero-delay reply queues behind. */
  function Ordered(l: Link): set<Late> {
    set h | h in l.late && !h.fault
  }

  datatype Event =
    | Answer(now: int, delay: int, data: seq<byte>, fault: bool)
    | Fire(handle: Late)
    | SetBaud(baud: int)
    | Close

  /** A closed or failed session drops what is delivered to it. */
  function Deliver(l: Link, d: Delivered): Link {
    if l.closed then l else l.(log := l.log + [d])
  }

  function Due(l: Link, now: int, delay: int): int {
    var wanted := if delay <= 0 then now else now + delay;
    var floor := (if delay <= 0 then l.lastDueOrdered else l.lastDue) + TICK;
    if wanted >= floor then wanted else floor
  }

  /** `deliver_after` */
  function DeliverAfter(l: Link, now: int, delay: int, data: seq<byte>, fault: bool): Link {
    var n := l.(answered := l.answered + 1);
    if delay <= 0 && Ordered(l) == {} then Deliver(n, Delivered(l.answered, data, fault))
    else
      var due := Due(l, now, delay);
      n.(lastDue := if due > l.lastDue then due else l.lastDue,
         late := l.late + {Late(l.answered, due, data, fault, l.baud)},
         lastDueOrdered := if fault then l.lastDueOrdered else due)
  }

  /** The event loop fires timers in the order of their due times (ties in any order). */
  predicate Fireable(l: Link, h: Late) {
    h in l.late && forall other :: other in l.late ==> h.due <= other.due
  }

  /** `deliver_late`: a reply sent at another rate than the present one is noise. */
  function FireHandle(l: Link, h: Late): Link {
    var n := l.(late := l.late - {h});
    if h.baud == l.baud then Deliver(n, Delivered(h.id, h.data, h.fault)) else n
  }

  function Step(l: Link, ev: Event): Link {
    match ev
    case Answer(now, delay, data, fault) => DeliverAfter(l, now, delay, data, fault)
    case Fire(h) => if Fireable(l, h) then FireHandle(l, h) else l
    case SetBaud(b) => l.(baud := b)
    case Close => l.(closed := true, late := {})
  }

  function Play(evs: seq<Event>): Link {
    if evs == [] then Idle else Step(Play(evs[..|evs| - 1]), evs[|evs| - 1])
  }

  // ---- order -------------------------------------------------------------------------

  ghost predicate Pair(a: Late, b: Late) {
    a.id < b.id ==> a.due < b.due
  }

  /** What every reachable link keeps. */
  ghost predicate Orderly(l: Link) {
    && l.lastDueOrdered <= l.lastDue
    && (forall h :: h in l.late ==> h.id < l.answered && h.due <= l.lastDue)
    && (forall h :: h in l.late && !h.fault ==> h.due <= l.lastDueOrdered)
    && (forall a, b :: a in l.late && b in l.late && a.id == b.id ==> a == b)
    && (forall a, b :: a in l.late && b in l.late && !a.fault && !b.fault ==> Pair(a, b))
    && (forall i :: 0 <= i < |l.log| ==> l.log[i].id < l.answered)
    && (forall i, h :: 0 <= i < |l.log| && !l.log[i].fault && h in l.late && !h.fault ==> l.log[i].id < h.id)
    && InOrder(l.log)
  }

  /** The non-fault replies were delivered in the order they were answered, none twice. */
  ghost predicate InOrder(log: seq<Delivered>) {
    forall i, j :: 0 <= i < j < |log| && !log[i].fault && !log[j].fault ==> log[i].id < log[j].id
  }

  lemma AnswerKeeps(l: Link, now: int, delay: int, data: seq<byte>, fault: bool)
    requires Orderly(l)
    ensures Orderly(DeliverAfter(l, now, delay, data, fault))
  {
    if delay <= 0 && Ordered(l) == {} {
      forall h | h in l.late
        ensures h.fault
      {
        assert h.fault || h in Ordered(l);
      }
    }
    hide Ordered;
  }

  lemma FireKeeps(l: Link, h: Late)
    requires Orderly(l) && Fireable(l, h)
    ensures Orderly(FireHandle(l, h))
  {
    forall other | other in l.late && other != h && !other.fault && !h.fault
      ensures h.id < other.id
    {
      assert Pair(other, h);
    }
  }

  lemma {:induction false} RunsAreOrderly(evs: seq<Event>)
    ensures Orderly(Play(evs))
  {
    if evs != [] {
      var l, ev := Play(evs[..|evs| - 1]), evs[|evs| - 1];
      RunsAreOrderly(evs[..|evs| - 1]);
      match ev
      case Answer(now, delay, data, fault) => AnswerKeeps(l, now, delay, data, fault);
      case Fire(h) =>
        if Fireable(l, h) {
          FireKeeps(l, h);
        }
      case SetBaud(_) =>
      case Close =>
    }
  }

  /** The number of answers before an event: the id the event's own answer gets. */
  function AnswerCount(evs: seq<Event>): nat {
    if evs == [] then 0
    else AnswerCount(evs[..|evs| - 1]) + if evs[|evs| - 1].Answer? then 1 else 0
  }

  /** The answer numbered `id` in a run. */
  ghost predicate Answered(evs: seq<Event>, id: nat, data: seq<byte>, fault: bool) {
    exists k :: 0 <= k < |evs| && evs[k].Answer? && AnswerCount(evs[..k]) == id
                && evs[k].data == data && evs[k].fault == fault
  }

  lemma AnsweredGrows(init: seq<Event>, ev: Event, id: nat, data: seq<byte>, fault: bool)
    requires Answered(init, id, data, fault)
    ensures Answered(init + [ev], id, data, fault)
  {
    var k :| 0 <= k < |init| && init[k].Answer? && AnswerCount(init[..k]) == id
             && init[k].data == data && init[k].fault == fault;
    var evs := init + [ev];
    assert evs[k] == init[k] && evs[..k] == init[..k];
  }

  lemma AnsweredNow(init: seq<Event>, ev: Event)
    requires ev.Answer?
    ensures Answered(init + [ev], AnswerCount(init), ev.data, ev.fault)
  {
    var evs := init + [ev];
    assert evs[|init|] == ev && evs[..|init|] == init;
  }

  /** Whatever is in flight or delivered is an answer of the run, under its own number. */
  ghost predicate Genuine(l: Link, evs: seq<Event>) {
    && l.answered == AnswerCount(evs)
    && (forall h :: h in l.late ==> Answered(evs, h.id, h.data, h.fault))
    && (forall i :: 0 <= i < |l.log| ==> Answered(evs, l.log[i].id, l.log[i].data, l.log[i].fault))
  }

  lemma {:induction false} RunsAreGenuine(evs: seq<Event>)
    ensures Genuine(Play(evs), evs)
  {
    hide Answered;
    if evs != [] {
      var init, ev := evs[..|evs| - 1], evs[|evs| - 1];
      var l := Play(init);
      RunsAreGenuine(init);
      assert evs == init + [ev];
      forall id, data, fault | Answered(init, id, data, fault)
        ensures Answered(evs, id, data, fault)
      {
        AnsweredGrows(init, ev, id, data, fault);
      }
      if ev.Answer? {
        AnsweredNow(init, ev);
      }
    }
  }

  /** The main result: for any mix of zero and positive delays, fault-delayed replies, baud
      changes and closes, and any clock readings, what the host receives of the non-fault
      replies is a subsequence of the answers, in the order they were given: each delivered
      entry is the answer of its number, and the numbers strictly increase. */
  lemma RepliesKeepOrder(evs: seq<Event>)
    ensures InOrder(Play(evs).log)
    ensures forall i :: 0 <= i < |Play(evs).log| ==>
              Answered(evs, Play(evs).log[i].id, Play(evs).log[i].data, Play(evs).log[i].fault)
  {
    RunsAreOrderly(evs);
    RunsAreGenuine(evs);
  }

  /** Due times of scheduled non-fault replies strictly increase, and a reply with a positive
      delay is due after everything scheduled before it, fault replies included. */
  lemma DueTimesIncrease(evs: seq<Event>, now: int, delay: int, data: seq<byte>, fault: bool)
    ensures var l := Play(evs);
            var due := Due(l, now, delay);
            && (forall h :: h in l.late && !h.fault && (!fault || delay > 0) ==> h.due < due)
            && (delay > 0 ==> forall h :: h in l.late ==> h.due < due)
            && (delay > 0 ==> due >= now + delay)
  {
    RunsAreOrderly(evs);
  }

  /** The due times given to the non-fault replies that a run scheduled, in answer order. */
  function Schedule(evs: seq<Event>): seq<int> {
    if evs == [] then []
    else
      var init, ev := evs[..|evs| - 1], evs[|evs| - 1];
      Schedule(init)
      + if ev.Answer? && !ev.fault && (ev.delay > 0 || Ordered(Play(init)) != {})
        then [Due(Play(init), ev.now, ev.delay)] else []
  }

  lemma DueSteps(l: Link, ev: Event)
    requires Orderly(l)
    ensures if ev.Answer? && !ev.fault && (ev.delay > 0 || Ordered(l) != {}) then
              Due(l, ev.now, ev.delay) > l.lastDueOrdered
              && Step(l, ev).lastDueOrdered == Due(l, ev.now, ev.delay)
            else Step(l, ev).lastDueOrdered == l.lastDueOrdered
  {
    hide Ordered;
  }

  /** Over a whole run, baud changes and closes included, they strictly increase. */
  lemma {:induction false} ScheduleIncreases(evs: seq<Event>)
    ensures forall i, j :: 0 <= i < j < |Schedule(evs)| ==> Schedule(evs)[i] < Schedule(evs)[j]
    ensures Schedule(evs) != [] ==> Schedule(evs)[|Schedule(evs)| - 1] == Play(evs).lastDueOrdered
  {
    if evs != [] {
      var init, ev := evs[..|evs| - 1], evs[|evs| - 1];
      ScheduleIncreases(init);
      RunsAreOrderly(init);
      hide Due;
      hide Step;
      hide Orderly;
      DueSteps(Play(init), ev);
    }
  }

  /** The due times of everything that was scheduled, fault replies included. */
  function AllDues(evs: seq<Event>): seq<int> {
    if evs == [] then []
    else
      var init, ev := evs[..|evs| - 1], evs[|evs| - 1];
      AllDues(init)
      + if ev.Answer? && (ev.delay > 0 || Ordered(Play(init)) != {})
        then [Due(Play(init), ev.now, ev.delay)] else []
  }

  lemma {:induction false} LastDueIsLatest(evs: seq<Event>)
    ensures var l := Play(evs).lastDue;
            && (forall i :: 0 <= i < |AllDues(evs)| ==> AllDues(evs)[i] <= l)
            && (l == 0 || l in AllDues(evs))
  {
    if evs != [] {
      var init, ev := evs[..|evs| - 1], evs[|evs| - 1];
      LastDueIsLatest(init);
      DueOrLast(Play(init), ev);
      hide Due;
      hide Step;
      hide Ordered;
    }
  }

  lemma DueOrLast(l: Link, ev: Event)
    ensures var due := if ev.Answer? then Due(l, ev.now, ev.delay) else 0;
            Step(l, ev).lastDue
            == if ev.Answer? && (ev.delay > 0 || Ordered(l) != {}) && due > l.lastDue then due else l.lastDue
  {
    hide Ordered;
    hide Due;
  }

  /** When a reply is due: with a positive delay exactly that much later, unless something is
      scheduled up to then, and right after the latest scheduled reply otherwise; without a
      delay at once, or right after the latest non-fault reply that is due later. */
  lemma DueExactly(evs: seq<Event>, now: int, delay: int)
    requires now > 0
    ensures var due := Due(Play(evs), now, delay);
            && (delay > 0 && (forall d :: d in AllDues(evs) ==> d < now + delay) ==> due == now + delay)
            && (delay > 0 && (exists d :: d in AllDues(evs) && d >= now + delay) ==>
                  due - TICK in AllDues(evs) && forall d :: d in AllDues(evs) ==> d < due)
            && (delay <= 0 && (forall d :: d in Schedule(evs) ==> d < now) ==> due == now)
            && (delay <= 0 && (exists d :: d in Schedule(evs) && d >= now) ==>
                  due - TICK in Schedule(evs) && forall d :: d in Schedule(evs) ==> d < due)
  {
    LastDueIsLatest(evs);
    LastOrderedIsLatest(evs);
    hide AllDues;
    hide Schedule;
    hide Play;
  }

  lemma {:induction false} LastOrderedIsLatest(evs: seq<Event>)
    ensures var l := Play(evs).lastDueOrdered;
            && (forall d :: d in Schedule(evs) ==> d <= l)
            && (l == 0 || l in Schedule(evs))
  {
    if evs != [] {
      var init, ev := evs[..|evs| - 1], evs[|evs| - 1];
      LastOrderedIsLatest(init);
      RunsAreOrderly(init);
      hide Due;
      hide Step;
      hide Orderly;
      DueSteps(Play(init), ev);
    }
  }

  // ---- what reaches the host ---------------------------------------------------------

  /** The rate that was set last. */
  function Rate(evs: seq<Event>): int {
    if evs == [] then Idle.baud
    else if evs[|evs| - 1].SetBaud? then evs[|evs| - 1].baud
    else Rate(evs[..|evs| - 1])
  }

  predicate HasClosed(evs: seq<Event>) {
    evs != [] && (evs[|evs| - 1].Close? || HasClosed(evs[..|evs| - 1]))
  }

  lemma {:induction false} LinkFollows(evs: seq<Event>)
    ensures Play(evs).baud == Rate(evs) && Play(evs).closed == HasClosed(evs)
    ensures Play(evs).answered == AnswerCount(evs)
  {
    if evs != [] {
      LinkFollows(evs[..|evs| - 1]);
      hide Ordered;
      hide Due;
    }
  }

  /** The answer of event `k` waits: it has a delay, or a non-fault reply is pending. */
  ghost predicate Waits(evs: seq<Event>, k: nat)
    requires k < |evs|
  {
    evs[k].Answer? && (evs[k].delay > 0 || Ordered(Play(evs[..k])) != {})
  }

  /** Event `m` is the timer of reply `id`, run in its turn. */
  ghost predicate Fired(evs: seq<Event>, m: nat, id: nat)
    requires m < |evs|
  {
    evs[m].Fire? && evs[m].handle.id == id && Fireable(Play(evs[..m]), evs[m].handle)
  }

  ghost predicate InLog(log: seq<Delivered>, id: nat) {
    exists i :: 0 <= i < |log| && log[i].id == id
  }

  /** A handle in flight is a waiting answer, at the rate of its moment. */
  ghost predicate StandsFor(evs: seq<Event>, k: nat, h: Late) {
    k < |evs| && Waits(evs, k) && AnswerCount(evs[..k]) == h.id && h.baud == Rate(evs[..k])
  }

  lemma {:induction false} HandleIsAnswer(evs: seq<Event>, h: Late) returns (k: nat)
    requires h in Play(evs).late
    ensures StandsFor(evs, k, h)
  {
    var init, ev := evs[..|evs| - 1], evs[|evs| - 1];
    LinkFollows(init);
    hide Due;
    if h in Play(init).late {
      k := HandleIsAnswer(init, h);
      assert evs[..k] == init[..k] && evs[k] == init[k];
    } else {
      k := |evs| - 1;
    }
  }

  lemma {:induction false} CountGrows(evs: seq<Event>, i: nat, j: nat)
    requires i < j <= |evs| && evs[i].Answer?
    ensures AnswerCount(evs[..i]) < AnswerCount(evs[..j])
    decreases j
  {
    var init := evs[..j];
    assert init[..j - 1] == evs[..j - 1];
    if i < j - 1 {
      CountGrows(evs, i, j - 1);
    }
  }

  lemma SameAnswer(evs: seq<Event>, i: nat, j: nat)
    requires i < |evs| && j < |evs| && evs[i].Answer? && evs[j].Answer? && AnswerCount(evs[..i]) == AnswerCount(evs[..j])
    ensures i == j
  {
    if i < j {
      CountGrows(evs, i, j);
    } else if j < i {
      CountGrows(evs, j, i);
    }
  }

  /** The timer of answer `k` ran while the link was open and at the rate of the answer. */
  ghost predicate FiredInTime(evs: seq<Event>, m: nat, k: nat)
    requires m < |evs| && k < |evs|
  {
    Fired(evs, m, AnswerCount(evs[..k])) && !HasClosed(evs[..m]) && Rate(evs[..m]) == Rate(evs[..k])
  }

  /** What has to have happened for answer `k` to have reached the host. */
  ghost predicate Arrives(evs: seq<Event>, k: nat)
    requires k < |evs|
  {
    if Waits(evs, k) then exists m :: k < m < |evs| && FiredInTime(evs, m, k) else !HasClosed(evs[..k])
  }

  /** Exactly: an answer that waits reaches the host if and only if its timer ran while the link
      was open and at the rate that was set when it was answered; one that does not wait, if
      and only if the link was open. */
  lemma {:induction false} DeliveredIff(evs: seq<Event>, k: nat)
    requires k < |evs| && evs[k].Answer?
    ensures InLog(Play(evs).log, AnswerCount(evs[..k])) <==> Arrives(evs, k)
    decreases |evs|
  {
    var init, ev := evs[..|evs| - 1], evs[|evs| - 1];
    var id := AnswerCount(evs[..k]);
    RunsAreOrderly(init);
    LinkFollows(init);
    if k == |evs| - 1 {
      NewAnswer(evs);
    } else {
      DeliveredIff(init, k);
      assert evs[..k] == init[..k];
      ArrivesGrows(evs, k);
      CountGrows(evs, k, |evs| - 1);
      LogGrows(evs, k);
    }
  }

  lemma NewAnswer(evs: seq<Event>)
    requires evs != [] && evs[|evs| - 1].Answer?
    requires Orderly(Play(evs[..|evs| - 1]))
    ensures var k := |evs| - 1; InLog(Play(evs).log, AnswerCount(evs[..k])) <==> Arrives(evs, k)
  {
    var k := |evs| - 1;
    var l, ev := Play(evs[..k]), evs[k];
    LinkFollows(evs[..k]);
    hide Due;
    hide Play;
    var n := DeliverAfter(l, ev.now, ev.delay, ev.data, ev.fault);
    if !Waits(evs, k) && !l.closed {
      assert n.log[|l.log|].id == l.answered;
    }
  }

  /** What one more event adds to the ways of arriving. */
  lemma ArrivesGrows(evs: seq<Event>, k: nat)
    requires k < |evs| - 1 && evs[k].Answer?
    ensures var init := evs[..|evs| - 1];
            Arrives(evs, k) <==> Arrives(init, k) || (Waits(init, k) && FiredInTime(evs, |evs| - 1, k))
  {
    var init := evs[..|evs| - 1];
    hide Rate;
    hide HasClosed;
    hide AnswerCount;
    hide Play;
    assert evs[..k] == init[..k];
    forall m | k < m < |init|
      ensures FiredInTime(evs, m, k) <==> FiredInTime(init, m, k)
    {
      assert evs[..m] == init[..m];
    }
  }

  /** What one more event adds to the log. */
  lemma LogGrows(evs: seq<Event>, k: nat)
    requires k < |evs| - 1 && evs[k].Answer? && Orderly(Play(evs[..|evs| - 1]))
    requires AnswerCount(evs[..k]) < AnswerCount(evs[..|evs| - 1])
    ensures var init, id := evs[..|evs| - 1], AnswerCount(evs[..k]);
            InLog(Play(evs).log, id)
            <==> InLog(Play(init).log, id) || (Waits(init, k) && FiredInTime(evs, |evs| - 1, k))
  {
    var init, ev := evs[..|evs| - 1], evs[|evs| - 1];
    var id := AnswerCount(evs[..k]);
    var l := Play(init);
    LinkFollows(init);
    assert evs[..k] == init[..k];
    if ev.Fire? && Fireable(l, ev.handle) {
      var h := ev.handle;
      var j := HandleIsAnswer(init, h);
      if h.id == id {
        SameAnswer(init, j, k);
      }
      FireLog(l, h, id);
    } else {
      OtherLog(l, ev, id);
    }
  }

  lemma FireLog(l: Link, h: Late, id: nat)
    ensures InLog(FireHandle(l, h).log, id) <==> InLog(l.log, id) || (h.id == id && h.baud == l.baud && !l.closed)
  {
    var n := FireHandle(l, h);
    if h.baud == l.baud && !l.closed {
      assert n.log == l.log + [Delivered(h.id, h.data, h.fault)];
      InLogSnoc(l.log, Delivered(h.id, h.data, h.fault), id);
    }
  }

  lemma InLogSnoc(log: seq<Delivered>, d: Delivered, id: nat)
    ensures InLog(log + [d], id) <==> InLog(log, id) || d.id == id
  {
    var all := log + [d];
    assert all[|log|] == d && forall i :: 0 <= i < |log| ==> all[i] == log[i];
  }

  lemma OtherLog(l: Link, ev: Event, id: nat)
    requires !(ev.Fire? && Fireable(l, ev.handle)) && id < l.answered
    ensures InLog(Step(l, ev).log, id) <==> InLog(l.log, id)
  {
    hide Due;
    if ev.Answer? {
      InLogSnoc(l.log, Delivered(l.answered, ev.data, ev.fault), id);
    }
  }

  ghost predicate InFlight(l: Link, id: nat) {
    exists h :: h in l.late && h.id == id
  }

  lemma StepFlight(l: Link, ev: Event, id: nat)
    requires Orderly(l) && id < l.answered
    ensures InFlight(Step(l, ev), id)
            <==> InFlight(l, id) && !ev.Close? && !(ev.Fire? && Fireable(l, ev.handle) && ev.handle.id == id)
  {
    hide Due;
    hide Ordered;
    if h :| h in l.late && h.id == id {
      if ev.Answer? || ev.SetBaud? || (ev.Fire? && ev.handle != h) {
        assert h in Step(l, ev).late;
      }
    }
  }

  /** Exactly: a reply that waits is in flight until its own timer runs or the link is closed; a
      change of the rate, either way, leaves it in flight. */
  lemma {:induction false} InFlightIff(evs: seq<Event>, k: nat)
    requires k < |evs| && evs[k].Answer?
    ensures InFlight(Play(evs), AnswerCount(evs[..k]))
            <==> && Waits(evs, k)
                 && forall m :: k < m < |evs| ==> !evs[m].Close? && !Fired(evs, m, AnswerCount(evs[..k]))
    decreases |evs|
  {
    var init, ev := evs[..|evs| - 1], evs[|evs| - 1];
    var id := AnswerCount(evs[..k]);
    RunsAreOrderly(init);
    LinkFollows(init);
    if k == |evs| - 1 {
      NewInFlight(Play(init), ev);
    } else {
      InFlightIff(init, k);
      CountGrows(evs, k, |evs| - 1);
      StepFlight(Play(init), ev, id);
      FlightGrows(evs, k);
    }
  }

  lemma NewInFlight(l: Link, ev: Event)
    requires Orderly(l) && ev.Answer?
    ensures InFlight(Step(l, ev), l.answered) <==> ev.delay > 0 || Ordered(l) != {}
  {
    hide Ordered;
    if ev.delay > 0 || Ordered(l) != {} {
      assert Late(l.answered, Due(l, ev.now, ev.delay), ev.data, ev.fault, l.baud) in Step(l, ev).late;
    }
  }

  /** What one more event adds to the conditions. */
  lemma FlightGrows(evs: seq<Event>, k: nat)
    requires k < |evs| - 1 && evs[k].Answer?
    ensures var init, id := evs[..|evs| - 1], AnswerCount(evs[..k]);
            && evs[..k] == init[..k] && (Waits(evs, k) <==> Waits(init, k))
            && ((forall m :: k < m < |evs| ==> !evs[m].Close? && !Fired(evs, m, id))
                <==> (forall m :: k < m < |init| ==> !init[m].Close? && !Fired(init, m, id))
                     && !evs[|init|].Close? && !Fired(evs, |init|, id))
  {
    var init, id := evs[..|evs| - 1], AnswerCount(evs[..k]);
    hide AnswerCount;
    hide Play;
    assert evs[..k] == init[..k];
    forall m | k < m < |init|
      ensures (evs[m].Close? <==> init[m].Close?) && (Fired(evs, m, id) <==> Fired(init, m, id))
    {
      assert evs[..m] == init[..m];
    }
  }

  /** A closed link stays silent for good. */
  lemma ClosedIsSilent(evs: seq<Event>, ev: Event)
    requires HasClosed(evs)
    ensures Play(evs + [ev]).log == Play(evs).log && HasClosed(evs + [ev])
  {
    LinkFollows(evs);
    assert (evs + [ev])[..|evs|] == evs;
  }

  /** Reply `id` is in flight or reached the host. */
  ghost predicate Kept(l: Link, id: nat) {
    (exists h :: h in l.late && h.id == id) || (exists i :: 0 <= i < |l.log| && l.log[i].id == id)
  }

  /** On a link that stays open at one rate no reply is lost: each is in flight or delivered. */
  lemma {:induction false} NothingLost(evs: seq<Event>)
    requires forall i :: 0 <= i < |evs| ==> evs[i].Answer? || evs[i].Fire?
    ensures var l := Play(evs);
            && !l.closed && l.baud == Idle.baud && (forall h :: h in l.late ==> h.baud == l.baud)
            && forall id :: 0 <= id < l.answered ==> Kept(l, id)
  {
    if evs != [] {
      var init, ev := evs[..|evs| - 1], evs[|evs| - 1];
      NothingLost(init);
      forall id | 0 <= id < Play(evs).answered
        ensures Kept(Play(evs), id)
      {
        StepLosesNothing(Play(init), ev, id);
      }
    }
  }

  lemma StepLosesNothing(l: Link, ev: Event, id: nat)
    requires (ev.Answer? || ev.Fire?) && !l.closed && forall h :: h in l.late ==> h.baud == l.baud
    requires id < Step(l, ev).answered && (id < l.answered ==> Kept(l, id))
    ensures Kept(Step(l, ev), id)
  {
    var n := Step(l, ev);
    if ev.Answer? && id == l.answered {
      if ev.delay <= 0 && Ordered(l) == {} {
        assert n.log[|l.log|].id == id;
      } else {
        assert Late(id, Due(l, ev.now, ev.delay), ev.data, ev.fault, l.baud) in n.late;
      }
    } else if i :| 0 <= i < |l.log| && l.log[i].id == id {
      assert n.log[i].id == id;
    } else {
      var h :| h in l.late && h.id == id;
      if ev.Fire? && Fireable(l, ev.handle) && h == ev.handle {
        assert n.log[|l.log|].id == id;
      } else {
        assert h in n.late;
      }
    }
  }

  /** Fault replies are outside that order: a zero-delay answer overtakes a pending one. */
  lemma FaultRepliesAreOvertaken(evs: seq<Event>, data: seq<byte>)
    requires evs == [Answer(0, 5, data, true), Answer(0, 0, data, false)]
    ensures Play(evs).log == [Delivered(1, data, false)]
    ensures Late(0, 5, data, true, 0) in Play(evs).late
  {
    var first := evs[..1];
    assert |first| == 1 && first[0] == evs[0] && |first[..0]| == 0;
    var l := Play(first);
    assert l == Step(Play(first[..0]), first[0]);
    assert l == DeliverAfter(Idle, 0, 5, data, true);
    assert l.late == {Late(0, 5, data, true, 0)};
    assert Ordered(l) == {};
  }

  // ---- the connection object ---------------------------------------------------------

  class Connection {
    var lastDue: int
    var lastDueOrdered: int
    var late: set<Late>
    var ordered: set<Late>
    var baud: int
    var closed: bool
    ghost var answered: nat
    var received: seq<Delivered>

    ghost predicate Valid()
      reads this
    {
      ordered == Ordered(Model())
    }

    ghost function Model(): Link
      reads this
    {
      Link(lastDue, lastDueOrdered, late, baud, closed, answered, received)
    }

    constructor ()
      ensures Valid() && Model() == Idle
    {
      lastDue, lastDueOrdered, late, ordered, baud, closed := 0, 0, {}, {}, 0, false;
      answered, received := 0, [];
    }

    /** `deliver` */
    method Receive(d: Delivered)
      modifies `received
      ensures Model() == Deliver(old(Model()), d)
    {
      if !closed {
        received := received + [d];
      }
    }

    /** `deliver_after`; `id` is the number of this answer. */
    method AnswerAfter(now: int, delay: int, data: seq<byte>, fault: bool, id: nat)
      requires Valid() && id == answered
      modifies this
      ensures Valid() && Model() == DeliverAfter(old(Model()), now, delay, data, fault)
    {
      answered := answered + 1;
      if delay <= 0 && ordered == {} {
        Receive(Delivered(id, data, fault));
        return;
      }
      var due: int;
      if delay <= 0 {
        due := Later(now, lastDueOrdered + TICK);
      } else {
        due := Later(now + delay, lastDue + TICK);
      }
      lastDue := Later(lastDue, due);
      var handle := Late(id, due, data, fault, baud);
      late := late + {handle};
      if !fault {
        ordered := ordered + {handle};
        lastDueOrdered := due;
      }
    }

    /** The timer callback `deliver_late`. */
    method TimerFires(h: Late)
      requires Valid() && Fireable(Model(), h)
      modifies this
      ensures Valid() && Model() == FireHandle(old(Model()), h)
    {
      late := late - {h};
      ordered := ordered - {h};
      if baud == h.baud {
        Receive(Delivered(h.id, h.data, h.fault));
      }
    }

    /** `cancel_late`, on close or failure. */
    method CloseLink()
      requires Valid()
      modifies this
      ensures Valid() && Model() == Step(old(Model()), Close)
    {
      closed := true;
      late := {};
      ordered := {};
    }
  }

  function Later(a: int, b: int): int {
    if a >= b then a else b
  }
}
