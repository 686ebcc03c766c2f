/** Pacing of the simulator's scope waves: `_scope_retime` and `pump_scope_stream`. */
module ScopePump {
  import opened Wrappers
  import opened Modular

  /** Receiver 0 is MAIN, 1 is SUB. */
  type Receiver = r: int | 0 <= r < 2

  /** Measured gaps between waves (microseconds): fast and mid speed. */
  const FAST_GAP := 34_400
  const MID_GAP := 120_000

  datatype Scope = Scope(
    ownerOpen: bool,
    output: bool,
    selected: Receiver,
    dual: bool,
    mainFast: bool,
    loaded: set<Receiver>,
    due: map<Receiver, int>)

  /** The recorded start: both receivers wanted, MAIN at mid speed, SUB fast. */
  function Initial(loaded: set<Receiver>): Scope {
    Scope(false, false, 0, true, false, loaded, map[])
  }

  function Gap(s: Scope, r: Receiver): (g: int)
    ensures g > 0
  {
    if r == 1 || s.mainFast then FAST_GAP else MID_GAP
  }

  /** `_scope_streaming_receivers` */
  function Streaming(s: Scope): set<Receiver> {
    if !s.ownerOpen || !s.output then {}
    else set r: Receiver | 0 <= r < 2 && (s.dual || r == s.selected) && r in s.loaded
  }

  /** `_scope_retime`: unchanged receivers keep their phase, `reset` and new ones start over. */
  function Retime(s: Scope, now: int, reset: Option<Receiver>): Scope {
    s.(due := map r | r in Streaming(s) :: NewDue(s, r, now, reset))
  }

  datatype Event =
    | OpenOwner
    | EndSession
    | SetOutput(now: int, on: bool)
    | Select(now: int, r: Receiver)
    | SetDual(now: int, on: bool)
    | SetMainSpeed(now: int, fast: bool)
    | Pump(now: int, silenced: bool, linked: bool)

  /** What one pump makes of a receiver's due time. */
  function NextDue(s: Scope, r: Receiver, now: int, silenced: bool): int {
    if silenced || r !in s.due then now + Gap(s, r)
    else if s.due[r] > now then s.due[r]
    else if s.due[r] + Gap(s, r) > now then s.due[r] + Gap(s, r)
    else now + Gap(s, r)
  }

  /** `pump_scope_stream` */
  function PumpOnce(s: Scope, now: int, silenced: bool): Scope {
    s.(due := s.due + NextDues(s, Streaming(s), now, silenced))
  }

  function NextDues(s: Scope, rs: set<Receiver>, now: int, silenced: bool): map<Receiver, int> {
    map r | r in rs :: NextDue(s, r, now, silenced)
  }

  lemma OneMoreDue(s: Scope, rs: set<Receiver>, r: Receiver, now: int, silenced: bool)
    ensures s.due + NextDues(s, rs + {r}, now, silenced)
            == (s.due + NextDues(s, rs, now, silenced))[r := NextDue(s, r, now, silenced)]
    ensures NextDues(s, rs, now, silenced).Keys == rs
    ensures NextDues(s, {}, now, silenced) == map[]
  {
    hide NextDue;
  }

  /** Whether an event sends a wave of `r`. */
  predicate Sends(s: Scope, ev: Event, r: Receiver) {
    && ev.Pump? && !ev.silenced && ev.linked
    && r in Streaming(s) && r in s.due && s.due[r] <= ev.now
  }

  lemma OnlyStreamingSend(s: Scope, ev: Event)
    ensures forall r: Receiver :: Sends(s, ev, r) ==> r in Streaming(s)
  {
  }

  function Step(s: Scope, ev: Event): Scope {
    match ev
    case OpenOwner => s.(ownerOpen := true)
    case EndSession => s.(ownerOpen := false, output := false, due := map[])
    case SetOutput(now, on) => Retime(s.(output := on), now, None)
    case Select(now, r) => Retime(s.(selected := r), now, None)
    case SetDual(now, on) => Retime(s.(dual := on), now, None)
    case SetMainSpeed(now, fast) => Retime(s.(mainFast := fast), now, Some(0))
    case Pump(now, silenced, _) => PumpOnce(s, now, silenced)
  }

  /** A wave of the observed receiver: when it was due and when it went out. */
  datatype Wave = Wave(due: int, at: int)

  datatype Run = Run(scope: Scope, waves: seq<Wave>)

  function Play(loaded: set<Receiver>, evs: seq<Event>, r: Receiver): Run {
    if evs == [] then Run(Initial(loaded), [])
    else
      var before, ev := Play(loaded, evs[..|evs| - 1], r), evs[|evs| - 1];
      Run(Step(before.scope, ev),
          before.waves
          + if Sends(before.scope, ev, r) then [Wave(before.scope.due[r], ev.now)] else [])
  }

  /** The clock reading of an event, if it has one. */
  function Now(ev: Event): Option<int> {
    match ev
    case OpenOwner => None
    case EndSession => None
    case SetOutput(now, _) => Some(now)
    case Select(now, _) => Some(now)
    case SetDual(now, _) => Some(now)
    case SetMainSpeed(now, _) => Some(now)
    case Pump(now, _, _) => Some(now)
  }

  /** The clock never runs backwards, and `now` is past its latest reading. */
  ghost predicate Monotone(evs: seq<Event>, now: int)
    decreases |evs|
  {
    evs == [] ||
    var last := Now(evs[|evs| - 1]);
    (last.Some? ==> last.value <= now)
    && Monotone(evs[..|evs| - 1], if last.Some? then last.value else now)
  }

  /** The receiver's speed is the same all along. */
  ghost predicate SteadySpeed(loaded: set<Receiver>, evs: seq<Event>, r: Receiver, gap: int) {
    forall n :: 0 <= n <= |evs| ==> Gap(Play(loaded, evs[..n], r).scope, r) == gap
  }

  /** After every pump each receiver that streams is due in the future. */
  lemma PumpLooksAhead(s: Scope, now: int, silenced: bool)
    ensures var n := PumpOnce(s, now, silenced);
            Streaming(n) == Streaming(s) && forall r :: r in Streaming(n) ==> r in n.due && n.due[r] > now
  {
  }

  /** The next wave is due no earlier than the cadence allows, and the clock is at most one
      gap behind that. */
  ghost predicate OnCadence(run: Run, r: Receiver, gap: int, now: int) {
    && (forall i :: 0 <= i < |run.waves| ==>
          run.waves[i].at >= run.waves[i].due >= run.waves[0].due + i * gap)
    && (run.waves != [] ==>
          var next := run.waves[0].due + |run.waves| * gap;
          next - gap <= now && (r in run.scope.due ==> run.scope.due[r] >= next))
  }

  lemma StepKeepsCadence(before: Run, ev: Event, r: Receiver, gap: int, was: int, now: int)
    requires OnCadence(before, r, gap, was) && was <= now && (Now(ev).Some? ==> Now(ev).value == now)
    requires Gap(before.scope, r) == gap && Gap(Step(before.scope, ev), r) == gap
    ensures OnCadence(Run(Step(before.scope, ev),
                          before.waves + if Sends(before.scope, ev, r) then [Wave(before.scope.due[r], ev.now)] else []),
                      r, gap, now)
  {
    var n := |before.waves|;
    var waves := before.waves + if Sends(before.scope, ev, r) then [Wave(before.scope.due[r], ev.now)] else [];
    if Sends(before.scope, ev, r) {
      MulSub(n, -1, gap);
      if n > 0 {
        assert waves[0] == before.waves[0];
      }
      forall i | 0 <= i < |waves|
        ensures waves[i].at >= waves[i].due >= waves[0].due + i * gap
      {
        if i < n {
          assert waves[i] == before.waves[i];
        }
      }
    }
  }

  /** The main result: while its speed is unchanged, the n-th wave of a receiver never leaves
      before the first one's due time plus n-1 gaps, however irregular the pumps, stalls and
      on/off toggles. */
  lemma {:induction false} CadenceHolds(loaded: set<Receiver>, evs: seq<Event>, r: Receiver, gap: int, now: int)
    requires Monotone(evs, now) && SteadySpeed(loaded, evs, r, gap)
    ensures OnCadence(Play(loaded, evs, r), r, gap, now)
    decreases |evs|
  {
    hide Step;
    if evs != [] {
      var init, ev := evs[..|evs| - 1], evs[|evs| - 1];
      var t := if Now(ev).Some? then Now(ev).value else now;
      assert SteadySpeed(loaded, init, r, gap) by {
        forall n | 0 <= n <= |init|
          ensures Gap(Play(loaded, init[..n], r).scope, r) == gap
        {
          assert init[..n] == evs[..n];
        }
      }
      CadenceHolds(loaded, init, r, gap, t);
      assert evs[..|init|] == init && evs[..|evs|] == evs;
      StepKeepsCadence(Play(loaded, init, r), ev, r, gap, t, t);
      assert OnCadence(Play(loaded, evs, r), r, gap, t);
    }
  }

  lemma StepDueWithin(s: Scope, ev: Event, r: Receiver, gap: int, was: int, now: int)
    requires Gap(s, r) == gap && Gap(Step(s, ev), r) == gap
    requires was <= now && (Now(ev).Some? ==> Now(ev).value == now)
    requires r in s.due ==> s.due[r] <= was + gap
    ensures r in Step(s, ev).due ==> Step(s, ev).due[r] <= now + gap
  {
  }

  /** The partner of the cadence: at unchanged speed a due time is never more than one gap
      ahead of the clock ... */
  lemma {:induction false} DueWithinOneGap(loaded: set<Receiver>, evs: seq<Event>, r: Receiver, gap: int, now: int)
    requires Monotone(evs, now) && SteadySpeed(loaded, evs, r, gap)
    ensures var s := Play(loaded, evs, r).scope; r in s.due ==> s.due[r] <= now + gap
    decreases |evs|
  {
    hide Step;
    hide Gap;
    if evs != [] {
      var init, ev := evs[..|evs| - 1], evs[|evs| - 1];
      var t := if Now(ev).Some? then Now(ev).value else now;
      assert SteadySpeed(loaded, init, r, gap) by {
        forall n | 0 <= n <= |init|
          ensures Gap(Play(loaded, init[..n], r).scope, r) == gap
        {
          assert init[..n] == evs[..n];
        }
      }
      DueWithinOneGap(loaded, init, r, gap, t);
      assert evs[..|init|] == init && evs[..|evs|] == evs;
      StepDueWithin(Play(loaded, init, r).scope, ev, r, gap, t, t);
    }
  }

  /** ... so a pump at least one gap after everything before it sends the wave of every
      receiver that streams and has a due time. */
  lemma PumpServes(loaded: set<Receiver>, evs: seq<Event>, r: Receiver, gap: int, now: int, at: int)
    requires Monotone(evs, now) && SteadySpeed(loaded, evs, r, gap) && at >= now + gap
    requires var s := Play(loaded, evs, r).scope; r in Streaming(s) && r in s.due
    ensures Sends(Play(loaded, evs, r).scope, Pump(at, false, true), r)
  {
    DueWithinOneGap(loaded, evs, r, gap, now);
  }

  // ---- the state, from the events ----------------------------------------------------

  /** An accepted open makes the owner; the end of a session takes it away. */
  function OwnerOpen(evs: seq<Event>): bool {
    if evs == [] then false
    else
      match evs[|evs| - 1]
      case OpenOwner => true
      case EndSession => false
      case _ => OwnerOpen(evs[..|evs| - 1])
  }

  function OutputOn(evs: seq<Event>): bool {
    if evs == [] then false
    else
      match evs[|evs| - 1]
      case SetOutput(_, on) => on
      case EndSession => false
      case _ => OutputOn(evs[..|evs| - 1])
  }

  function LastSelected(evs: seq<Event>): Receiver {
    if evs == [] then 0
    else if evs[|evs| - 1].Select? then evs[|evs| - 1].r else LastSelected(evs[..|evs| - 1])
  }

  function DualOn(evs: seq<Event>): bool {
    if evs == [] then true
    else if evs[|evs| - 1].SetDual? then evs[|evs| - 1].on else DualOn(evs[..|evs| - 1])
  }

  function MainFast(evs: seq<Event>): bool {
    if evs == [] then false
    else if evs[|evs| - 1].SetMainSpeed? then evs[|evs| - 1].fast else MainFast(evs[..|evs| - 1])
  }

  /** What one event makes of the switches. */
  lemma SwitchesStep(s: Scope, ev: Event)
    ensures var n := Step(s, ev);
            && n.ownerOpen == (ev.OpenOwner? || (!ev.EndSession? && s.ownerOpen))
            && n.output == (if ev.SetOutput? then ev.on else !ev.EndSession? && s.output)
            && n.selected == (if ev.Select? then ev.r else s.selected)
            && n.dual == (if ev.SetDual? then ev.on else s.dual)
            && n.mainFast == (if ev.SetMainSpeed? then ev.fast else s.mainFast)
            && n.loaded == s.loaded
  {
    hide Streaming;
    hide NextDue;
    hide NewDue;
    hide Gap;
  }

  lemma {:induction false} ScopeFollows(loaded: set<Receiver>, evs: seq<Event>, r: Receiver)
    ensures var s := Play(loaded, evs, r).scope;
            && s.ownerOpen == OwnerOpen(evs) && s.output == OutputOn(evs) && s.selected == LastSelected(evs)
            && s.dual == DualOn(evs) && s.mainFast == MainFast(evs) && s.loaded == loaded
  {
    hide Step;
    hide Sends;
    if evs != [] {
      ScopeFollows(loaded, evs[..|evs| - 1], r);
      SwitchesStep(Play(loaded, evs[..|evs| - 1], r).scope, evs[|evs| - 1]);
    }
  }

  /** Which receivers stream, after any run: with the owner open and output on, both loaded ones
      in dual mode, else the loaded one that was selected last. */
  lemma StreamsIff(loaded: set<Receiver>, evs: seq<Event>, r: Receiver, q: Receiver)
    ensures q in Streaming(Play(loaded, evs, r).scope)
            <==> OwnerOpen(evs) && OutputOn(evs) && q in loaded && (!DualOn(evs) ==> q == LastSelected(evs))
  {
    ScopeFollows(loaded, evs, r);
    hide Play;
  }

  /** How fast, after any run: SUB always fast, MAIN at the speed that was set last, at first
      mid speed. */
  lemma SpeedIs(loaded: set<Receiver>, evs: seq<Event>, r: Receiver)
    ensures Gap(Play(loaded, evs, r).scope, 1) == 34_400
    ensures Gap(Play(loaded, evs, r).scope, 0) == if MainFast(evs) then 34_400 else 120_000
  {
    ScopeFollows(loaded, evs, r);
    hide Play;
  }

  // ---- phase -------------------------------------------------------------------------

  /** The event leaves the phase of `r` alone: it goes on streaming, its speed is not set, and a
      pump is neither silenced nor unlinked nor a whole gap late. */
  ghost predicate OnTime(s: Scope, ev: Event, r: Receiver) {
    && r in s.due && r in Streaming(s) && r in Streaming(Step(s, ev)) && !ev.EndSession?
    && (ev.SetMainSpeed? ==> r != 0)
    && (ev.Pump? ==> !ev.silenced && ev.linked && ev.now < s.due[r] + Gap(s, r))
  }

  /** Waves are due exactly one gap apart. */
  ghost predicate InPhase(run: Run, r: Receiver, gap: int) {
    && (forall i :: 0 <= i < |run.waves| ==> run.waves[i].due == run.waves[0].due + i * gap)
    && (run.waves != [] ==> r in run.scope.due && run.scope.due[r] == run.waves[0].due + |run.waves| * gap)
  }

  lemma OnTimeStep(s: Scope, ev: Event, r: Receiver)
    requires OnTime(s, ev, r)
    ensures var n := Step(s, ev);
            r in n.due && n.due[r] == s.due[r] + if Sends(s, ev, r) then Gap(s, r) else 0
  {
  }

  /** No drift: as long as nothing disturbs the receiver from its first wave on, and no pump is a
      whole gap late, the n-th wave is due exactly n-1 gaps after the first, and goes out less
      than a gap after that. */
  lemma {:induction false} PhaseKept(loaded: set<Receiver>, evs: seq<Event>, r: Receiver, gap: int)
    requires SteadySpeed(loaded, evs, r, gap)
    requires forall n :: 0 <= n < |evs| && Play(loaded, evs[..n + 1], r).waves != [] ==>
               OnTime(Play(loaded, evs[..n], r).scope, evs[n], r)
    ensures InPhase(Play(loaded, evs, r), r, gap)
    ensures forall i :: 0 <= i < |Play(loaded, evs, r).waves| ==>
              Play(loaded, evs, r).waves[i].due <= Play(loaded, evs, r).waves[i].at
              < Play(loaded, evs, r).waves[i].due + gap
    decreases |evs|
  {
    hide Step;
    hide OnTime;
    hide Gap;
    if evs != [] {
      var last := |evs| - 1;
      var init, ev := evs[..last], evs[last];
      assert evs[..last + 1] == evs && evs[..last] == init;
      assert SteadySpeed(loaded, init, r, gap) && Gap(Play(loaded, init, r).scope, r) == gap by {
        forall n | 0 <= n <= |init|
          ensures Gap(Play(loaded, init[..n], r).scope, r) == gap
        {
          assert init[..n] == evs[..n];
        }
      }
      forall n | 0 <= n < |init| && Play(loaded, init[..n + 1], r).waves != []
        ensures OnTime(Play(loaded, init[..n], r).scope, init[n], r)
      {
        assert init[..n] == evs[..n] && init[..n + 1] == evs[..n + 1];
      }
      PhaseKept(loaded, init, r, gap);
      PhaseStep(Play(loaded, init, r), ev, r, gap);
    }
  }

  lemma PhaseStep(before: Run, ev: Event, r: Receiver, gap: int)
    requires InPhase(before, r, gap) && Gap(before.scope, r) == gap
    requires before.waves != [] || Sends(before.scope, ev, r) ==> OnTime(before.scope, ev, r)
    ensures var after := Run(Step(before.scope, ev),
                             before.waves + if Sends(before.scope, ev, r) then [Wave(before.scope.due[r], ev.now)] else []);
            && InPhase(after, r, gap)
            && (Sends(before.scope, ev, r) ==> before.scope.due[r] <= ev.now < before.scope.due[r] + gap)
  {
    var n := |before.waves|;
    if n > 0 || Sends(before.scope, ev, r) {
      OnTimeStep(before.scope, ev, r);
      MulSub(n, -1, gap);
    }
    hide Step;
  }

  /** A pump that finds the stream silenced or a whole gap late starts the phase over: nothing
      that was missed is sent later. */
  lemma MissedIsGone(s: Scope, now: int, silenced: bool, r: Receiver)
    requires r in Streaming(s) && (silenced || r !in s.due || s.due[r] + Gap(s, r) <= now)
    ensures PumpOnce(s, now, silenced).due[r] == now + Gap(s, r)
  {
  }

  /** The switches keep the phase of a receiver that goes on streaming, but a speed that is set
      starts MAIN over; receivers that begin to stream start a gap later, and nobody else is
      due. Opening changes no due time, and the end of a session clears them all. */
  lemma SwitchesKeepPhase(s: Scope, ev: Event)
    requires !ev.Pump?
    ensures var n := Step(s, ev);
            if ev.OpenOwner? then n.due == s.due
            else if ev.EndSession? then n.due == map[]
            else
              && n.due.Keys == Streaming(n)
              && forall r :: r in Streaming(n) ==>
                   n.due[r] == if r in s.due && !(ev.SetMainSpeed? && r == 0) then s.due[r]
                               else ev.now + Gap(n, r)
  {
    DueIsApart(s, map[]);
    match ev
    case SetOutput(now, on) => DueIsApart(s.(output := on), Step(s, ev).due);
    case Select(now, r) => DueIsApart(s.(selected := r), Step(s, ev).due);
    case SetDual(now, on) => DueIsApart(s.(dual := on), Step(s, ev).due);
    case SetMainSpeed(now, fast) => DueIsApart(s.(mainFast := fast), Step(s, ev).due);
    case _ =>
    hide Streaming;
    hide Gap;
    hide NextDue;
  }

  /** Who streams, and how fast, does not depend on what is due. */
  lemma DueIsApart(s: Scope, due: map<Receiver, int>)
    ensures Streaming(s.(due := due)) == Streaming(s)
    ensures forall r :: Gap(s.(due := due), r) == Gap(s, r)
  {
  }

  /** Whatever the events, no wave goes out unless a pump finds a peer and is not silenced. */
  lemma {:induction false} NoPeerNoWave(loaded: set<Receiver>, evs: seq<Event>, r: Receiver)
    requires forall i :: 0 <= i < |evs| && evs[i].Pump? ==> evs[i].silenced || !evs[i].linked
    ensures Play(loaded, evs, r).waves == []
  {
    hide Step;
    if evs != [] {
      NoPeerNoWave(loaded, evs[..|evs| - 1], r);
    }
  }

  // ---- the pump object ---------------------------------------------------------------

  class ScopeStream {
    const loaded: set<Receiver>
    var ownerOpen: bool
    var output: bool
    var selected: Receiver
    var dual: bool
    var mainFast: bool
    var due: map<Receiver, int>

    function Model(): Scope
      reads this
    {
      Scope(ownerOpen, output, selected, dual, mainFast, loaded, due)
    }

    constructor (loaded: set<Receiver>)
      ensures Model() == Initial(loaded)
    {
      this.loaded := loaded;
      ownerOpen, output, selected, dual, mainFast, due := false, false, 0, true, false, map[];
    }

    /** `_scope_retime`: start or reset the active receivers, then drop the inactive ones. */
    method RetimeAll(now: int, reset: Option<Receiver>)
      modifies `due
      ensures Model() == Retime(old(Model()), now, reset)
    {
      hide Streaming;
      hide NewDue;
      ghost var before := Model();
      var active := Streaming(Model());
      StartActive(now, reset, active);
      due := map r | r in due && r in active :: due[r];
      assert due == map r | r in active :: NewDue(before, r, now, reset);
    }

    /** The first loop of `_scope_retime`. */
    method StartActive(now: int, reset: Option<Receiver>, active: set<Receiver>)
      modifies `due
      ensures due == old(due) + map r | r in active :: NewDue(old(Model()), r, now, reset)
    {
      hide NewDue;
      ghost var before := Model();
      var todo := active;
      while todo != {}
        invariant todo <= active && Model() == before.(due := due)
        invariant due == before.due + map r | r in active - todo :: NewDue(before, r, now, reset)
        decreases todo
      {
        var r :| r in todo;
        assert r !in active - todo && (active - todo) + {r} == active - (todo - {r});
        RetimeReceiver(r, now, reset, before);
        assert due == before.due + map q | q in active - (todo - {r}) :: NewDue(before, q, now, reset);
        todo := todo - {r};
      }
      assert active - todo == active;
    }

    /** `pump_scope_stream`; returns the receivers whose wave went out. */
    method PumpStream(now: int, silenced: bool, linked: bool) returns (sent: set<Receiver>)
      modifies `due
      ensures Model() == PumpOnce(old(Model()), now, silenced)
      ensures forall r: Receiver :: r in sent <==> Sends(old(Model()), Pump(now, silenced, linked), r)
    {
      hide Streaming;
      hide Gap;
      hide NextDues;
      hide Sends;
      ghost var before := Model();
      sent := {};
      var active := Streaming(Model());
      var todo := active;
      assert active - todo == {};
      OneMoreDue(before, {}, 0, now, silenced);
      while todo != {}
        invariant todo <= active && Model() == before.(due := due)
        invariant due == before.due + NextDues(before, active - todo, now, silenced)
        invariant forall r: Receiver :: r in sent <==>
                    r in active - todo && Sends(before, Pump(now, silenced, linked), r)
        decreases todo
      {
        var r :| r in todo;
        assert r !in active - todo && (active - todo) + {r} == active - (todo - {r});
        OneMoreDue(before, active - todo, r, now, silenced);
        var sends := PumpReceiver(r, now, silenced, linked, before);
        if sends {
          sent := sent + {r};
        }
        todo := todo - {r};
      }
      assert active - todo == active;
      OnlyStreamingSend(before, Pump(now, silenced, linked));
    }

    method RetimeReceiver(r: Receiver, now: int, reset: Option<Receiver>, ghost before: Scope)
      requires Model() == before.(due := due)
      requires (r in due <==> r in before.due) && (r in due ==> due[r] == before.due[r])
      modifies `due
      ensures due == old(due)[r := NewDue(before, r, now, reset)]
    {
      if reset == Some(r) || r !in due {
        due := due[r := now + Gap(Model(), r)];
      }
    }

    /** One receiver's turn. */
    method PumpReceiver(r: Receiver, now: int, silenced: bool, linked: bool, ghost before: Scope) returns (sends: bool)
      requires Model() == before.(due := due) && r in Streaming(before)
      requires (r in due <==> r in before.due) && (r in due ==> due[r] == before.due[r])
      modifies `due
      ensures due == old(due)[r := NextDue(before, r, now, silenced)]
      ensures sends == Sends(before, Pump(now, silenced, linked), r)
    {
      hide Streaming;
      sends := false;
      var gap := Gap(Model(), r);
      if silenced || r !in due {
        due := due[r := now + gap];
      } else if due[r] <= now {
        sends := linked;
        var next := due[r] + gap;
        due := due[r := if next > now then next else now + gap];
      }
    }
  }

  /** The due time a receiver gets when streaming is retimed. */
  function NewDue(s: Scope, r: Receiver, now: int, reset: Option<Receiver>): int {
    if reset == Some(r) || r !in s.due then now + Gap(s, r) else s.due[r]
  }
}
