/** Ownership, the keepalive timer and the orphan, over whole runs. */
module SessionOwner {
  import opened Wrappers
  import opened SerialNumbers
  import GapTracker
  import GapInvariant
  import opened Session
  import opened SessionTokens
  import SessionFence

  // ---- the owner and its timer -------------------------------------------------------

  /** The timer is armed exactly while a session is held, for `hold` past the last refresh. */
  ghost predicate TimerMatches(r: Radio, s: Settings) {
    && (r.owner.Some? <==> r.deadline.Some?)
    && (r.deadline.Some? ==> r.deadline.value == r.lastRefresh + s.hold)
    && (!s.singleOwner ==> r.owner.None?)
  }

  lemma TimerStep(r: Radio, s: Settings, ev: Event)
    requires TimerMatches(r, s)
    ensures TimerMatches(Step(r, s, ev).radio, s)
  {
    match ev
    case Ctrl(at, from, m) => CtrlTimer(r, s, at.wall, from, m);
    case Civ(at, from, m) => CivTimer(r, s, at, from, m);
    case _ =>
  }

  lemma ConninfoTimer(r: Radio, s: Settings, now: int, from: Identity, port: nat)
    requires TimerMatches(r, s)
    ensures TimerMatches(HandleConninfo(r, s, now, from, port).radio, s)
  {
  }

  lemma CtrlTimer(r: Radio, s: Settings, now: int, from: Identity, m: CtrlMessage)
    requires TimerMatches(r, s)
    ensures TimerMatches(HandleCtrl(r, s, now, from, m).radio, s)
  {
    hide HandleConninfo;
    if m.Conninfo? {
      ConninfoTimer(r, s, now, from, m.declaredPort);
    }
  }

  lemma CivTimer(r: Radio, s: Settings, at: Moment, who: Identity, m: CivMessage)
    requires TimerMatches(r, s)
    ensures TimerMatches(HandleCiv(r, s, at, who, m).radio, s)
  {
    hide Track;
    hide SeedTracker;
  }

  lemma {:induction false} TimerRun(s: Settings, evs: seq<Event>, n: nat)
    requires n <= |evs|
    ensures TimerMatches(Play(PowerOn, s, evs, n), s)
  {
    if n > 0 {
      TimerRun(s, evs, n - 1);
      TimerStep(Play(PowerOn, s, evs, n - 1), s, evs[n - 1]);
    }
  }

  /** The owner never changes hands directly: between two different owners the session is
      free at some moment, and its token is retired there. */
  lemma {:induction false} HandoverThroughNone(r0: Radio, s: Settings, evs: seq<Event>, i: nat, j: nat)
    returns (k: nat)
    requires i <= j <= |evs|
    requires Play(r0, s, evs, i).owner.Some? && Play(r0, s, evs, j).owner != Play(r0, s, evs, i).owner
    ensures i <= k < j && Play(r0, s, evs, k).owner == Play(r0, s, evs, i).owner
    ensures Play(r0, s, evs, k + 1).owner == None
    ensures Play(r0, s, evs, k).token in Play(r0, s, evs, k + 1).retired
    decreases j
  {
    hide Step;
    if Play(r0, s, evs, j - 1).owner == Play(r0, s, evs, i).owner {
      k := j - 1;
      EveryEndRetires(Play(r0, s, evs, k), s, evs[k]);
    } else {
      k := HandoverThroughNone(r0, s, evs, i, j - 1);
    }
  }

  /** While a session is held, nothing a foreign control socket sends ends it, transfers it
      or touches its stream, except that a login clears the sequence numbering; only the live
      token lets it move the deadline, and a foreign conninfo changes nothing at all. */
  lemma ForeignControlTraffic(r: Radio, s: Settings, at: Moment, from: Identity, m: CtrlMessage)
    requires s.singleOwner && r.owner.Some? && r.owner != Some(from)
    ensures var n := Step(r, s, Ctrl(at, from, m)).radio;
            && n.owner == r.owner && n.token == r.token && n.civOwner == r.civOwner
            && (m.Conninfo? ==> n == r)
            && (n.deadline != r.deadline || n.lastRefresh != r.lastRefresh ==> m == Renew(r.token))
            && (n.trackers != r.trackers ==> m.Login? && !s.authFail && n.trackers == map[])
  {
    hide HandleConninfo;
    if m.Conninfo? {
      ForeignConninfo(r, s, at.wall, from, m.declaredPort);
    }
  }

  lemma ForeignConninfo(r: Radio, s: Settings, now: int, from: Identity, port: nat)
    requires s.singleOwner && r.owner.Some? && r.owner != Some(from)
    ensures HandleConninfo(r, s, now, from, port).radio == r
  {
  }

  /** The owner ends its session at once by token-remove or disconnect, and the CI-V stream
      owner by its close: the timer is disarmed, the token retired, and no orphan is kept. */
  lemma DecidedEnds(r: Radio, s: Settings, at: Moment, from: Identity, carried: Token, n: Seq)
    requires s.singleOwner && r.owner.Some?
    requires at.wall >= r.downUntil && at.wall >= r.noticeUntil && carried !in r.retired
    ensures r.owner == Some(from) ==>
              && Ended(r, Step(r, s, Ctrl(at, from, TokenRemove(carried))).radio)
              && Ended(r, Step(r, s, Ctrl(at, from, Disconnect)).radio)
    ensures r.civOwner == Some(from) ==> Ended(r, Step(r, s, Civ(at, from, Close(n))).radio)
  {
    hide Track;
  }

  ghost predicate Ended(r: Radio, n: Radio) {
    n.owner == None && n.deadline == None && n.orphan == None && n.retired == r.retired + {r.token}
  }

  /** Every ping, acknowledgement, renewal or conninfo of the owner re-arms the hold, and so
      does a renewal with the live token from anyone. */
  lemma OwnerRefreshes(r: Radio, s: Settings, at: Moment, from: Identity, m: CtrlMessage)
    requires s.singleOwner && r.owner.Some? && Heard(r, Ctrl(at, from, m))
    requires || (r.owner == Some(from)
                 && (m.Ping? || m.Renew? || (m.TokenAck? && m.token !in r.retired)
                     || (m.Conninfo? && m.token !in r.retired
                         && at.wall >= r.busyUntil && at.wall >= r.unavailableUntil)))
             || m == Renew(r.token)
    ensures var n := Step(r, s, Ctrl(at, from, m)).radio;
            && n.owner == r.owner && n.lastRefresh == at.wall && n.deadline == Some(at.wall + s.hold)
            && n.trackers == r.trackers && n.civOwner == r.civOwner
  {
    hide HandleConninfo;
    if m.Conninfo? && m != Renew(r.token) {
      ConninfoRefreshes(r, s, at.wall, from, m.declaredPort);
    }
  }

  lemma ConninfoRefreshes(r: Radio, s: Settings, now: int, from: Identity, port: nat)
    requires s.singleOwner && r.owner == Some(from) && now >= r.busyUntil && now >= r.unavailableUntil
    ensures var n := HandleConninfo(r, s, now, from, port).radio;
            && n.owner == r.owner && n.lastRefresh == now && n.deadline == Some(now + s.hold)
            && n.trackers == r.trackers && n.civOwner == r.civOwner
  {
  }

  /** A held session that nobody refreshes is gone after the timer runs. */
  lemma HoldExpires(r: Radio, s: Settings, at: Moment)
    requires TimerMatches(r, s) && r.owner.Some?
    ensures var n := Step(r, s, HoldTimer(at)).radio;
            if at.wall >= r.lastRefresh + s.hold then n.owner == None && r.token in n.retired else n == r
  {
  }

  // ---- a session that is kept alive --------------------------------------------------

  function WallTime(ev: Event): Option<int> {
    match ev
    case Ctrl(at, _, _) => Some(at.wall)
    case Civ(at, _, _) => Some(at.wall)
    case HoldTimer(at) => Some(at.wall)
    case GapLoop(at) => Some(at.wall)
    case Reboot(at, _, _, _) => Some(at.wall)
    case GoDark(at, _, _) => Some(at.wall)
    case Drop(at) => Some(at.wall)
    case FreeSession => None
    case SetStandby(_) => None
    case SilenceKeepalive(at, _) => Some(at.wall)
    case SetUnavailable(_) => None
  }

  /** The wall clock never runs backwards, from `start` on. */
  ghost predicate ClockRuns(evs: seq<Event>, start: int) {
    && (forall i :: 0 <= i < |evs| && WallTime(evs[i]).Some? ==> WallTime(evs[i]).value >= start)
    && (forall i, j :: 0 <= i < j < |evs| && WallTime(evs[i]).Some? && WallTime(evs[j]).Some? ==>
          WallTime(evs[i]).value <= WallTime(evs[j]).value)
  }

  /** Somebody decides that the session of `who` ends now. */
  predicate EndsSession(r: Radio, ev: Event, who: Identity) {
    || ev.Reboot? || ev.Drop? || ev.FreeSession?
    || (ev.Ctrl? && ev.from == who && (ev.msg.TokenRemove? || ev.msg.Disconnect?))
    || (ev.Civ? && ev.civ.Close? && r.civOwner == Some(ev.from))
  }

  /** A control packet that re-arms the hold of `who`. */
  predicate KeepsAlive(r: Radio, ev: Event, who: Identity) {
    && ev.Ctrl? && Heard(r, ev)
    && (ev.msg == Renew(r.token)
        || (ev.from == who
            && (ev.msg.Ping? || ev.msg.Renew? || (ev.msg.TokenAck? && ev.msg.token !in r.retired)
                || (ev.msg.Conninfo? && ev.msg.token !in r.retired
                    && ev.at.wall >= r.busyUntil && ev.at.wall >= r.unavailableUntil))))
  }

  lemma HeldStep(r: Radio, s: Settings, ev: Event, who: Identity)
    requires s.singleOwner && TimerMatches(r, s) && r.owner == Some(who) && !EndsSession(r, ev, who)
    requires ev.HoldTimer? ==> ev.at.wall < r.lastRefresh + s.hold
    ensures var n := Step(r, s, ev).radio;
            && n.owner == Some(who) && n.token == r.token && TimerMatches(n, s)
            && (if KeepsAlive(r, ev, who) then Some(n.lastRefresh) == WallTime(ev) else n.lastRefresh == r.lastRefresh)
  {
    TimerStep(r, s, ev);
    match ev
    case Ctrl(at, from, m) =>
      if Heard(r, ev) {
        HeldCtrl(r, s, at, from, m, who);
      }
    case Civ(at, from, m) => HeldCiv(r, s, at, from, m);
    case _ =>
  }

  lemma HeldCiv(r: Radio, s: Settings, at: Moment, from: Identity, m: CivMessage)
    requires !(m.Close? && r.civOwner == Some(from))
    ensures var n := HandleCiv(r, s, at, from, m).radio;
            n.owner == r.owner && n.token == r.token && n.lastRefresh == r.lastRefresh
  {
    hide Track;
    hide SeedTracker;
  }

  lemma HeldCtrl(r: Radio, s: Settings, at: Moment, from: Identity, m: CtrlMessage, who: Identity)
    requires s.singleOwner && r.owner == Some(who) && Heard(r, Ctrl(at, from, m))
    requires !EndsSession(r, Ctrl(at, from, m), who)
    ensures var n := HandleCtrl(r, s, at.wall, from, m).radio;
            && n.owner == Some(who) && n.token == r.token
            && n.lastRefresh == (if KeepsAlive(r, Ctrl(at, from, m), who) then at.wall else r.lastRefresh)
  {
    hide HandleConninfo;
    if m.Conninfo? {
      HeldConninfo(r, s, at.wall, from, m.declaredPort, who);
    }
  }

  lemma HeldConninfo(r: Radio, s: Settings, now: int, from: Identity, port: nat, who: Identity)
    requires s.singleOwner && r.owner == Some(who)
    ensures var n := HandleConninfo(r, s, now, from, port).radio;
            && n.owner == Some(who) && n.token == r.token
            && n.lastRefresh
               == (if from == who && now >= r.busyUntil && now >= r.unavailableUntil then now else r.lastRefresh)
  {
  }

  /** Event `l` keeps `who` alive. */
  ghost predicate AliveAt(r0: Radio, s: Settings, evs: seq<Event>, l: nat, who: Identity)
    requires l < |evs|
  {
    KeepsAlive(Play(r0, s, evs, l), evs[l], who)
  }

  /** Every time the timer runs within the first `n` events, the first state's last refresh or an
      event that kept `who` alive is less than a hold ago. */
  ghost predicate KeptAlive(r0: Radio, s: Settings, evs: seq<Event>, n: nat, who: Identity)
    requires n <= |evs|
  {
    forall k :: 0 <= k < n && evs[k].HoldTimer? ==>
      || evs[k].at.wall < r0.lastRefresh + s.hold
      || RefreshedBefore(r0, s, evs, k, who, evs[k].at.wall - s.hold)
  }

  /** Before event `k`, later than `since`, `who` was kept alive. */
  ghost predicate RefreshedBefore(r0: Radio, s: Settings, evs: seq<Event>, k: nat, who: Identity, since: int)
    requires k <= |evs|
  {
    exists l :: 0 <= l < k && AliveAt(r0, s, evs, l, who) && WallTime(evs[l]).Some? && WallTime(evs[l]).value > since
  }

  /** `last` is the time of the first state's last refresh or of an event since that kept `who`
      alive, and none of these is later. */
  ghost predicate Latest(r0: Radio, s: Settings, evs: seq<Event>, n: nat, who: Identity, last: int)
    requires n <= |evs|
  {
    && last >= r0.lastRefresh
    && (last == r0.lastRefresh || exists l :: 0 <= l < n && AliveAt(r0, s, evs, l, who) && WallTime(evs[l]) == Some(last))
    && (forall l :: 0 <= l < n && AliveAt(r0, s, evs, l, who) ==>
          WallTime(evs[l]).Some? && WallTime(evs[l]).value <= last)
  }

  /** What a kept session looks like after `n` events. */
  ghost predicate Held(r0: Radio, s: Settings, evs: seq<Event>, n: nat, who: Identity)
    requires n <= |evs|
  {
    var r := Play(r0, s, evs, n);
    r.owner == Some(who) && r.token == r0.token && TimerMatches(r, s) && Latest(r0, s, evs, n, who, r.lastRefresh)
  }

  /** The main result about the hold: an owner whose refreshes come less than a hold before each
      run of the timer keeps the session, under the same token, through every event until
      somebody decides to end it. */
  lemma {:induction false} KeptAliveHolds(r0: Radio, s: Settings, evs: seq<Event>, n: nat, who: Identity)
    requires n <= |evs| && s.singleOwner && TimerMatches(r0, s) && r0.owner == Some(who)
    requires ClockRuns(evs, r0.lastRefresh) && KeptAlive(r0, s, evs, n, who)
    requires forall k :: 0 <= k < n ==> !EndsSession(Play(r0, s, evs, k), evs[k], who)
    ensures Held(r0, s, evs, n, who)
    decreases n
  {
    hide Step;
    hide KeepsAlive;
    hide EndsSession;
    hide TimerMatches;
    hide ClockRuns;
    hide Latest;
    hide KeptAlive;
    hide WallTime;
    if n == 0 {
      LatestAtFirst(r0, s, evs, who);
    } else {
      KeptAliveBefore(r0, s, evs, n, who);
      KeptAliveHolds(r0, s, evs, n - 1, who);
      var r, ev := Play(r0, s, evs, n - 1), evs[n - 1];
      TimerIsEarly(r0, s, evs, n - 1, who, r.lastRefresh);
      HeldStep(r, s, ev, who);
      assert Play(r0, s, evs, n) == Step(r, s, ev).radio;
      LatestStep(r0, s, evs, n, who, r.lastRefresh, Play(r0, s, evs, n).lastRefresh);
    }
  }

  lemma TimerIsLate(r0: Radio, s: Settings, evs: seq<Event>, n: nat, who: Identity, last: int)
    requires n < |evs| && Latest(r0, s, evs, n, who, last)
    requires KeptAlive(r0, s, evs, n, who) && !KeptAlive(r0, s, evs, n + 1, who)
    ensures evs[n].HoldTimer? && evs[n].at.wall >= last + s.hold
  {
    hide AliveAt;
    if last != r0.lastRefresh {
      var l :| 0 <= l < n && AliveAt(r0, s, evs, l, who) && WallTime(evs[l]) == Some(last);
    }
  }

  /** ... and exactly: with nobody deciding to end it, the session is held throughout if and only
      if every run of the timer finds it refreshed less than a hold ago. */
  lemma {:induction false} HeldThroughoutIff(r0: Radio, s: Settings, evs: seq<Event>, n: nat, who: Identity)
    requires n <= |evs| && s.singleOwner && TimerMatches(r0, s) && r0.owner == Some(who)
    requires ClockRuns(evs, r0.lastRefresh)
    requires forall k :: 0 <= k < n ==> !EndsSession(Play(r0, s, evs, k), evs[k], who)
    ensures KeptAlive(r0, s, evs, n, who) <==> forall k :: 0 <= k <= n ==> Play(r0, s, evs, k).owner == Some(who)
    decreases n
  {
    hide Step;
    hide EndsSession;
    hide TimerMatches;
    hide ClockRuns;
    hide Latest;
    hide KeptAlive;
    if n == 0 {
      NeverLate(r0, s, evs, who);
    } else {
      HeldThroughoutIff(r0, s, evs, n - 1, who);
      if KeptAlive(r0, s, evs, n, who) {
        KeptAliveBefore(r0, s, evs, n, who);
        KeptAliveHolds(r0, s, evs, n, who);
      } else if KeptAlive(r0, s, evs, n - 1, who) {
        KeptAliveHolds(r0, s, evs, n - 1, who);
        var r := Play(r0, s, evs, n - 1);
        TimerIsLate(r0, s, evs, n - 1, who, r.lastRefresh);
        LateExpires(r, s, evs[n - 1]);
        assert Play(r0, s, evs, n) == Step(r, s, evs[n - 1]).radio;
      }
    }
  }

  lemma LateExpires(r: Radio, s: Settings, ev: Event)
    requires TimerMatches(r, s) && r.owner.Some? && ev.HoldTimer? && ev.at.wall >= r.lastRefresh + s.hold
    ensures Step(r, s, ev).radio.owner == None
  {
  }

  lemma NeverLate(r0: Radio, s: Settings, evs: seq<Event>, who: Identity)
    ensures KeptAlive(r0, s, evs, 0, who)
  {
  }

  lemma LatestAtFirst(r0: Radio, s: Settings, evs: seq<Event>, who: Identity)
    ensures Latest(r0, s, evs, 0, who, r0.lastRefresh)
  {
  }

  lemma KeptAliveBefore(r0: Radio, s: Settings, evs: seq<Event>, n: nat, who: Identity)
    requires 0 < n <= |evs| && KeptAlive(r0, s, evs, n, who)
    ensures KeptAlive(r0, s, evs, n - 1, who)
  {
  }

  lemma TimerIsEarly(r0: Radio, s: Settings, evs: seq<Event>, n: nat, who: Identity, last: int)
    requires n < |evs| && Latest(r0, s, evs, n, who, last) && KeptAlive(r0, s, evs, n + 1, who)
    ensures evs[n].HoldTimer? ==> evs[n].at.wall < last + s.hold
  {
    hide AliveAt;
  }

  lemma LatestStep(r0: Radio, s: Settings, evs: seq<Event>, n: nat, who: Identity, last: int, now: int)
    requires 0 < n <= |evs| && ClockRuns(evs, r0.lastRefresh) && Latest(r0, s, evs, n - 1, who, last)
    requires if AliveAt(r0, s, evs, n - 1, who) then WallTime(evs[n - 1]) == Some(now) else now == last
    ensures Latest(r0, s, evs, n, who, now)
  {
    hide AliveAt;
    hide WallTime;
  }

  // ---- every tracker on every run is sound -------------------------------------------

  ghost predicate TrackersSound(r: Radio) {
    && (forall k :: k in r.trackers ==> GapInvariant.Sound(r.trackers[k]) && r.trackers[k].next.Some?)
    && (r.orphan.Some? ==>
          GapInvariant.Sound(GapTracker.Inherited(r.orphan.value.next, r.orphan.value.missing)))
  }

  lemma TrackSound(r: Radio, s: Settings, pace: int, who: Identity, n: Seq, p: GapTracker.Packet)
    requires r.orphan.Some? ==>
               GapInvariant.Sound(GapTracker.Inherited(r.orphan.value.next, r.orphan.value.missing))
    requires forall k :: k in r.trackers ==> GapInvariant.Sound(r.trackers[k])
    requires forall k :: k in r.trackers && k != who ==> r.trackers[k].next.Some?
    ensures TrackersSound(Track(r, s, pace, who, n, p).radio)
  {
    if who in r.trackers {
      GapInvariant.AcceptKeeps(r.trackers[who], s.gap, GapTracker.Env(pace, r.standby), n, p);
    }
  }

  lemma SoundStep(r: Radio, s: Settings, ev: Event)
    requires TrackersSound(r)
    ensures TrackersSound(Step(r, s, ev).radio)
  {
    hide HandleCtrl;
    hide HandleCiv;
    hide ExpireHold;
    match ev
    case Ctrl(at, from, m) => CtrlSound(r, s, at.wall, from, m);
    case Civ(at, from, m) =>
      if Heard(r, ev) {
        CivSound(r, s, at, from, m);
      }
    case HoldTimer(at) => ExpirySound(r, s);
    case GapLoop(at) =>
      forall k | k in r.trackers
        ensures GapInvariant.Sound(TickAll(r, s, at.pace).trackers[k])
                && TickAll(r, s, at.pace).trackers[k].next.Some?
      {
        GapInvariant.TickKeeps(r.trackers[k], s.gap, GapTracker.Env(at.pace, r.standby));
      }
    case _ =>
  }

  lemma CtrlSound(r: Radio, s: Settings, now: int, from: Identity, m: CtrlMessage)
    requires TrackersSound(r)
    ensures TrackersSound(HandleCtrl(r, s, now, from, m).radio)
  {
    SessionFence.CtrlServes(r, s, now, from, m);
    CtrlKeepsOrphan(r, s, now, from, m);
  }

  lemma ExpirySound(r: Radio, s: Settings)
    requires TrackersSound(r)
    ensures TrackersSound(ExpireHold(r, s))
  {
  }

  lemma OpenSound(r: Radio, s: Settings, at: Moment, who: Identity, n: Seq)
    requires TrackersSound(r)
    ensures TrackersSound(HandleOpen(r, s, at, who, n).radio)
  {
    hide Track;
    if !r.fenced || OpenAllowed(r, who) {
      var o := SeedTracker(r.(civOwner := Some(who)), s, at.wall, who);
      TrackSound(o, s, at.pace, who, n, GapTracker.Packet(GapTracker.OpenClose, []));
    }
  }

  lemma CloseSound(r: Radio, s: Settings, at: Moment, who: Identity, n: Seq)
    requires TrackersSound(r)
    ensures TrackersSound(HandleClose(r, s, at, who, n).radio)
  {
    hide Track;
    var c := if s.singleOwner && r.owner.Some? && r.civOwner == Some(who)
             then RetireToken(Release(r, false)) else r;
    TrackSound(c, s, at.pace, who, n, GapTracker.Packet(GapTracker.OpenClose, []));
  }

  lemma CivSound(r: Radio, s: Settings, at: Moment, who: Identity, m: CivMessage)
    requires TrackersSound(r)
    ensures TrackersSound(HandleCiv(r, s, at, who, m).radio)
  {
    hide Track;
    hide HandleOpen;
    hide HandleClose;
    match m
    case Open(n) => OpenSound(r, s, at, who, n);
    case Close(n) => CloseSound(r, s, at, who, n);
    case CivIdle(n) => TrackSound(r, s, at.pace, who, n, GapTracker.Packet(GapTracker.Idle, []));
    case CivData(n, body) => TrackSound(r, s, at.pace, who, n, GapTracker.Packet(GapTracker.Data, body));
    case _ =>
  }

  /** On every run from power-on, every client's tracker satisfies the gap invariant that
      the pacing and recovery theorems start from, and so does any state an orphan would seed. */
  lemma {:induction false} SoundRun(s: Settings, evs: seq<Event>, n: nat)
    requires n <= |evs|
    ensures TrackersSound(Play(PowerOn, s, evs, n))
  {
    if n > 0 {
      SoundRun(s, evs, n - 1);
      SoundStep(Play(PowerOn, s, evs, n - 1), s, evs[n - 1]);
    }
  }

  // ---- the orphan --------------------------------------------------------------------

  /** Step `i` ends a held session because its hold ran out, and leaves `o` behind. */
  ghost predicate LeavesOrphan(r0: Radio, s: Settings, evs: seq<Event>, i: nat, o: Orphan)
    requires i < |evs|
  {
    var r := Play(r0, s, evs, i);
    && evs[i].HoldTimer? && r.owner.Some? && r.deadline.Some? && evs[i].at.wall >= r.deadline.value
    && s.survives && r.civOwner.Some? && r.civOwner.value in r.trackers
    && r.trackers[r.civOwner.value].next == Some(o.next)
    && r.trackers[r.civOwner.value].missing == o.missing
    && o.diedAt == r.lastRefresh
  }

  /** Step `i` seeds the tracker of `who` with inherited state. */
  ghost predicate Seeds(r: Radio, s: Settings, ev: Event, who: Identity) {
    && ev.Civ? && ev.civ.Open? && ev.from == who && Heard(r, ev) && who !in r.trackers
    && who in Step(r, s, ev).radio.trackers && Step(r, s, ev).radio.trackers[who].frontier.Some?
  }

  /** The orphan stays untouched from step `i` up to `n`: nothing seeds from it and no
      session ends in between. */
  ghost predicate Waits(r0: Radio, s: Settings, evs: seq<Event>, i: nat, n: nat)
    requires n <= |evs|
  {
    forall k :: i < k < n ==> Undisturbed(Play(r0, s, evs, k), s, evs[k])
  }

  ghost predicate Undisturbed(r: Radio, s: Settings, ev: Event) {
    && (forall who :: !Seeds(r, s, ev, who))
    && !(r.owner.Some? && Step(r, s, ev).radio.owner.None?)
  }

  ghost predicate OrphanFrom(r0: Radio, s: Settings, evs: seq<Event>, n: nat, o: Orphan)
    requires n <= |evs|
  {
    exists i :: 0 <= i < n && LeavesOrphan(r0, s, evs, i, o) && Waits(r0, s, evs, i, n)
  }

  /** A step that keeps an orphan (unless it is a hold expiry) neither ends a held session nor seeds. */
  lemma OrphanKept(r: Radio, s: Settings, ev: Event)
    requires Step(r, s, ev).radio.orphan.Some?
    ensures var n := Step(r, s, ev).radio;
            || HoldRunsOut(r, ev)
            || (n.orphan == r.orphan && Undisturbed(r, s, ev))
  {
    match ev
    case Ctrl(at, from, m) => CtrlKeepsOrphan(r, s, at.wall, from, m);
    case Civ(at, from, m) => CivKeepsOrphan(r, s, at, from, m);
    case _ =>
  }

  lemma CtrlKeepsOrphan(r: Radio, s: Settings, now: int, from: Identity, m: CtrlMessage)
    ensures var n := HandleCtrl(r, s, now, from, m).radio;
            n.orphan.Some? ==> n.orphan == r.orphan && !(r.owner.Some? && n.owner.None?)
  {
    hide HandleConninfo;
    if m.Conninfo? {
      ConninfoKeepsOrphan(r, s, now, from, m.declaredPort);
    }
  }

  lemma ConninfoKeepsOrphan(r: Radio, s: Settings, now: int, from: Identity, port: nat)
    ensures var n := HandleConninfo(r, s, now, from, port).radio;
            n.orphan == r.orphan && !(r.owner.Some? && n.owner.None?)
  {
  }

  lemma CivKeepsOrphan(r: Radio, s: Settings, at: Moment, who: Identity, m: CivMessage)
    ensures var n := HandleCiv(r, s, at, who, m).radio;
            n.orphan.Some? ==>
              n.orphan == r.orphan && !(r.owner.Some? && n.owner.None?) && n.trackers.Keys == r.trackers.Keys
  {
    hide GapTracker.Accept;
    hide ProcessedOf;
    match m
    case Open(n) =>
    case _ =>
  }

  lemma ExpiryLeaves(r: Radio, s: Settings)
    requires s.survives && r.owner.Some? && ExpireHold(r, s).orphan.Some?
    ensures var o := ExpireHold(r, s).orphan.value;
            && r.civOwner.Some? && r.civOwner.value in r.trackers
            && r.trackers[r.civOwner.value].next == Some(o.next)
            && r.trackers[r.civOwner.value].missing == o.missing && o.diedAt == r.lastRefresh
  {
  }

  predicate HoldRunsOut(r: Radio, ev: Event) {
    ev.HoldTimer? && r.owner.Some? && r.deadline.Some? && ev.at.wall >= r.deadline.value
  }

  lemma OrphanCarried(r0: Radio, s: Settings, evs: seq<Event>, n: nat, o: Orphan)
    requires n < |evs| && OrphanFrom(r0, s, evs, n, o)
    requires Undisturbed(Play(r0, s, evs, n), s, evs[n])
    ensures OrphanFrom(r0, s, evs, n + 1, o)
  {
    hide LeavesOrphan;
    hide Undisturbed;
    hide Step;
    var i :| 0 <= i < n && LeavesOrphan(r0, s, evs, i, o) && Waits(r0, s, evs, i, n);
    assert Waits(r0, s, evs, i, n + 1);
  }

  lemma OrphanBorn(r0: Radio, s: Settings, evs: seq<Event>, n: nat)
    requires n < |evs| && s.survives && HoldRunsOut(Play(r0, s, evs, n), evs[n])
    requires Step(Play(r0, s, evs, n), s, evs[n]).radio.orphan.Some?
    ensures OrphanFrom(r0, s, evs, n + 1, Step(Play(r0, s, evs, n), s, evs[n]).radio.orphan.value)
  {
    var r := Play(r0, s, evs, n);
    var o := ExpireHold(r, s).orphan.value;
    ExpiryLeaves(r, s);
    assert LeavesOrphan(r0, s, evs, n, o);
    assert Waits(r0, s, evs, n, n + 1);
  }

  lemma {:induction false} OrphanHistory(s: Settings, evs: seq<Event>, n: nat)
    requires n <= |evs| && s.survives && Play(PowerOn, s, evs, n).orphan.Some?
    ensures OrphanFrom(PowerOn, s, evs, n, Play(PowerOn, s, evs, n).orphan.value)
  {
    assert n > 0;
    var r, ev := Play(PowerOn, s, evs, n - 1), evs[n - 1];
    OrphanKept(r, s, ev);
    if HoldRunsOut(r, ev) {
      OrphanBorn(PowerOn, s, evs, n - 1);
    } else {
      OrphanHistory(s, evs, n - 1);
      OrphanCarried(PowerOn, s, evs, n - 1, r.orphan.value);
    }
  }

  /** Whenever a new client inherits stream state, that state is the frontier and gap list
      of the stream owner of a session whose hold expired on its own; no other session has
      ended and no other tracker was seeded since; and the dead session's last refresh is no
      older than the expiry. Step `j` consumes the orphan, so it seeds one tracker only. */
  lemma OrphanProvenance(s: Settings, evs: seq<Event>, j: nat, who: Identity)
    returns (i: nat, o: Orphan)
    requires j < |evs| && Seeds(Play(PowerOn, s, evs, j), s, evs[j], who)
    ensures i < j && LeavesOrphan(PowerOn, s, evs, i, o) && Waits(PowerOn, s, evs, i, j)
    ensures evs[j].at.wall - o.diedAt <= s.orphanExpiry
    ensures Play(PowerOn, s, evs, j + 1).orphan.None?
    ensures evs[j].Civ? && evs[j].civ.Open?
    ensures Play(PowerOn, s, evs, j + 1).trackers[who]
            == Opened(GapTracker.Inherited(o.next, o.missing), s, evs[j].at.pace,
                      Play(PowerOn, s, evs, j).standby, evs[j].civ.number)
  {
    var r := Play(PowerOn, s, evs, j);
    SeedNeedsOrphan(r, s, evs[j], who);
    o := r.orphan.value;
    OrphanHistory(s, evs, j);
    i :| 0 <= i < j && LeavesOrphan(PowerOn, s, evs, i, o) && Waits(PowerOn, s, evs, i, j);
  }

  /** A tracker after the gate saw the opening packet itself. */
  function Opened(t: GapTracker.Tracker, s: Settings, pace: int, standby: bool, n: Seq): GapTracker.Tracker {
    GapTracker.Accept(t, s.gap, GapTracker.Env(pace, standby), n, GapTracker.Packet(GapTracker.OpenClose, [])).tracker
  }

  lemma SeedNeedsOrphan(r: Radio, s: Settings, ev: Event, who: Identity)
    requires Seeds(r, s, ev, who)
    ensures s.survives && r.orphan.Some? && ev.at.wall - r.orphan.value.diedAt <= s.orphanExpiry
    ensures var n := Step(r, s, ev).radio;
            && n.orphan.None? && ev.Civ? && ev.civ.Open?
            && n.trackers[who] == Opened(GapTracker.Inherited(r.orphan.value.next, r.orphan.value.missing),
                                         s, ev.at.pace, r.standby, ev.civ.number)
  {
    var number := ev.civ.number;
    var p := GapTracker.Packet(GapTracker.OpenClose, []);
    var o := SeedTracker(r.(civOwner := Some(who)), s, ev.at.wall, who);
    assert !(r.fenced && !OpenAllowed(r, who));
    SessionFence.TrackServes(o, s, ev.at.pace, who, number, p);
    GapInvariant.NeverInherited(o.trackers[who], s.gap,
                                GapTracker.Arrive(GapTracker.Env(ev.at.pace, r.standby), number, p));
    assert Step(r, s, ev).radio.trackers[who].frontier == o.trackers[who].frontier;
  }

  /** Exactly when an open seeds: it is heard and allowed, comes from an identity without a
      tracker, and an orphan is kept that has not expired. */
  lemma SeedsIff(r: Radio, s: Settings, ev: Event, who: Identity)
    requires ev.Civ? && ev.civ.Open? && ev.from == who
    ensures Seeds(r, s, ev, who)
            <==> && Heard(r, ev) && !(r.fenced && !OpenAllowed(r, who)) && who !in r.trackers
                 && s.survives && r.orphan.Some? && ev.at.wall - r.orphan.value.diedAt <= s.orphanExpiry
  {
    hide GapTracker.Accept;
    hide ProcessedOf;
    if Seeds(r, s, ev, who) {
      SeedNeedsOrphan(r, s, ev, who);
    } else if Heard(r, ev) && !(r.fenced && !OpenAllowed(r, who)) && who !in r.trackers {
      var o := SeedTracker(r.(civOwner := Some(who)), s, ev.at.wall, who);
      GapInvariant.NeverInherited(o.trackers[who], s.gap,
                                  GapTracker.Arrive(GapTracker.Env(ev.at.pace, r.standby), ev.civ.number,
                                                    GapTracker.Packet(GapTracker.OpenClose, [])));
    }
  }

  /** The partner of `OrphanProvenance`: with the knob on, when the hold of a session runs out
      whose stream owner was tracked, a new identity that opens within the expiry (counted from
      the last refresh) inherits that stream's frontier and gap list. */
  lemma HoldExpiryIsInherited(r: Radio, s: Settings, fires: Moment, at: Moment, who: Identity, n: Seq)
    requires s.survives && r.owner.Some? && r.deadline.Some? && fires.wall >= r.deadline.value
    requires r.civOwner.Some? && r.civOwner.value in r.trackers && r.trackers[r.civOwner.value].next.Some?
    requires who !in r.trackers && (r.fenced ==> OpenAllowed(r, who))
    requires at.wall >= r.downUntil && at.wall >= r.noticeUntil && at.wall - r.lastRefresh <= s.orphanExpiry
    ensures var t := r.trackers[r.civOwner.value];
            var dead := Step(r, s, HoldTimer(fires)).radio;
            var next := Step(dead, s, Civ(at, who, Open(n))).radio;
            && next.orphan.None? && who in next.trackers
            && next.trackers[who]
               == Opened(GapTracker.Inherited(t.next.value, t.missing), s, at.pace, r.standby, n)
  {
    hide GapTracker.Accept;
    hide ProcessedOf;
    var dead := Step(r, s, HoldTimer(fires)).radio;
    assert dead == RetireToken(Release(KeepOrphan(r, s), true));
    SeedsIff(dead, s, Civ(at, who, Open(n)), who);
    SeedNeedsOrphan(dead, s, Civ(at, who, Open(n)), who);
  }

  /** One orphan, one tracker: between two seedings another session's hold must run out. */
  lemma OneOrphanOneTracker(s: Settings, evs: seq<Event>, j: nat, a: Identity, k: nat, b: Identity)
    returns (i: nat, o: Orphan)
    requires j < k < |evs|
    requires Seeds(Play(PowerOn, s, evs, j), s, evs[j], a)
    requires Seeds(Play(PowerOn, s, evs, k), s, evs[k], b)
    ensures j < i < k && LeavesOrphan(PowerOn, s, evs, i, o)
  {
    i, o := OrphanProvenance(s, evs, k, b);
    NoSeedingWhileWaiting(PowerOn, s, evs, i, j, k, o, a);
  }

  lemma NoSeedingWhileWaiting(r0: Radio, s: Settings, evs: seq<Event>, i: nat, j: nat, k: nat, o: Orphan, a: Identity)
    requires i < k <= |evs| && j < k && LeavesOrphan(r0, s, evs, i, o) && Waits(r0, s, evs, i, k)
    requires evs[j].Civ? && Seeds(Play(r0, s, evs, j), s, evs[j], a)
    ensures j < i
  {
    assert evs[i].HoldTimer?;
    assert !Undisturbed(Play(r0, s, evs, j), s, evs[j]);
  }
}
