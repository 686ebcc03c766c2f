/** What a client is answered, and when it is not: the dark, busy, notice, silence and
    unavailability windows over whole runs, from the events that opened them; logins; and the
    exact list of what ends a token epoch. */
module SessionOutage {
  import opened Wrappers
  import opened SerialNumbers
  import GapTracker
  import opened Session

  // ---- what moves the windows --------------------------------------------------------

  predicate GoesDark(ev: Event) {
    ev.GoDark? || (ev.Reboot? && !ev.notice)
  }

  predicate GivesNotice(ev: Event) {
    ev.Reboot? && ev.notice
  }

  ghost predicate SameWindows(r: Radio, n: Radio) {
    && n.downUntil == r.downUntil && n.busyUntil == r.busyUntil && n.noticeUntil == r.noticeUntil
    && n.silentUntil == r.silentUntil && n.unavailableUntil == r.unavailableUntil && n.standby == r.standby
  }

  lemma ConninfoWindows(r: Radio, s: Settings, now: int, from: Identity, port: nat)
    ensures SameWindows(r, HandleConninfo(r, s, now, from, port).radio)
  {
  }

  lemma CtrlWindows(r: Radio, s: Settings, now: int, from: Identity, m: CtrlMessage)
    ensures SameWindows(r, HandleCtrl(r, s, now, from, m).radio)
  {
    hide HandleConninfo;
    if m.Conninfo? {
      ConninfoWindows(r, s, now, from, m.declaredPort);
    }
  }

  lemma CivWindows(r: Radio, s: Settings, at: Moment, who: Identity, m: CivMessage)
    ensures SameWindows(r, HandleCiv(r, s, at, who, m).radio)
  {
    hide Track;
    hide SeedTracker;
  }

  /** Only the radio's own events move a window, to where the event says. */
  lemma StepWindows(r: Radio, s: Settings, ev: Event)
    ensures var n := Step(r, s, ev).radio;
            && n.downUntil == (if GoesDark(ev) then ev.at.wall + ev.downFor else r.downUntil)
            && n.busyUntil == (if GoesDark(ev) then ev.at.wall + ev.downFor + ev.busyFor else r.busyUntil)
            && n.noticeUntil == (if GivesNotice(ev) then ev.at.wall + 20_000 else r.noticeUntil)
            && n.silentUntil == (if ev.SilenceKeepalive? then ev.at.wall + ev.duration else r.silentUntil)
            && n.unavailableUntil == (if ev.SetUnavailable? then ev.until else r.unavailableUntil)
            && n.standby == (if ev.SetStandby? then ev.on else r.standby)
  {
    hide HandleCtrl;
    hide HandleCiv;
    hide ExpireHold;
    hide EndEpoch;
    hide TickAll;
    match ev
    case Ctrl(at, from, m) => CtrlWindows(r, s, at.wall, from, m);
    case Civ(at, from, m) => CivWindows(r, s, at, from, m);
    case HoldTimer(_) => ExpiryWindows(r, s);
    case Reboot(at, downFor, busyFor, notice) =>
      EpochWindows(if notice then r.(noticeUntil := at.wall + POWER_OFF_NOTICE_WINDOW)
                   else Darken(r, at.wall, downFor, busyFor), true);
    case Drop(_) => EpochWindows(r, false);
    case GapLoop(at) => TickWindows(r, s, at.pace);
    case _ =>
  }

  lemma ExpiryWindows(r: Radio, s: Settings)
    ensures SameWindows(r, ExpireHold(r, s))
  {
  }

  lemma EpochWindows(r: Radio, blocksPings: bool)
    ensures SameWindows(r, EndEpoch(r, blocksPings))
  {
  }

  lemma TickWindows(r: Radio, s: Settings, pace: int)
    ensures SameWindows(r, TickAll(r, s, pace))
  {
  }

  /** Event `d` is the latest of the first `n` that went dark. */
  ghost predicate DarkSince(evs: seq<Event>, d: nat, n: nat) {
    d < n <= |evs| && GoesDark(evs[d]) && forall k :: d < k < n ==> !GoesDark(evs[k])
  }

  ghost predicate NoticeSince(evs: seq<Event>, e: nat, n: nat) {
    e < n <= |evs| && GivesNotice(evs[e]) && forall k :: e < k < n ==> !GivesNotice(evs[k])
  }

  ghost predicate SilentSince(evs: seq<Event>, q: nat, n: nat) {
    q < n <= |evs| && evs[q].SilenceKeepalive? && forall k :: q < k < n ==> !evs[k].SilenceKeepalive?
  }

  ghost predicate UnavailableSince(evs: seq<Event>, u: nat, n: nat) {
    u < n <= |evs| && evs[u].SetUnavailable? && forall k :: u < k < n ==> !evs[k].SetUnavailable?
  }

  ghost predicate StandbySince(evs: seq<Event>, b: nat, n: nat) {
    b < n <= |evs| && evs[b].SetStandby? && forall k :: b < k < n ==> !evs[k].SetStandby?
  }

  lemma {:induction false} DarkWindow(r0: Radio, s: Settings, evs: seq<Event>, d: nat, n: nat)
    requires DarkSince(evs, d, n)
    ensures var r := Play(r0, s, evs, n);
            && r.downUntil == evs[d].at.wall + evs[d].downFor
            && r.busyUntil == evs[d].at.wall + evs[d].downFor + evs[d].busyFor
    decreases n
  {
    hide Step;
    StepWindows(Play(r0, s, evs, n - 1), s, evs[n - 1]);
    if n > d + 1 {
      DarkWindow(r0, s, evs, d, n - 1);
    }
  }

  lemma {:induction false} NoticeWindow(r0: Radio, s: Settings, evs: seq<Event>, e: nat, n: nat)
    requires NoticeSince(evs, e, n)
    ensures Play(r0, s, evs, n).noticeUntil == evs[e].at.wall + 20_000
    decreases n
  {
    hide Step;
    StepWindows(Play(r0, s, evs, n - 1), s, evs[n - 1]);
    if n > e + 1 {
      NoticeWindow(r0, s, evs, e, n - 1);
    }
  }

  lemma {:induction false} SilenceWindow(r0: Radio, s: Settings, evs: seq<Event>, q: nat, n: nat)
    requires SilentSince(evs, q, n)
    ensures Play(r0, s, evs, n).silentUntil == evs[q].at.wall + evs[q].duration
    decreases n
  {
    hide Step;
    StepWindows(Play(r0, s, evs, n - 1), s, evs[n - 1]);
    if n > q + 1 {
      SilenceWindow(r0, s, evs, q, n - 1);
    }
  }

  lemma {:induction false} UnavailableWindow(r0: Radio, s: Settings, evs: seq<Event>, u: nat, n: nat)
    requires UnavailableSince(evs, u, n)
    ensures Play(r0, s, evs, n).unavailableUntil == evs[u].until
    decreases n
  {
    hide Step;
    StepWindows(Play(r0, s, evs, n - 1), s, evs[n - 1]);
    if n > u + 1 {
      UnavailableWindow(r0, s, evs, u, n - 1);
    }
  }

  lemma {:induction false} StandbyWindow(r0: Radio, s: Settings, evs: seq<Event>, b: nat, n: nat)
    requires StandbySince(evs, b, n)
    ensures Play(r0, s, evs, n).standby == evs[b].on
    decreases n
  {
    hide Step;
    StepWindows(Play(r0, s, evs, n - 1), s, evs[n - 1]);
    if n > b + 1 {
      StandbyWindow(r0, s, evs, b, n - 1);
    }
  }

  // ---- dark --------------------------------------------------------------------------

  /** The event has no effect at all. */
  ghost predicate Nothing(r0: Radio, s: Settings, evs: seq<Event>, j: nat)
    requires j < |evs|
  {
    At(r0, s, evs, j) == Outcome(Play(r0, s, evs, j), [], [])
  }

  /** From a reboot or the end of its notice until the radio is up again, `downFor` later, no
      packet on either port has any effect or gets any answer. */
  lemma DarkHearsNothing(r0: Radio, s: Settings, evs: seq<Event>, d: nat, j: nat)
    requires DarkSince(evs, d, j) && j < |evs| && (evs[j].Ctrl? || evs[j].Civ?)
    requires evs[j].at.wall < evs[d].at.wall + evs[d].downFor
    ensures Nothing(r0, s, evs, j)
  {
    DarkWindow(r0, s, evs, d, j);
  }

  /** For 20 ms after a power-off notice only discovery and pings have any effect or answer ... */
  lemma NoticeHearsLittle(r0: Radio, s: Settings, evs: seq<Event>, e: nat, j: nat)
    requires NoticeSince(evs, e, j) && j < |evs| && (evs[j].Ctrl? || evs[j].Civ?)
    requires evs[j].at.wall < evs[e].at.wall + 20_000
    requires evs[j].Ctrl? ==> !evs[j].msg.AreYouThere? && !evs[j].msg.AreYouReady? && !evs[j].msg.Ping?
    requires evs[j].Civ? ==> !evs[j].civ.CivThere? && !evs[j].civ.CivReady? && !evs[j].civ.CivPing?
    ensures Nothing(r0, s, evs, j)
  {
    NoticeWindow(r0, s, evs, e, j);
  }

  /** ... and these are answered whenever the radio is not dark, notice or not: discovery on both
      ports, and control pings outside a silence window. */
  lemma DiscoveryIsAnswered(r: Radio, s: Settings, ev: Event)
    requires (ev.Ctrl? || ev.Civ?) && ev.at.wall >= r.downUntil
    ensures ev.Ctrl? && ev.msg.AreYouThere? ==>
              Step(r, s, ev) == Outcome(r.(discovered := r.discovered + {ev.from.id}), [IAmHere], [])
    ensures ev.Ctrl? && ev.msg.AreYouReady? ==> Step(r, s, ev) == Outcome(r, [Ready], [])
    ensures ev.Civ? && ev.civ.CivThere? ==> Step(r, s, ev) == Outcome(r, [IAmHere], [])
    ensures ev.Civ? && ev.civ.CivReady? ==> Step(r, s, ev) == Outcome(r, [Ready], [])
    ensures ev.Ctrl? && ev.msg.Ping? ==> Step(r, s, ev).replies == if ev.at.wall < r.silentUntil then [] else [Pong]
  {
  }

  /** Once the darkness and the notice are over, every packet is heard again: a conninfo gets an
      answer unless its token is retired. */
  lemma HeardAgain(r0: Radio, s: Settings, evs: seq<Event>, d: nat, e: nat, j: nat)
    requires DarkSince(evs, d, j) && NoticeSince(evs, e, j) && j < |evs|
    requires evs[j].Ctrl? && evs[j].msg.Conninfo? && evs[j].msg.token !in Play(r0, s, evs, j).retired
    requires evs[j].at.wall >= evs[d].at.wall + evs[d].downFor && evs[j].at.wall >= evs[e].at.wall + 20_000
    ensures |At(r0, s, evs, j).replies| == 1
  {
    DarkWindow(r0, s, evs, d, j);
    NoticeWindow(r0, s, evs, e, j);
  }

  // ---- busy --------------------------------------------------------------------------

  lemma ConninfoOutcome(r: Radio, s: Settings, now: int, from: Identity, port: nat)
    ensures var o := HandleConninfo(r, s, now, from, port);
            && (now < r.busyUntil ==> o == Outcome(r, [StatusBusy], []))
            && (now >= r.busyUntil && s.singleOwner && r.owner.Some? && r.owner != Some(from) ==>
                  o == Outcome(r, [StatusBusy], []))
            && (now >= r.busyUntil && s.singleOwner && (r.owner.None? || r.owner == Some(from))
                && now < r.unavailableUntil ==>
                  o == Outcome(r, [StatusNotReady], []))
            && (now >= r.busyUntil
                && (!s.singleOwner || ((r.owner.None? || r.owner == Some(from)) && now >= r.unavailableUntil)) ==>
                  o.replies == [StatusAccepted] && o.processed == [])
  {
  }

  /** A conninfo with an unretired token, from the hearing of it to its answer: in the `busyFor`
      after the darkness it is refused as busy and changes nothing, session or no session. */
  lemma BusyAfterDark(r0: Radio, s: Settings, evs: seq<Event>, d: nat, j: nat)
    requires DarkSince(evs, d, j) && j < |evs| && evs[j].Ctrl? && evs[j].msg.Conninfo?
    requires evs[j].msg.token !in Play(r0, s, evs, j).retired && Heard(Play(r0, s, evs, j), evs[j])
    requires evs[j].at.wall < evs[d].at.wall + evs[d].downFor + evs[d].busyFor
    ensures At(r0, s, evs, j) == Outcome(Play(r0, s, evs, j), [StatusBusy], [])
  {
    DarkWindow(r0, s, evs, d, j);
    ConninfoOutcome(Play(r0, s, evs, j), s, evs[j].at.wall, evs[j].from, evs[j].msg.declaredPort);
    hide HandleConninfo;
  }

  /** From then on: accepted when the session is free or the sender's own and the CI-V port is
      available, not ready while it is not, busy when another client holds the session; and a
      refusal changes nothing. */
  lemma ServedAfterBusy(r0: Radio, s: Settings, evs: seq<Event>, d: nat, j: nat)
    requires DarkSince(evs, d, j) && j < |evs| && evs[j].Ctrl? && evs[j].msg.Conninfo?
    requires evs[j].msg.token !in Play(r0, s, evs, j).retired && Heard(Play(r0, s, evs, j), evs[j])
    requires evs[j].at.wall >= evs[d].at.wall + evs[d].downFor + evs[d].busyFor
    ensures var r, o := Play(r0, s, evs, j), At(r0, s, evs, j);
            var own := r.owner.None? || r.owner == Some(evs[j].from);
            if !s.singleOwner then o.replies == [StatusAccepted]
            else if !own then o == Outcome(r, [StatusBusy], [])
            else if evs[j].at.wall < r.unavailableUntil then o == Outcome(r, [StatusNotReady], [])
            else o.replies == [StatusAccepted] && o.radio.owner == Some(evs[j].from)
  {
    DarkWindow(r0, s, evs, d, j);
    var r := Play(r0, s, evs, j);
    ConninfoOutcome(r, s, evs[j].at.wall, evs[j].from, evs[j].msg.declaredPort);
    if s.singleOwner && (r.owner.None? || r.owner == Some(evs[j].from)) && evs[j].at.wall >= r.unavailableUntil {
      AcceptedClaims(r, s, evs[j].at.wall, evs[j].from, evs[j].msg.declaredPort);
    }
    hide HandleConninfo;
  }

  /** A client whose conninfo is accepted holds the session from now on for a whole hold; when it
      did not hold it before, numbering and stream start over, otherwise they go on. */
  lemma AcceptedClaims(r: Radio, s: Settings, now: int, from: Identity, port: nat)
    requires s.singleOwner && HandleConninfo(r, s, now, from, port).replies == [StatusAccepted]
    ensures var n := HandleConninfo(r, s, now, from, port).radio;
            && n.owner == Some(from) && n.lastRefresh == now && n.deadline == Some(now + s.hold)
            && n.token == r.token && n.retired == r.retired && n.orphan == r.orphan
            && (if r.owner == Some(from) then n.trackers == r.trackers && n.civOwner == r.civOwner
                else n.trackers == map[] && n.civOwner == None)
  {
  }

  /** The CI-V port is out of service exactly until the time that was set. */
  lemma NotReadyUntil(r0: Radio, s: Settings, evs: seq<Event>, u: nat, j: nat)
    requires UnavailableSince(evs, u, j) && j < |evs| && evs[j].Ctrl? && evs[j].msg.Conninfo? && s.singleOwner
    requires var r := Play(r0, s, evs, j);
             && evs[j].msg.token !in r.retired && Heard(r, evs[j]) && evs[j].at.wall >= r.busyUntil
             && (r.owner.None? || r.owner == Some(evs[j].from))
    ensures At(r0, s, evs, j).replies == if evs[j].at.wall < evs[u].until then [StatusNotReady] else [StatusAccepted]
  {
    UnavailableWindow(r0, s, evs, u, j);
    ConninfoOutcome(Play(r0, s, evs, j), s, evs[j].at.wall, evs[j].from, evs[j].msg.declaredPort);
    hide HandleConninfo;
  }

  // ---- silence -----------------------------------------------------------------------

  /** A ping that is heard is answered exactly outside the silence window: every one on the
      control port, and on the CI-V port those of clients that the fence does not hold off. */
  lemma PingsInSilence(r0: Radio, s: Settings, evs: seq<Event>, q: nat, j: nat)
    requires SilentSince(evs, q, j) && j < |evs|
    requires (evs[j].Ctrl? && evs[j].msg.Ping?)
             || (evs[j].Civ? && evs[j].civ.CivPing? && !Fenced(Play(r0, s, evs, j), evs[j].from))
    requires Heard(Play(r0, s, evs, j), evs[j])
    ensures At(r0, s, evs, j).replies == if evs[j].at.wall < evs[q].at.wall + evs[q].duration then [] else [Pong]
  {
    SilenceWindow(r0, s, evs, q, j);
  }

  // ---- logins ------------------------------------------------------------------------

  /** The id was discovered by an Are-You-There on the control port that no disconnect revoked. */
  ghost predicate Discovered(r0: Radio, s: Settings, evs: seq<Event>, n: nat, id: nat)
    requires n <= |evs|
    decreases n
  {
    if n == 0 then id in r0.discovered
    else
      var ev := evs[n - 1];
      if ev.Ctrl? && ev.from.id == id && Heard(Play(r0, s, evs, n - 1), ev) && ev.msg.AreYouThere? then true
      else if ev.Ctrl? && ev.from.id == id && Heard(Play(r0, s, evs, n - 1), ev) && ev.msg.Disconnect? then false
      else Discovered(r0, s, evs, n - 1, id)
  }

  lemma StepDiscovers(r: Radio, s: Settings, ev: Event)
    ensures Step(r, s, ev).radio.discovered
            == if ev.Ctrl? && Heard(r, ev) && ev.msg.AreYouThere? then r.discovered + {ev.from.id}
               else if ev.Ctrl? && Heard(r, ev) && ev.msg.Disconnect? then r.discovered - {ev.from.id}
               else r.discovered
  {
    hide HandleCtrl;
    hide HandleCiv;
    hide KeepOrphan;
    match ev
    case Ctrl(at, from, m) => CtrlDiscovers(r, s, at.wall, from, m);
    case Civ(at, from, m) => CivDiscovers(r, s, at, from, m);
    case _ =>
  }

  lemma CtrlDiscovers(r: Radio, s: Settings, now: int, from: Identity, m: CtrlMessage)
    ensures HandleCtrl(r, s, now, from, m).radio.discovered
            == if m.AreYouThere? then r.discovered + {from.id}
               else if m.Disconnect? then r.discovered - {from.id} else r.discovered
  {
    hide HandleConninfo;
    if m.Conninfo? {
      ConninfoDiscovers(r, s, now, from, m.declaredPort);
    }
  }

  lemma ConninfoDiscovers(r: Radio, s: Settings, now: int, from: Identity, port: nat)
    ensures HandleConninfo(r, s, now, from, port).radio.discovered == r.discovered
  {
  }

  lemma CivDiscovers(r: Radio, s: Settings, at: Moment, who: Identity, m: CivMessage)
    ensures HandleCiv(r, s, at, who, m).radio.discovered == r.discovered
  {
    hide Track;
    hide SeedTracker;
  }

  lemma {:induction false} DiscoveredIff(r0: Radio, s: Settings, evs: seq<Event>, n: nat, id: nat)
    requires n <= |evs|
    ensures id in Play(r0, s, evs, n).discovered <==> Discovered(r0, s, evs, n, id)
    decreases n
  {
    hide Step;
    hide Heard;
    if n > 0 {
      DiscoveredIff(r0, s, evs, n - 1, id);
      StepDiscovers(Play(r0, s, evs, n - 1), s, evs[n - 1]);
    }
  }

  /** A login that is heard, over a whole run: ignored while the radio demands a discovery that
      the client's id has not made or has taken back, refused when authentication fails, and
      otherwise accepted; only an accepted one changes anything: it is the last login from now
      on, and all numbering starts over. */
  lemma LoginAnswered(r0: Radio, s: Settings, evs: seq<Event>, j: nat)
    requires j < |evs| && evs[j].Ctrl? && evs[j].msg.Login? && Heard(Play(r0, s, evs, j), evs[j])
    ensures var r := Play(r0, s, evs, j);
            At(r0, s, evs, j)
            == if s.requireDiscovery && !Discovered(r0, s, evs, j, evs[j].from.id) then Outcome(r, [], [])
               else if s.authFail then Outcome(r, [LoginRefused], [])
               else Outcome(r.(lastLogin := Some(evs[j].from), trackers := map[]), [LoginOk], [])
  {
    DiscoveredIff(r0, s, evs, j, evs[j].from.id);
  }

  // ---- tokens ------------------------------------------------------------------------

  /** Everything but a renewal that carries a retired token is ignored. */
  lemma RetiredTokenIgnored(r: Radio, s: Settings, at: Moment, from: Identity, m: CtrlMessage)
    requires m.TokenAck? || m.TokenRemove? || m.Conninfo?
    requires m.token in r.retired
    ensures Step(r, s, Ctrl(at, from, m)) == Outcome(r, [], [])
  {
  }

  /** The owner's own ends, and in default mode the remove that carries the live token. */
  ghost predicate Removes(r: Radio, s: Settings, ev: Event) {
    && ev.Ctrl? && Heard(r, ev)
    && ((ev.msg.TokenRemove? && ev.msg.token !in r.retired
         && if s.singleOwner then r.owner == Some(ev.from) else ev.msg.token == r.token)
        || (ev.msg.Disconnect? && s.singleOwner && r.owner == Some(ev.from)))
  }

  /** Exactly what ends a token epoch: the owner's remove or disconnect, in default mode the
      remove that carries the live token, the stream owner's close of a held session, a hold
      that ran out, a reboot, a drop, and the test helper. A login never does. */
  ghost predicate EndsEpoch(r: Radio, s: Settings, ev: Event) {
    || ev.Reboot? || ev.Drop? || ev.FreeSession?
    || Removes(r, s, ev)
    || (ev.Civ? && ev.civ.Close? && Heard(r, ev) && s.singleOwner && r.owner.Some? && r.civOwner == Some(ev.from))
    || (ev.HoldTimer? && r.deadline.Some? && ev.at.wall >= r.deadline.value && r.owner.Some?)
  }

  lemma StepAlters(t: Token)
    ensures (t + TOKEN_STEP) % TOKEN_SPACE != t
  {
  }

  lemma EpochEndsIff(r: Radio, s: Settings, ev: Event)
    ensures var n := Step(r, s, ev).radio;
            && (n.token != r.token <==> EndsEpoch(r, s, ev))
            && n.retired == if EndsEpoch(r, s, ev) then r.retired + {r.token} else r.retired
  {
    hide HandleCtrl;
    hide HandleCiv;
    hide KeepOrphan;
    StepAlters(r.token);
    match ev
    case Ctrl(at, from, m) => if Heard(r, ev) { CtrlEpoch(r, s, at, from, m); }
    case Civ(at, from, m) => if Heard(r, ev) { CivEpoch(r, s, at, from, m); }
    case _ =>
  }

  lemma CtrlEpoch(r: Radio, s: Settings, at: Moment, from: Identity, m: CtrlMessage)
    requires Heard(r, Ctrl(at, from, m))
    ensures var n := HandleCtrl(r, s, at.wall, from, m).radio;
            var ends := Removes(r, s, Ctrl(at, from, m));
            && n.token == (if ends then (r.token + TOKEN_STEP) % TOKEN_SPACE else r.token)
            && n.retired == if ends then r.retired + {r.token} else r.retired
  {
    hide HandleConninfo;
    if m.Conninfo? {
      ConninfoEpoch(r, s, at.wall, from, m.declaredPort);
    }
  }

  lemma ConninfoEpoch(r: Radio, s: Settings, now: int, from: Identity, port: nat)
    ensures var n := HandleConninfo(r, s, now, from, port).radio;
            n.token == r.token && n.retired == r.retired
  {
  }

  lemma CivEpoch(r: Radio, s: Settings, at: Moment, who: Identity, m: CivMessage)
    ensures var n := HandleCiv(r, s, at, who, m).radio;
            var ends := m.Close? && s.singleOwner && r.owner.Some? && r.civOwner == Some(who);
            && n.token == (if ends then (r.token + TOKEN_STEP) % TOKEN_SPACE else r.token)
            && n.retired == if ends then r.retired + {r.token} else r.retired
  {
    hide Track;
    hide SeedTracker;
  }

  // ---- opens -------------------------------------------------------------------------

  /** An open that is heard: fenced off it has no effect; otherwise its sender owns the stream and
      gets the marker that the stream is active, but for standby. */
  lemma OpenAnswered(r: Radio, s: Settings, at: Moment, who: Identity, n: Seq)
    requires Heard(r, Civ(at, who, Open(n)))
    ensures var o := Step(r, s, Civ(at, who, Open(n)));
            if r.fenced && !OpenAllowed(r, who) then o == Outcome(r, [], [])
            else o.radio.civOwner == Some(who) && o.replies == if r.standby then [] else [StreamMarker]
  {
    hide Track;
    hide SeedTracker;
  }

  /** Out of standby, DATA of a client whose stream never opened is processed at once, unless the
      fence holds it off; its other packets do nothing. */
  lemma UntrackedServed(r: Radio, s: Settings, at: Moment, who: Identity, n: Seq, body: seq<byte>)
    requires who !in r.trackers && Heard(r, Civ(at, who, CivData(n, body)))
    ensures Step(r, s, Civ(at, who, CivData(n, body)))
            == Outcome(r, [], if r.standby || (r.fenced && r.civOwner != Some(who)) then []
                              else [Processed(who, body)])
    ensures Step(r, s, Civ(at, who, CivIdle(n))) == Outcome(r, [], [])
  {
    ProcessedOne(who, r.standby, GapTracker.Entry(n, GapTracker.Packet(GapTracker.Data, body)));
    ProcessedOne(who, r.standby, GapTracker.Entry(n, GapTracker.Packet(GapTracker.Idle, [])));
    hide ProcessedOf;
  }

  lemma ProcessedOne(who: Identity, standby: bool, e: GapTracker.Entry)
    ensures ProcessedOf(who, standby, [e])
            == if standby || e.packet.kind != GapTracker.Data then [] else [Processed(who, e.packet.body)]
  {
    if !standby {
      assert ProcessedOf(who, standby, [e][1..]) == [];
    }
  }

  /** From the switch into standby to the next turn of the switch nothing is processed, whatever
      arrives or was held, and no stream is announced active. */
  lemma StandbyProcessesNothing(r0: Radio, s: Settings, evs: seq<Event>, b: nat, j: nat)
    requires StandbySince(evs, b, j) && evs[b].on && j < |evs|
    ensures At(r0, s, evs, j).processed == [] && StreamMarker !in At(r0, s, evs, j).replies
  {
    StandbyWindow(r0, s, evs, b, j);
    hide Play;
    hide GapTracker.Accept;
    hide HandleCtrl;
    var r, ev := Play(r0, s, evs, j), evs[j];
    if ev.Ctrl? {
      CtrlProcessesNothing(r, s, ev.at.wall, ev.from, ev.msg);
    }
  }

  lemma CtrlProcessesNothing(r: Radio, s: Settings, now: int, from: Identity, m: CtrlMessage)
    ensures var o := HandleCtrl(r, s, now, from, m); o.processed == [] && StreamMarker !in o.replies
  {
  }

  /** Of the other control packets that are heard and carry no retired token, only the token ack
      is answered. */
  lemma OnlyAckIsAnswered(r: Radio, s: Settings, at: Moment, from: Identity, m: CtrlMessage)
    requires Heard(r, Ctrl(at, from, m)) && (m.TokenAck? || m.TokenRemove? || m.Disconnect?)
    requires m.TokenAck? || m.TokenRemove? ==> m.token !in r.retired
    ensures Step(r, s, Ctrl(at, from, m)).replies == if m.TokenAck? then [GuidConninfo] else []
  {
  }

  /** The test helper frees the session at once, with all that a decided end takes along. */
  lemma FreedAtOnce(r: Radio, s: Settings)
    ensures var n := Step(r, s, FreeSession).radio;
            && n.owner == None && n.deadline == None && n.orphan == None && n.retired == r.retired + {r.token}
            && n.trackers == r.trackers && n.civOwner == r.civOwner && n.fenced == r.fenced
  {
  }
}
