/** Safety of the post-reboot and post-drop fence over whole runs. */
module SessionFence {
  import opened Wrappers
  import opened SerialNumbers
  import GapTracker
  import opened Session
  import SessionTokens

  /** Event `c` is an accepted conninfo that came from the last-login identity of the moment,
      carried no retired token, and declared the port in `g`. */
  ghost predicate GrantedAt(r0: Radio, s: Settings, evs: seq<Event>, c: int, g: Grant) {
    && 0 <= c < |evs|
    && var before := Play(r0, s, evs, c);
    && var ev := evs[c];
    && ev.Ctrl? && ev.msg.Conninfo? && Heard(before, ev)
    && before.lastLogin == Some(ev.from)
    && ev.msg.token !in before.retired
    && At(r0, s, evs, c).replies == [StatusAccepted]
    && g == Grant(ev.from.ip, ev.msg.declaredPort)
  }

  /** Event `o` is an OpenClose(open) of `who` itself, from the IP and port granted by an
      event later than `e` whose permission is still the one in force. */
  ghost predicate OpenedAt(r0: Radio, s: Settings, evs: seq<Event>, e: int, o: int, who: Identity) {
    && 0 <= e < o < |evs|
    && var ev := evs[o];
    && ev.Civ? && ev.civ.Open? && ev.from == who && Heard(Play(r0, s, evs, o), ev)
    && exists c, g :: e < c < o && GrantedAt(r0, s, evs, c, g)
                      && Play(r0, s, evs, o).grant == Some(g)
                      && who.ip == g.ip && (g.port == 0 || who.port == g.port)
  }

  ghost predicate OpenedSince(r0: Radio, s: Settings, evs: seq<Event>, e: int, n: int, who: Identity) {
    exists o :: e < o < n && OpenedAt(r0, s, evs, e, o, who)
  }

  ghost predicate GrantedSince(r0: Radio, s: Settings, evs: seq<Event>, e: int, n: int, g: Grant) {
    exists c :: e < c < n && GrantedAt(r0, s, evs, c, g)
  }

  /** What holds `n` events into the run when event `e` raised the fence. */
  ghost predicate FenceInv(r0: Radio, s: Settings, evs: seq<Event>, e: nat, n: nat)
    requires e < n <= |evs|
  {
    var r := Play(r0, s, evs, n);
    && r.fenced
    && (r.grant.Some? ==> GrantedSince(r0, s, evs, e, n, r.grant.value))
    && (r.civOwner.Some? ==> OpenedSince(r0, s, evs, e, n, r.civOwner.value))
    && (forall k :: k in r.trackers ==> OpenedSince(r0, s, evs, e, n, k))
  }

  predicate RaisesFence(ev: Event) {
    ev.Reboot? || ev.Drop?
  }

  /** The fence and its rule for pings change at a reboot or a drop only, and it never falls. */
  lemma StepFence(r: Radio, s: Settings, ev: Event)
    ensures var n := Step(r, s, ev).radio;
            && (n.fenced <==> r.fenced || RaisesFence(ev))
            && n.fenceBlocksPings == if RaisesFence(ev) then ev.Reboot? else r.fenceBlocksPings
  {
    hide HandleCtrl;
    hide HandleCiv;
    match ev
    case Ctrl(at, from, m) => CtrlFence(r, s, at.wall, from, m);
    case Civ(at, from, m) => CivFence(r, s, at, from, m);
    case _ =>
  }

  ghost predicate SameFence(r: Radio, n: Radio) {
    n.fenced == r.fenced && n.fenceBlocksPings == r.fenceBlocksPings
  }

  lemma CtrlFence(r: Radio, s: Settings, now: int, from: Identity, m: CtrlMessage)
    ensures SameFence(r, HandleCtrl(r, s, now, from, m).radio)
  {
    hide HandleConninfo;
    if m.Conninfo? {
      ConninfoFence(r, s, now, from, m.declaredPort);
    }
  }

  lemma ConninfoFence(r: Radio, s: Settings, now: int, from: Identity, port: nat)
    ensures SameFence(r, HandleConninfo(r, s, now, from, port).radio)
  {
  }

  lemma CivFence(r: Radio, s: Settings, at: Moment, who: Identity, m: CivMessage)
    ensures SameFence(r, HandleCiv(r, s, at, who, m).radio)
  {
    hide Track;
    hide SeedTracker;
  }

  lemma ConninfoServes(r: Radio, s: Settings, now: int, from: Identity, port: nat)
    ensures var o := HandleConninfo(r, s, now, from, port);
            var n := o.radio;
            && o.processed == [] && n.lastLogin == r.lastLogin
            && (n.trackers == r.trackers || n.trackers == map[])
            && (n.civOwner == r.civOwner || n.civOwner == None)
            && (n.grant != r.grant ==>
                  r.lastLogin == Some(from) && o.replies == [StatusAccepted] && n.grant == Some(Grant(from.ip, port)))
  {
  }

  lemma OtherServes(r: Radio, s: Settings, now: int, from: Identity, m: CtrlMessage)
    requires !m.Conninfo?
    ensures var o := HandleCtrl(r, s, now, from, m);
            var n := o.radio;
            && o.processed == [] && n.grant == r.grant && n.civOwner == r.civOwner
            && (n.trackers == r.trackers || n.trackers == map[])
            && (n.lastLogin != r.lastLogin ==> m.Login? && n.lastLogin == Some(from))
  {
    hide HandleConninfo;
  }

  /** The control port never extends the set of served identities, and grants permission
      only to an accepted own conninfo. */
  lemma CtrlServes(r: Radio, s: Settings, now: int, from: Identity, m: CtrlMessage)
    ensures var o := HandleCtrl(r, s, now, from, m);
            var n := o.radio;
            && o.processed == []
            && (n.trackers == r.trackers || n.trackers == map[])
            && (n.civOwner == r.civOwner || n.civOwner == None)
            && (n.grant != r.grant ==>
                  && m.Conninfo? && r.lastLogin == Some(from) && m.token !in r.retired
                  && o.replies == [StatusAccepted] && n.grant == Some(Grant(from.ip, m.declaredPort)))
            && (n.lastLogin != r.lastLogin ==> m.Login? && n.lastLogin == Some(from))
  {
    if m.Conninfo? {
      ConninfoServes(r, s, now, from, m.declaredPort);
      hide HandleConninfo;
      assert HandleCtrl(r, s, now, from, m)
          == if m.token in r.retired then Quiet(r) else HandleConninfo(r, s, now, from, m.declaredPort);
    } else {
      hide HandleCtrl;
      OtherServes(r, s, now, from, m);
    }
  }

  lemma TrackServes(r: Radio, s: Settings, pace: int, who: Identity, n: Seq, p: GapTracker.Packet)
    ensures var o := Track(r, s, pace, who, n, p);
            && o.radio == r.(trackers := o.radio.trackers) && o.radio.trackers.Keys == r.trackers.Keys
            && (o.processed != [] ==> who in r.trackers || p.kind == GapTracker.Data)
            && (forall q :: q in o.processed ==> q.from == who)
  {
    if who !in r.trackers && p.kind != GapTracker.Data {
      NoDataNoProcess(who, r.standby, [GapTracker.Entry(n, p)]);
    }
  }

  lemma {:induction false} NoDataNoProcess(who: Identity, standby: bool, es: seq<GapTracker.Entry>)
    requires forall i :: 0 <= i < |es| ==> es[i].packet.kind != GapTracker.Data
    ensures ProcessedOf(who, standby, es) == []
  {
    if es != [] {
      NoDataNoProcess(who, standby, es[1..]);
    }
  }

  /** The CI-V port serves a new identity only at an open the permission allows. */
  lemma CivServes(r: Radio, s: Settings, at: Moment, who: Identity, m: CivMessage)
    requires r.fenced
    ensures var o := HandleCiv(r, s, at, who, m);
            var n := o.radio;
            && n.grant == r.grant && n.lastLogin == r.lastLogin
            && (forall k :: k in n.trackers && k !in r.trackers ==> m.Open? && k == who && OpenAllowed(r, who))
            && (n.civOwner != r.civOwner ==> m.Open? && n.civOwner == Some(who) && OpenAllowed(r, who))
            && (o.processed != [] ==>
                  r.civOwner == Some(who) || who in r.trackers || (m.Open? && OpenAllowed(r, who)))
            && (forall p :: p in o.processed ==> p.from == who)
  {
    hide Track;
    match m
    case CivThere =>
    case CivReady =>
    case CivPing =>
    case Open(n) =>
      if OpenAllowed(r, who) {
        var o := SeedTracker(r.(civOwner := Some(who)), s, at.wall, who);
        TrackServes(o, s, at.pace, who, n, GapTracker.Packet(GapTracker.OpenClose, []));
      }
    case Close(n) =>
      var c := if s.singleOwner && r.owner.Some? && r.civOwner == Some(who)
               then RetireToken(Release(r, false)) else r;
      TrackServes(c, s, at.pace, who, n, GapTracker.Packet(GapTracker.OpenClose, []));
    case CivIdle(n) => TrackServes(r, s, at.pace, who, n, GapTracker.Packet(GapTracker.Idle, []));
    case CivData(n, body) => TrackServes(r, s, at.pace, who, n, GapTracker.Packet(GapTracker.Data, body));
  }

  /** The stream owner and the tracked identities only ever grow by an allowed open. */
  lemma WhoIsServed(r: Radio, s: Settings, ev: Event)
    requires r.fenced
    ensures var n := Step(r, s, ev).radio;
            && (forall k :: k in n.trackers && k !in r.trackers ==>
                  ev.Civ? && ev.civ.Open? && ev.from == k && Heard(r, ev) && OpenAllowed(r, k))
            && (n.civOwner.Some? && n.civOwner != r.civOwner ==>
                  ev.Civ? && ev.civ.Open? && ev.from == n.civOwner.value && Heard(r, ev)
                  && OpenAllowed(r, ev.from))
  {
    match ev
    case Ctrl(at, from, m) => CtrlServes(r, s, at.wall, from, m);
    case Civ(at, from, m) => CivServes(r, s, at, from, m);
    case _ =>
  }

  /** The permission changes only at an accepted own conninfo, or falls at a new event. */
  lemma WhoIsGranted(r: Radio, s: Settings, ev: Event)
    requires r.fenced
    ensures var n := Step(r, s, ev).radio;
            n.grant.Some? && n.grant != r.grant ==>
              && ev.Ctrl? && ev.msg.Conninfo? && Heard(r, ev) && r.lastLogin == Some(ev.from)
              && ev.msg.token !in r.retired
              && Step(r, s, ev).replies == [StatusAccepted]
              && n.grant.value == Grant(ev.from.ip, ev.msg.declaredPort)
  {
    match ev
    case Ctrl(at, from, m) => CtrlServes(r, s, at.wall, from, m);
    case Civ(at, from, m) => CivServes(r, s, at, from, m);
    case _ =>
  }

  /** A frame is processed for its own sender only, and while fenced only for the stream
      owner, for a tracked identity, or at an allowed open. */
  lemma WhoIsProcessed(r: Radio, s: Settings, ev: Event, p: Processed)
    requires r.fenced && p in Step(r, s, ev).processed
    ensures ev.Civ? && p.from == ev.from && Heard(r, ev)
    ensures r.civOwner == Some(p.from) || p.from in r.trackers
            || (ev.civ.Open? && OpenAllowed(r, p.from))
  {
    match ev
    case Ctrl(at, from, m) => CtrlServes(r, s, at.wall, from, m);
    case Civ(at, from, m) => CivServes(r, s, at, from, m);
    case _ =>
  }

  lemma OpenedGrows(r0: Radio, s: Settings, evs: seq<Event>, e: nat, n: nat, who: Identity)
    requires OpenedSince(r0, s, evs, e, n, who)
    ensures OpenedSince(r0, s, evs, e, n + 1, who)
  {
  }

  lemma OpenNow(r0: Radio, s: Settings, evs: seq<Event>, e: nat, n: nat, who: Identity)
    requires e < n < |evs| && FenceInv(r0, s, evs, e, n)
    requires evs[n].Civ? && evs[n].civ.Open? && evs[n].from == who
    requires Heard(Play(r0, s, evs, n), evs[n]) && OpenAllowed(Play(r0, s, evs, n), who)
    ensures OpenedSince(r0, s, evs, e, n + 1, who)
  {
    var g := Play(r0, s, evs, n).grant.value;
    var c :| e < c < n && GrantedAt(r0, s, evs, c, g);
    assert OpenedAt(r0, s, evs, e, n, who);
  }

  lemma FenceStep(r0: Radio, s: Settings, evs: seq<Event>, e: nat, n: nat)
    requires e < n < |evs| && FenceInv(r0, s, evs, e, n)
    ensures FenceInv(r0, s, evs, e, n + 1)
  {
    var r, ev := Play(r0, s, evs, n), evs[n];
    var r' := Play(r0, s, evs, n + 1);
    StepFence(r, s, ev);
    WhoIsServed(r, s, ev);
    WhoIsGranted(r, s, ev);
    if r'.grant.Some? {
      if r'.grant != r.grant {
        assert GrantedAt(r0, s, evs, n, r'.grant.value);
      }
      assert GrantedSince(r0, s, evs, e, n + 1, r'.grant.value);
    }
    forall k | k in r'.trackers || r'.civOwner == Some(k)
      ensures OpenedSince(r0, s, evs, e, n + 1, k)
    {
      if k in r.trackers || r.civOwner == Some(k) {
        OpenedGrows(r0, s, evs, e, n, k);
      } else {
        OpenNow(r0, s, evs, e, n, k);
      }
    }
  }

  lemma {:induction false} FenceHolds(r0: Radio, s: Settings, evs: seq<Event>, e: nat, n: nat)
    requires e < n <= |evs| && RaisesFence(evs[e])
    ensures FenceInv(r0, s, evs, e, n)
    decreases n
  {
    if n == e + 1 {
      assert Play(r0, s, evs, n) == Step(Play(r0, s, evs, e), s, evs[e]).radio;
    } else {
      FenceHolds(r0, s, evs, e, n - 1);
      FenceStep(r0, s, evs, e, n - 1);
    }
  }

  /** The main result. From any radio state and over any run: every CI-V frame processed
      after a reboot or a drop, directly or by a drain that an idle, an open or a close
      released, came from an identity that since that event itself opened its stream from
      the IP and declared port of an accepted conninfo, sent since the event by the
      last-login identity of its moment with a token that was not retired. */
  lemma FenceSafety(r0: Radio, s: Settings, evs: seq<Event>, e: nat, j: nat, p: Processed)
    requires e < j < |evs| && RaisesFence(evs[e]) && p in At(r0, s, evs, j).processed
    ensures OpenedSince(r0, s, evs, e, j + 1, p.from)
  {
    FenceHolds(r0, s, evs, e, j);
    var r := Play(r0, s, evs, j);
    WhoIsProcessed(r, s, evs[j], p);
    if r.civOwner == Some(p.from) || p.from in r.trackers {
      OpenedGrows(r0, s, evs, e, j, p.from);
    } else {
      OpenNow(r0, s, evs, e, j, p.from);
    }
  }

  // ---- pings behind the fence --------------------------------------------------------

  lemma {:induction false} PingRule(r0: Radio, s: Settings, evs: seq<Event>, e: nat, n: nat)
    requires e < n <= |evs| && RaisesFence(evs[e])
    requires forall k :: e < k < n ==> !RaisesFence(evs[k])
    ensures Play(r0, s, evs, n).fenceBlocksPings == evs[e].Reboot?
    decreases n
  {
    StepFence(Play(r0, s, evs, n - 1), s, evs[n - 1]);
    if n > e + 1 {
      PingRule(r0, s, evs, e, n - 1);
    }
  }

  /** CI-V pings after the latest reboot or drop, outside a silence window: after a drop all are
      answered, fenced or not; after a reboot none from an identity that has not opened since. */
  lemma PingsBehindFence(r0: Radio, s: Settings, evs: seq<Event>, e: nat, j: nat)
    requires e < j < |evs| && RaisesFence(evs[e]) && forall k :: e < k < j ==> !RaisesFence(evs[k])
    requires evs[j].Civ? && evs[j].civ.CivPing? && Heard(Play(r0, s, evs, j), evs[j])
    requires evs[j].at.wall >= Play(r0, s, evs, j).silentUntil
    ensures evs[e].Drop? ==> At(r0, s, evs, j).replies == [Pong]
    ensures evs[e].Reboot? && !OpenedSince(r0, s, evs, e, j, evs[j].from) ==> At(r0, s, evs, j).replies == []
  {
    PingRule(r0, s, evs, e, j);
    FenceHolds(r0, s, evs, e, j);
  }

  // ---- who lifts the fence -----------------------------------------------------------

  ghost predicate LoggedInSince(evs: seq<Event>, e: int, n: int, who: Identity) {
    exists l :: e < l < n && 0 <= l < |evs| && evs[l].Ctrl? && evs[l].msg.Login? && evs[l].from == who
  }

  lemma WhoLogsIn(r: Radio, s: Settings, ev: Event)
    ensures var n := Step(r, s, ev).radio;
            n.lastLogin != r.lastLogin ==> ev.Ctrl? && ev.msg.Login? && n.lastLogin == Some(ev.from)
  {
    hide HandleCtrl;
    hide HandleCiv;
    match ev
    case Ctrl(at, from, m) => CtrlServes(r, s, at.wall, from, m);
    case Civ(at, from, m) => CivKeepsLogin(r, s, at, from, m);
    case _ =>
  }

  lemma CivKeepsLogin(r: Radio, s: Settings, at: Moment, who: Identity, m: CivMessage)
    ensures HandleCiv(r, s, at, who, m).radio.lastLogin == r.lastLogin
  {
    hide Track;
    hide SeedTracker;
  }

  lemma {:induction false} LastLoginSince(r0: Radio, s: Settings, evs: seq<Event>, e: nat, n: nat)
    requires e <= n <= |evs|
    ensures var r := Play(r0, s, evs, n);
            r.lastLogin == Play(r0, s, evs, e).lastLogin
            || (r.lastLogin.Some? && LoggedInSince(evs, e - 1, n, r.lastLogin.value))
    decreases n
  {
    if e < n {
      LastLoginSince(r0, s, evs, e, n - 1);
      var r := Play(r0, s, evs, n - 1);
      WhoLogsIn(r, s, evs[n - 1]);
      assert Play(r0, s, evs, n) == Step(r, s, evs[n - 1]).radio;
    }
  }

  /** The client that lifts a fence either logged in afresh since the event, or is the one
      client that was the last login before it. When the second happens: `FreshLoginIff`. */
  lemma FenceLiftedBy(r0: Radio, s: Settings, evs: seq<Event>, e: nat, c: nat, g: Grant)
    requires e < c < |evs| && RaisesFence(evs[e]) && GrantedAt(r0, s, evs, c, g)
    ensures LoggedInSince(evs, e, c, evs[c].from) || Play(r0, s, evs, e).lastLogin == Some(evs[c].from)
  {
    LastLoginSince(r0, s, evs, e + 1, c);
    assert Play(r0, s, evs, e + 1) == Step(Play(r0, s, evs, e), s, evs[e]).radio;
  }

  // ---- the promise of a fresh login --------------------------------------------------

  /** The radio accepts a conninfo: past the busy window and, in single-owner mode, free or
      held by the sender, with the CI-V port available. */
  predicate Accepts(r: Radio, s: Settings, now: int, from: Identity) {
    && now >= r.busyUntil
    && (s.singleOwner ==> (r.owner.None? || r.owner == Some(from)) && now >= r.unavailableUntil)
  }

  /** The event gives its sender the permission to lift the fence. */
  predicate Grants(r: Radio, s: Settings, ev: Event) {
    && ev.Ctrl? && ev.msg.Conninfo? && Heard(r, ev) && r.lastLogin == Some(ev.from)
    && ev.msg.token !in r.retired && Accepts(r, s, ev.at.wall, ev.from)
  }

  lemma AcceptedIff(r: Radio, s: Settings, now: int, from: Identity, port: nat)
    ensures var o := HandleConninfo(r, s, now, from, port);
            && (o.replies == [StatusAccepted] <==> Accepts(r, s, now, from))
            && (r.lastLogin == Some(from) && Accepts(r, s, now, from) ==>
                  o.radio.grant == Some(Grant(from.ip, port)))
  {
  }

  /** One step, exactly: without a permission in force, an event grants one if and only if it is
      a conninfo that is heard, comes from the last login, carries no retired token, and is
      accepted; and that is what `GrantedAt` says of a run. */
  lemma GrantIff(r: Radio, s: Settings, ev: Event)
    requires r.grant.None?
    ensures Step(r, s, ev).radio.grant.Some? <==> Grants(r, s, ev)
  {
    hide HandleConninfo;
    match ev
    case Ctrl(at, from, m) =>
      CtrlGrants(r, s, at.wall, from, m);
    case Civ(at, from, m) => CivKeepsGrant(r, s, at, from, m);
    case _ =>
  }

  lemma CtrlGrants(r: Radio, s: Settings, now: int, from: Identity, m: CtrlMessage)
    requires r.grant.None?
    ensures HandleCtrl(r, s, now, from, m).radio.grant.Some?
            <==> m.Conninfo? && r.lastLogin == Some(from) && m.token !in r.retired && Accepts(r, s, now, from)
  {
    CtrlServes(r, s, now, from, m);
    if m.Conninfo? {
      hide HandleConninfo;
      AcceptedIff(r, s, now, from, m.declaredPort);
      assert HandleCtrl(r, s, now, from, m)
          == if m.token in r.retired then Quiet(r) else HandleConninfo(r, s, now, from, m.declaredPort);
    }
  }

  lemma CivKeepsGrant(r: Radio, s: Settings, at: Moment, who: Identity, m: CivMessage)
    ensures HandleCiv(r, s, at, who, m).radio.grant == r.grant
  {
    hide Track;
    hide SeedTracker;
  }

  lemma GrantedIffGrants(r0: Radio, s: Settings, evs: seq<Event>, c: nat, g: Grant)
    requires c < |evs|
    ensures GrantedAt(r0, s, evs, c, g)
            <==> Grants(Play(r0, s, evs, c), s, evs[c]) && g == Grant(evs[c].from.ip, evs[c].msg.declaredPort)
  {
    var r, ev := Play(r0, s, evs, c), evs[c];
    if ev.Ctrl? && ev.msg.Conninfo? {
      hide HandleConninfo;
      AcceptedIff(r, s, ev.at.wall, ev.from, ev.msg.declaredPort);
    }
  }

  /** What the source's description promises of a run: whoever gets the permission to lift the
      fence that event `e` raised logged in after it. */
  ghost predicate OnlyFreshLoginsLift(r0: Radio, s: Settings, evs: seq<Event>, e: nat) {
    forall c: nat, g :: e < c < |evs| && GrantedAt(r0, s, evs, c, g) ==> LoggedInSince(evs, e, c, evs[c].from)
  }

  lemma {:induction false} RetiredStays(r0: Radio, s: Settings, evs: seq<Event>, e: nat, n: nat)
    requires e <= n <= |evs|
    ensures Play(r0, s, evs, e).retired <= Play(r0, s, evs, n).retired
    decreases n
  {
    hide Step;
    if e < n {
      RetiredStays(r0, s, evs, e, n - 1);
      SessionTokens.StepTokens(Play(r0, s, evs, n - 1), s, evs[n - 1]);
    }
  }

  lemma EventRetires(r: Radio, s: Settings, ev: Event)
    requires RaisesFence(ev)
    ensures var n := Step(r, s, ev).radio;
            && n.retired == r.retired + {r.token} && n.owner == None && n.lastLogin == r.lastLogin
            && n.grant == None && n.trackers == map[] && n.orphan == None && n.fenced
            && n.standby == r.standby && n.unavailableUntil == r.unavailableUntil
  {
  }

  /** From any state, a reboot or a drop keeps the promise over everything that can follow if
      and only if nobody had ever logged in before it, or no token is left that is not retired.
      Otherwise the client that was the last login lifts the fence. */
  lemma FreshLoginIff(r: Radio, s: Settings, ev: Event)
    requires RaisesFence(ev)
    ensures (forall tail :: OnlyFreshLoginsLift(r, s, [ev] + tail, 0))
            <==> r.lastLogin.None? || forall t: Token :: t in r.retired + {r.token}
  {
    EventRetires(r, s, ev);
    if r.lastLogin.None? || forall t: Token :: t in r.retired + {r.token} {
      forall tail
        ensures OnlyFreshLoginsLift(r, s, [ev] + tail, 0)
      {
        PromiseKept(r, s, [ev] + tail);
      }
    } else {
      var stray: Token :| stray !in r.retired + {r.token};
      var tail := PromiseBroken(r, s, ev, r.lastLogin.value, stray);
      assert !OnlyFreshLoginsLift(r, s, [ev] + tail, 0);
    }
  }

  lemma AfterFirst(r: Radio, s: Settings, evs: seq<Event>)
    requires evs != []
    ensures Play(r, s, evs, 0) == r && Play(r, s, evs, 1) == Step(r, s, evs[0]).radio
  {
  }

  lemma PromiseKept(r: Radio, s: Settings, evs: seq<Event>)
    requires evs != [] && RaisesFence(evs[0])
    requires r.lastLogin.None? || forall t: Token :: t in r.retired + {r.token}
    ensures OnlyFreshLoginsLift(r, s, evs, 0)
  {
    hide Step;
    hide At;
    AfterFirst(r, s, evs);
    EventRetires(r, s, evs[0]);
    forall c: nat, g | 0 < c < |evs| && GrantedAt(r, s, evs, c, g)
      ensures LoggedInSince(evs, 0, c, evs[c].from)
    {
      if r.lastLogin.None? {
        FenceLiftedBy(r, s, evs, 0, c, g);
      } else {
        RetiredStays(r, s, evs, 1, c);
      }
    }
  }

  lemma PromiseBroken(r: Radio, s: Settings, ev: Event, who: Identity, stray: Token) returns (tail: seq<Event>)
    requires RaisesFence(ev) && r.lastLogin == Some(who) && stray !in r.retired + {r.token}
    ensures !OnlyFreshLoginsLift(r, s, [ev] + tail, 0)
  {
    hide Step;
    EventRetires(r, s, ev);
    var f := Step(r, s, ev).radio;
    var late := Max(Max(f.downUntil, f.noticeUntil), Max(f.busyUntil, f.unavailableUntil));
    var lift := Ctrl(Moment(late, 0), who, Conninfo(stray, 0));
    tail := [lift];
    var evs := [ev] + tail;
    AfterFirst(r, s, evs);
    assert evs[1] == lift && Grants(f, s, lift);
    GrantedIffGrants(r, s, evs, 1, Grant(who.ip, 0));
    assert !LoggedInSince(evs, 0, 1, evs[1].from);
  }

  function Max(a: int, b: int): int {
    if a >= b then a else b
  }

  /** Nothing keeps the radio from hearing and accepting at `wall`. */
  predicate Up(r: Radio, wall: int) {
    wall >= r.downUntil && wall >= r.noticeUntil && wall >= r.busyUntil && wall >= r.unavailableUntil
  }

  /** An orphan that an open at `wall` would inherit. */
  predicate OrphanWaits(r: Radio, s: Settings, wall: int) {
    r.orphan.Some? && s.survives && wall - r.orphan.value.diedAt <= s.orphanExpiry
  }

  /** How the promise breaks, from any state and to the end: after a reboot or a drop the client
      that was the last login sends, with no login since, a conninfo with a token that is not
      retired, opens from the declared port, and its next frame is processed. */
  lemma FenceLiftsWithoutFreshLogin(r: Radio, s: Settings, ev: Event, who: Identity, stray: Token, port: nat,
                                    at: Moment, civ: Identity, n: Seq, body: seq<byte>)
    requires RaisesFence(ev) && r.lastLogin == Some(who) && stray !in r.retired + {r.token} && !r.standby
    requires Up(Step(r, s, ev).radio, at.wall) && civ.ip == who.ip && (port == 0 || civ.port == port)
    ensures var r1 := Step(r, s, ev).radio;
            var r2 := Step(r1, s, Ctrl(at, who, Conninfo(stray, port))).radio;
            var r3 := Step(r2, s, Civ(at, civ, Open(n))).radio;
            Step(r3, s, Civ(at, civ, CivData(Add(n, 1), body))).processed == [Processed(civ, body)]
  {
    EventRetires(r, s, ev);
    var r1 := Step(r, s, ev).radio;
    ConninfoLifts(r1, s, at, who, stray, port);
    OpenThenData(Step(r1, s, Ctrl(at, who, Conninfo(stray, port))).radio, s, at, civ, n, body);
  }

  /** An accepted conninfo of the last login, for whoever opens next. */
  lemma ConninfoLifts(r: Radio, s: Settings, at: Moment, who: Identity, token: Token, port: nat)
    requires Up(r, at.wall) && r.lastLogin == Some(who) && token !in r.retired && r.trackers == map[]
    requires s.singleOwner ==> r.owner.None? || r.owner == Some(who)
    ensures var n := Step(r, s, Ctrl(at, who, Conninfo(token, port))).radio;
            && n.grant == Some(Grant(who.ip, port)) && n.trackers == map[]
            && n.orphan == r.orphan && n.standby == r.standby && n.fenced == r.fenced
            && n.downUntil == r.downUntil && n.noticeUntil == r.noticeUntil
  {
  }

  /** The partner of safety: the fence does lift. From any state in which the radio is up and
      the session is free or the client's own, a client that logs in, sends its conninfo with
      any token that is not retired, and opens from the declared port (or any port of its IP
      when it declares 0) becomes the stream owner, which the fence admits; unless it inherits
      an orphan's numbering or the radio is in standby, its next frame is processed. */
  lemma FenceLiftsForFreshLogin(r: Radio, s: Settings, at: Moment, who: Identity, token: Token, port: nat,
                                civ: Identity, n: Seq, body: seq<byte>)
    requires !s.authFail && (s.requireDiscovery ==> who.id in r.discovered)
    requires (s.singleOwner ==> r.owner.None? || r.owner == Some(who)) && token !in r.retired && Up(r, at.wall)
    requires civ.ip == who.ip && (port == 0 || civ.port == port)
    ensures var r1 := Step(r, s, Ctrl(at, who, Login)).radio;
            var r2 := Step(r1, s, Ctrl(at, who, Conninfo(token, port))).radio;
            var r3 := Step(r2, s, Civ(at, civ, Open(n))).radio;
            var data := Step(r3, s, Civ(at, civ, CivData(Add(n, 1), body)));
            && !Fenced(r3, civ) && r3.civOwner == Some(civ) && civ in r3.trackers
            && (!OrphanWaits(r, s, at.wall) ==>
                  data.processed == if r.standby then [] else [Processed(civ, body)])
  {
    var r1 := Step(r, s, Ctrl(at, who, Login)).radio;
    assert r1 == r.(lastLogin := Some(who), trackers := map[]);
    ConninfoLifts(r1, s, at, who, token, port);
    var r2 := Step(r1, s, Ctrl(at, who, Conninfo(token, port))).radio;
    OpenServes(r2, s, at, civ, n);
    if !OrphanWaits(r, s, at.wall) {
      OpenThenData(r2, s, at, civ, n, body);
    }
  }

  lemma OpenServes(r: Radio, s: Settings, at: Moment, civ: Identity, n: Seq)
    requires OpenAllowed(r, civ) && at.wall >= r.downUntil && at.wall >= r.noticeUntil
    ensures var next := Step(r, s, Civ(at, civ, Open(n))).radio;
            && next.civOwner == Some(civ) && civ in next.trackers && next.standby == r.standby
            && next.fenced == r.fenced && next.downUntil == r.downUntil && next.noticeUntil == r.noticeUntil
            && (civ !in r.trackers && !OrphanWaits(r, s, at.wall) ==>
                  next.trackers[civ] == GapTracker.Fresh.(next := Some(Add(n, 1))))
  {
    hide ProcessedOf;
    hide GapTracker.GateAhead;
  }

  /** An allowed open of a new client, and its next packet. */
  lemma OpenThenData(r: Radio, s: Settings, at: Moment, civ: Identity, n: Seq, body: seq<byte>)
    requires OpenAllowed(r, civ) && civ !in r.trackers && !OrphanWaits(r, s, at.wall)
    requires at.wall >= r.downUntil && at.wall >= r.noticeUntil
    ensures var next := Step(r, s, Civ(at, civ, Open(n))).radio;
            Step(next, s, Civ(at, civ, CivData(Add(n, 1), body))).processed
            == if r.standby then [] else [Processed(civ, body)]
  {
    var next := Step(r, s, Civ(at, civ, Open(n))).radio;
    OpenServes(r, s, at, civ, n);
    hide HandleOpen;
    OneFrame(civ, Add(n, 1), body);
  }

  lemma OneFrame(who: Identity, n: Seq, body: seq<byte>)
    ensures ProcessedOf(who, false, [GapTracker.Entry(n, GapTracker.Packet(GapTracker.Data, body))])
            == [Processed(who, body)]
  {
  }
}
