/** The simulator object: the session fields and one `Receiver` per CI-V client, updated in
    place by the packet handlers and timers. Each method is proved against the step function
    of `Session` that the run theorems are about. */
module Simulator {
  import opened Wrappers
  import opened SerialNumbers
  import G = GapTracker
  import opened GapReceiver
  import opened Session

  class MockIcomRadio {
    const settings: Settings
    var owner: Option<Identity>
    var deadline: Option<int>
    var lastRefresh: int
    var token: Token
    var retired: set<Token>
    var lastLogin: Option<Identity>
    var discovered: set<nat>
    var civOwner: Option<Identity>
    var fenced: bool
    var fenceBlocksPings: bool
    var grant: Option<Grant>
    var civGap: map<Identity, Receiver>
    var orphan: Option<Orphan>
    var standby: bool
    var downUntil: int
    var busyUntil: int
    var noticeUntil: int
    var silentUntil: int
    var unavailableUntil: int

    /** No two clients share a tracker object. */
    ghost predicate Valid()
      reads this`civGap
    {
      forall a, b :: a in civGap && b in civGap && a != b ==> civGap[a] != civGap[b]
    }

    function Trackers(): map<Identity, G.Tracker>
      reads this`civGap, civGap.Values
    {
      map k | k in civGap :: civGap[k].Model()
    }

    function Model(): Radio
      reads this, civGap.Values
    {
      Radio(owner, deadline, lastRefresh, token, retired, lastLogin, discovered, civOwner, fenced,
            fenceBlocksPings, grant, Trackers(), orphan, standby, downUntil, busyUntil, noticeUntil,
            silentUntil, unavailableUntil)
    }

    constructor (settings: Settings)
      ensures Valid() && Model() == PowerOn && this.settings == settings
    {
      this.settings := settings;
      owner, deadline, lastRefresh, token, retired := None, None, 0, FIRST_TOKEN, {};
      lastLogin, discovered, civOwner, fenced, fenceBlocksPings := None, {}, None, false, false;
      grant, civGap, orphan, standby := None, map[], None, false;
      downUntil, busyUntil, noticeUntil, silentUntil, unavailableUntil := 0, 0, 0, 0, 0;
    }

    // ---- ownership -------------------------------------------------------------------

    /** `_retire_token` */
    method Retire()
      modifies `token, `retired
      ensures Model() == RetireToken(old(Model()))
    {
      retired := retired + {token};
      token := (token + TOKEN_STEP) % TOKEN_SPACE;
    }

    /** `_release_session` */
    method ReleaseSession(holdExpired: bool)
      modifies `owner, `deadline, `orphan
      ensures Model() == Release(old(Model()), holdExpired)
    {
      if !holdExpired {
        orphan := None;
      }
      deadline := None;
      owner := None;
    }

    /** `_arm_keepalive` */
    method ArmKeepalive(now: int)
      modifies `deadline, `lastRefresh
      ensures Model() == ArmHold(old(Model()), settings, now)
    {
      if owner.Some? {
        lastRefresh := now;
        deadline := Some(now + settings.hold);
      }
    }

    /** `_refresh_keepalive` */
    method RefreshKeepalive(now: int, who: Identity)
      modifies `deadline, `lastRefresh
      ensures Model() == Refresh(old(Model()), settings, now, who)
    {
      if settings.singleOwner && owner == Some(who) {
        ArmKeepalive(now);
      }
    }

    /** `_claim_session` */
    method ClaimSession(now: int, who: Identity)
      modifies `civGap, `civOwner, `owner, `deadline, `lastRefresh
      ensures Model() == Claim(old(Model()), settings, now, who)
      ensures old(Valid()) ==> Valid()
      ensures civGap == map[] || civGap == old(civGap)
    {
      if owner != Some(who) {
        civGap := map[];
        civOwner := None;
      }
      owner := Some(who);
      ArmKeepalive(now);
    }

    /** `_keep_civ_orphan`: a copy, the live tracker stays as it is. */
    method KeepCivOrphan()
      modifies `orphan
      ensures Model() == KeepOrphan(old(Model()), settings)
    {
      if !settings.survives {
        return;
      }
      if civOwner.Some? && civOwner.value in civGap && civGap[civOwner.value].next.Some? {
        var t := civGap[civOwner.value];
        orphan := Some(Orphan(t.next.value, t.missing, lastRefresh));
      } else {
        orphan := None;
      }
    }

    /** `_expire_hold`, the keepalive timer's callback. */
    method HoldTimerFires()
      modifies `orphan, `owner, `deadline, `token, `retired
      ensures Model() == ExpireHold(old(Model()), settings)
    {
      if owner.Some? {
        KeepCivOrphan();
        ReleaseSession(true);
        Retire();
      }
    }

    /** `_conninfo_status` */
    method StatusFor(now: int, who: Identity) returns (reply: Reply)
      requires Valid()
      modifies `civGap, `civOwner, `owner, `deadline, `lastRefresh
      ensures (Model(), reply) == ConninfoStatus(old(Model()), settings, now, who)
      ensures Valid() && (civGap == map[] || civGap == old(civGap))
    {
      if now < busyUntil {
        return StatusBusy;
      }
      if !settings.singleOwner {
        return StatusAccepted;
      }
      if owner.Some? && owner != Some(who) {
        return StatusBusy;
      }
      if now < unavailableUntil {
        return StatusNotReady;
      }
      ClaimSession(now, who);
      return StatusAccepted;
    }

    // ---- control port ----------------------------------------------------------------

    method LoginPacket(from: Identity) returns (replies: seq<Reply>)
      requires Valid()
      modifies `lastLogin, `civGap
      ensures Valid() && Outcome(Model(), replies, []) == HandleLogin(old(Model()), settings, from)
    {
      if settings.requireDiscovery && from.id !in discovered {
        return [];
      }
      if settings.authFail {
        return [LoginRefused];
      }
      lastLogin := Some(from);
      civGap := map[];
      return [LoginOk];
    }

    method TokenRemovePacket(from: Identity, carried: Token)
      modifies `owner, `deadline, `orphan, `token, `retired
      ensures Quiet(Model()) == HandleTokenRemove(old(Model()), settings, from, carried)
    {
      if settings.singleOwner {
        if owner == Some(from) {
          ReleaseSession(false);
          Retire();
        }
      } else if carried == token {
        Retire();
      }
    }

    method ConninfoPacket(now: int, from: Identity, port: nat) returns (replies: seq<Reply>)
      requires Valid()
      modifies `civGap, `civOwner, `owner, `deadline, `lastRefresh, `grant
      ensures Valid() && Outcome(Model(), replies, []) == HandleConninfo(old(Model()), settings, now, from, port)
    {
      var own := lastLogin == Some(from);
      var reply := StatusFor(now, from);
      if own && reply == StatusAccepted {
        grant := Some(Grant(from.ip, port));
      }
      return [reply];
    }

    method DisconnectPacket(from: Identity)
      modifies `discovered, `owner, `deadline, `orphan, `token, `retired
      ensures Quiet(Model()) == HandleDisconnect(old(Model()), settings, from)
    {
      discovered := discovered - {from.id};
      if settings.singleOwner && owner == Some(from) {
        ReleaseSession(false);
        Retire();
      }
    }

    /** `_handle_ctrl` */
    method ControlPacket(now: int, from: Identity, m: CtrlMessage) returns (replies: seq<Reply>)
      requires Valid()
      modifies this
      ensures Valid() && Outcome(Model(), replies, []) == HandleCtrl(old(Model()), settings, now, from, m)
    {
      replies := [];
      if m.Renew? {
        if m.token == token {
          ArmKeepalive(now);
          return [RenewOk];
        }
        RefreshKeepalive(now, from);
        return [RenewReject];
      }
      if CarriedToken(m).Some? && CarriedToken(m).value in retired {
        return [];
      }
      match m {
        case AreYouThere =>
          discovered := discovered + {from.id};
          return [IAmHere];
        case AreYouReady =>
          return [Ready];
        case Ping =>
          RefreshKeepalive(now, from);
          return if now < silentUntil then [] else [Pong];
        case Login =>
          replies := LoginPacket(from);
        case TokenAck(_) =>
          RefreshKeepalive(now, from);
          return [GuidConninfo];
        case TokenRemove(t) =>
          TokenRemovePacket(from, t);
        case Conninfo(_, port) =>
          replies := ConninfoPacket(now, from, port);
        case Disconnect =>
          DisconnectPacket(from);
      }
    }

    // ---- CI-V port -------------------------------------------------------------------

    predicate OrphanClaimable(now: int)
      reads this
    {
      orphan.Some? && settings.survives && now - orphan.value.diedAt <= settings.orphanExpiry
    }

    method NewTracker(now: int) returns (t: Receiver)
      ensures fresh(t)
      ensures t.Model() == if OrphanClaimable(now) then G.Inherited(orphan.value.next, orphan.value.missing)
                           else G.Fresh
    {
      if OrphanClaimable(now) {
        t := new Receiver.Inherit(orphan.value.next, orphan.value.missing);
      } else {
        t := new Receiver();
      }
    }

    /** `_seed_tracker_from_orphan` */
    method SeedFromOrphan(now: int, who: Identity)
      requires Valid()
      modifies `civGap, `orphan
      ensures Valid() && Model() == SeedTracker(old(Model()), settings, now, who)
      ensures fresh(civGap.Values - old(civGap.Values))
    {
      if who !in civGap {
        var t := NewTracker(now);
        ghost var before := Trackers();
        AddTracker(who, t);
        orphan := None;
        assert Trackers() == before[who := t.Model()];
      }
    }

    method AddTracker(who: Identity, t: Receiver)
      requires Valid() && who !in civGap && t !in civGap.Values
      modifies `civGap
      ensures Valid() && civGap == old(civGap)[who := t]
      ensures Trackers() == old(Trackers())[who := t.Model()]
    {
      civGap := civGap[who := t];
    }

    /** Gate, process and drain for one tracked packet. */
    method TrackPacket(pace: int, who: Identity, n: Seq, p: G.Packet) returns (processed: seq<Processed>)
      requires Valid()
      modifies civGap.Values
      ensures Valid() && Outcome(Model(), [], processed) == Track(old(Model()), settings, pace, who, n, p)
    {
      if who !in civGap {
        return ProcessedOf(who, standby, [G.Entry(n, p)]);
      }
      var t := civGap[who];
      ghost var before := Trackers();
      assert t.Model() == before[who];
      var consumed, rounds := t.AcceptPacket(settings.gap, G.Env(pace, standby), n, p);
      assert Trackers() == before[who := t.Model()];
      return ProcessedOf(who, standby, consumed);
    }

    /** An accepted open: stream owner, tracker, and the open itself through the gate. */
    method OpenStream(at: Moment, who: Identity, n: Seq) returns (processed: seq<Processed>)
      requires Valid()
      modifies `civOwner, `civGap, `orphan, civGap.Values
      ensures Valid()
      ensures Outcome(Model(), [], processed)
              == Track(SeedTracker(old(Model()).(civOwner := Some(who)), settings, at.wall, who),
                       settings, at.pace, who, n, G.Packet(G.OpenClose, []))
    {
      hide Track;
      hide SeedTracker;
      civOwner := Some(who);
      ghost var r1 := Model();
      assert r1 == old(Model()).(civOwner := Some(who));
      SeedFromOrphan(at.wall, who);
      assert Model() == SeedTracker(r1, settings, at.wall, who);
      processed := TrackPacket(at.pace, who, n, G.Packet(G.OpenClose, []));
    }

    method OpenPacket(at: Moment, who: Identity, n: Seq) returns (replies: seq<Reply>, processed: seq<Processed>)
      requires Valid()
      modifies this, civGap.Values
      ensures Valid() && Outcome(Model(), replies, processed) == HandleOpen(old(Model()), settings, at, who, n)
    {
      hide Track;
      hide SeedTracker;
      if fenced && !OpenAllowed(Model(), who) {
        return [], [];
      }
      processed := OpenStream(at, who, n);
      replies := if standby then [] else [StreamMarker];
    }

    method ClosePacket(at: Moment, who: Identity, n: Seq) returns (processed: seq<Processed>)
      requires Valid()
      modifies this, civGap.Values
      ensures Valid() && Outcome(Model(), [], processed) == HandleClose(old(Model()), settings, at, who, n)
    {
      if settings.singleOwner && owner.Some? && civOwner == Some(who) {
        ReleaseSession(false);
        Retire();
      }
      processed := TrackPacket(at.pace, who, n, G.Packet(G.OpenClose, []));
    }

    /** `_handle_civ` */
    method CivPacket(at: Moment, who: Identity, m: CivMessage) returns (replies: seq<Reply>, processed: seq<Processed>)
      requires Valid()
      modifies this, civGap.Values
      ensures Valid() && Outcome(Model(), replies, processed) == HandleCiv(old(Model()), settings, at, who, m)
    {
      replies, processed := [], [];
      match m {
        case CivThere =>
          replies := [IAmHere];
        case CivReady =>
          replies := [Ready];
        case CivPing =>
          if !(Fenced(Model(), who) && fenceBlocksPings) && at.wall >= silentUntil {
            replies := [Pong];
          }
        case Open(n) =>
          replies, processed := OpenPacket(at, who, n);
        case Close(n) =>
          processed := ClosePacket(at, who, n);
        case CivIdle(n) =>
          processed := TrackPacket(at.pace, who, n, G.Packet(G.Idle, []));
        case CivData(n, body) =>
          if !Fenced(Model(), who) {
            processed := TrackPacket(at.pace, who, n, G.Packet(G.Data, body));
          }
      }
    }

    // ---- radio-initiated events ------------------------------------------------------

    method ClearStream()
      modifies `civOwner, `civGap
      ensures Valid() && Model() == old(Model()).(civOwner := None, trackers := map[])
    {
      civOwner := None;
      civGap := map[];
    }

    method RaiseFence(blocksPings: bool)
      modifies `fenced, `fenceBlocksPings, `grant
      ensures Model() == old(Model()).(fenced := true, fenceBlocksPings := blocksPings, grant := None)
    {
      fenced := true;
      fenceBlocksPings := blocksPings;
      grant := None;
    }

    method EndStreamEpoch(blocksPings: bool)
      modifies `owner, `deadline, `orphan, `civOwner, `civGap, `token, `retired, `fenced, `fenceBlocksPings, `grant
      ensures Valid() && Model() == EndEpoch(old(Model()), blocksPings)
    {
      hide Release;
      hide RetireToken;
      ReleaseSession(false);
      ClearStream();
      Retire();
      RaiseFence(blocksPings);
    }

    /** `_begin_drop_session` */
    method DropSession()
      modifies this
      ensures Valid() && Model() == EndEpoch(old(Model()), false)
    {
      EndStreamEpoch(false);
    }

    /** `_begin_dark` */
    method StartDark(now: int, downFor: int, busyFor: int)
      modifies `downUntil, `busyUntil
      ensures Model() == Darken(old(Model()), now, downFor, busyFor)
    {
      downUntil := now + downFor;
      busyUntil := downUntil + busyFor;
    }

    /** `_begin_reboot` */
    method StartReboot(now: int, downFor: int, busyFor: int, notice: bool)
      modifies this
      ensures Valid() && Model() == BeginReboot(old(Model()), now, downFor, busyFor, notice)
    {
      if notice {
        noticeUntil := now + POWER_OFF_NOTICE_WINDOW;
      } else {
        StartDark(now, downFor, busyFor);
      }
      EndStreamEpoch(true);
    }

    function Ticked(t: G.Tracker, pace: int): G.Tracker
      reads this`standby
    {
      G.LoopTick(t, settings.gap, G.Env(pace, standby)).tracker
    }

    /** The loop of `_civ_gap_loop` over every tracker. */
    method TickTrackers(pace: int)
      requires Valid()
      modifies civGap.Values
      ensures forall k :: k in civGap ==> civGap[k].Model() == Ticked(old(civGap[k].Model()), pace)
    {
      hide G.LoopTick;
      var todo := civGap.Keys;
      while todo != {}
        invariant todo <= civGap.Keys
        invariant forall k :: k in todo ==> civGap[k].Model() == old(civGap[k].Model())
        invariant forall k :: k in civGap && k !in todo ==>
                    civGap[k].Model() == Ticked(old(civGap[k].Model()), pace)
        decreases todo
      {
        var k :| k in todo;
        var rounds := civGap[k].TickLoop(settings.gap, G.Env(pace, standby));
        todo := todo - {k};
      }
    }

    /** One tick of `_civ_gap_loop`. */
    method GapLoopTick(pace: int)
      requires Valid()
      modifies civGap.Values
      ensures Valid() && Model() == TickAll(old(Model()), settings, pace)
    {
      hide G.LoopTick;
      TickTrackers(pace);
      assert Trackers() == TickAll(old(Model()), settings, pace).trackers;
    }

    /** `_on_packet` down to the port handlers: dark, the radio hears nothing. */
    method OnPacket(ev: Event) returns (replies: seq<Reply>, processed: seq<Processed>)
      requires Valid() && (ev.Ctrl? || ev.Civ?)
      modifies this, civGap.Values
      ensures Valid() && Outcome(Model(), replies, processed) == Step(old(Model()), settings, ev)
    {
      replies, processed := [], [];
      if ev.at.wall < downUntil || (ev.at.wall < noticeUntil && !AnsweredInNotice(ev)) {
        return;
      }
      match ev {
        case Ctrl(at, from, m) => replies := ControlPacket(at.wall, from, m);
        case Civ(at, from, m) => replies, processed := CivPacket(at, from, m);
      }
    }
  }
}
