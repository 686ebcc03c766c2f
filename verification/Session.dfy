/** The simulated radio's session: owner, keepalive hold, token epoch, post-event fence,
    CI-V stream owner, gap trackers and the orphan of a dead session. One function per
    handler; one event is one atomic step. */
module Session {
  import opened Wrappers
  import opened SerialNumbers
  import opened GapTracker

  const TOKEN_SPACE := 0x1_0000_0000
  const TOKEN_STEP := 0x9E37_79B9
  const FIRST_TOKEN := 0x1234_5678
  const POWER_OFF_NOTICE_WINDOW := 20_000

  type Token = t: int | 0 <= t < TOKEN_SPACE

  /** A client socket's identity: remote address and the id it sends. */
  datatype Identity = Identity(ip: string, port: nat, id: nat)

  /** Two clocks, as in the source: the wall clock and the one retransmit pacing reads. */
  datatype Moment = Moment(wall: int, pace: int)

  datatype Settings = Settings(
    singleOwner: bool,
    hold: int,
    survives: bool,
    orphanExpiry: int,
    authFail: bool,
    requireDiscovery: bool,
    gap: Config)

  /** What a session whose hold expired leaves behind. */
  datatype Orphan = Orphan(next: Seq, missing: set<Seq>, diedAt: int)

  /** Where an OpenClose(open) may lift the fence from; port 0 means any port of the IP. */
  datatype Grant = Grant(ip: string, port: nat)

  datatype Radio = Radio(
    owner: Option<Identity>,
    deadline: Option<int>,
    lastRefresh: int,
    token: Token,
    retired: set<Token>,
    lastLogin: Option<Identity>,
    discovered: set<nat>,
    civOwner: Option<Identity>,
    fenced: bool,
    fenceBlocksPings: bool,
    grant: Option<Grant>,
    trackers: map<Identity, Tracker>,
    orphan: Option<Orphan>,
    standby: bool,
    downUntil: int,
    busyUntil: int,
    noticeUntil: int,
    silentUntil: int,
    unavailableUntil: int)

  const PowerOn := Radio(
    None, None, 0, FIRST_TOKEN, {}, None, {}, None, false, false, None, map[], None, false, 0, 0, 0, 0, 0)

  datatype CtrlMessage =
    | Renew(token: Token)
    | TokenAck(token: Token)
    | TokenRemove(token: Token)
    | Conninfo(token: Token, declaredPort: nat)
    | AreYouThere
    | AreYouReady
    | Ping
    | Login
    | Disconnect

  datatype CivMessage =
    | CivThere
    | CivReady
    | CivPing
    | Open(number: Seq)
    | Close(number: Seq)
    | CivIdle(number: Seq)
    | CivData(number: Seq, body: seq<byte>)

  datatype Event =
    | Ctrl(at: Moment, from: Identity, msg: CtrlMessage)
    | Civ(at: Moment, from: Identity, civ: CivMessage)
    | HoldTimer(at: Moment)
    | GapLoop(at: Moment)
    | Reboot(at: Moment, downFor: int, busyFor: int, notice: bool)
    | GoDark(at: Moment, downFor: int, busyFor: int)
    | Drop(at: Moment)
    | FreeSession
    | SetStandby(on: bool)
    | SilenceKeepalive(at: Moment, duration: int)
    | SetUnavailable(until: int)

  datatype Reply =
    | IAmHere
    | Ready
    | Pong
    | RenewOk
    | RenewReject
    | LoginOk
    | LoginRefused
    | GuidConninfo
    | StatusAccepted
    | StatusBusy
    | StatusNotReady
    | StreamMarker

  /** A CI-V frame handed to the command handlers, with the identity it came from. */
  datatype Processed = Processed(from: Identity, body: seq<byte>)

  datatype Outcome = Outcome(radio: Radio, replies: seq<Reply>, processed: seq<Processed>)

  function Quiet(r: Radio): Outcome {
    Outcome(r, [], [])
  }

  function Says(r: Radio, reply: Reply): Outcome {
    Outcome(r, [reply], [])
  }

  // ---- ownership, hold, tokens -------------------------------------------------------

  /** `_retire_token` */
  function RetireToken(r: Radio): Radio {
    r.(retired := r.retired + {r.token}, token := (r.token + TOKEN_STEP) % TOKEN_SPACE)
  }

  /** `_release_session`: only a hold that expires on its own keeps the orphan. */
  function Release(r: Radio, holdExpired: bool): Radio {
    r.(owner := None, deadline := None, orphan := if holdExpired then r.orphan else None)
  }

  /** `_arm_keepalive` */
  function ArmHold(r: Radio, s: Settings, now: int): Radio {
    if r.owner.None? then r else r.(lastRefresh := now, deadline := Some(now + s.hold))
  }

  /** `_refresh_keepalive` */
  function Refresh(r: Radio, s: Settings, now: int, who: Identity): Radio {
    if s.singleOwner && r.owner == Some(who) then ArmHold(r, s, now) else r
  }

  /** `_claim_session`: a newly claimed session starts numbering and stream over. */
  function Claim(r: Radio, s: Settings, now: int, who: Identity): Radio {
    var c := if r.owner != Some(who) then r.(trackers := map[], civOwner := None) else r;
    ArmHold(c.(owner := Some(who)), s, now)
  }

  /** `_keep_civ_orphan` */
  function KeepOrphan(r: Radio, s: Settings): (n: Radio)
    ensures n == r.(orphan := n.orphan)
  {
    if !s.survives then r
    else if r.civOwner.Some? && r.civOwner.value in r.trackers && r.trackers[r.civOwner.value].next.Some? then
      var t := r.trackers[r.civOwner.value];
      r.(orphan := Some(Orphan(t.next.value, t.missing, r.lastRefresh)))
    else r.(orphan := None)
  }

  /** `_expire_hold` */
  function ExpireHold(r: Radio, s: Settings): Radio {
    if r.owner.None? then r else RetireToken(Release(KeepOrphan(r, s), true))
  }

  /** `_conninfo_status` */
  function ConninfoStatus(r: Radio, s: Settings, now: int, who: Identity): (Radio, Reply) {
    if now < r.busyUntil then (r, StatusBusy)
    else if !s.singleOwner then (r, StatusAccepted)
    else if r.owner.Some? && r.owner != Some(who) then (r, StatusBusy)
    else if now < r.unavailableUntil then (r, StatusNotReady)
    else (Claim(r, s, now, who), StatusAccepted)
  }

  // ---- control port ------------------------------------------------------------------

  /** The token a 0x40 or 0x90 packet carries. */
  function CarriedToken(m: CtrlMessage): Option<Token> {
    match m
    case Renew(t) => Some(t)
    case TokenAck(t) => Some(t)
    case TokenRemove(t) => Some(t)
    case Conninfo(t, _) => Some(t)
    case _ => None
  }

  function HandleRenew(r: Radio, s: Settings, now: int, from: Identity, token: Token): Outcome {
    if token == r.token then Says(ArmHold(r, s, now), RenewOk)
    else Says(Refresh(r, s, now, from), RenewReject)
  }

  function HandleLogin(r: Radio, s: Settings, from: Identity): Outcome {
    if s.requireDiscovery && from.id !in r.discovered then Quiet(r)
    else if s.authFail then Says(r, LoginRefused)
    else Says(r.(lastLogin := Some(from), trackers := map[]), LoginOk)
  }

  function HandleTokenRemove(r: Radio, s: Settings, from: Identity, token: Token): Outcome {
    if s.singleOwner then
      if r.owner == Some(from) then Quiet(RetireToken(Release(r, false))) else Quiet(r)
    else if token == r.token then Quiet(RetireToken(r)) else Quiet(r)
  }

  function HandleConninfo(r: Radio, s: Settings, now: int, from: Identity, port: nat): Outcome {
    var own := r.lastLogin == Some(from);
    var (c, reply) := ConninfoStatus(r, s, now, from);
    var granted := if own && reply == StatusAccepted then c.(grant := Some(Grant(from.ip, port))) else c;
    Says(granted, reply)
  }

  function HandleDisconnect(r: Radio, s: Settings, from: Identity): Outcome {
    var d := r.(discovered := r.discovered - {from.id});
    if s.singleOwner && r.owner == Some(from) then Quiet(RetireToken(Release(d, false))) else Quiet(d)
  }

  /** `_handle_ctrl`: renewals first, then everything carrying a retired token is ignored. */
  function HandleCtrl(r: Radio, s: Settings, now: int, from: Identity, m: CtrlMessage): Outcome {
    if m.Renew? then HandleRenew(r, s, now, from, m.token)
    else if CarriedToken(m).Some? && CarriedToken(m).value in r.retired then Quiet(r)
    else
      match m
      case AreYouThere => Says(r.(discovered := r.discovered + {from.id}), IAmHere)
      case AreYouReady => Says(r, Ready)
      case Ping =>
        var f := Refresh(r, s, now, from);
        if now < r.silentUntil then Quiet(f) else Says(f, Pong)
      case Login => HandleLogin(r, s, from)
      case TokenAck(_) => Says(Refresh(r, s, now, from), GuidConninfo)
      case TokenRemove(t) => HandleTokenRemove(r, s, from, t)
      case Conninfo(_, port) => HandleConninfo(r, s, now, from, port)
      case Disconnect => HandleDisconnect(r, s, from)
  }

  // ---- CI-V port ---------------------------------------------------------------------

  /** `_civ_fenced` */
  predicate Fenced(r: Radio, who: Identity) {
    r.fenced && r.civOwner != Some(who)
  }

  /** `_fence_open_allowed_for` */
  predicate OpenAllowed(r: Radio, who: Identity) {
    && r.grant.Some?
    && who.ip == r.grant.value.ip
    && (r.grant.value.port == 0 || who.port == r.grant.value.port)
  }

  /** `_seed_tracker_from_orphan` */
  function SeedTracker(r: Radio, s: Settings, now: int, who: Identity): (n: Radio)
    ensures n == r.(trackers := n.trackers, orphan := n.orphan) && n.trackers.Keys == r.trackers.Keys + {who}
  {
    if who in r.trackers then r
    else if r.orphan.Some? && s.survives && now - r.orphan.value.diedAt <= s.orphanExpiry then
      r.(trackers := r.trackers[who := Inherited(r.orphan.value.next, r.orphan.value.missing)],
         orphan := None)
    else r.(orphan := None, trackers := r.trackers[who := Fresh])
  }

  /** The DATA frames among the consumed entries; standby processes nothing. */
  function ProcessedOf(who: Identity, standby: bool, es: seq<Entry>): (r: seq<Processed>)
    ensures forall p :: p in r ==> p.from == who
  {
    if es == [] || standby then []
    else
      (if es[0].packet.kind == Data then [Processed(who, es[0].packet.body)] else [])
      + ProcessedOf(who, standby, es[1..])
  }

  /** A tracked packet through the gate and drain of its client's tracker; a client whose
      stream never opened has none, and its DATA is processed at once. */
  function Track(r: Radio, s: Settings, pace: int, who: Identity, n: Seq, p: Packet): (o: Outcome)
    ensures o.radio == r.(trackers := o.radio.trackers) && o.radio.trackers.Keys == r.trackers.Keys
    ensures o.replies == [] && forall q :: q in o.processed ==> q.from == who
  {
    if who in r.trackers then
      var a := Accept(r.trackers[who], s.gap, Env(pace, r.standby), n, p);
      Outcome(r.(trackers := r.trackers[who := a.tracker]), [], ProcessedOf(who, r.standby, a.consumed))
    else Outcome(r, [], ProcessedOf(who, r.standby, [Entry(n, p)]))
  }

  function HandleOpen(r: Radio, s: Settings, at: Moment, who: Identity, n: Seq): Outcome {
    if r.fenced && !OpenAllowed(r, who) then Quiet(r)
    else
      var o := SeedTracker(r.(civOwner := Some(who)), s, at.wall, who);
      var tracked := Track(o, s, at.pace, who, n, Packet(OpenClose, []));
      tracked.(replies := if r.standby then [] else [StreamMarker])
  }

  function HandleClose(r: Radio, s: Settings, at: Moment, who: Identity, n: Seq): Outcome {
    var c := if s.singleOwner && r.owner.Some? && r.civOwner == Some(who)
             then RetireToken(Release(r, false)) else r;
    Track(c, s, at.pace, who, n, Packet(OpenClose, []))
  }

  /** `_handle_civ` */
  function HandleCiv(r: Radio, s: Settings, at: Moment, who: Identity, m: CivMessage): Outcome {
    match m
    case CivThere => Says(r, IAmHere)
    case CivReady => Says(r, Ready)
    case CivPing =>
      if (Fenced(r, who) && r.fenceBlocksPings) || at.wall < r.silentUntil then Quiet(r) else Says(r, Pong)
    case Open(n) => HandleOpen(r, s, at, who, n)
    case Close(n) => HandleClose(r, s, at, who, n)
    case CivIdle(n) => Track(r, s, at.pace, who, n, Packet(Idle, []))
    case CivData(n, body) =>
      if Fenced(r, who) then Quiet(r) else Track(r, s, at.pace, who, n, Packet(Data, body))
  }

  // ---- radio-initiated events --------------------------------------------------------

  /** What a reboot and a drop have in common: the session and stream epoch end, and the
      fence goes up with no permission granted yet. */
  function EndEpoch(r: Radio, blocksPings: bool): Radio {
    RetireToken(Release(r, false).(civOwner := None, trackers := map[]))
    .(fenced := true, fenceBlocksPings := blocksPings, grant := None)
  }

  /** `_begin_dark` */
  function Darken(r: Radio, now: int, downFor: int, busyFor: int): Radio {
    r.(downUntil := now + downFor, busyUntil := now + downFor + busyFor)
  }

  /** `_begin_reboot` */
  function BeginReboot(r: Radio, now: int, downFor: int, busyFor: int, notice: bool): Radio {
    EndEpoch(if notice then r.(noticeUntil := now + POWER_OFF_NOTICE_WINDOW)
             else Darken(r, now, downFor, busyFor), true)
  }

  /** Discovery and pings are still answered in the power-off notice window. */
  predicate AnsweredInNotice(ev: Event)
    requires ev.Ctrl? || ev.Civ?
  {
    if ev.Ctrl? then ev.msg.AreYouThere? || ev.msg.AreYouReady? || ev.msg.Ping?
    else ev.civ.CivThere? || ev.civ.CivReady? || ev.civ.CivPing?
  }

  /** `_on_packet`: dark, the radio hears nothing; in the notice window only a little. */
  predicate Heard(r: Radio, ev: Event)
    requires ev.Ctrl? || ev.Civ?
  {
    && ev.at.wall >= r.downUntil
    && (ev.at.wall >= r.noticeUntil || AnsweredInNotice(ev))
  }

  function TickAll(r: Radio, s: Settings, pace: int): Radio {
    r.(trackers := map k | k in r.trackers :: LoopTick(r.trackers[k], s.gap, Env(pace, r.standby)).tracker)
  }

  function Step(r: Radio, s: Settings, ev: Event): Outcome {
    match ev
    case Ctrl(at, from, m) => if Heard(r, ev) then HandleCtrl(r, s, at.wall, from, m) else Quiet(r)
    case Civ(at, from, m) => if Heard(r, ev) then HandleCiv(r, s, at, from, m) else Quiet(r)
    case HoldTimer(at) =>
      if r.deadline.Some? && at.wall >= r.deadline.value then Quiet(ExpireHold(r, s)) else Quiet(r)
    case GapLoop(at) => Quiet(TickAll(r, s, at.pace))
    case Reboot(at, downFor, busyFor, notice) => Quiet(BeginReboot(r, at.wall, downFor, busyFor, notice))
    case GoDark(at, downFor, busyFor) => Quiet(Darken(r, at.wall, downFor, busyFor))
    case Drop(_) => Quiet(EndEpoch(r, false))
    case FreeSession => Quiet(RetireToken(Release(r, false)))
    case SetStandby(on) => Quiet(r.(standby := on))
    case SilenceKeepalive(at, duration) => Quiet(r.(silentUntil := at.wall + duration))
    case SetUnavailable(until) => Quiet(r.(unavailableUntil := until))
  }

  // ---- runs --------------------------------------------------------------------------

  /** The radio after the first `n` events. */
  function Play(r0: Radio, s: Settings, evs: seq<Event>, n: nat): Radio
    requires n <= |evs|
  {
    if n == 0 then r0 else Step(Play(r0, s, evs, n - 1), s, evs[n - 1]).radio
  }

  /** What event `i` of the run produced. */
  function At(r0: Radio, s: Settings, evs: seq<Event>, i: nat): Outcome
    requires i < |evs|
  {
    Step(Play(r0, s, evs, i), s, evs[i])
  }
}
