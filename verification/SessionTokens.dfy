/** Token epochs over whole runs: the arithmetic of the additive step and what it means for
    renewals. */
module SessionTokens {
  import opened Wrappers
  import GapTracker
  import opened Session

  /** The token of epoch `n` when the first one was `t0`. */
  function TokenOf(t0: Token, n: nat): Token {
    (t0 + n * TOKEN_STEP) % TOKEN_SPACE
  }

  /** The inverse of the (odd) step modulo 2^32. */
  const STEP_INVERSE := 0x144C_BC89

  lemma StepIsInvertible()
    ensures TOKEN_STEP * STEP_INVERSE == 1 + (TOKEN_STEP * STEP_INVERSE / TOKEN_SPACE) * TOKEN_SPACE
  {
  }

  /** Fewer than 2^32 retirements apart, two epochs never share a token. */
  lemma TokensDiffer(t0: Token, i: nat, j: nat)
    requires i < j && j - i < TOKEN_SPACE
    ensures TokenOf(t0, i) != TokenOf(t0, j)
  {
    if TokenOf(t0, i) == TokenOf(t0, j) {
      var a, b := t0 + i * TOKEN_STEP, t0 + j * TOKEN_STEP;
      var d, q := j - i, b / TOKEN_SPACE - a / TOKEN_SPACE;
      assert d * TOKEN_STEP == q * TOKEN_SPACE;
      var k := TOKEN_STEP * STEP_INVERSE / TOKEN_SPACE;
      StepIsInvertible();
      calc {
        d * (1 + k * TOKEN_SPACE);
        d * (TOKEN_STEP * STEP_INVERSE);
        (d * TOKEN_STEP) * STEP_INVERSE;
        q * TOKEN_SPACE * STEP_INVERSE;
      }
      assert d == (q * STEP_INVERSE - d * k) * TOKEN_SPACE;
      NoMultipleBetween(d, q * STEP_INVERSE - d * k);
    }
  }

  lemma NoMultipleBetween(d: int, m: int)
    requires 0 < d < TOKEN_SPACE
    ensures d != m * TOKEN_SPACE
  {
  }

  /** ... and the bound is exact. */
  lemma TokensRepeat(t0: Token)
    ensures TokenOf(t0, TOKEN_SPACE) == t0
  {
  }

  lemma FirstEpoch(t0: Token)
    ensures TokenOf(t0, 0) == t0
  {
  }

  lemma ModuloAbsorbs(a: nat, b: nat)
    ensures (a % TOKEN_SPACE + b) % TOKEN_SPACE == (a + b) % TOKEN_SPACE
  {
  }

  lemma NextToken(t0: Token, n: nat)
    ensures (TokenOf(t0, n) + TOKEN_STEP) % TOKEN_SPACE == TokenOf(t0, n + 1)
  {
    ModuloAbsorbs(t0 + n * TOKEN_STEP, TOKEN_STEP);
  }

  lemma StepChangesToken(t: Token)
    ensures (t + TOKEN_STEP) % TOKEN_SPACE != t
  {
  }

  predicate Retires(r: Radio, s: Settings, ev: Event) {
    Step(r, s, ev).radio.token != r.token
  }

  /** A step leaves the epoch alone or retires exactly the current token. */
  lemma StepTokens(r: Radio, s: Settings, ev: Event)
    ensures var n := Step(r, s, ev).radio;
            if Retires(r, s, ev) then
              n.token == (r.token + TOKEN_STEP) % TOKEN_SPACE && n.retired == r.retired + {r.token}
            else n.token == r.token && n.retired == r.retired
  {
    hide HandleCtrl;
    hide HandleCiv;
    StepChangesToken(r.token);
    match ev
    case Ctrl(at, from, m) => CtrlTokens(r, s, at.wall, from, m);
    case Civ(at, from, m) => CivTokens(r, s, at, from, m);
    case HoldTimer(_) => OtherTokens(r, s, ev);
    case Reboot(_, _, _, _) => OtherTokens(r, s, ev);
    case Drop(_) => OtherTokens(r, s, ev);
    case FreeSession => OtherTokens(r, s, ev);
    case _ =>
  }

  lemma OtherTokens(r: Radio, s: Settings, ev: Event)
    requires !ev.Ctrl? && !ev.Civ?
    ensures var n := Step(r, s, ev).radio;
            || (n.token == r.token && n.retired == r.retired)
            || (n.token == (r.token + TOKEN_STEP) % TOKEN_SPACE && n.retired == r.retired + {r.token})
  {
    hide KeepOrphan;
    hide GapTracker.LoopTick;
    hide EndEpoch;
    hide ExpireHold;
    match ev
    case HoldTimer(_) => ExpiryTokens(r, s);
    case Reboot(at, downFor, busyFor, notice) =>
      EpochTokens(if notice then r.(noticeUntil := at.wall + POWER_OFF_NOTICE_WINDOW)
                  else Darken(r, at.wall, downFor, busyFor), true);
    case Drop(_) => EpochTokens(r, false);
    case _ =>
  }

  lemma EpochTokens(r: Radio, blocksPings: bool)
    ensures var n := EndEpoch(r, blocksPings);
            n.token == (r.token + TOKEN_STEP) % TOKEN_SPACE && n.retired == r.retired + {r.token}
  {
  }

  lemma ExpiryTokens(r: Radio, s: Settings)
    ensures var n := ExpireHold(r, s);
            || n == r
            || (n.token == (r.token + TOKEN_STEP) % TOKEN_SPACE && n.retired == r.retired + {r.token})
  {
    hide KeepOrphan;
  }

  lemma ConninfoTokens(r: Radio, s: Settings, now: int, from: Identity, port: nat)
    ensures var n := HandleConninfo(r, s, now, from, port).radio;
            n.token == r.token && n.retired == r.retired && (r.owner.Some? ==> n.owner == r.owner)
  {
  }

  lemma CtrlTokens(r: Radio, s: Settings, now: int, from: Identity, m: CtrlMessage)
    ensures var n := HandleCtrl(r, s, now, from, m).radio;
            || (n.token == r.token && n.retired == r.retired && (r.owner.Some? ==> n.owner == r.owner))
            || (n.token == (r.token + TOKEN_STEP) % TOKEN_SPACE && n.retired == r.retired + {r.token}
                && n.owner == if s.singleOwner then None else r.owner)
  {
    hide HandleConninfo;
    if m.Conninfo? {
      ConninfoTokens(r, s, now, from, m.declaredPort);
    }
  }

  lemma CivTokens(r: Radio, s: Settings, at: Moment, who: Identity, m: CivMessage)
    ensures var n := HandleCiv(r, s, at, who, m).radio;
            || (n.token == r.token && n.retired == r.retired && n.owner == r.owner)
            || (n.token == (r.token + TOKEN_STEP) % TOKEN_SPACE && n.retired == r.retired + {r.token}
                && n.owner == None)
  {
    hide Track;
    hide SeedTracker;
  }

  /** Every way a held session ends retires its token in the same step. */
  lemma EveryEndRetires(r: Radio, s: Settings, ev: Event)
    requires r.owner.Some? && Step(r, s, ev).radio.owner != r.owner
    ensures Step(r, s, ev).radio.owner == None && Retires(r, s, ev)
    ensures Step(r, s, ev).radio.retired == r.retired + {r.token}
  {
    hide HandleCtrl;
    hide HandleCiv;
    match ev
    case Ctrl(at, from, m) => CtrlTokens(r, s, at.wall, from, m);
    case Civ(at, from, m) => CivTokens(r, s, at, from, m);
    case _ =>
  }

  /** Retirements so far. */
  function Epoch(r0: Radio, s: Settings, evs: seq<Event>, n: nat): nat
    requires n <= |evs|
  {
    if n == 0 then 0
    else Epoch(r0, s, evs, n - 1) + if Retires(Play(r0, s, evs, n - 1), s, evs[n - 1]) then 1 else 0
  }

  /** The live token is that of the current epoch; the retired set is that of all earlier ones. */
  lemma {:induction false} TokenHistory(r0: Radio, s: Settings, evs: seq<Event>, n: nat)
    requires n <= |evs| && r0.retired == {}
    ensures var r := Play(r0, s, evs, n);
            && r.token == TokenOf(r0.token, Epoch(r0, s, evs, n))
            && forall t: Token :: t in r.retired <==>
                 exists i :: 0 <= i < Epoch(r0, s, evs, n) && t == TokenOf(r0.token, i)
  {
    hide Step;
    hide TokenOf;
    FirstEpoch(r0.token);
    if n > 0 {
      TokenHistory(r0, s, evs, n - 1);
      var r := Play(r0, s, evs, n - 1);
      StepTokens(r, s, evs[n - 1]);
      NextToken(r0.token, Epoch(r0, s, evs, n - 1));
    }
  }

  /** Below 2^32 retirements the live token is never a retired one. */
  lemma LiveTokenNeverRetired(r0: Radio, s: Settings, evs: seq<Event>, n: nat)
    requires n <= |evs| && r0.retired == {} && Epoch(r0, s, evs, n) < TOKEN_SPACE
    ensures Play(r0, s, evs, n).token !in Play(r0, s, evs, n).retired
  {
    TokenHistory(r0, s, evs, n);
    forall i | 0 <= i < Epoch(r0, s, evs, n)
      ensures TokenOf(r0.token, i) != TokenOf(r0.token, Epoch(r0, s, evs, n))
    {
      TokensDiffer(r0.token, i, Epoch(r0, s, evs, n));
    }
  }

  /** A renewal heard in step `n` with the token of epoch `i` is answered OK exactly when
      epoch `i` is still current; with an earlier or a later epoch's token it is rejected. */
  lemma RenewalNamesItsEpoch(r0: Radio, s: Settings, evs: seq<Event>, n: nat, i: nat)
    requires n < |evs| && r0.retired == {} && Epoch(r0, s, evs, n) < TOKEN_SPACE && i < TOKEN_SPACE
    requires evs[n].Ctrl? && evs[n].msg == Renew(TokenOf(r0.token, i))
    requires Heard(Play(r0, s, evs, n), evs[n])
    ensures At(r0, s, evs, n).replies == [if i == Epoch(r0, s, evs, n) then RenewOk else RenewReject]
  {
    TokenHistory(r0, s, evs, n);
    var now := Epoch(r0, s, evs, n);
    if i < now {
      TokensDiffer(r0.token, i, now);
    } else if now < i {
      TokensDiffer(r0.token, now, i);
    }
  }
}
