/**
 What the pairwise machine does when it is told that the station has left or must prove itself again, and
 when its timer fires.
 */
module PtkNotices {
  import opened Common
  import opened PtkSpec
  import opened PtkLog
  import opened PtkInvariant
  import opened PtkTheorems

  // ---- No key survives a notice ----

  /** There is no key, and no answer that could lead to one. */
  predicate Keyless(sm: Sm) {
    !sm.keys.valid && sm.keys.ptk == NoPtk && !Response(sm)
  }

  ghost predicate StaysKeyless(sm: Sm, s: Sm) {
    Keyless(s) && (s.keys.installed ==> sm.keys.installed)
  }

  lemma SendKeyless(cfg: Config, sm: Sm)
    requires Keyless(sm)
    ensures StaysKeyless(sm, EnterPtkStart(cfg, sm)) && StaysKeyless(sm, EnterPtkInitNegotiating(cfg, sm))
  {
  }

  lemma LeavingKeyless(sm: Sm, env: Env)
    requires Keyless(sm)
    ensures StaysKeyless(sm, EnterInitialize(sm)) && StaysKeyless(sm, EnterDisconnect(sm, env))
  {
  }

  lemma AuthenticationKeyless(sm: Sm, env: Env)
    requires Keyless(sm)
    ensures StaysKeyless(sm, EnterDisconnected(sm)) && StaysKeyless(sm, EnterAuthentication(sm))
    ensures StaysKeyless(sm, EnterAuthentication2(sm, env))
  {
  }

  lemma InitKeyless(cfg: Config, sm: Sm)
    requires Keyless(sm)
    ensures StaysKeyless(sm, EnterInitPmk(sm)) && StaysKeyless(sm, EnterInitPsk(cfg, sm))
    ensures StaysKeyless(sm, EnterPtkCalcNegotiating2(sm))
  {
  }

  lemma StepKeyless(cfg: Config, sm: Sm, env: Env)
    requires Keyless(sm)
    ensures StaysKeyless(sm, Step(cfg, sm, env))
  {
    hide EnterInitialize;
    hide EnterDisconnect;
    hide EnterDisconnected;
    hide EnterAuthentication;
    hide EnterAuthentication2;
    hide EnterInitPmk;
    hide EnterInitPsk;
    hide EnterPtkStart;
    hide EnterPtkCalcNegotiating2;
    hide EnterPtkInitNegotiating;
    LeavingKeyless(sm, env);
    AuthenticationKeyless(sm, env);
    InitKeyless(cfg, sm);
    SendKeyless(cfg, sm);
  }

  lemma {:induction false} SettleKeyless(cfg: Config, sm: Sm, env: Env)
    requires Keyless(sm)
    ensures StaysKeyless(sm, Settle(cfg, sm, env))
    decreases Asked(sm.req), Happened(sm), Rank(sm.state)
  {
    hide Step;
    if sm.started {
      var s := sm.(changed := false);
      StepKeyless(cfg, s, env);
      StepShrinks(cfg, s, env);
      if Step(cfg, s, env).changed { SettleKeyless(cfg, Step(cfg, s, env), env); }
    }
  }

  /** Whatever a started machine at rest is told, it has no key afterwards; and unless it is told to
      authenticate over EAPOL only, none is installed either. */
  lemma NoticeRevokes(cfg: Config, sm: Sm, n: Notice, env: Env)
    requires Good(cfg, sm) && sm.started
    ensures var s := Handle(cfg, sm, Notified(n), env);
      && !s.keys.valid && s.keys.ptk == NoPtk
      && (n != ReauthEapolNotice ==> !s.keys.installed)
  {
    hide Settle;
    hide Logged;
    var s := Noticed(sm, n);
    SettleKeyless(cfg, s, env);
    SettleKeyless(cfg, RemovePtk(s), env);
  }

  // ---- Leaving ----

  lemma DisconnectedSettles(cfg: Config, d: Sm, env: Env)
    requires d.started && d.state == Disconnected && d.req == NO_REQUESTS
    ensures var s := Settle(cfg, d, env); s.state == Initialize && s.req == NO_REQUESTS
  {
    hide EnterInitialize;
    SettleOnce(cfg, d, env);
    var i := EnterInitialize(d.(changed := false));
    InitializeCtl(d.(changed := false));
    InitializeStarted(d.(changed := false));
    SettleOnce(cfg, i, env);
    assert Step(cfg, i.(changed := false), env) == i.(changed := false);
  }

  lemma InitializeStarted(sm: Sm)
    ensures EnterInitialize(sm).started == sm.started
  {
  }

  lemma DisconnectSettles(cfg: Config, p: Sm, env: Env)
    requires p.started && p.state == PtkStart && p.req == NO_REQUESTS && !Response(p)
    requires p.timeoutCtr > PAIRWISE_UPDATE_COUNT
    ensures Settle(cfg, p, env).state == Initialize
  {
    hide EnterInitialize;
    SettleOnce(cfg, p, env);
    var d := EnterDisconnect(p.(changed := false), env);
    assert Step(cfg, p.(changed := false), env) == d;
    if !env.found {
      SettleOnce(cfg, d, env);
      var e := EnterDisconnected(d.(changed := false));
      assert Step(cfg, d.(changed := false), env) == e;
      DisconnectedSettles(cfg, e, env);
    }
  }

  /** What entering PTKSTART without an answer waiting comes to: a first message, or a disconnection when
      the attempts are used up. */
  lemma StartSettles(cfg: Config, sm: Sm, env: Env)
    requires sm.started && !Response(sm) && sm.req == sm.req.(init := false, disconnect := false, deauth := false, auth := false, reauth := false)
    ensures var p, s := EnterPtkStart(cfg, sm), Settle(cfg, EnterPtkStart(cfg, sm), env);
      if sm.timeoutCtr < PAIRWISE_UPDATE_COUNT then s == p.(changed := false) && s.state == PtkStart
      else s.state == Initialize
  {
    hide Send;
    hide EnterInitialize;
    hide EnterDisconnect;
    hide EnterDisconnected;
    var p := EnterPtkStart(cfg, sm);
    PtkStartFields(cfg, sm);
    if sm.timeoutCtr < PAIRWISE_UPDATE_COUNT {
      SettleOnce(cfg, p, env);
      assert Step(cfg, p.(changed := false), env) == p.(changed := false);
    } else {
      DisconnectSettles(cfg, p, env);
    }
  }

  lemma PtkStartFields(cfg: Config, sm: Sm)
    ensures var p := EnterPtkStart(cfg, sm);
      && p == Restarted(sm).(replay := p.replay, log := p.log) && p.rx == sm.rx
  {
  }

  /** Told that the station has left, the machine goes to INITIALIZE; unless a request for a new key has
      been forgotten and an attempt is left: then, and only then, it ends up in PTKSTART, with a first
      message. */
  lemma LeavingEnds(cfg: Config, sm: Sm, n: Notice, env: Env)
    requires Good(cfg, sm) && sm.started && (n == DeauthNotice || n == DisassocNotice)
    ensures var s := Handle(cfg, sm, Notified(n), env);
      && (s.state == Initialize || s.state == PtkStart)
      && (s.state == Initialize <==> !sm.req.ptk || sm.timeoutCtr >= PAIRWISE_UPDATE_COUNT)
  {
    hide Logged;
    hide RemovePtk;
    hide EnterPtkStart;
    hide EnterInitialize;
    var t := RemovePtk(Noticed(sm, n));
    RemovePtkFields(Noticed(sm, n));
    var d := EnterDisconnected(t.(changed := false));
    assert Handle(cfg, sm, Notified(n), env) == Settle(cfg, t, env);
    SettleOnce(cfg, t, env);
    assert Settle(cfg, t, env) == Settle(cfg, d, env);
    if sm.req.ptk {
      SettleOnce(cfg, d, env);
      PtkStartCtl(cfg, d.(changed := false));
      StartSettles(cfg, d.(changed := false), env);
    } else {
      DisconnectedSettles(cfg, d, env);
    }
  }

  lemma RemovePtkFields(sm: Sm)
    ensures var s := RemovePtk(sm); s == sm.(keys := s.keys, log := s.log)
    ensures RemovePtk(sm).keys == sm.keys.(ptk := RemovePtk(sm).keys.ptk, installed := false)
  {
  }

  // ---- Authenticating again ----

  /** The first message of a new handshake with nonce `n` has just been sent, or could not be built. */
  predicate FirstOut(log: seq<Action>, n: Nonce) {
    log != [] &&
    var a := log[|log| - 1];
    || a == SendFailed(Msg1)
    || (a.Sent? && a.msg == Msg1 && a.nonce == n && a.onAir)
  }

  /** Told to authenticate again, or found to associate again, the machine starts a new handshake: a new
      nonce, the first of four attempts, the first message with that nonce. */
  lemma ReauthenticationStarts(cfg: Config, sm: Sm, t: Sm, env: Env)
    requires t.started && !Response(t) && t.req == sm.req.(reauth := true)
    requires sm.req == NO_REQUESTS || sm.req == KEY_REQUEST
    requires t.suite.keyMgmt == Psk && cfg.psk.Some?
    ensures var s := Settle(cfg, t, env);
      && s.state == PtkStart && s.timeoutCtr == 1 && s.keys.anonce == env.nonce && FirstOut(s.log, env.nonce)
      && s.keys.valid == t.keys.valid && s.keys.installed == t.keys.installed && s.req == NO_REQUESTS
  {
    hide EnterPtkStart;
    var u := EnterAuthentication2(t.(changed := false), env);
    SettleOnce(cfg, t, env);
    SettleOnce(cfg, u, env);
    if sm.req.ptk {
      var v := u.(changed := false);
      FirstMessage(cfg, v);
      StartSettles(cfg, v, env);
    } else {
      var v := EnterInitPsk(cfg, u.(changed := false));
      assert Step(cfg, u.(changed := false), env) == v;
      SettleOnce(cfg, v, env);
      FirstMessage(cfg, v.(changed := false));
      StartSettles(cfg, v.(changed := false), env);
    }
  }

  lemma FirstMessage(cfg: Config, sm: Sm)
    requires sm.started && sm.timeoutCtr == 0
    ensures var s := EnterPtkStart(cfg, sm);
      && FirstOut(s.log, sm.keys.anonce) && s.keys == sm.keys && s.timeoutCtr == 1 && s.req == sm.req.(ptk := false)
      && s.changed
  {
  }

  lemma ReauthStarts(cfg: Config, sm: Sm, n: Notice, env: Env)
    requires Good(cfg, sm) && sm.started && (n == ReauthNotice || n == ReauthEapolNotice)
    requires sm.suite.keyMgmt == Psk && cfg.psk.Some?
    ensures var s := Handle(cfg, sm, Notified(n), env);
      && s.state == PtkStart && s.timeoutCtr == 1 && s.keys.anonce == env.nonce && FirstOut(s.log, env.nonce)
      && !s.keys.valid && s.keys.installed == (n == ReauthEapolNotice && sm.keys.installed)
  {
    hide Logged;
    hide RemovePtk;
    hide Settle;
    var s := Noticed(sm, n);
    RemovePtkFields(s);
    ReauthenticationStarts(cfg, sm, if n == ReauthEapolNotice then s else RemovePtk(s), env);
  }

  /** A station that associates again starts a new handshake too; but a key that was valid stays valid. */
  lemma ReassociationStarts(cfg: Config, sm: Sm, env: Env)
    requires Good(cfg, sm) && sm.started && sm.suite.keyMgmt == Psk && cfg.psk.Some?
    ensures var s := Handle(cfg, sm, Associated, env);
      && s.state == PtkStart && s.timeoutCtr == 1 && s.keys.anonce == env.nonce && FirstOut(s.log, env.nonce)
      && s.keys.valid == sm.keys.valid && s.keys.installed == sm.keys.installed
  {
    hide Logged;
    hide Settle;
    ReauthenticationStarts(cfg, sm, Emit(sm.(replay := BLANK_REPLAY, req := sm.req.(reauth := true)), ReplayReset), env);
  }

  // ---- The timer ----

  /** In state `at`, a message goes out with the next counter, unless there is no buffer for it. */
  ghost predicate SentAgain(cfg: Config, sm: Sm, s: Sm, at: PtkState, msg: Message) {
    && s.state == at && s.timeoutCtr == sm.timeoutCtr + 1 && s.keys == sm.keys && !s.timeoutEvt
    && |s.log| == |sm.log| + 2 && s.log[..|sm.log| + 1] == sm.log + [Entered(at)]
    && s.log[|sm.log| + 1] ==
       if cfg.fault(|sm.log| + 1) == NoBuffer then SendFailed(msg)
       else Sent(msg, NextCounter(sm.replay.e0.counter), sm.keys.anonce, sm.keys.ptk, sm.keys.valid,
                 msg == Msg1 || (sm.keys.valid && cfg.fault(|sm.log| + 1) == NoFault))
  }

  /** While an answer is awaited, the timer has the message sent again, up to four attempts in all; then
      the station is given up. A second message that was found wanting counts as none. */
  lemma TimerResends(cfg: Config, sm: Sm, env: Env)
    requires Good(cfg, sm) && sm.started && sm.req == NO_REQUESTS
    requires sm.state == PtkStart || sm.state == PtkCalcNegotiating || sm.state == PtkInitNegotiating
    requires sm.timeoutCtr <= PAIRWISE_UPDATE_COUNT
    ensures var s := Handle(cfg, sm, TimerFired, env);
      if sm.timeoutCtr == PAIRWISE_UPDATE_COUNT then s.state == Initialize
      else if sm.state == PtkInitNegotiating then SentAgain(cfg, sm, s, PtkInitNegotiating, Msg3)
      else SentAgain(cfg, sm, s, PtkStart, Msg1)
  {
    hide Logged;
    hide EnterPtkStart;
    hide EnterPtkInitNegotiating;
    hide EnterPtkCalcNegotiating;
    hide EnterDisconnect;
    hide SentAgain;
    var t := sm.(timeoutEvt := true);
    SettleOnce(cfg, t, env);
    var u := t.(changed := false);
    if sm.state == PtkInitNegotiating {
      assert Step(cfg, u, env) == EnterPtkInitNegotiating(cfg, u);
      PtkInitNegotiatingCtl(cfg, u);
      ThirdSettles(cfg, u, env);
      if sm.timeoutCtr < PAIRWISE_UPDATE_COUNT { ThirdAgain(cfg, sm); }
    } else {
      assert Step(cfg, u, env) == EnterPtkStart(cfg, u);
      PtkStartCtl(cfg, u);
      StartSettles(cfg, u, env);
      if sm.timeoutCtr < PAIRWISE_UPDATE_COUNT { FirstAgain(cfg, sm, u); }
    }
  }

  lemma FirstAgain(cfg: Config, sm: Sm, u: Sm)
    requires u.started && u.timeoutCtr < PAIRWISE_UPDATE_COUNT
    requires u.log == sm.log && u.timeoutCtr == sm.timeoutCtr && u.keys == sm.keys && u.replay == sm.replay
    ensures SentAgain(cfg, sm, EnterPtkStart(cfg, u).(changed := false), PtkStart, Msg1)
  {
  }

  lemma ThirdAgain(cfg: Config, sm: Sm)
    requires sm.started && sm.state == PtkInitNegotiating && sm.timeoutCtr < PAIRWISE_UPDATE_COUNT
    ensures SentAgain(cfg, sm, EnterPtkInitNegotiating(cfg, sm.(timeoutEvt := true, changed := false)).(changed := false),
                      PtkInitNegotiating, Msg3)
  {
  }

  lemma ThirdSettles(cfg: Config, sm: Sm, env: Env)
    requires sm.started && !Response(sm) && sm.req == NO_REQUESTS
    ensures var p, s := EnterPtkInitNegotiating(cfg, sm), Settle(cfg, EnterPtkInitNegotiating(cfg, sm), env);
      if sm.timeoutCtr < PAIRWISE_UPDATE_COUNT then s == p.(changed := false) else s.state == Initialize
  {
    hide Send;
    hide EnterInitialize;
    hide EnterDisconnected;
    var p := EnterPtkInitNegotiating(cfg, sm);
    ThirdFields(cfg, sm);
    SettleOnce(cfg, p, env);
    if sm.timeoutCtr < PAIRWISE_UPDATE_COUNT {
      assert Step(cfg, p.(changed := false), env) == p.(changed := false);
    } else {
      var d := EnterDisconnect(p.(changed := false), env);
      assert Step(cfg, p.(changed := false), env) == d;
      if !env.found {
        SettleOnce(cfg, d, env);
        assert Step(cfg, d.(changed := false), env) == EnterDisconnected(d.(changed := false));
        DisconnectedFields(d.(changed := false));
        DisconnectedSettles(cfg, EnterDisconnected(d.(changed := false)), env);
      }
    }
  }

  lemma DisconnectedFields(sm: Sm)
    ensures var s := EnterDisconnected(sm);
      s.started == sm.started && s.state == Disconnected && s.req == sm.req.(deauth := false) && s.changed
  {
  }

  lemma ThirdFields(cfg: Config, sm: Sm)
    ensures var p := EnterPtkInitNegotiating(cfg, sm);
      && p == Renegotiated(sm).(replay := p.replay, log := p.log) && p.rx == sm.rx
  {
  }

  // ---- Requests ----

  /** The machine once the request `m` has been noted. */
  function Noted(sm: Sm, m: EapolKey): Sm {
    Emit(sm, Requested(m, sm.keys.ptk))
  }

  /** A request that counts, and that is kept: one for a pairwise key, or one that reports an error, gives the
      key up and starts a new handshake, or gives the station up when the attempts are used up. */
  lemma RequestRestarts(cfg: Config, sm: Sm, m: EapolKey, r: Reading, env: Env)
    requires Good(cfg, sm) && Taken(cfg, sm, m) && m.request && r.keepOk && (m.error || m.pairwise)
    ensures var s := Handle(cfg, sm, Received(m, r), env);
      if sm.timeoutCtr < PAIRWISE_UPDATE_COUNT
      then SentAgain(cfg, Noted(sm, m).(keys := sm.keys.(valid := false)), s, PtkStart, Msg1)
      else s.state == Initialize
  {
    hide Logged;
    hide Plausible;
    hide EnterPtkStart;
    hide SentAgain;
    var t := Credited(sm, m);
    assert Handle(cfg, sm, Received(m, r), env) == Settle(cfg, t, env) by { RequestSettles(cfg, sm, m, r, env); }
    SettleOnce(cfg, t, env);
    var u := t.(changed := false);
    assert sm.req == NO_REQUESTS;
    assert Step(cfg, u, env) == EnterPtkStart(cfg, u);
    PtkStartCtl(cfg, u);
    StartSettles(cfg, u, env);
    if sm.timeoutCtr < PAIRWISE_UPDATE_COUNT { FirstAgain(cfg, Noted(sm, m).(keys := sm.keys.(valid := false)), u); }
  }

  lemma RequestSettles(cfg: Config, sm: Sm, m: EapolKey, r: Reading, env: Env)
    requires Taken(cfg, sm, m) && m.request && r.keepOk
    ensures Handle(cfg, sm, Received(m, r), env) == Settle(cfg, Credited(sm, m), env)
  {
    hide Settle;
    hide Plausible;
    CreditKeepsRx(sm, m);
  }

  /** A request that counts but asks for a group key only changes nothing about the pairwise key. */
  lemma GroupRequestKeepsKey(cfg: Config, sm: Sm, m: EapolKey, r: Reading, env: Env)
    requires Good(cfg, sm) && Taken(cfg, sm, m) && m.request && r.keepOk && !m.error && !m.pairwise
    requires sm.state == PtkInitDone
    ensures var s := Handle(cfg, sm, Received(m, r), env);
      s.state == PtkInitDone && s.keys == sm.keys && s.log == sm.log + [Requested(m, sm.keys.ptk)]
  {
    hide Logged;
    hide Plausible;
    hide EnterPtkStart;
    var t := Credited(sm, m);
    RequestSettles(cfg, sm, m, r, env);
    SettleOnce(cfg, t, env);
    assert sm.req == NO_REQUESTS;
    assert Step(cfg, t.(changed := false), env) == t.(changed := false);
  }

  // ---- Second messages with another information element ----

  /** A second message that passes the checks before it, but whose information element is not the one of the
      association, costs the station its place. */
  lemma ForeignElement(cfg: Config, sm: Sm, m: EapolKey, r: Reading, env: Env)
    requires sm.started && Plausible(sm, m) && (sm.state == PtkStart || sm.state == PtkCalcNegotiating)
    requires !m.smk && !m.request && m.pairwise && m.keyDataLen != 0 && r.kdeOk && !r.ieOk && env.found
    ensures var s := Handle(cfg, sm, Received(m, r), env);
      s.log == sm.log + [Deauthenticated] + [Zeroed] && !s.started && !s.keys.valid
  {
    hide TakeKey;
    hide Plausible;
  }

  // ---- Stations without protection ----

  /** A station that associates without protection is told nothing: no message goes out. */
  lemma NoWpaSendsNothing(cfg: Config, sm: Sm, env: Env)
    requires Good(cfg, sm) && sm.started && sm.req == NO_REQUESTS
    ensures var s := Handle(cfg, Handle(cfg, sm, NoWpaAssociation, env), Associated, env);
      s.state == Authentication2 && s.log == sm.log + [ReplayReset] + [Renewed(env.nonce)]
  {
    hide Logged;
    var t := sm.(suite := sm.suite.(keyMgmt := NoMgmt), replay := BLANK_REPLAY, req := NO_REQUESTS.(reauth := true),
                 log := sm.log + [ReplayReset]);
    SettleOnce(cfg, t, env);
    var u := EnterAuthentication2(t.(changed := false), env);
    assert Step(cfg, t.(changed := false), env) == u;
    SettleOnce(cfg, u, env);
    assert Step(cfg, u.(changed := false), env) == u.(changed := false);
  }
}
