/**
 Which key is agreed on, and in what order requests for a new one are taken, in every run of the pairwise
 machine. The nonces come from the inputs and the log, the key from the configured one.
 */
module PtkKeys {
  import opened Common
  import opened PtkSpec
  import opened PtkLog
  import opened PtkInvariant
  import opened PtkTheorems

  // ---- Readings ----

  /** How the readings of a log follow it by one action. */
  lemma KeySnoc(cfg: Config, log: seq<Action>, a: Action)
    ensures LastRequest(log + [a]) ==
      if a.Requested? then Some(a.request.replay) else if ForgetsRequests(a) then None else LastRequest(log)
    ensures NonceOf(log + [a]) == if a.Renewed? then Some(a.taken) else if a == Zeroed then None else NonceOf(log)
    ensures LastAnswer(log + [a]) == if a.Accepted? then Some(a) else LastAnswer(log)
    ensures a != Entered(PtkCalcNegotiating) ==> Agreed(cfg, log + [a]) == if a == Zeroed then None else Agreed(cfg, log)
    ensures LogOk(cfg, Keying, log + [a]) <==> LogOk(cfg, Keying, log) && Keyed(cfg, log, a)
    ensures LogOk(cfg, Requesting, log + [a]) <==> LogOk(cfg, Requesting, log) && Orderly(cfg, log, a)
  {
    assert (log + [a])[..|log|] == log;
    Snoc(cfg, log, a);
    assert Justified(cfg, Keying, log, a) <==> Keyed(cfg, log, a);
    assert Justified(cfg, Requesting, log, a) <==> Orderly(cfg, log, a);
  }

  lemma AgreedNow(cfg: Config, log: seq<Action>, m: EapolKey, under: Option<Ptk>)
    requires cfg.psk.Some? && NonceOf(log).Some? && LastAnswer(log) == Some(Accepted(m, under))
    ensures Agreed(cfg, log + [Entered(PtkCalcNegotiating)]) ==
      if cfg.verify(KeyFrom(cfg, log, m), m) then Some(KeyFrom(cfg, log, m)) else under
  {
    assert (log + [Entered(PtkCalcNegotiating)])[..|log|] == log;
  }

  // ---- The invariant ----

  predicate InHandshake(s: PtkState) {
    s == PtkStart || s == PtkCalcNegotiating || s == PtkCalcNegotiating2 || s == PtkInitNegotiating || s == PtkInitDone
  }

  predicate Negotiates(s: PtkState) {
    s == PtkCalcNegotiating || s == PtkCalcNegotiating2 || s == PtkInitNegotiating
  }

  /** The readings of the log are what the machine holds. */
  ghost predicate Recorded(cfg: Config, sm: Sm) {
    && LogOk(cfg, Keying, sm.log) && LogOk(cfg, Requesting, sm.log)
    && (NonceOf(sm.log).Some? ==> sm.keys.anonce == NonceOf(sm.log).value)
    && LastRequest(sm.log) == (if sm.reqUsed then Some(sm.reqCounter) else None)
  }

  /** From PTKSTART on, and wherever a key is valid or asked for, the master key is the configured one and a
      nonce has been taken. */
  predicate Armed(cfg: Config, sm: Sm) {
    && (InHandshake(sm.state) || sm.keys.valid || sm.req.ptk ==>
          cfg.psk.Some? && sm.keys.pmk == cfg.psk.value && NonceOf(sm.log).Some?)
    && (sm.state == InitPsk && cfg.psk.Some? ==> sm.keys.pmk == cfg.psk.value)
    && (sm.state == Authentication2 || sm.state == InitPmk || sm.state == InitPsk ==> NonceOf(sm.log).Some?)
  }

  /** The second message still to be looked at is the answer accepted last, under the key then valid. */
  predicate Fresh(sm: Sm) {
    Response(sm) && (sm.state == PtkStart || sm.state == PtkCalcNegotiating) ==>
      && sm.rx.last.Some? && Classify(sm.rx.last.value) == Pairwise2 && sm.rx.nonce == sm.rx.last.value.nonce
      && LastAnswer(sm.log) == Some(Accepted(sm.rx.last.value, if sm.keys.valid then Some(sm.keys.ptk) else None))
  }

  ghost predicate KeysOk(cfg: Config, sm: Sm) {
    && Recorded(cfg, sm) && Armed(cfg, sm) && Fresh(sm)
    && (Negotiates(sm.state) && sm.keys.valid ==> Agreed(cfg, sm.log) == Some(sm.keys.ptk))
  }

  // ---- Entry actions ----

  /** An action that no reading but the log's order depends on. */
  predicate Neutral(a: Action) {
    && !a.Requested? && !a.Renewed? && !a.Accepted? && a != Zeroed && !ForgetsRequests(a)
    && a != Entered(PtkCalcNegotiating)
  }

  lemma NeutralKeeps(cfg: Config, sm: Sm, a: Action)
    requires Recorded(cfg, sm) && Neutral(a) && Keyed(cfg, sm.log, a)
    ensures Recorded(cfg, Emit(sm, a))
    ensures LastAnswer(sm.log + [a]) == LastAnswer(sm.log) && Agreed(cfg, sm.log + [a]) == Agreed(cfg, sm.log)
    ensures NonceOf(sm.log + [a]) == NonceOf(sm.log)
  {
    hide LogOk;
    hide LastRequest;
    hide NonceOf;
    hide LastAnswer;
    hide Agreed;
    KeySnoc(cfg, sm.log, a);
  }

  lemma RemovePtkRecords(cfg: Config, sm: Sm)
    requires Recorded(cfg, sm)
    ensures var s := RemovePtk(sm);
      && Recorded(cfg, s) && s == sm.(keys := s.keys, log := s.log)
      && s.keys.valid == sm.keys.valid && s.keys.pmk == sm.keys.pmk && s.keys.anonce == sm.keys.anonce
      && NonceOf(s.log) == NonceOf(sm.log)
  {
    hide LogOk;
    hide LastRequest;
    hide NonceOf;
    hide LastAnswer;
    hide Agreed;
    hide Keyed;
    if sm.keys.installed {
      var t := sm.(keys := sm.keys.(ptk := NoPtk, installed := false));
      assert Recorded(cfg, t);
      KeyRemovedKeyed(cfg, sm.log);
      NeutralKeeps(cfg, t, KeyRemoved);
      assert RemovePtk(sm) == Emit(t, KeyRemoved);
    }
  }

  lemma KeyRemovedKeyed(cfg: Config, log: seq<Action>)
    ensures Keyed(cfg, log, KeyRemoved)
  {
  }

  lemma InitializeKeys(cfg: Config, sm: Sm)
    requires KeysOk(cfg, sm) && !Response(sm)
    ensures KeysOk(cfg, EnterInitialize(sm))
  {
    hide LogOk;
    hide LastRequest;
    hide NonceOf;
    hide LastAnswer;
    hide Agreed;
    hide RemovePtk;
    NeutralKeeps(cfg, sm, Entered(Initialize));
    var s := Enter(sm, Initialize).(keys := sm.keys.(pair := true), timeoutCtr := 0);
    RemovePtkRecords(cfg, if sm.req.init then s.(changed := false) else s);
  }

  lemma ZeroedKeys(cfg: Config, log: seq<Action>, suite: Suite)
    requires LogOk(cfg, Keying, log) && LogOk(cfg, Requesting, log)
    ensures KeysOk(cfg, Blank(suite, log + [Zeroed]))
  {
    hide LogOk;
    hide LastRequest;
    hide NonceOf;
    hide LastAnswer;
    hide Agreed;
    KeySnoc(cfg, log, Zeroed);
  }

  lemma StaDisconnectKeys(cfg: Config, sm: Sm, env: Env)
    requires KeysOk(cfg, sm)
    ensures KeysOk(cfg, StaDisconnect(sm, env))
  {
    hide LogOk;
    hide LastRequest;
    hide NonceOf;
    hide LastAnswer;
    hide Agreed;
    KeySnoc(cfg, sm.log, Deauthenticated);
    ZeroedKeys(cfg, sm.log + [Deauthenticated], NO_SUITE);
  }

  lemma DisconnectKeys(cfg: Config, sm: Sm, env: Env)
    requires KeysOk(cfg, sm) && !Response(sm)
    ensures KeysOk(cfg, EnterDisconnect(sm, env))
  {
    hide LogOk;
    hide LastRequest;
    hide NonceOf;
    hide LastAnswer;
    hide Agreed;
    hide StaDisconnect;
    NeutralKeeps(cfg, sm, Entered(Disconnect));
    StaDisconnectKeys(cfg, Enter(sm, Disconnect).(req := sm.req.(disconnect := false)), env);
  }

  lemma DisconnectedKeys(cfg: Config, sm: Sm)
    requires KeysOk(cfg, sm) && !Response(sm)
    ensures KeysOk(cfg, EnterDisconnected(sm)) && KeysOk(cfg, EnterAuthentication(sm))
  {
    hide LogOk;
    hide LastRequest;
    hide NonceOf;
    hide LastAnswer;
    hide Agreed;
    NeutralKeeps(cfg, sm, Entered(Disconnected));
    NeutralKeeps(cfg, sm, Entered(Authentication));
  }

  lemma Authentication2Keys(cfg: Config, sm: Sm, env: Env)
    requires KeysOk(cfg, sm) && !Response(sm)
    ensures KeysOk(cfg, EnterAuthentication2(sm, env))
  {
    hide LogOk;
    hide LastRequest;
    hide NonceOf;
    hide LastAnswer;
    hide Agreed;
    KeySnoc(cfg, sm.log, Renewed(env.nonce));
  }

  lemma InitPmkPskKeys(cfg: Config, sm: Sm)
    requires KeysOk(cfg, sm) && !Response(sm) && sm.state == Authentication2
    ensures KeysOk(cfg, EnterInitPmk(sm)) && KeysOk(cfg, EnterInitPsk(cfg, sm))
  {
    hide LogOk;
    hide LastRequest;
    hide NonceOf;
    hide LastAnswer;
    hide Agreed;
    KeySnoc(cfg, sm.log, Entered(InitPmk));
    KeySnoc(cfg, sm.log, Entered(InitPsk));
  }

  lemma SendKeys(cfg: Config, sm: Sm, msg: Message)
    requires KeysOk(cfg, sm) && sm.started && InHandshake(sm.state)
    ensures KeysOk(cfg, Send(cfg, sm, msg))
  {
    hide LogOk;
    hide LastRequest;
    hide NonceOf;
    hide LastAnswer;
    hide Agreed;
    hide Send;
    var a := SendLogs(cfg, sm, msg);
    SendOnlyLogs(cfg, sm, msg);
    NeutralKeeps(cfg, sm, a);
  }

  lemma SendOnlyLogs(cfg: Config, sm: Sm, msg: Message)
    ensures var s := Send(cfg, sm, msg); s == sm.(replay := s.replay, log := s.log)
  {
  }

  lemma PtkStartKeys(cfg: Config, sm: Sm)
    requires Moving(cfg, sm) && KeysOk(cfg, sm)
    requires Response(sm) ==> sm.state == PtkStart
    requires sm.req.ptk || InHandshake(sm.state) || (sm.state == InitPsk && cfg.psk.Some?)
    ensures KeysOk(cfg, EnterPtkStart(cfg, sm))
  {
    hide Moving;
    hide Send;
    hide KeysOk;
    RestartedKeys(cfg, sm);
    MovingStarted(cfg, sm);
    if sm.timeoutCtr < PAIRWISE_UPDATE_COUNT { SendKeys(cfg, Restarted(sm), Msg1); }
  }

  lemma MovingStarted(cfg: Config, sm: Sm)
    requires Moving(cfg, sm)
    ensures sm.started
  {
  }

  lemma RestartedKeys(cfg: Config, sm: Sm)
    requires KeysOk(cfg, sm)
    requires Response(sm) ==> sm.state == PtkStart
    requires sm.req.ptk || InHandshake(sm.state) || (sm.state == InitPsk && cfg.psk.Some?)
    ensures KeysOk(cfg, Restarted(sm))
  {
    hide LogOk;
    hide LastRequest;
    hide NonceOf;
    hide LastAnswer;
    hide Agreed;
    NeutralKeeps(cfg, sm, Entered(PtkStart));
  }

  lemma CalcKeys(cfg: Config, sm: Sm)
    requires KeysOk(cfg, sm) && Response(sm) && (sm.state == PtkStart || sm.state == PtkCalcNegotiating)
    ensures KeysOk(cfg, EnterPtkCalcNegotiating(cfg, sm))
  {
    hide LogOk;
    hide LastRequest;
    hide NonceOf;
    hide LastAnswer;
    hide Agreed;
    hide Classify;
    var m, under := sm.rx.last.value, if sm.keys.valid then Some(sm.keys.ptk) else None;
    KeySnoc(cfg, sm.log, Entered(PtkCalcNegotiating));
    AgreedNow(cfg, sm.log, m, under);
  }

  lemma Calc2Keys(cfg: Config, sm: Sm)
    requires KeysOk(cfg, sm) && sm.state == PtkCalcNegotiating
    ensures KeysOk(cfg, EnterPtkCalcNegotiating2(sm))
  {
    hide LogOk;
    hide LastRequest;
    hide NonceOf;
    hide LastAnswer;
    hide Agreed;
    NeutralKeeps(cfg, sm, Entered(PtkCalcNegotiating2));
  }

  lemma InitNegotiatingKeys(cfg: Config, sm: Sm)
    requires KeysOk(cfg, sm) && sm.started && (sm.state == PtkCalcNegotiating2 || sm.state == PtkInitNegotiating)
    ensures KeysOk(cfg, EnterPtkInitNegotiating(cfg, sm))
  {
    hide Send;
    hide KeysOk;
    RenegotiatedKeys(cfg, sm);
    if sm.timeoutCtr < PAIRWISE_UPDATE_COUNT { SendKeys(cfg, Renegotiated(sm), Msg3); }
  }

  lemma RenegotiatedKeys(cfg: Config, sm: Sm)
    requires KeysOk(cfg, sm) && (sm.state == PtkCalcNegotiating2 || sm.state == PtkInitNegotiating)
    ensures KeysOk(cfg, Renegotiated(sm))
  {
    hide LogOk;
    hide LastRequest;
    hide NonceOf;
    hide LastAnswer;
    hide Agreed;
    NeutralKeeps(cfg, sm, Entered(PtkInitNegotiating));
  }

  lemma DoneKeys(cfg: Config, sm: Sm, env: Env)
    requires KeysOk(cfg, sm) && sm.state == PtkInitNegotiating && sm.keys.valid
    ensures KeysOk(cfg, EnterPtkInitDone(sm, env))
  {
    hide LogOk;
    hide LastRequest;
    hide NonceOf;
    hide LastAnswer;
    hide Agreed;
    var s := Enter(sm, PtkInitDone).(rx := sm.rx.(received := false));
    NeutralKeeps(cfg, sm, Entered(PtkInitDone));
    NeutralKeeps(cfg, s, KeyInstalled(sm.keys.ptk));
    NeutralKeeps(cfg, s, Authorized);
    NeutralKeeps(cfg, Emit(s.(keys := sm.keys.(installed := true)), KeyInstalled(sm.keys.ptk)), Authorized);
  }

  // ---- Steps ----

  lemma StateStepKeys(cfg: Config, sm: Sm, env: Env)
    requires Moving(cfg, sm) && KeysOk(cfg, sm) && sm.req == NO_REQUESTS
    ensures KeysOk(cfg, StateStep(cfg, sm, env))
  {
    hide Logged;
    hide KeysOk;
    hide EnterInitialize;
    hide EnterDisconnect;
    hide EnterDisconnected;
    hide EnterAuthentication2;
    hide EnterInitPmk;
    hide EnterInitPsk;
    hide EnterPtkStart;
    hide EnterPtkCalcNegotiating;
    hide EnterPtkCalcNegotiating2;
    hide EnterPtkInitNegotiating;
    hide EnterPtkInitDone;
    match sm.state
    case Initialize =>
    case Disconnect => DisconnectedKeys(cfg, sm);
    case Disconnected => InitializeKeys(cfg, sm);
    case Authentication => Authentication2Keys(cfg, sm, env);
    case Authentication2 => InitPmkPskKeys(cfg, sm);
    case InitPmk => DisconnectKeys(cfg, sm, env);
    case InitPsk =>
      DisconnectKeys(cfg, sm, env);
      if cfg.psk.Some? { PtkStartKeys(cfg, sm); }
    case PtkStart =>
      if Response(sm) {
        CalcKeys(cfg, sm);
      } else {
        DisconnectKeys(cfg, sm, env);
        PtkStartKeys(cfg, sm);
      }
    case PtkCalcNegotiating =>
      Calc2Keys(cfg, sm);
      if Response(sm) { CalcKeys(cfg, sm); } else { PtkStartKeys(cfg, sm); }
    case PtkCalcNegotiating2 => InitNegotiatingKeys(cfg, sm);
    case PtkInitNegotiating =>
      InitNegotiatingKeys(cfg, sm);
      if Response(sm) { DoneKeys(cfg, sm, env); } else { DisconnectKeys(cfg, sm, env); }
    case PtkInitDone =>
  }

  lemma StepKeys(cfg: Config, sm: Sm, env: Env)
    requires Moving(cfg, sm) && KeysOk(cfg, sm)
    ensures KeysOk(cfg, Step(cfg, sm, env))
  {
    hide Logged;
    hide KeysOk;
    hide EnterDisconnect;
    hide EnterDisconnected;
    hide EnterAuthentication;
    hide EnterAuthentication2;
    hide EnterPtkStart;
    hide StateStep;
    if sm.req == NO_REQUESTS {
      StateStepKeys(cfg, sm, env);
    } else if sm.req == KEY_REQUEST {
      PtkStartKeys(cfg, sm);
    } else {
      DisconnectKeys(cfg, sm, env);
      DisconnectedKeys(cfg, sm);
      Authentication2Keys(cfg, sm, env);
    }
  }

  lemma {:induction false} SettleKeys(cfg: Config, sm: Sm, env: Env)
    requires Moving(cfg, sm) && KeysOk(cfg, sm)
    ensures KeysOk(cfg, Settle(cfg, sm, env))
    decreases Asked(sm.req), Happened(sm), Rank(sm.state)
  {
    hide Step;
    hide Good;
    hide LogOk;
    hide Window;
    hide Attempts;
    hide LastRequest;
    hide NonceOf;
    hide LastAnswer;
    hide Agreed;
    var s := sm.(changed := false);
    assert Moving(cfg, s) && KeysOk(cfg, s);
    StepKeeps(cfg, s, env);
    StepKeys(cfg, s, env);
    StepShrinks(cfg, s, env);
    var next := Step(cfg, s, env);
    if next.changed {
      ChangedStarted(cfg, next);
      SettleKeys(cfg, next, env);
    }
  }

  // ---- Handlers ----

  lemma AssociatedKeys(cfg: Config, sm: Sm, env: Env)
    requires Good(cfg, sm) && KeysOk(cfg, sm)
    ensures KeysOk(cfg, StaAssociated(cfg, sm, env))
  {
    hide Step;
    hide Good;
    hide Moving;
    hide KeysOk;
    hide RemovePtk;
    if sm.started {
      ReassociatedMoving(cfg, sm);
      ReassociatedKeys(cfg, sm);
      SettleKeys(cfg, Emit(sm.(replay := BLANK_REPLAY, req := sm.req.(reauth := true)), ReplayReset), env);
    } else {
      FirstInitialize(cfg, sm, env);
      FirstKeys(cfg, sm, env);
      var s := Settle(cfg, sm.(started := true, req := sm.req.(init := true)), env);
      SettleKeys(cfg, s.(req := s.req.(init := false, auth := true)), env);
    }
  }

  lemma ReassociatedKeys(cfg: Config, sm: Sm)
    requires Good(cfg, sm) && sm.started && KeysOk(cfg, sm)
    ensures KeysOk(cfg, Emit(sm.(replay := BLANK_REPLAY, req := sm.req.(reauth := true)), ReplayReset))
  {
    hide LogOk;
    hide LastRequest;
    hide NonceOf;
    hide LastAnswer;
    hide Agreed;
    hide Logged;
    NeutralKeeps(cfg, sm, ReplayReset);
  }

  lemma FirstKeys(cfg: Config, sm: Sm, env: Env)
    requires Good(cfg, sm) && !sm.started && KeysOk(cfg, sm)
    ensures var s := Settle(cfg, sm.(started := true, req := sm.req.(init := true)), env);
      KeysOk(cfg, s.(req := s.req.(init := false, auth := true)))
  {
    hide LogOk;
    hide LastRequest;
    hide NonceOf;
    hide LastAnswer;
    hide Agreed;
    hide EnterInitialize;
    var t := sm.(started := true, req := sm.req.(init := true));
    var first := t.(changed := false);
    InitializeKeys(cfg, first);
    InitializeCtl(first);
    assert Settle(cfg, t, env) == EnterInitialize(first);
  }

  lemma NoticeKeys(cfg: Config, sm: Sm, n: Notice)
    requires Good(cfg, sm) && sm.started && KeysOk(cfg, sm)
    ensures KeysOk(cfg, Noticed(sm, n)) && KeysOk(cfg, RemovePtk(Noticed(sm, n)))
  {
    hide LogOk;
    hide LastRequest;
    hide NonceOf;
    hide LastAnswer;
    hide Agreed;
    hide Logged;
    hide RemovePtk;
    RemovePtkRecords(cfg, Noticed(sm, n));
  }

  lemma CreditKeys(cfg: Config, sm: Sm, m: EapolKey)
    requires Resting(cfg, sm) && Taken(cfg, sm, m) && KeysOk(cfg, sm)
    ensures KeysOk(cfg, Credited(sm, m)) && KeysOk(cfg, Uncredited(sm, m))
  {
    hide KeysOk;
    hide Moving;
    hide Credit;
    hide Taken;
    if m.request { RequestKeys(cfg, sm, m); } else { AnswerKeys(cfg, sm, m); }
  }

  lemma RequestKeys(cfg: Config, sm: Sm, m: EapolKey)
    requires !Response(sm) && Taken(cfg, sm, m) && KeysOk(cfg, sm) && m.request
    ensures KeysOk(cfg, Credited(sm, m)) && KeysOk(cfg, Uncredited(sm, m))
  {
    hide LogOk;
    hide LastRequest;
    hide NonceOf;
    hide LastAnswer;
    hide Agreed;
    hide Pending;
    hide InPlace;
    hide Classify;
    KeySnoc(cfg, sm.log, Requested(m, sm.keys.ptk));
  }

  lemma AnswerKeys(cfg: Config, sm: Sm, m: EapolKey)
    requires !Response(sm) && Taken(cfg, sm, m) && KeysOk(cfg, sm) && !m.request
    ensures KeysOk(cfg, Credited(sm, m)) && KeysOk(cfg, Uncredited(sm, m))
  {
    hide LogOk;
    hide LastRequest;
    hide NonceOf;
    hide LastAnswer;
    hide Agreed;
    hide Pending;
    hide Plausible;
    KeySnoc(cfg, sm.log, Accepted(m, if sm.keys.valid then Some(sm.keys.ptk) else None));
  }

  lemma ReceiveKeys(cfg: Config, sm: Sm, m: EapolKey, r: Reading, env: Env)
    requires Good(cfg, sm) && KeysOk(cfg, sm)
    ensures KeysOk(cfg, Receive(cfg, sm, m, r, env))
  {
    hide Logged;
    hide Settle;
    hide Credit;
    hide Plausible;
    hide InPlace;
    hide Classify;
    hide KeysOk;
    hide StaDisconnect;
    StaDisconnectKeys(cfg, sm, env);
    UnverifiedKeys(cfg, sm);
    if Taken(cfg, sm, m) {
      CreditMoving(cfg, sm, m);
      CreditKeys(cfg, sm, m);
      CreditKeepsRx(sm, m);
      SettleKeys(cfg, Credited(sm, m), env);
    }
  }

  lemma UnverifiedKeys(cfg: Config, sm: Sm)
    requires KeysOk(cfg, sm)
    ensures KeysOk(cfg, sm.(micVerified := false)) && KeysOk(cfg, StaNoWpa(sm)) && KeysOk(cfg, sm.(timeoutEvt := true))
  {
    hide LogOk;
    hide LastRequest;
    hide NonceOf;
    hide LastAnswer;
    hide Agreed;
  }

  lemma KeyLogs(cfg: Config, sm: Sm)
    requires KeysOk(cfg, sm)
    ensures LogOk(cfg, Keying, sm.log) && LogOk(cfg, Requesting, sm.log)
  {
  }

  lemma HandleKeys(cfg: Config, sm: Sm, e: Event, env: Env)
    requires Good(cfg, sm) && KeysOk(cfg, sm)
    ensures KeysOk(cfg, Handle(cfg, sm, e, env))
  {
    hide Good;
    hide KeysOk;
    hide StaAssociated;
    hide Receive;
    hide Settle;
    hide RemovePtk;
    hide LogOk;
    KeyLogs(cfg, sm);
    UnverifiedKeys(cfg, sm);
    match e
    case Init(suite) => ZeroedKeys(cfg, sm.log, suite);
    case Associated => AssociatedKeys(cfg, sm, env);
    case Received(m, r) => ReceiveKeys(cfg, sm, m, r, env);
    case TimerFired =>
      if sm.started {
        TimedMoving(cfg, sm);
        SettleKeys(cfg, sm.(timeoutEvt := true), env);
      }
    case Notified(n) =>
      if sm.started {
        NoticeMoving(cfg, sm, n);
        NoticeKeys(cfg, sm, n);
        SettleKeys(cfg, if n == ReauthEapolNotice then Noticed(sm, n) else RemovePtk(Noticed(sm, n)), env);
      }
    case NoWpaAssociation =>
    case StationFreed => ZeroedKeys(cfg, sm.log, NO_SUITE);
  }

  lemma TimedMoving(cfg: Config, sm: Sm)
    requires Good(cfg, sm) && sm.started
    ensures Moving(cfg, sm.(timeoutEvt := true))
  {
    hide LogOk;
    hide Window;
    hide Attempts;
  }

  // ---- Runs ----

  lemma {:induction false} EveryRunKeysOk(cfg: Config, inputs: seq<Input>)
    ensures Good(cfg, Run(cfg, inputs)) && KeysOk(cfg, Run(cfg, inputs))
    decreases |inputs|
  {
    hide Handle;
    hide Good;
    if inputs == [] {
      PowerUpGood(cfg, Replays);
    } else {
      hide KeysOk;
      var front, last := inputs[..|inputs| - 1], inputs[|inputs| - 1];
      EveryRunKeysOk(cfg, front);
      HandleGood(cfg, Run(cfg, front), last.event, last.env);
      HandleKeys(cfg, Run(cfg, front), last.event, last.env);
    }
  }
}
