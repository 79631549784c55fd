/**
 What holds of every run of the pairwise machine: accepted counters are fresh and increase, attempts are
 bounded, and a key is installed only at the end of a handshake; the last under a condition on the
 requests that get lost, which is shown to be exact.
 */
module PtkTheorems {
  import opened Common
  import opened PtkSpec
  import opened PtkLog
  import opened PtkInvariant

  // ---- What can go wrong ----

  /** The input is an authentic request for a new key, and there is no room to keep a copy of it. */
  predicate Forgets(cfg: Config, sm: Sm, e: Event) {
    && e.Received? && !e.reading.keepOk && e.key.request && (e.key.error || e.key.pairwise)
    && sm.started && Plausible(sm, e.key) && InPlace(sm, e.key) && !e.key.ack && e.key.mic
    && sm.keys.valid && cfg.verify(sm.keys.ptk, e.key)
  }

  /** The inputs that put an aspect at risk: a request forgotten while a second message is awaited. With an
      attempt left and a buffer for it the handshake is at risk, with none left the retry limit. */
  predicate Breaks(cfg: Config, x: Aspect, sm: Sm, e: Event) {
    match x
    case Retries => Forgets(cfg, sm, e) && AwaitsSecond(sm) && sm.timeoutCtr >= PAIRWISE_UPDATE_COUNT
    case Handshake => Forgets(cfg, sm, e) && AwaitsSecond(sm) && !NoFirstNow(cfg, sm, 3)
    case _ => false
  }

  ghost predicate NeverBreaks(cfg: Config, x: Aspect, sm: Sm, inputs: seq<Input>) {
    forall n | 0 <= n < |inputs| :: !Breaks(cfg, x, RunFrom(cfg, sm, inputs[..n]), inputs[n].event)
  }

  /** What is promised about a machine between calls. */
  ghost predicate InOrder(cfg: Config, x: Aspect, sm: Sm) {
    && (x == Replays || x == Handshake ==> LogOk(cfg, x, sm.log))
    && (x == Retries ==> sm.timeoutCtr <= PAIRWISE_UPDATE_COUNT)
  }

  /** What that takes. */
  ghost predicate Safe(cfg: Config, x: Aspect, sm: Sm) {
    match x
    case Retries => LimitedAtRest(sm)
    case Handshake => HonestAtRest(cfg, sm)
    case _ => true
  }

  // ---- Handlers ----

  ghost predicate HandledWell(cfg: Config, sm: Sm, e: Event, s: Sm) {
    && Good(cfg, s)
    && (LimitedAtRest(sm) && !Breaks(cfg, Retries, sm, e) ==> LimitedAtRest(s))
    && (HonestAtRest(cfg, sm) && !Breaks(cfg, Handshake, sm, e) ==> HonestAtRest(cfg, s))
  }

  lemma GoodLogs(cfg: Config, sm: Sm)
    requires Good(cfg, sm)
    ensures LogOk(cfg, Replays, sm.log) && LogOk(cfg, Retries, sm.log)
    ensures HonestAtRest(cfg, sm) ==> LogOk(cfg, Handshake, sm.log)
  {
    hide LogOk;
    hide Window;
    hide Attempts;
  }

  lemma AssociatedGood(cfg: Config, sm: Sm, env: Env)
    requires Good(cfg, sm)
    ensures HandledWell(cfg, sm, Associated, StaAssociated(cfg, sm, env))
  {
    hide Window;
    hide LogOk;
    hide Attempts;
    hide Step;
    hide Good;
    hide HonestAtRest;
    hide LimitedAtRest;
    if sm.started {
      var s := Emit(sm.(replay := BLANK_REPLAY, req := sm.req.(reauth := true)), ReplayReset);
      ReassociatedMoving(cfg, sm);
      SettleRests(cfg, s, env);
    } else {
      FirstInitialize(cfg, sm, env);
      var s := Settle(cfg, sm.(started := true, req := sm.req.(init := true)), env);
      SettleRests(cfg, s.(req := s.req.(init := false, auth := true)), env);
    }
  }

  lemma ReassociatedMoving(cfg: Config, sm: Sm)
    requires Good(cfg, sm) && sm.started
    ensures var s := Emit(sm.(replay := BLANK_REPLAY, req := sm.req.(reauth := true)), ReplayReset);
      && Moving(cfg, s)
      && (LimitedAtRest(sm) ==> Limited(s))
      && (HonestAtRest(cfg, sm) ==> Honest(cfg, s))
  {
    hide Window;
    hide LogOk;
    hide Attempts;
    hide Negotiated;
    hide FourthAccepted;
    Snoc(cfg, sm.log, ReplayReset);
  }

  lemma FirstInitialize(cfg: Config, sm: Sm, env: Env)
    requires Good(cfg, sm) && !sm.started
    ensures var s := Settle(cfg, sm.(started := true, req := sm.req.(init := true)), env);
            var t := s.(req := s.req.(init := false, auth := true));
      Moving(cfg, t) && Limited(t) && (HonestAtRest(cfg, sm) ==> Honest(cfg, t))
  {
    hide Window;
    hide LogOk;
    hide Attempts;
    hide EnterInitialize;
    var t := sm.(started := true, req := sm.req.(init := true));
    var first := t.(changed := false);
    InitializeKeeps(cfg, first);
    InitializeCtl(first);
    assert Settle(cfg, t, env) == EnterInitialize(first);
  }

  lemma TimeoutGood(cfg: Config, sm: Sm, env: Env)
    requires Good(cfg, sm)
    ensures HandledWell(cfg, sm, TimerFired, Timeout(cfg, sm, env))
  {
    hide LogOk;
    hide Window;
    hide Attempts;
    hide Negotiated;
    hide Settle;
    if sm.started {
      SettleRests(cfg, sm.(timeoutEvt := true), env);
    }
  }

  function Noticed(sm: Sm, n: Notice): Sm {
    var req := match n
      case DeauthNotice => sm.req.(deauth := true)
      case DisassocNotice => sm.req.(deauth := true)
      case ReauthNotice => sm.req.(reauth := true)
      case ReauthEapolNotice => sm.req.(reauth := true)
      case _ => sm.req;
    sm.(req := req, keys := sm.keys.(ptk := NoPtk, valid := false))
  }

  lemma SmEventGood(cfg: Config, sm: Sm, n: Notice, env: Env)
    requires Good(cfg, sm)
    ensures HandledWell(cfg, sm, Notified(n), SmEvent(cfg, sm, n, env))
  {
    hide LogOk;
    hide Window;
    hide Attempts;
    hide Settle;
    hide RemovePtk;
    hide Negotiated;
    hide FourthAccepted;
    hide HonestAtRest;
    hide LimitedAtRest;
    hide Good;
    if sm.started {
      var s := Noticed(sm, n);
      NoticeMoving(cfg, sm, n);
      SettleRests(cfg, if n == ReauthEapolNotice then s else RemovePtk(s), env);
    } else {
      assert SmEvent(cfg, sm, n, env) == sm;
    }
  }

  lemma NoticeMoving(cfg: Config, sm: Sm, n: Notice)
    requires Good(cfg, sm) && sm.started
    ensures var s := Noticed(sm, n);
      && Moving(cfg, s) && Moving(cfg, RemovePtk(s))
      && (LimitedAtRest(sm) ==> Limited(s) && Limited(RemovePtk(s)))
      && (HonestAtRest(cfg, sm) ==> Honest(cfg, s) && Honest(cfg, RemovePtk(s)))
  {
    hide LogOk;
    hide Window;
    hide Attempts;
    hide RemovePtk;
    hide Negotiated;
    hide FourthAccepted;
    var s := Noticed(sm, n);
    assert Logged(cfg, s);
    RemovePtkKeeps(cfg, s);
  }

  function Credited(sm: Sm, m: EapolKey): Sm {
    Credit(sm, m).(rx := Rx(true, m.pairwise, m.request, Some(m), m.nonce))
  }

  function Uncredited(sm: Sm, m: EapolKey): Sm {
    Credit(sm, m).(rx := sm.rx.(last := None))
  }

  /** The frame passes every check of `wpa_receive` and changes the machine. */
  predicate Taken(cfg: Config, sm: Sm, m: EapolKey) {
    && sm.started && Plausible(sm, m) && InPlace(sm, m) && !m.ack && m.mic
    && (sm.keys.valid ==> cfg.verify(sm.keys.ptk, m)) && (m.request ==> sm.keys.valid)
  }

  /** Where a frame that is taken finds the machine. */
  lemma TakenWhere(cfg: Config, sm: Sm, m: EapolKey)
    requires Taken(cfg, sm, m)
    ensures !m.request ==> Pending(sm.replay, m.replay) && sm.replay.e0.valid
    ensures !m.request && m.pairwise ==>
      || sm.state == PtkStart || sm.state == PtkCalcNegotiating
      || (sm.state == PtkInitNegotiating && sm.keys.valid && Classify(m) == Pairwise4)
  {
  }

  /** Accepting a frame keeps the invariant, and leaves a response only where one is awaited. */
  lemma CreditMoving(cfg: Config, sm: Sm, m: EapolKey)
    requires Resting(cfg, sm) && Taken(cfg, sm, m)
    ensures Moving(cfg, Credited(sm, m)) && Resting(cfg, Uncredited(sm, m))
  {
    hide LogOk;
    hide Window;
    hide Attempts;
    hide Plausible;
    hide InPlace;
    hide Classify;
    hide Pending;
    hide Logged;
    TakenWhere(cfg, sm, m);
    CreditLogged(cfg, sm, m);
  }

  lemma CreditLogged(cfg: Config, sm: Sm, m: EapolKey)
    requires Logged(cfg, sm) && Taken(cfg, sm, m)
    ensures Logged(cfg, Credited(sm, m)) && Logged(cfg, Uncredited(sm, m))
  {
    hide LogOk;
    hide Window;
    hide Attempts;
    hide Plausible;
    hide InPlace;
    hide Pending;
    TakenWhere(cfg, sm, m);
    if m.request {
      Snoc(cfg, sm.log, Requested(m, sm.keys.ptk));
    } else {
      Snoc(cfg, sm.log, Accepted(m, if sm.keys.valid then Some(sm.keys.ptk) else None));
    }
  }

  lemma CreditLimited(cfg: Config, sm: Sm, m: EapolKey)
    requires Resting(cfg, sm) && Taken(cfg, sm, m) && LimitedAtRest(sm)
    ensures Limited(Credited(sm, m))
    ensures LimitedAtRest(Uncredited(sm, m)) <==>
      !(m.request && (m.error || m.pairwise) && AwaitsSecond(sm) && sm.timeoutCtr >= PAIRWISE_UPDATE_COUNT)
  {
    hide Logged;
  }

  lemma CreditHonest(cfg: Config, sm: Sm, m: EapolKey)
    requires Resting(cfg, sm) && Taken(cfg, sm, m) && HonestAtRest(cfg, sm)
    ensures Honest(cfg, Credited(sm, m))
    ensures HonestAtRest(cfg, Uncredited(sm, m)) <==>
      !(m.request && (m.error || m.pairwise) && AwaitsSecond(sm) && !NoFirstNow(cfg, sm, 3))
  {
    hide LogOk;
    hide Window;
    hide Attempts;
    hide Negotiated;
    hide FourthAccepted;
    hide Plausible;
    hide InPlace;
    hide Classify;
    hide Logged;
    TakenWhere(cfg, sm, m);
    if m.request {
      RequestHonest(cfg, sm, m);
    } else {
      AnswerHonest(cfg, sm, m);
    }
  }

  lemma RequestHonest(cfg: Config, sm: Sm, m: EapolKey)
    requires Resting(cfg, sm) && sm.keys.valid && HonestAtRest(cfg, sm) && m.request
    ensures Honest(cfg, Credited(sm, m))
    ensures HonestAtRest(cfg, Uncredited(sm, m)) <==>
      !((m.error || m.pairwise) && AwaitsSecond(sm) && !NoFirstNow(cfg, sm, 3))
  {
    hide LogOk;
    hide Window;
    hide Attempts;
    hide Negotiated;
    hide FourthAccepted;
    hide Logged;
    hide Pending;
    var a := Requested(m, sm.keys.ptk);
    Snoc(cfg, sm.log, a);
    forall c | Pending(sm.replay, c) && sm.state == PtkInitNegotiating
      ensures Negotiated(sm.log + [a], c, sm.keys.ptk)
    {
      NegotiatedSnoc(sm.log, a, c, sm.keys.ptk);
    }
  }

  lemma AnswerHonest(cfg: Config, sm: Sm, m: EapolKey)
    requires Resting(cfg, sm) && HonestAtRest(cfg, sm) && !m.request
    requires Pending(sm.replay, m.replay) && sm.replay.e0.valid
    requires m.pairwise ==>
      || sm.state == PtkStart || sm.state == PtkCalcNegotiating
      || (sm.state == PtkInitNegotiating && sm.keys.valid && Classify(m) == Pairwise4)
    ensures Honest(cfg, Credited(sm, m)) && HonestAtRest(cfg, Uncredited(sm, m))
  {
    hide LogOk;
    hide Window;
    hide Attempts;
    hide Negotiated;
    hide FourthAccepted;
    hide Logged;
    hide Classify;
    var a := Accepted(m, if sm.keys.valid then Some(sm.keys.ptk) else None);
    Snoc(cfg, sm.log, a);
    NegotiatedSnoc(sm.log, a, m.replay, sm.keys.ptk);
  }

  lemma ReceiveGood(cfg: Config, sm: Sm, m: EapolKey, r: Reading, env: Env)
    requires Good(cfg, sm)
    ensures HandledWell(cfg, sm, Received(m, r), Receive(cfg, sm, m, r, env))
  {
    hide LogOk;
    hide Window;
    hide Attempts;
    hide Logged;
    hide Settle;
    hide Credit;
    hide Plausible;
    hide InPlace;
    hide Classify;
    hide Honest;
    hide Limited;
    if sm.started && Plausible(sm, m) && InPlace(sm, m) {
      GoodLogs(cfg, sm);
      if env.found { StaDisconnectZeroes(cfg, sm, env); }
      if (sm.keys.valid && !cfg.verify(sm.keys.ptk, m)) || (!sm.keys.valid && m.request) {
        UnverifiedGood(cfg, sm);
      } else if !m.ack && m.mic {
        TakenGood(cfg, sm, m, r, env);
      }
    }
  }

  lemma TakenGood(cfg: Config, sm: Sm, m: EapolKey, r: Reading, env: Env)
    requires Good(cfg, sm) && Taken(cfg, sm, m)
    ensures HandledWell(cfg, sm, Received(m, r), TakeKey(cfg, sm, m, r, env))
  {
    hide LogOk;
    hide Window;
    hide Attempts;
    hide Moving;
    hide Settle;
    hide Credit;
    hide Plausible;
    hide InPlace;
    hide Classify;
    hide Honest;
    hide HonestAtRest;
    hide LimitedAtRest;
    hide Limited;
    CreditMoving(cfg, sm, m);
    CreditKeepsRx(sm, m);
    if LimitedAtRest(sm) { CreditLimited(cfg, sm, m); }
    if HonestAtRest(cfg, sm) { CreditHonest(cfg, sm, m); }
    SettleRests(cfg, Credited(sm, m), env);
  }

  lemma UnverifiedGood(cfg: Config, sm: Sm)
    requires Good(cfg, sm) && sm.started
    ensures var s := sm.(micVerified := false);
      && Good(cfg, s) && (LimitedAtRest(sm) ==> LimitedAtRest(s)) && (HonestAtRest(cfg, sm) ==> HonestAtRest(cfg, s))
  {
    hide LogOk;
    hide Window;
    hide Attempts;
    hide Negotiated;
  }

  lemma CreditKeepsRx(sm: Sm, m: EapolKey)
    ensures Credit(sm, m).rx == sm.rx && Credit(sm, m).started == sm.started
  {
  }

  lemma NoWpaGood(cfg: Config, sm: Sm)
    requires Good(cfg, sm)
    ensures HandledWell(cfg, sm, NoWpaAssociation, StaNoWpa(sm))
  {
    hide LogOk;
    hide Window;
    hide Attempts;
    hide Negotiated;
  }

  /** Every handler restores the invariant; and it keeps the retry limit and the handshake in order unless
      it forgets a request at the wrong moment. */
  lemma HandleGood(cfg: Config, sm: Sm, e: Event, env: Env)
    requires Good(cfg, sm)
    ensures HandledWell(cfg, sm, e, Handle(cfg, sm, e, env))
  {
    hide Idle;
    hide Resting;
    hide StaAssociated;
    hide Receive;
    hide Timeout;
    hide SmEvent;
    hide HonestAtRest;
    hide LimitedAtRest;
    hide LogOk;
    match e
    case Init(suite) =>
      GoodLogs(cfg, sm);
      ZeroedIdle(cfg, sm.log, suite);
    case Associated => AssociatedGood(cfg, sm, env);
    case Received(m, r) => ReceiveGood(cfg, sm, m, r, env);
    case TimerFired => TimeoutGood(cfg, sm, env);
    case Notified(n) => SmEventGood(cfg, sm, n, env);
    case NoWpaAssociation => NoWpaGood(cfg, sm);
    case StationFreed =>
      GoodLogs(cfg, sm);
      ZeroedIdle(cfg, sm.log, NO_SUITE);
  }

  // ---- Runs ----

  lemma PowerUpGood(cfg: Config, x: Aspect)
    ensures Good(cfg, POWER_UP) && Safe(cfg, x, POWER_UP)
  {
  }

  lemma NeverBreaksFront(cfg: Config, x: Aspect, sm: Sm, inputs: seq<Input>)
    requires NeverBreaks(cfg, x, sm, inputs) && inputs != []
    ensures NeverBreaks(cfg, x, sm, inputs[..|inputs| - 1])
    ensures !Breaks(cfg, x, RunFrom(cfg, sm, inputs[..|inputs| - 1]), inputs[|inputs| - 1].event)
  {
    hide Breaks;
    hide RunFrom;
    var front := inputs[..|inputs| - 1];
    forall n | 0 <= n < |front|
      ensures !Breaks(cfg, x, RunFrom(cfg, sm, front[..n]), front[n].event)
    {
      assert front[..n] == inputs[..n];
      assert !Breaks(cfg, x, RunFrom(cfg, sm, inputs[..n]), inputs[n].event);
    }
    var k := |inputs| - 1;
    assert !Breaks(cfg, x, RunFrom(cfg, sm, inputs[..k]), inputs[k].event);
  }

  lemma {:induction false} RunKeeps(cfg: Config, x: Aspect, sm: Sm, inputs: seq<Input>)
    requires Good(cfg, sm)
    ensures Good(cfg, RunFrom(cfg, sm, inputs))
    ensures Safe(cfg, x, sm) && NeverBreaks(cfg, x, sm, inputs) ==> Safe(cfg, x, RunFrom(cfg, sm, inputs))
    decreases |inputs|
  {
    hide Handle;
    hide Good;
    hide HonestAtRest;
    hide LimitedAtRest;
    hide Breaks;
    hide NeverBreaks;
    if inputs != [] {
      var front, last := inputs[..|inputs| - 1], inputs[|inputs| - 1];
      RunKeeps(cfg, x, sm, front);
      HandleGood(cfg, RunFrom(cfg, sm, front), last.event, last.env);
      if NeverBreaks(cfg, x, sm, inputs) {
        NeverBreaksFront(cfg, x, sm, inputs);
      }
    }
  }

  lemma SafeInOrder(cfg: Config, x: Aspect, sm: Sm)
    requires Good(cfg, sm) && Safe(cfg, x, sm)
    ensures InOrder(cfg, x, sm)
  {
    hide LogOk;
    hide Good;
    hide Resting;
    GoodLogs(cfg, sm);
  }

  /** Every machine reached by any run is in order: between calls no response waits, a machine still
      checking the second message has neither a valid key nor a verified integrity code, and counters and
      attempts are justified throughout the log. */
  lemma EveryRunIsGood(cfg: Config, inputs: seq<Input>)
    ensures Good(cfg, Run(cfg, inputs))
    ensures LogOk(cfg, Replays, Run(cfg, inputs).log) && LogOk(cfg, Retries, Run(cfg, inputs).log)
  {
    hide RunFrom;
    hide Good;
    hide LogOk;
    PowerUpGood(cfg, Replays);
    RunKeeps(cfg, Replays, POWER_UP, inputs);
    GoodLogs(cfg, Run(cfg, inputs));
  }

  lemma UnbrokenRunInOrder(cfg: Config, x: Aspect, inputs: seq<Input>)
    requires NeverBreaks(cfg, x, POWER_UP, inputs)
    ensures InOrder(cfg, x, Run(cfg, inputs))
  {
    hide RunFrom;
    hide Good;
    hide LogOk;
    hide Safe;
    PowerUpGood(cfg, x);
    RunKeeps(cfg, x, POWER_UP, inputs);
    SafeInOrder(cfg, x, Run(cfg, inputs));
  }

  /** In every run, each accepted answer echoes a message built after the previous acceptance: see
      PtkLog.AcceptedWasSentSince for when that message went out. */
  lemma RunAcceptsFreshCounters(cfg: Config, inputs: seq<Input>, k: nat) returns (j: nat)
    requires k < |Run(cfg, inputs).log| && Run(cfg, inputs).log[k].Accepted?
    ensures var log := Run(cfg, inputs).log;
      && j < k && log[j].Sent? && log[j].counter == log[k].key.replay
      && (log[j].onAir <==> log[j].msg == Msg1 || (log[j].keyed && cfg.fault(j) != NoWrap))
      && forall i | j < i < k :: !Barrier(log[i])
  {
    hide Run;
    hide LogOk;
    EveryRunIsGood(cfg, inputs);
    j := AcceptedWasSentSince(cfg, Run(cfg, inputs).log, k);
  }

  /** In every run, within one association and until the 64-bit counter runs out, the counters of successive
      accepted answers strictly increase. */
  lemma RunCountersIncrease(cfg: Config, inputs: seq<Input>, k1: nat, k2: nat)
    requires k1 < k2 < |Run(cfg, inputs).log|
    requires Run(cfg, inputs).log[k1].Accepted? && Run(cfg, inputs).log[k2].Accepted?
    requires forall i | k1 < i < k2 :: !Resets(Run(cfg, inputs).log[i])
    requires forall n | 0 <= n <= |Run(cfg, inputs).log| :: Sends(Run(cfg, inputs).log[..n]) < COUNTER_MODULO
    ensures Run(cfg, inputs).log[k1].key.replay < Run(cfg, inputs).log[k2].key.replay
  {
    hide Run;
    hide LogOk;
    EveryRunIsGood(cfg, inputs);
    AcceptedCountersIncrease(cfg, Run(cfg, inputs).log, k1, k2);
  }

  /** In every run, messages are sent or tried at most four times between counter resets, at every point. */
  lemma RunRetriesBounded(cfg: Config, inputs: seq<Input>, n: nat)
    requires n <= |Run(cfg, inputs).log|
    ensures Attempts(Run(cfg, inputs).log[..n]) <= PAIRWISE_UPDATE_COUNT
  {
    hide Run;
    hide LogOk;
    EveryRunIsGood(cfg, inputs);
    AtMostFourAttempts(cfg, Run(cfg, inputs).log, n);
  }

  /** A pairwise key is installed only at the end of a handshake, in every run that does not forget a
      request while a second message is awaited, an attempt is left and there is a buffer for it. */
  lemma RunInstallsAfterHandshake(cfg: Config, inputs: seq<Input>, k: nat) returns (j: nat)
    requires NeverBreaks(cfg, Handshake, POWER_UP, inputs)
    requires k < |Run(cfg, inputs).log| && Run(cfg, inputs).log[k].KeyInstalled?
    ensures var log := Run(cfg, inputs).log;
            var p := log[k].installed;
      && j + 2 < k && log[k - 1] == Entered(PtkInitDone) && log[k - 2].Accepted?
      && log[k - 2].under == Some(p) && Classify(log[k - 2].key) == Pairwise4 && cfg.verify(p, log[k - 2].key)
      && Third(log[j], log[k - 2].key.replay, p) && (log[j].onAir <==> cfg.fault(j) != NoWrap)
      && forall i | j < i < k - 2 :: Negotiation(log[i])
  {
    hide Run;
    hide LogOk;
    hide NeverBreaks;
    EveryRunIsGood(cfg, inputs);
    UnbrokenRunInOrder(cfg, Handshake, inputs);
    j := KeyInstalledAfterHandshake(cfg, Run(cfg, inputs).log, k);
  }

  /** Whatever is installed or authorised: PTKINITDONE itself is entered only on an accepted fourth message,
      verified under a key, that answers a third message built under that key. */
  lemma RunDoneAfterHandshake(cfg: Config, inputs: seq<Input>, k: nat) returns (j: nat)
    requires NeverBreaks(cfg, Handshake, POWER_UP, inputs)
    requires k < |Run(cfg, inputs).log| && Run(cfg, inputs).log[k] == Entered(PtkInitDone)
    ensures var log := Run(cfg, inputs).log;
      && j + 1 < k && log[k - 1].Accepted? && log[k - 1].under.Some? && Classify(log[k - 1].key) == Pairwise4
      && cfg.verify(log[k - 1].under.value, log[k - 1].key)
      && Third(log[j], log[k - 1].key.replay, log[k - 1].under.value) && (log[j].onAir <==> cfg.fault(j) != NoWrap)
      && forall i | j < i < k - 1 :: Negotiation(log[i])
  {
    hide Run;
    hide LogOk;
    hide NeverBreaks;
    EveryRunIsGood(cfg, inputs);
    UnbrokenRunInOrder(cfg, Handshake, inputs);
    j := DoneAfterHandshake(cfg, Run(cfg, inputs).log, k);
  }

  /** So a station is authorised, in such a run, only right after that. */
  lemma RunAuthorizesAfterHandshake(cfg: Config, inputs: seq<Input>, k: nat) returns (d: nat, j: nat)
    requires NeverBreaks(cfg, Handshake, POWER_UP, inputs)
    requires k < |Run(cfg, inputs).log| && Run(cfg, inputs).log[k] == Authorized
    ensures var log := Run(cfg, inputs).log;
      && d < k <= d + 2 && log[d] == Entered(PtkInitDone) && (k == d + 2 ==> log[d + 1].KeyInstalled?)
      && j + 1 < d && log[d - 1].Accepted? && log[d - 1].under.Some? && Classify(log[d - 1].key) == Pairwise4
      && cfg.verify(log[d - 1].under.value, log[d - 1].key)
      && Third(log[j], log[d - 1].key.replay, log[d - 1].under.value)
  {
    hide Run;
    hide LogOk;
    hide NeverBreaks;
    UnbrokenRunInOrder(cfg, Handshake, inputs);
    AuthorizedAfterDone(cfg, Run(cfg, inputs).log, k);
    d := if Run(cfg, inputs).log[k - 1] == Entered(PtkInitDone) then k - 1 else k - 2;
    j := RunDoneAfterHandshake(cfg, inputs, d);
  }

  /** And the third message it answers was on the air, if key data can always be wrapped: the exact
      condition is that this one's could. */
  lemma RunInstallsAfterSentThird(cfg: Config, inputs: seq<Input>, k: nat) returns (j: nat)
    requires NeverBreaks(cfg, Handshake, POWER_UP, inputs) && forall n :: cfg.fault(n) != NoWrap
    requires k < |Run(cfg, inputs).log| && Run(cfg, inputs).log[k].KeyInstalled?
    ensures var log := Run(cfg, inputs).log;
      && j + 2 < k && log[k - 2].Accepted? && Classify(log[k - 2].key) == Pairwise4
      && Third(log[j], log[k - 2].key.replay, log[k].installed) && log[j].onAir
  {
    hide Run;
    hide NeverBreaks;
    j := RunInstallsAfterHandshake(cfg, inputs, k);
  }
}
