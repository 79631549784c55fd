/**
 The invariant of the pairwise machine inside its step loop and at rest: counters and control flow, the
 retry limit, the handshake. Every state entry keeps it, every pass of the loop keeps it, and the loop
 brings the machine to rest in it.
 */
module PtkInvariant {
  import opened Common
  import opened PtkSpec
  import opened PtkLog

  // ---- The invariant ----

  const KEY_REQUEST := NO_REQUESTS.(ptk := true)

  ghost predicate Logged(cfg: Config, sm: Sm) {
    && LogOk(cfg, Replays, sm.log) && LogOk(cfg, Retries, sm.log)
    && sm.replay == Window(sm.log) && Attempts(sm.log) <= sm.timeoutCtr
  }

  /** A response that has not been looked at yet is one the current state is waiting for; only while a
      second message is awaited can a request for a new key be pending as well. */
  predicate Placed(sm: Sm) {
    Response(sm) ==>
      || (sm.state == PtkStart && sm.micVerified == sm.keys.valid &&
          (sm.req == NO_REQUESTS || (sm.req == KEY_REQUEST && !sm.keys.valid)))
      || (sm.state == PtkCalcNegotiating && sm.req == NO_REQUESTS && !sm.micVerified && !sm.keys.valid)
      || (sm.state == PtkInitNegotiating && sm.req == NO_REQUESTS && sm.micVerified && sm.keys.valid)
  }

  /** While the second message is being checked, the key is valid exactly when the integrity code was
      verified. */
  predicate Paired(sm: Sm) {
    && (sm.state == PtkCalcNegotiating ==> sm.micVerified == sm.keys.valid)
    && (sm.state == PtkCalcNegotiating2 ==> sm.keys.valid && !Response(sm))
  }

  /** The machine inside the step loop. */
  ghost predicate Moving(cfg: Config, sm: Sm) {
    sm.started && Logged(cfg, sm) && Placed(sm) && Paired(sm) && !sm.req.init
  }

  /** Between calls: no response waits, nothing is requested, except perhaps a new key after the old one
      was given up; a machine still checking the second message has neither a valid key nor a verified
      integrity code. */
  ghost predicate Resting(cfg: Config, sm: Sm) {
    && Moving(cfg, sm) && !Response(sm)
    && (sm.req == NO_REQUESTS || (sm.req == KEY_REQUEST && !sm.keys.valid && sm.state != PtkCalcNegotiating))
    && (sm.state == PtkCalcNegotiating ==> !sm.micVerified && !sm.keys.valid)
    && sm.state != PtkCalcNegotiating2
  }

  /** A machine that has not been started, or whose station has been freed. */
  ghost predicate Idle(cfg: Config, sm: Sm) {
    && sm == Blank(sm.suite, sm.log)
    && LogOk(cfg, Replays, sm.log) && LogOk(cfg, Retries, sm.log)
    && Window(sm.log) == BLANK_REPLAY && Attempts(sm.log) == 0
  }

  ghost predicate Good(cfg: Config, sm: Sm) {
    if sm.started then Resting(cfg, sm) else Idle(cfg, sm)
  }

  /** States the machine only passes through. */
  predicate Passing(s: PtkState) {
    s == Disconnect || s == Disconnected || s == Authentication
  }

  /** The retry counter: it exceeds its limit only on the way to a disconnection. */
  predicate Limited(sm: Sm) {
    && 0 <= sm.timeoutCtr <= PAIRWISE_UPDATE_COUNT + 1
    && (sm.timeoutCtr > PAIRWISE_UPDATE_COUNT ==>
          && !sm.req.ptk && !Response(sm)
          && (sm.state == PtkStart || sm.state == PtkInitNegotiating || Passing(sm.state)))
    && (Response(sm) && sm.req.ptk ==> sm.timeoutCtr < PAIRWISE_UPDATE_COUNT)
  }

  predicate LimitedAtRest(sm: Sm) {
    && Limited(sm) && sm.timeoutCtr <= PAIRWISE_UPDATE_COUNT
    && (sm.req.ptk && AwaitsSecond(sm) ==> sm.timeoutCtr < PAIRWISE_UPDATE_COUNT)
  }

  /** A second message would be accepted. */
  predicate AwaitsSecond(sm: Sm) {
    sm.state == PtkStart && sm.replay.e0.valid
  }

  /** The handshake: while the second message is being checked no answer is acceptable; while the fourth
      is awaited under a valid key, only answers to this negotiation's third messages are. */
  ghost predicate Honest(cfg: Config, sm: Sm) {
    && LogOk(cfg, Handshake, sm.log)
    && (Response(sm) ==> !sm.replay.e0.valid)
    && (Response(sm) && sm.req.ptk ==> NoFirstNow(cfg, sm, 1))
    && (Response(sm) && sm.state == PtkInitNegotiating ==> FourthAccepted(sm.log, sm.keys.ptk))
    && (sm.state == PtkCalcNegotiating || sm.state == PtkCalcNegotiating2 ==> !sm.replay.e0.valid)
    && (sm.state == PtkInitNegotiating && sm.keys.valid ==>
          forall c :: Pending(sm.replay, c) ==> Negotiated(sm.log, c, sm.keys.ptk))
  }

  /** Starting over `n` actions from now would not send another first message: the attempts are used up,
      or there is no buffer for it. */
  predicate NoFirstNow(cfg: Config, sm: Sm, n: nat) {
    sm.timeoutCtr >= PAIRWISE_UPDATE_COUNT || cfg.fault(|sm.log| + n) == NoBuffer
  }

  ghost predicate HonestAtRest(cfg: Config, sm: Sm) {
    Honest(cfg, sm) && (sm.req.ptk && AwaitsSecond(sm) ==> NoFirstNow(cfg, sm, 2))
  }

  ghost predicate MovingOrIdle(cfg: Config, sm: Sm) {
    if sm.started then Moving(cfg, sm) else Idle(cfg, sm)
  }

  /** What a step from `sm` to `s` preserves. */
  ghost predicate Keeps(cfg: Config, sm: Sm, s: Sm) {
    && MovingOrIdle(cfg, s)
    && (Limited(sm) ==> Limited(s))
    && (Honest(cfg, sm) ==> Honest(cfg, s))
  }

  // ---- Entry actions ----

  lemma PlainEntry(cfg: Config, sm: Sm, s: PtkState)
    requires Logged(cfg, sm)
    ensures var log := sm.log + [Entered(s)];
      && LogOk(cfg, Replays, log) && LogOk(cfg, Retries, log) && Window(log) == sm.replay
      && Attempts(log) == (if ResetsRetries(Entered(s)) then 0 else Attempts(sm.log))
      && (LogOk(cfg, Handshake, sm.log) && s != PtkInitDone ==> LogOk(cfg, Handshake, log))
  {
    hide Window;
    hide LogOk;
    hide Attempts;
    Snoc(cfg, sm.log, Entered(s));
  }

  lemma SendLogged(cfg: Config, sm: Sm, msg: Message)
    requires Logged(cfg, sm) && sm.started && Attempts(sm.log) < PAIRWISE_UPDATE_COUNT
    requires Attempts(sm.log) < sm.timeoutCtr
    ensures var s := Send(cfg, sm, msg);
      && Logged(cfg, s) && s == sm.(replay := s.replay, log := s.log)
      && (LogOk(cfg, Handshake, sm.log) ==> LogOk(cfg, Handshake, s.log))
      && (cfg.fault(|sm.log|) == NoBuffer ==> s.replay == sm.replay)
  {
    hide Window;
    hide LogOk;
    hide Attempts;
    var a := Sent(msg, NextCounter(sm.replay.e0.counter), sm.keys.anonce, sm.keys.ptk, sm.keys.valid,
                  msg == Msg1 || (sm.keys.valid && cfg.fault(|sm.log|) == NoFault));
    Snoc(cfg, sm.log, a);
    Snoc(cfg, sm.log, SendFailed(msg));
  }

  /** What sending adds to the log. */
  lemma SendLogs(cfg: Config, sm: Sm, msg: Message) returns (a: Action)
    requires sm.started
    ensures var s := Send(cfg, sm, msg);
      && s.log == sm.log + [a]
      && (|| (a == SendFailed(msg) && s.replay == sm.replay)
          || (s.replay == Shifted(sm.replay) && a.Sent? && a.msg == msg &&
              a.counter == s.replay.e0.counter && a.nonce == sm.keys.anonce &&
              a.ptk == sm.keys.ptk && a.keyed == sm.keys.valid))
  {
    var onAir := msg == Msg1 || (sm.keys.valid && cfg.fault(|sm.log|) == NoFault);
    a := if cfg.fault(|sm.log|) == NoBuffer then SendFailed(msg)
         else Sent(msg, NextCounter(sm.replay.e0.counter), sm.keys.anonce, sm.keys.ptk, sm.keys.valid, onAir);
  }

  lemma RemovePtkKeeps(cfg: Config, sm: Sm)
    requires Logged(cfg, sm)
    ensures var s := RemovePtk(sm);
      && Logged(cfg, s) && s == sm.(keys := s.keys, log := s.log) && s.keys.valid == sm.keys.valid
      && (LogOk(cfg, Handshake, sm.log) ==> LogOk(cfg, Handshake, s.log))
  {
    hide Window;
    hide LogOk;
    hide Attempts;
    Snoc(cfg, sm.log, KeyRemoved);
  }

  lemma InitializeKeeps(cfg: Config, sm: Sm)
    requires Logged(cfg, sm) && sm.started && !Response(sm)
    ensures var s := EnterInitialize(sm);
      && s.started && Logged(cfg, s) && Placed(s) && Paired(s) && Limited(s)
      && (LogOk(cfg, Handshake, sm.log) ==> Honest(cfg, s))
      && s.state == Initialize && s.req == sm.req && s.rx == sm.rx
  {
    hide Window;
    hide LogOk;
    hide Attempts;
    hide RemovePtk;
    PlainEntry(cfg, sm, Initialize);
    var s := Enter(sm, Initialize).(keys := sm.keys.(pair := true), timeoutCtr := 0);
    RemovePtkKeeps(cfg, if sm.req.init then s.(changed := false) else s);
  }

  /** A machine whose station is freed is as good as new. */
  lemma ZeroedIdle(cfg: Config, log: seq<Action>, suite: Suite)
    requires LogOk(cfg, Replays, log) && LogOk(cfg, Retries, log)
    ensures var s := Blank(suite, log + [Zeroed]);
      Idle(cfg, s) && LimitedAtRest(s) && (LogOk(cfg, Handshake, log) ==> HonestAtRest(cfg, s))
  {
    hide Window;
    hide LogOk;
    hide Attempts;
    Snoc(cfg, log, Zeroed);
  }

  lemma StaDisconnectZeroes(cfg: Config, sm: Sm, env: Env)
    requires LogOk(cfg, Replays, sm.log) && LogOk(cfg, Retries, sm.log) && env.found
    ensures var s := StaDisconnect(sm, env);
      && Idle(cfg, s) && !s.started && LimitedAtRest(s)
      && (LogOk(cfg, Handshake, sm.log) ==> HonestAtRest(cfg, s))
  {
    hide Window;
    hide LogOk;
    hide Attempts;
    hide Idle;
    Snoc(cfg, sm.log, Deauthenticated);
    ZeroedIdle(cfg, sm.log + [Deauthenticated], NO_SUITE);
  }

  lemma DisconnectKeeps(cfg: Config, sm: Sm, env: Env)
    requires Moving(cfg, sm) && !Response(sm)
    ensures var s := EnterDisconnect(sm, env);
      Keeps(cfg, sm, s) && s.started == !env.found && s.changed == !env.found && (env.found ==> LimitedAtRest(s))
  {
    hide Window;
    hide LogOk;
    hide Attempts;
    hide Idle;
    PlainEntry(cfg, sm, Disconnect);
    if env.found {
      StaDisconnectZeroes(cfg, Enter(sm, Disconnect).(req := sm.req.(disconnect := false)), env);
    }
  }

  lemma DisconnectedKeeps(cfg: Config, sm: Sm)
    requires Moving(cfg, sm) && !Response(sm)
    ensures Keeps(cfg, sm, EnterDisconnected(sm))
  {
    hide Window;
    hide LogOk;
    hide Attempts;
    PlainEntry(cfg, sm, Disconnected);
  }

  lemma AuthenticationKeeps(cfg: Config, sm: Sm)
    requires Moving(cfg, sm) && !Response(sm)
    ensures Keeps(cfg, sm, EnterAuthentication(sm))
  {
    hide Window;
    hide LogOk;
    hide Attempts;
    PlainEntry(cfg, sm, Authentication);
  }

  lemma Authentication2Keeps(cfg: Config, sm: Sm, env: Env)
    requires Moving(cfg, sm) && !Response(sm)
    ensures Keeps(cfg, sm, EnterAuthentication2(sm, env))
  {
    hide Window;
    hide LogOk;
    hide Attempts;
    Snoc(cfg, sm.log, Renewed(env.nonce));
  }

  lemma InitPmkKeeps(cfg: Config, sm: Sm)
    requires Moving(cfg, sm) && !Response(sm) && sm.state == Authentication2
    ensures Keeps(cfg, sm, EnterInitPmk(sm))
  {
    hide Window;
    hide LogOk;
    hide Attempts;
    PlainEntry(cfg, sm, InitPmk);
  }

  lemma InitPskKeeps(cfg: Config, sm: Sm)
    requires Moving(cfg, sm) && !Response(sm) && sm.state == Authentication2
    ensures Keeps(cfg, sm, EnterInitPsk(cfg, sm))
  {
    hide Window;
    hide LogOk;
    hide Attempts;
    PlainEntry(cfg, sm, InitPsk);
  }

  /** A first message is due: entering PTKSTART, up to the sending. */
  function Restarted(sm: Sm): Sm {
    Enter(sm, PtkStart).(req := sm.req.(ptk := false), timeoutEvt := false, timeoutCtr := sm.timeoutCtr + 1)
  }

  lemma PtkStartKeeps(cfg: Config, sm: Sm)
    requires Moving(cfg, sm) && (Response(sm) ==> sm.state == PtkStart && sm.req == KEY_REQUEST)
    requires Limited(sm) ==> sm.timeoutCtr <= PAIRWISE_UPDATE_COUNT
    ensures Keeps(cfg, sm, EnterPtkStart(cfg, sm))
  {
    hide Attempts;
    hide Send;
    hide Moving;
    hide Honest;
    hide Limited;
    RestartedMoving(cfg, sm);
    if sm.timeoutCtr < PAIRWISE_UPDATE_COUNT {
      FirstSendKeeps(cfg, sm);
    } else {
      RestartedHonest(cfg, sm);
    }
  }

  lemma RestartedMoving(cfg: Config, sm: Sm)
    requires Moving(cfg, sm) && (Response(sm) ==> sm.state == PtkStart && sm.req == KEY_REQUEST)
    requires Limited(sm) ==> sm.timeoutCtr <= PAIRWISE_UPDATE_COUNT
    ensures var s := Restarted(sm);
      && Moving(cfg, s) && s.started && Attempts(s.log) < s.timeoutCtr
      && (Limited(sm) ==> Limited(s))
  {
    hide Window;
    hide LogOk;
    hide Attempts;
    PlainEntry(cfg, sm, PtkStart);
  }

  lemma RestartedHonest(cfg: Config, sm: Sm)
    requires Moving(cfg, sm)
    ensures Honest(cfg, sm) ==> Honest(cfg, Restarted(sm))
  {
    hide Window;
    hide LogOk;
    hide Attempts;
    PlainEntry(cfg, sm, PtkStart);
  }

  lemma FirstSendKeeps(cfg: Config, sm: Sm)
    requires Moving(cfg, sm) && Moving(cfg, Restarted(sm)) && sm.timeoutCtr < PAIRWISE_UPDATE_COUNT
    requires Attempts(Restarted(sm).log) < Restarted(sm).timeoutCtr
    requires Response(sm) ==> sm.req == KEY_REQUEST
    ensures var t := Send(cfg, Restarted(sm), Msg1);
      && Moving(cfg, t) && t.started
      && (Limited(Restarted(sm)) ==> Limited(t))
      && (Honest(cfg, sm) ==> Honest(cfg, t))
  {
    hide Negotiated;
    hide FourthAccepted;
    hide Pending;
    hide Window;
    hide LogOk;
    hide Attempts;
    hide Send;
    PlainEntry(cfg, sm, PtkStart);
    SendLogged(cfg, Restarted(sm), Msg1);
  }

  lemma CalcKeeps(cfg: Config, sm: Sm)
    requires Moving(cfg, sm) && Response(sm) && sm.req == NO_REQUESTS
    requires sm.state == PtkStart || sm.state == PtkCalcNegotiating
    ensures Keeps(cfg, sm, EnterPtkCalcNegotiating(cfg, sm))
  {
    hide Window;
    hide LogOk;
    hide Attempts;
    PlainEntry(cfg, sm, PtkCalcNegotiating);
  }

  lemma Calc2Keeps(cfg: Config, sm: Sm)
    requires Moving(cfg, sm) && sm.state == PtkCalcNegotiating && sm.micVerified && !Response(sm)
    ensures Keeps(cfg, sm, EnterPtkCalcNegotiating2(sm))
  {
    hide Window;
    hide LogOk;
    hide Attempts;
    PlainEntry(cfg, sm, PtkCalcNegotiating2);
  }

  /** Shifting the window adds the new counter and forgets the oldest. */
  lemma PendingShifted(r: Replay, c: Counter)
    requires Pending(Shifted(r), c)
    ensures c == Shifted(r).e0.counter || Pending(r, c)
  {
  }

  lemma ThirdSent(cfg: Config, sm: Sm, s: Sm, c: Counter)
    requires s == Send(cfg, sm, Msg3) && sm.started && sm.keys.valid
    requires Pending(sm.replay, c) ==> Negotiated(sm.log, c, sm.keys.ptk)
    requires Pending(s.replay, c)
    ensures Negotiated(s.log, c, sm.keys.ptk)
  {
    hide Negotiated;
    hide Window;
    hide LogOk;
    hide Attempts;
    hide Pending;
    hide Send;
    var a := SendLogs(cfg, sm, Msg3);
    NegotiatedSnoc(sm.log, a, c, sm.keys.ptk);
    if s.replay == Shifted(sm.replay) {
      PendingShifted(sm.replay, c);
    }
  }

  /** A third message is due: entering PTKINITNEGOTIATING, up to the sending. */
  function Renegotiated(sm: Sm): Sm {
    Enter(sm, PtkInitNegotiating).(timeoutEvt := false, timeoutCtr := sm.timeoutCtr + 1)
  }

  lemma InitNegotiatingKeeps(cfg: Config, sm: Sm)
    requires Moving(cfg, sm) && !Response(sm) && !sm.req.ptk
    requires Limited(sm) ==> sm.timeoutCtr <= PAIRWISE_UPDATE_COUNT
    requires sm.state == PtkCalcNegotiating2 || sm.state == PtkInitNegotiating
    ensures Keeps(cfg, sm, EnterPtkInitNegotiating(cfg, sm))
  {
    hide Attempts;
    hide Send;
    hide Moving;
    hide Honest;
    hide Limited;
    RenegotiatedMoving(cfg, sm);
    RenegotiatedHonest(cfg, sm);
    if sm.timeoutCtr < PAIRWISE_UPDATE_COUNT {
      ThirdSendKeeps(cfg, Renegotiated(sm));
    }
  }

  lemma RenegotiatedMoving(cfg: Config, sm: Sm)
    requires Moving(cfg, sm) && !Response(sm) && !sm.req.ptk
    requires Limited(sm) ==> sm.timeoutCtr <= PAIRWISE_UPDATE_COUNT
    ensures var s := Renegotiated(sm);
      && Moving(cfg, s) && s.started && Attempts(s.log) < s.timeoutCtr
      && (Limited(sm) ==> Limited(s))
  {
    hide Window;
    hide LogOk;
    hide Attempts;
    PlainEntry(cfg, sm, PtkInitNegotiating);
  }

  lemma RenegotiatedHonest(cfg: Config, sm: Sm)
    requires Moving(cfg, sm) && !Response(sm)
    requires sm.state == PtkCalcNegotiating2 || sm.state == PtkInitNegotiating
    ensures Honest(cfg, sm) ==> Honest(cfg, Renegotiated(sm))
  {
    hide FourthAccepted;
    hide Window;
    hide LogOk;
    hide Attempts;
    hide Negotiated;
    PlainEntry(cfg, sm, PtkInitNegotiating);
    var s := Renegotiated(sm);
    if Honest(cfg, sm) {
      forall c | s.keys.valid && Pending(s.replay, c)
        ensures Negotiated(s.log, c, s.keys.ptk)
      {
        NegotiatedSnoc(sm.log, Entered(PtkInitNegotiating), c, sm.keys.ptk);
      }
    }
  }

  lemma ThirdSendKeeps(cfg: Config, sm: Sm)
    requires Moving(cfg, sm) && sm.state == PtkInitNegotiating && !Response(sm)
    requires Attempts(sm.log) < sm.timeoutCtr <= PAIRWISE_UPDATE_COUNT
    ensures var t := Send(cfg, sm, Msg3);
      && Moving(cfg, t) && t.started
      && (Limited(sm) ==> Limited(t))
      && (Honest(cfg, sm) ==> Honest(cfg, t))
  {
    hide FourthAccepted;
    hide Window;
    hide LogOk;
    hide Attempts;
    hide Send;
    hide Pending;
    hide Negotiated;
    SendLogged(cfg, sm, Msg3);
    var t := Send(cfg, sm, Msg3);
    if Honest(cfg, sm) {
      forall c | sm.keys.valid && Pending(t.replay, c)
        ensures Negotiated(t.log, c, t.keys.ptk)
      {
        ThirdSent(cfg, sm, t, c);
      }
    }
  }

  lemma DoneKeeps(cfg: Config, sm: Sm, env: Env)
    requires Moving(cfg, sm) && Response(sm) && sm.state == PtkInitNegotiating
    ensures Keeps(cfg, sm, EnterPtkInitDone(sm, env))
  {
    hide Window;
    hide LogOk;
    hide Attempts;
    hide FourthAccepted;
    hide Negotiated;
    DoneLog(cfg, sm.log, sm.keys.ptk);
  }

  lemma DoneLog(cfg: Config, log: seq<Action>, p: Ptk)
    ensures var l1 := log + [Entered(PtkInitDone)];
            var l2 := l1 + [KeyInstalled(p)];
      && (forall l | l in {l1, l2, l1 + [Authorized], l2 + [Authorized]} ::
            && Window(l) == Window(log) && Attempts(l) == Attempts(log)
            && (LogOk(cfg, Replays, log) ==> LogOk(cfg, Replays, l))
            && (LogOk(cfg, Retries, log) ==> LogOk(cfg, Retries, l))
            && (LogOk(cfg, Handshake, log) && FourthAccepted(log, p) ==> LogOk(cfg, Handshake, l)))
  {
    hide Window;
    hide LogOk;
    hide Attempts;
    hide FourthAccepted;
    var l1 := log + [Entered(PtkInitDone)];
    assert l1[..|l1| - 1] == log;
    Snoc(cfg, log, Entered(PtkInitDone));
    Snoc(cfg, l1, KeyInstalled(p));
    Snoc(cfg, l1, Authorized);
    Snoc(cfg, l1 + [KeyInstalled(p)], Authorized);
  }

  // ---- Steps ----

  /** One step keeps the invariant, and when it changes nothing the machine is at rest. */
  ghost predicate StepsWell(cfg: Config, sm: Sm, s: Sm) {
    && Keeps(cfg, sm, s)
    && (!s.changed ==>
          && Good(cfg, s)
          && (Limited(sm) ==> LimitedAtRest(s))
          && (Honest(cfg, sm) ==> HonestAtRest(cfg, s)))
  }

  lemma PtkStartStep(cfg: Config, sm: Sm, env: Env)
    requires Moving(cfg, sm) && sm.req == NO_REQUESTS && !sm.changed && sm.state == PtkStart
    ensures StepsWell(cfg, sm, StateStep(cfg, sm, env))
  {
    hide Logged;
    hide Honest;
    hide EnterDisconnect;
    hide EnterPtkStart;
    hide EnterPtkCalcNegotiating;
    if Response(sm) {
      CalcKeeps(cfg, sm);
      PtkCalcNegotiatingCtl(cfg, sm);
    } else if sm.timeoutCtr > PAIRWISE_UPDATE_COUNT {
      DisconnectKeeps(cfg, sm, env);
      if env.found { DisconnectRests(cfg, sm, env); }
    } else if sm.timeoutEvt {
      PtkStartKeeps(cfg, sm);
      PtkStartCtl(cfg, sm);
    }
  }

  lemma DisconnectRests(cfg: Config, sm: Sm, env: Env)
    requires Moving(cfg, sm) && !Response(sm) && env.found
    ensures Good(cfg, EnterDisconnect(sm, env))
    ensures Honest(cfg, sm) ==> HonestAtRest(cfg, EnterDisconnect(sm, env))
  {
    hide Window;
    hide LogOk;
    hide Attempts;
    hide Idle;
    PlainEntry(cfg, sm, Disconnect);
    StaDisconnectZeroes(cfg, Enter(sm, Disconnect).(req := sm.req.(disconnect := false)), env);
  }

  lemma NegotiatingStep(cfg: Config, sm: Sm, env: Env)
    requires Moving(cfg, sm) && sm.req == NO_REQUESTS && !sm.changed
    requires sm.state == PtkCalcNegotiating || sm.state == PtkCalcNegotiating2 || sm.state == PtkInitNegotiating
    ensures StepsWell(cfg, sm, StateStep(cfg, sm, env))
  {
    hide Logged;
    hide Honest;
    hide EnterDisconnect;
    hide EnterPtkStart;
    hide EnterPtkCalcNegotiating;
    hide EnterPtkCalcNegotiating2;
    hide EnterPtkInitNegotiating;
    hide EnterPtkInitDone;
    match sm.state
    case PtkCalcNegotiating =>
      if Response(sm) {
        CalcKeeps(cfg, sm);
        PtkCalcNegotiatingCtl(cfg, sm);
      } else if sm.micVerified {
        Calc2Keeps(cfg, sm);
        PtkCalcNegotiating2Ctl(sm);
      } else {
        PtkStartKeeps(cfg, sm);
        PtkStartCtl(cfg, sm);
      }
    case PtkCalcNegotiating2 =>
      InitNegotiatingKeeps(cfg, sm);
      PtkInitNegotiatingCtl(cfg, sm);
    case PtkInitNegotiating =>
      if Response(sm) {
        DoneKeeps(cfg, sm, env);
        PtkInitDoneCtl(sm, env);
      } else if sm.timeoutCtr > PAIRWISE_UPDATE_COUNT {
        DisconnectKeeps(cfg, sm, env);
        if env.found { DisconnectRests(cfg, sm, env); }
      } else {
        InitNegotiatingKeeps(cfg, sm);
        PtkInitNegotiatingCtl(cfg, sm);
      }
  }

  lemma OtherStep(cfg: Config, sm: Sm, env: Env)
    requires Moving(cfg, sm) && sm.req == NO_REQUESTS && !sm.changed
    requires sm.state != PtkStart && sm.state != PtkCalcNegotiating && sm.state != PtkCalcNegotiating2
    requires sm.state != PtkInitNegotiating
    ensures StepsWell(cfg, sm, StateStep(cfg, sm, env))
  {
    hide Logged;
    hide EnterInitialize;
    hide EnterDisconnect;
    hide EnterDisconnected;
    hide EnterAuthentication2;
    hide EnterInitPmk;
    hide EnterInitPsk;
    hide EnterPtkStart;
    match sm.state
    case Initialize =>
    case Disconnect =>
      DisconnectedKeeps(cfg, sm);
      DisconnectedCtl(sm);
    case Disconnected =>
      InitializeKeeps(cfg, sm);
      InitializeCtl(sm);
    case Authentication =>
      Authentication2Keeps(cfg, sm, env);
      AuthenticationCtl(sm, env);
    case Authentication2 =>
      InitPmkKeeps(cfg, sm);
      InitPskKeeps(cfg, sm);
      InitPmkPskCtl(cfg, sm);
    case InitPmk =>
      DisconnectKeeps(cfg, sm, env);
      if env.found { DisconnectRests(cfg, sm, env); }
    case InitPsk =>
      DisconnectKeeps(cfg, sm, env);
      if env.found { DisconnectRests(cfg, sm, env); }
      PtkStartKeeps(cfg, sm);
      PtkStartCtl(cfg, sm);
    case PtkInitDone =>
  }

  lemma StepKeeps(cfg: Config, sm: Sm, env: Env)
    requires Moving(cfg, sm) && !sm.changed
    ensures StepsWell(cfg, sm, Step(cfg, sm, env))
  {
    hide Logged;
    hide Honest;
    hide EnterDisconnect;
    hide EnterDisconnected;
    hide EnterAuthentication;
    hide EnterAuthentication2;
    hide EnterPtkStart;
    hide StateStep;
    if sm.req == NO_REQUESTS {
      if sm.state == PtkStart {
        PtkStartStep(cfg, sm, env);
      } else if sm.state == PtkCalcNegotiating || sm.state == PtkCalcNegotiating2 || sm.state == PtkInitNegotiating {
        NegotiatingStep(cfg, sm, env);
      } else {
        OtherStep(cfg, sm, env);
      }
    } else if sm.req == KEY_REQUEST {
      PtkStartKeeps(cfg, sm);
      PtkStartCtl(cfg, sm);
    } else {
      DisconnectKeeps(cfg, sm, env);
      if env.found { DisconnectRests(cfg, sm, env); }
      DisconnectedKeeps(cfg, sm);
      DisconnectedCtl(sm);
      AuthenticationKeeps(cfg, sm);
      Authentication2Keeps(cfg, sm, env);
      AuthenticationCtl(sm, env);
    }
  }

  /** The step loop brings every machine that satisfies the invariant to rest. */
  lemma {:induction false} SettleRests(cfg: Config, sm: Sm, env: Env)
    requires Moving(cfg, sm)
    ensures var s := Settle(cfg, sm, env);
      && Good(cfg, s)
      && (Limited(sm) ==> LimitedAtRest(s))
      && (Honest(cfg, sm) ==> HonestAtRest(cfg, s))
    decreases Asked(sm.req), Happened(sm), Rank(sm.state)
  {
    hide Step;
    hide Good;
    hide LimitedAtRest;
    hide HonestAtRest;
    hide LogOk;
    hide Window;
    hide Attempts;
    hide Negotiated;
    hide FourthAccepted;
    var s := sm.(changed := false);
    assert Moving(cfg, s);
    assert Honest(cfg, sm) ==> Honest(cfg, s);
    StepKeeps(cfg, s, env);
    StepShrinks(cfg, s, env);
    var next := Step(cfg, s, env);
    if next.changed {
      ChangedStarted(cfg, next);
      SettleRests(cfg, next, env);
    }
  }

  lemma ChangedStarted(cfg: Config, sm: Sm)
    requires MovingOrIdle(cfg, sm) && sm.changed
    ensures Moving(cfg, sm)
  {
    hide LogOk;
    hide Window;
    hide Attempts;
  }
}
