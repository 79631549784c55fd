/**
 The conditions of PtkTheorems are exact. Whenever an input breaks one of them, the very next frames can
 take the machine out of order: after the second message the forgotten request makes it send another
 first message, and a fourth message that answers that one is then accepted; or, with no attempt left,
 the machine comes to rest above its retry limit.
 */
module PtkExact {
  import opened Common
  import opened PtkSpec
  import opened PtkLog
  import opened PtkInvariant
  import opened PtkTheorems

  /** A key is configured, and frames can be authentic or not: whatever a frame says, some rest of it makes
      its integrity code come out right, and some does not. */
  ghost predicate Able(cfg: Config) {
    cfg.psk.Some? && forall p, m :: EitherWay(cfg, p, m)
  }

  ghost predicate EitherWay(cfg: Config, p: Ptk, m: EapolKey) {
    (exists r :: Authentic(cfg, p, m, r)) && (exists r :: !Authentic(cfg, p, m, r))
  }

  predicate Authentic(cfg: Config, p: Ptk, m: EapolKey, r: int) {
    cfg.verify(p, m.(rest := r))
  }

  const QUIET := Env(0, false)
  const READ := Reading(true, true, true)

  /** The second or fourth message with counter `c`, in the dress of frame `m`. */
  function AnswerLike(m: EapolKey, c: Counter, dataLen: int, r: int): EapolKey {
    EapolKey(m.descriptor, m.version, false, false, false, true, false, true, false, c, 0, dataLen, dataLen, r)
  }

  /** The machine that has forgotten the request `m`. */
  function Forgotten(sm: Sm, m: EapolKey): Sm {
    sm.(req := KEY_REQUEST, keys := sm.keys.(valid := false), micVerified := true,
        reqUsed := true, reqCounter := m.replay, rx := sm.rx.(last := None),
        log := sm.log + [Requested(m, sm.keys.ptk)])
  }

  lemma Forgetting(cfg: Config, sm: Sm, e: Event, env: Env)
    requires Good(cfg, sm) && Forgets(cfg, sm, e)
    ensures Handle(cfg, sm, e, env) == Forgotten(sm, e.key)
    ensures Classify(e.key) == Request
  {
    hide LogOk;
    hide Window;
    hide Attempts;
    hide Settle;
    hide Plausible;
    var m := e.key;
    assert sm.req == NO_REQUESTS;
    assert Receive(cfg, sm, m, e.reading, env) == TakeKey(cfg, sm, m, e.reading, env);
  }

  /** The machine right after the second message `m2` has been taken. */
  function Taken2(sm: Sm, m: EapolKey, m2: EapolKey): Sm {
    Forgotten(sm, m).(micVerified := false, replay := Consumed(sm.replay),
                      rx := Rx(true, true, false, Some(m2), 0),
                      log := sm.log + [Requested(m, sm.keys.ptk)] + [Accepted(m2, None)])
  }

  lemma SecondTaken(cfg: Config, sm: Sm, m: EapolKey, m2: EapolKey, r: int)
    requires sm.started && sm.state == PtkStart && sm.replay.e0.valid
    requires Plausible(sm, m) && Classify(m) == Request && m2 == AnswerLike(m, sm.replay.e0.counter, 1, r)
    ensures Handle(cfg, Forgotten(sm, m), Received(m2, READ), QUIET) == Settle(cfg, Taken2(sm, m, m2), QUIET)
  {
    hide Settle;
    var s := Forgotten(sm, m);
    assert Credit(s, m2).(rx := Rx(true, true, false, Some(m2), 0)) == Taken2(sm, m, m2);
    assert Plausible(s, m2) && InPlace(s, m2);
  }

  /** Starting over with the second message still to be looked at. */
  function Again(cfg: Config, sm: Sm, m: EapolKey, m2: EapolKey): Sm {
    EnterPtkStart(cfg, Taken2(sm, m, m2).(changed := false))
  }

  lemma StartsAgain(cfg: Config, sm: Sm, m: EapolKey, m2: EapolKey)
    requires sm.started && sm.state == PtkStart
    ensures var t := Again(cfg, sm, m, m2);
      Settle(cfg, Taken2(sm, m, m2), QUIET) == Settle(cfg, EnterPtkCalcNegotiating(cfg, t.(changed := false)), QUIET)
  {
    hide EnterPtkStart;
    hide EnterPtkCalcNegotiating;
    var s := Taken2(sm, m, m2);
    var t := Again(cfg, sm, m, m2);
    SettleOnce(cfg, s, QUIET);
    PtkStartCtl(cfg, s.(changed := false));
    AgainKeeps(cfg, sm, m, m2);
    SettleOnce(cfg, t, QUIET);
    PtkCalcNegotiatingCtl(cfg, t.(changed := false));
  }

  lemma AgainKeeps(cfg: Config, sm: Sm, m: EapolKey, m2: EapolKey)
    requires sm.started && sm.state == PtkStart
    ensures var t := Again(cfg, sm, m, m2);
      && t.started && t.rx == Rx(true, true, false, Some(m2), 0) && t.req == NO_REQUESTS
      && t.keys == sm.keys.(valid := false) && t.suite == sm.suite && !t.micVerified && !t.timeoutEvt
      && t.state == PtkStart && t.changed && t.timeoutCtr == sm.timeoutCtr + 1
  {
  }

  /** The key the second message is checked against. */
  function Derived(cfg: Config, sm: Sm): Ptk
    requires cfg.psk.Some?
  {
    cfg.derive(CurrentPmk(cfg, sm).value, sm.keys.anonce, 0)
  }

  // ---- The retry limit ----

  lemma RestsAboveLimit(cfg: Config, sm: Sm, e: Event, env: Env) returns (more: seq<Input>)
    requires Able(cfg) && Good(cfg, sm) && Breaks(cfg, Retries, sm, e)
    ensures NeverBreaks(cfg, Retries, Handle(cfg, sm, e, env), more)
    ensures !InOrder(cfg, Retries, RunFrom(cfg, Handle(cfg, sm, e, env), more))
  {
    hide Good;
    hide Plausible;
    hide Settle;
    hide EnterPtkStart;
    hide Handle;
    var m, s0 := e.key, Handle(cfg, sm, e, env);
    Forgetting(cfg, sm, e, env);
    var p := Derived(cfg, sm);
    assert EitherWay(cfg, p, AnswerLike(m, sm.replay.e0.counter, 1, 0));
    var r :| !Authentic(cfg, p, AnswerLike(m, sm.replay.e0.counter, 1, 0), r);
    var m2 := AnswerLike(m, sm.replay.e0.counter, 1, r);
    var input := Input(Received(m2, READ), QUIET);
    more := [input];
    RunOne(cfg, s0, input);
    SecondTaken(cfg, sm, m, m2, r);
    StartsAgain(cfg, sm, m, m2);
    AgainKeeps(cfg, sm, m, m2);
    var t := Again(cfg, sm, m, m2).(changed := false);
    var c := EnterPtkCalcNegotiating(cfg, t);
    assert !c.micVerified && c.timeoutCtr == sm.timeoutCtr + 1;
    assert Step(cfg, c.(changed := false), QUIET) == c.(changed := false);
    SettleOnce(cfg, c, QUIET);
    OnlyAnswers(cfg, Retries, s0, more);
  }

  lemma OnlyAnswers(cfg: Config, x: Aspect, s: Sm, more: seq<Input>)
    requires forall i <- more :: i.event.Received? && !i.event.key.request
    ensures NeverBreaks(cfg, x, s, more)
  {
    hide RunFrom;
    hide Plausible;
  }

  lemma RunOne(cfg: Config, sm: Sm, i: Input)
    ensures RunFrom(cfg, sm, [i]) == Handle(cfg, sm, i.event, i.env) && RunFrom(cfg, sm, []) == sm
  {
    hide Handle;
    assert [i][..0] == [];
  }

  lemma RunTwo(cfg: Config, sm: Sm, i: Input, j: Input)
    ensures RunFrom(cfg, sm, [i, j]) == Handle(cfg, Handle(cfg, sm, i.event, i.env), j.event, j.env)
  {
    hide Handle;
    assert [i, j][..1] == [i];
    RunOne(cfg, sm, i);
  }

  // ---- The handshake ----

  /** The machine once the second message has been found authentic, and the third is due. */
  function Verified(cfg: Config, sm: Sm, m: EapolKey, m2: EapolKey): Sm
    requires cfg.psk.Some?
  {
    var t := Again(cfg, sm, m, m2);
    t.(state := PtkInitNegotiating, changed := true, timeoutCtr := 1, rx := t.rx.(received := false),
       micVerified := true,
       keys := t.keys.(pmk := CurrentPmk(cfg, sm).value, ptk := Derived(cfg, sm), valid := true),
       log := t.log + [Entered(PtkCalcNegotiating)] + [Entered(PtkCalcNegotiating2)] + [Entered(PtkInitNegotiating)])
  }

  function AwaitsFourth(cfg: Config, sm: Sm, m: EapolKey, m2: EapolKey): Sm
    requires cfg.psk.Some?
  {
    Send(cfg, Verified(cfg, sm, m, m2), Msg3).(changed := false)
  }

  lemma ThirdDue(cfg: Config, sm: Sm, m: EapolKey, m2: EapolKey)
    requires sm.started && sm.state == PtkStart && cfg.psk.Some? && cfg.verify(Derived(cfg, sm), m2)
    ensures Settle(cfg, Taken2(sm, m, m2), QUIET) == AwaitsFourth(cfg, sm, m, m2)
  {
    hide Again;
    hide Taken2;
    hide Send;
    StartsAgain(cfg, sm, m, m2);
    AgainKeeps(cfg, sm, m, m2);
    var t := Again(cfg, sm, m, m2).(changed := false);
    var c := EnterPtkCalcNegotiating(cfg, t);
    var keys := t.keys.(pmk := CurrentPmk(cfg, sm).value, ptk := Derived(cfg, sm), valid := true);
    assert c == t.(state := PtkCalcNegotiating, changed := true, rx := t.rx.(received := false), micVerified := true,
                   keys := keys, log := t.log + [Entered(PtkCalcNegotiating)]);
    SettleOnce(cfg, c, QUIET);
    var c2 := c.(state := PtkCalcNegotiating2, timeoutCtr := 0, log := c.log + [Entered(PtkCalcNegotiating2)]);
    assert Step(cfg, c.(changed := false), QUIET) == c2;
    SettleOnce(cfg, c2, QUIET);
    var v := Verified(cfg, sm, m, m2);
    assert Step(cfg, c2.(changed := false), QUIET) == Send(cfg, v, Msg3);
    SendCtl(cfg, v, Msg3);
    ThirdRests(cfg, v);
    SettleOnce(cfg, Send(cfg, v, Msg3), QUIET);
  }

  lemma ThirdRests(cfg: Config, v: Sm)
    requires v.state == PtkInitNegotiating && v.timeoutCtr == 1 && !v.rx.received && !v.timeoutEvt && v.req == NO_REQUESTS
    ensures var s := Send(cfg, v, Msg3).(changed := false); Step(cfg, s, QUIET) == s && s.started == v.started
  {
    hide EnterPtkInitNegotiating;
    hide EnterDisconnect;
    hide EnterPtkInitDone;
    hide EnterPtkStart;
    hide EnterInitialize;
    hide EnterAuthentication;
    hide EnterAuthentication2;
    hide EnterDisconnected;
  }

  /** The first message sent in between has opened the window for its own counter. */
  lemma FirstPending(cfg: Config, sm: Sm, m: EapolKey, m2: EapolKey)
    requires sm.started && sm.state == PtkStart && cfg.psk.Some? && !NoFirstNow(cfg, sm, 3)
    ensures var s := AwaitsFourth(cfg, sm, m, m2);
            var c1 := NextCounter(sm.replay.e0.counter);
      && Pending(s.replay, c1)
      && (forall p :: !Negotiated(s.log, c1, p))
  {
    hide Negotiated;
    var t, v := Again(cfg, sm, m, m2), Verified(cfg, sm, m, m2);
    var c1 := NextCounter(sm.replay.e0.counter);
    assert t.replay == Shifted(Consumed(sm.replay));
    var a := SendLogs(cfg, v, Msg3);
    forall p
      ensures !Negotiated(AwaitsFourth(cfg, sm, m, m2).log, c1, p)
    {
      var l := t.log + [Entered(PtkCalcNegotiating)] + [Entered(PtkCalcNegotiating2)];
      NegotiatedSnoc(l + [Entered(PtkInitNegotiating)], a, c1, p);
      NegotiatedSnoc(l, Entered(PtkInitNegotiating), c1, p);
      NegotiatedSnoc(t.log + [Entered(PtkCalcNegotiating)], Entered(PtkCalcNegotiating2), c1, p);
    }
  }

  /** What taking an authentic fourth message adds to the log. */
  lemma FourthHandled(cfg: Config, s: Sm, m: EapolKey, m4: EapolKey, c: Counter, r: int)
    requires s.started && s.state == PtkInitNegotiating && s.keys.valid && s.req == NO_REQUESTS
    requires (m.descriptor == KEY_TYPE_WPA || (s.suite.version == Wpa2 && m.descriptor == KEY_TYPE_RSN))
    requires s.suite.ccmp ==> m.version == VERSION_HMAC_SHA1_AES
    requires m4 == AnswerLike(m, c, 0, r) && cfg.verify(s.keys.ptk, m4) && Pending(s.replay, c)
    ensures var log, n := Handle(cfg, s, Received(m4, READ), QUIET).log, |s.log| + 1;
      && |log| > n && log[..n] == s.log + [Accepted(m4, Some(s.keys.ptk))] && log[n] == Entered(PtkInitDone)
  {
    hide Pending;
    hide Settle;
    hide EnterPtkInitDone;
    var t := Credit(s, m4).(rx := Rx(true, true, false, Some(m4), 0));
    assert t.log == s.log + [Accepted(m4, Some(s.keys.ptk))] && t.started;
    assert t.state == PtkInitNegotiating && t.micVerified && t.req == NO_REQUESTS;
    assert Plausible(s, m4) && InPlace(s, m4);
    assert Handle(cfg, s, Received(m4, READ), QUIET) == Settle(cfg, t, QUIET);
    DoneSettles(cfg, t);
  }

  lemma DoneSettles(cfg: Config, t: Sm)
    requires t.started && t.state == PtkInitNegotiating && t.micVerified && t.req == NO_REQUESTS && Response(t)
    ensures var log := Settle(cfg, t, QUIET).log;
      |log| > |t.log| && log[..|t.log|] == t.log && log[|t.log|] == Entered(PtkInitDone)
  {
    hide EnterPtkInitNegotiating;
    hide EnterDisconnect;
    hide EnterPtkStart;
    hide EnterInitialize;
    hide EnterAuthentication;
    hide EnterAuthentication2;
    hide EnterDisconnected;
    SettleOnce(cfg, t, QUIET);
    var d := EnterPtkInitDone(t.(changed := false), QUIET);
    assert Step(cfg, t.(changed := false), QUIET) == d;
    SettleOnce(cfg, d, QUIET);
    assert Step(cfg, d.(changed := false), QUIET) == d.(changed := false);
  }

  /** A fourth message with a counter that no third message of the negotiation had. */
  lemma CrossedFourth(cfg: Config, s: Sm, m: EapolKey, m4: EapolKey, c: Counter, r: int)
    requires s.started && s.state == PtkInitNegotiating && s.keys.valid && s.req == NO_REQUESTS
    requires (m.descriptor == KEY_TYPE_WPA || (s.suite.version == Wpa2 && m.descriptor == KEY_TYPE_RSN))
    requires s.suite.ccmp ==> m.version == VERSION_HMAC_SHA1_AES
    requires m4 == AnswerLike(m, c, 0, r) && cfg.verify(s.keys.ptk, m4)
    requires Pending(s.replay, c) && forall p :: !Negotiated(s.log, c, p)
    ensures !LogOk(cfg, Handshake, Handle(cfg, s, Received(m4, READ), QUIET).log)
  {
    hide LogOk;
    hide Negotiated;
    hide Pending;
    hide Handle;
    FourthHandled(cfg, s, m, m4, c, r);
    var a, log, n := Accepted(m4, Some(s.keys.ptk)), Handle(cfg, s, Received(m4, READ), QUIET).log, |s.log| + 1;
    forall p
      ensures !FourthAccepted(log[..n], p)
    {
      NegotiatedSnoc(s.log, a, c, p);
    }
    if LogOk(cfg, Handshake, log) {
      LogOkPrefix(cfg, Handshake, log, n);
    }
  }

  lemma DressFits(sm: Sm, m: EapolKey)
    requires Plausible(sm, m) && Classify(m) == Request
    ensures m.descriptor == KEY_TYPE_WPA || (sm.suite.version == Wpa2 && m.descriptor == KEY_TYPE_RSN)
    ensures sm.suite.ccmp ==> m.version == VERSION_HMAC_SHA1_AES
  {
  }

  lemma AnswersFirst(cfg: Config, sm: Sm, e: Event, env: Env) returns (more: seq<Input>)
    requires Able(cfg) && Good(cfg, sm) && Breaks(cfg, Handshake, sm, e)
    ensures NeverBreaks(cfg, Handshake, Handle(cfg, sm, e, env), more)
    ensures !InOrder(cfg, Handshake, RunFrom(cfg, Handle(cfg, sm, e, env), more))
  {
    hide Good;
    hide Settle;
    hide AwaitsFourth;
    hide Handle;
    hide LogOk;
    hide Pending;
    hide RunFrom;
    hide Plausible;
    hide Negotiated;
    hide NeverBreaks;
    hide Forgotten;
    hide Classify;
    var m, s0 := e.key, Handle(cfg, sm, e, env);
    Forgetting(cfg, sm, e, env);
    var p := Derived(cfg, sm);
    var c := sm.replay.e0.counter;
    assert EitherWay(cfg, p, AnswerLike(m, c, 1, 0));
    var r :| Authentic(cfg, p, AnswerLike(m, c, 1, 0), r);
    var m2 := AnswerLike(m, c, 1, r);
    SecondTaken(cfg, sm, m, m2, r);
    ThirdDue(cfg, sm, m, m2);
    FirstPending(cfg, sm, m, m2);
    AwaitsFourthKeys(cfg, sm, m, m2);
    var c1 := NextCounter(c);
    assert EitherWay(cfg, p, AnswerLike(m, c1, 0, 0));
    var r4 :| Authentic(cfg, p, AnswerLike(m, c1, 0, 0), r4);
    var m4 := AnswerLike(m, c1, 0, r4);
    DressFits(sm, m);
    CrossedFourth(cfg, AwaitsFourth(cfg, sm, m, m2), m, m4, c1, r4);
    var i2, i4 := Input(Received(m2, READ), QUIET), Input(Received(m4, READ), QUIET);
    more := [i2, i4];
    RunTwo(cfg, s0, i2, i4);
    OnlyAnswers(cfg, Handshake, s0, more);
  }

  lemma AwaitsFourthKeys(cfg: Config, sm: Sm, m: EapolKey, m2: EapolKey)
    requires sm.started && sm.state == PtkStart && cfg.psk.Some?
    ensures var s := AwaitsFourth(cfg, sm, m, m2);
      && s.started && s.state == PtkInitNegotiating && s.keys.valid && s.keys.ptk == Derived(cfg, sm)
      && s.suite == sm.suite && s.req == NO_REQUESTS
  {
  }

  // ---- The exact condition ----

  /** After any run that has kept an aspect out of danger, an input leaves it in order for good, whatever
      harmless inputs follow, if and only if it does not break it. */
  lemma ExactlyTheBreakingInputs(cfg: Config, x: Aspect, inputs: seq<Input>, e: Event, env: Env)
    requires Able(cfg) && NeverBreaks(cfg, x, POWER_UP, inputs)
    ensures var s := Handle(cfg, Run(cfg, inputs), e, env);
      (forall more | NeverBreaks(cfg, x, s, more) :: InOrder(cfg, x, RunFrom(cfg, s, more)))
      <==> !Breaks(cfg, x, Run(cfg, inputs), e)
  {
    hide Good;
    hide Handle;
    hide RunFrom;
    hide LogOk;
    hide Able;
    hide NeverBreaks;
    var sm := Run(cfg, inputs);
    var s := Handle(cfg, sm, e, env);
    PowerUpGood(cfg, x);
    RunKeeps(cfg, x, POWER_UP, inputs);
    HandleGood(cfg, sm, e, env);
    if Breaks(cfg, x, sm, e) {
      var more;
      if x == Retries {
        more := RestsAboveLimit(cfg, sm, e, env);
      } else {
        more := AnswersFirst(cfg, sm, e, env);
      }
    } else {
      forall more | NeverBreaks(cfg, x, s, more)
        ensures InOrder(cfg, x, RunFrom(cfg, s, more))
      {
        RunKeeps(cfg, x, s, more);
        SafeInOrder(cfg, x, RunFrom(cfg, s, more));
      }
    }
  }
}
