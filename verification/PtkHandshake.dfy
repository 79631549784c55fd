/**
 The handshake as a station goes through it, whatever the cryptography: association, second message,
 association again, fourth message; and what an honest station obtains by it.
 */
module PtkHandshake {
  import opened Common
  import opened PtkSpec

  /** A key is configured, and there is always a buffer for a message. */
  ghost predicate Ready(cfg: Config) {
    cfg.psk.Some? && forall n :: cfg.fault(n) != NoBuffer
  }

  const WINDOW1 := Replay(ReplayEntry(1, true), NO_ENTRY, NO_ENTRY, NO_ENTRY)
  const WINDOW2 := Replay(ReplayEntry(2, true), ReplayEntry(1, false), NO_ENTRY, NO_ENTRY)

  /** Waiting for the second message, with or without a key from an earlier attempt. */
  function Waiting2(suite: Suite, keys: Keys, rx: Rx, mic: bool, log: seq<Action>): Sm {
    Sm(PtkStart, NO_REQUESTS, 1, false, rx, mic, keys, WINDOW1, false, true, false, 0, suite, log)
  }

  /** Waiting for the fourth message, the last request having had counter `req`. */
  function Waiting4(suite: Suite, keys: Keys, rx: Rx, replay: Replay, req: Option<Counter>, log: seq<Action>): Sm {
    Sm(PtkInitNegotiating, NO_REQUESTS, 1, false, rx, true, keys, replay, false, true,
       req.Some?, if req.Some? then req.value else 0, suite, log)
  }

  /** The frame is made the way the suite asks for, and is no request. */
  predicate Answers(suite: Suite, m: EapolKey, c: Counter) {
    && (m.descriptor == KEY_TYPE_WPA || (suite.version == Wpa2 && m.descriptor == KEY_TYPE_RSN))
    && (suite.ccmp ==> m.version == VERSION_HMAC_SHA1_AES)
    && !m.smk && !m.request && m.pairwise && !m.ack && m.mic && m.replay == c && m.keyDataLen <= m.room && 0 <= m.room
  }

  const KEPT := Reading(true, true, true)

  // ---- Association ----

  function Opened(log: seq<Action>, n: Nonce): seq<Action> {
    log + [Entered(Initialize)] + [Entered(Authentication)] + [Renewed(n)] + [Entered(InitPsk)]
    + [Entered(PtkStart)] + [Sent(Msg1, 1, n, NoPtk, false, true)]
  }

  function NewKeys(cfg: Config, n: Nonce): Keys
    requires cfg.psk.Some?
  {
    Keys(n, cfg.psk.value, NoPtk, false, false, true)
  }

  lemma FirstAssociation(cfg: Config, suite: Suite, log: seq<Action>, env: Env)
    requires Ready(cfg) && suite.keyMgmt == Psk
    ensures Handle(cfg, Blank(suite, log), Associated, env) ==
            Waiting2(suite, NewKeys(cfg, env.nonce), NO_RX, false, Opened(log, env.nonce))
  {
    var s := Blank(suite, log).(started := true, req := NO_REQUESTS.(init := true));
    SettleOnce(cfg, s, env);
    var l1 := log + [Entered(Initialize)];
    var i := s.(keys := NO_KEYS.(pair := true), log := l1);
    assert Step(cfg, s, env) == i;
    var t := i.(req := NO_REQUESTS.(auth := true));
    SettleOnce(cfg, t, env);
    var t1 := t.(state := Authentication, changed := true, req := NO_REQUESTS, log := l1 + [Entered(Authentication)]);
    assert Step(cfg, t, env) == t1;
    SettleOnce(cfg, t1, env);
    var t2 := t1.(state := Authentication2, keys := t1.keys.(anonce := env.nonce), log := t1.log + [Renewed(env.nonce)]);
    assert Step(cfg, t1.(changed := false), env) == t2;
    FromNonce(cfg, t2, env);
  }

  /** From the entry of AUTHENTICATION2 to the first message. */
  lemma FromNonce(cfg: Config, sm: Sm, env: Env)
    requires Ready(cfg) && sm.state == Authentication2 && sm.started && sm.changed && sm.suite.keyMgmt == Psk
    requires sm.req == NO_REQUESTS && !sm.timeoutEvt && sm.timeoutCtr == 0 && !sm.rx.received && sm.replay == BLANK_REPLAY
    ensures Settle(cfg, sm, env) ==
      sm.(state := PtkStart, changed := false, timeoutCtr := 1, reqUsed := false, replay := WINDOW1,
          keys := sm.keys.(pmk := cfg.psk.value),
          log := sm.log + [Entered(InitPsk)] + [Entered(PtkStart)]
                 + [Sent(Msg1, 1, sm.keys.anonce, sm.keys.ptk, sm.keys.valid, true)])
  {
    SettleOnce(cfg, sm, env);
    var t3 := sm.(state := InitPsk, reqUsed := false, keys := sm.keys.(pmk := cfg.psk.value), log := sm.log + [Entered(InitPsk)]);
    assert Step(cfg, sm.(changed := false), env) == t3;
    SettleOnce(cfg, t3, env);
    var t4 := t3.(state := PtkStart, timeoutCtr := 1, replay := WINDOW1,
                  log := t3.log + [Entered(PtkStart)] + [Sent(Msg1, 1, sm.keys.anonce, sm.keys.ptk, sm.keys.valid, true)]);
    assert Step(cfg, t3.(changed := false), env) == t4;
    SettleOnce(cfg, t4, env);
    assert Step(cfg, t4.(changed := false), env) == t4.(changed := false);
  }

  function Reopened(log: seq<Action>, keys: Keys): seq<Action> {
    log + [ReplayReset] + [Renewed(keys.anonce)] + [Entered(InitPsk)] + [Entered(PtkStart)]
    + [Sent(Msg1, 1, keys.anonce, keys.ptk, keys.valid, true)]
  }

  /** Associating again takes a new nonce, and nothing else that is new. */
  lemma SecondAssociation(cfg: Config, suite: Suite, keys: Keys, rx: Rx, replay: Replay, log: seq<Action>, env: Env)
    requires Ready(cfg) && suite.keyMgmt == Psk && keys.pmk == cfg.psk.value && !rx.received
    ensures Handle(cfg, Waiting4(suite, keys, rx, replay, None, log), Associated, env) ==
            Waiting2(suite, keys.(anonce := env.nonce), rx, true, Reopened(log, keys.(anonce := env.nonce)))
  {
    var t := Waiting4(suite, keys, rx, BLANK_REPLAY, None, log + [ReplayReset]).(req := NO_REQUESTS.(reauth := true));
    SettleOnce(cfg, t, env);
    var t1 := t.(state := Authentication2, changed := true, req := NO_REQUESTS, timeoutCtr := 0,
                 keys := keys.(anonce := env.nonce), log := t.log + [Renewed(env.nonce)]);
    assert Step(cfg, t, env) == t1;
    FromNonce(cfg, t1, env);
  }

  // ---- The second message ----

  /** The keys once the second message has been checked. */
  function KeysAfter(cfg: Config, keys: Keys, m: EapolKey): Keys
    requires cfg.psk.Some?
  {
    var p := cfg.derive(cfg.psk.value, keys.anonce, m.nonce);
    if cfg.verify(p, m) then keys.(pmk := cfg.psk.value, ptk := p, valid := true) else keys
  }

  function Checked(cfg: Config, log: seq<Action>, keys: Keys, m: EapolKey): seq<Action>
    requires cfg.psk.Some?
  {
    var now := KeysAfter(cfg, keys, m);
    log + [Accepted(m, if keys.valid then Some(keys.ptk) else None)] + [Entered(PtkCalcNegotiating)]
    + [Entered(PtkCalcNegotiating2)] + [Entered(PtkInitNegotiating)]
    + [Sent(Msg3, 2, keys.anonce, now.ptk, true, cfg.fault(|log| + 4) == NoFault)]
  }

  function Credited2(suite: Suite, keys: Keys, log: seq<Action>, m: EapolKey): Sm {
    Waiting2(suite, keys, Rx(true, true, false, Some(m), m.nonce), keys.valid,
             log + [Accepted(m, if keys.valid then Some(keys.ptk) else None)]).(replay := Consumed(WINDOW1))
  }

  lemma SecondCredited(cfg: Config, suite: Suite, keys: Keys, rx: Rx, mic: bool, log: seq<Action>, m: EapolKey, env: Env)
    requires Answers(suite, m, 1) && m.keyDataLen != 0 && (keys.valid ==> cfg.verify(keys.ptk, m))
    ensures Handle(cfg, Waiting2(suite, keys, rx, mic, log), Received(m, KEPT), env) ==
            Settle(cfg, Credited2(suite, keys, log, m), env)
  {
    hide Settle;
    var w, t := Waiting2(suite, keys, rx, mic, log), Credited2(suite, keys, log, m);
    assert Credit(w, m).(rx := t.rx) == t;
    assert Plausible(w, m) && InPlace(w, m);
  }

  lemma SecondTaken(cfg: Config, suite: Suite, keys: Keys, rx: Rx, mic: bool, log: seq<Action>, m: EapolKey, env: Env)
    requires Ready(cfg) && suite.keyMgmt == Psk && Answers(suite, m, 1) && m.keyDataLen != 0
    requires keys.valid ==> cfg.verify(keys.ptk, m)
    requires KeysAfter(cfg, keys, m).valid
    ensures Handle(cfg, Waiting2(suite, keys, rx, mic, log), Received(m, KEPT), env) ==
            Waiting4(suite, KeysAfter(cfg, keys, m), Rx(false, true, false, Some(m), m.nonce), WINDOW2, None,
                     Checked(cfg, log, keys, m))
  {
    hide Handle;
    hide EnterInitialize;
    hide EnterDisconnect;
    hide EnterDisconnected;
    hide EnterAuthentication;
    hide EnterAuthentication2;
    hide EnterPtkStart;
    hide EnterPtkInitNegotiating;
    hide EnterPtkInitDone;
    var t := Credited2(suite, keys, log, m);
    SecondCredited(cfg, suite, keys, rx, mic, log, m, env);
    SettleOnce(cfg, t, env);
    var t1 := t.(state := PtkCalcNegotiating, changed := true, rx := t.rx.(received := false), micVerified := true,
                 keys := KeysAfter(cfg, keys, m), log := t.log + [Entered(PtkCalcNegotiating)]);
    assert Step(cfg, t, env) == t1;
    Negotiate(cfg, t1, env);
  }

  /** From a verified second message to the third. */
  lemma Negotiate(cfg: Config, sm: Sm, env: Env)
    requires Ready(cfg) && sm.state == PtkCalcNegotiating && sm.micVerified && sm.keys.valid && sm.started && sm.changed
    requires sm.req == NO_REQUESTS && !sm.timeoutEvt && !sm.rx.received
    ensures Settle(cfg, sm, env) ==
      sm.(state := PtkInitNegotiating, changed := false, timeoutCtr := 1, replay := Shifted(sm.replay),
          log := sm.log + [Entered(PtkCalcNegotiating2)] + [Entered(PtkInitNegotiating)]
                 + [Sent(Msg3, NextCounter(sm.replay.e0.counter), sm.keys.anonce, sm.keys.ptk, true,
                         cfg.fault(|sm.log| + 2) == NoFault)])
  {
    SettleOnce(cfg, sm, env);
    var t2 := sm.(state := PtkCalcNegotiating2, timeoutCtr := 0, log := sm.log + [Entered(PtkCalcNegotiating2)]);
    assert Step(cfg, sm.(changed := false), env) == t2;
    SettleOnce(cfg, t2, env);
    var t3 := t2.(state := PtkInitNegotiating, timeoutCtr := 1, replay := Shifted(sm.replay),
                  log := t2.log + [Entered(PtkInitNegotiating)]
                         + [Sent(Msg3, NextCounter(sm.replay.e0.counter), sm.keys.anonce, sm.keys.ptk, true,
                                 cfg.fault(|sm.log| + 2) == NoFault)]);
    assert Step(cfg, t2.(changed := false), env) == t3;
    SettleOnce(cfg, t3, env);
    assert Step(cfg, t3.(changed := false), env) == t3.(changed := false);
  }

  // ---- The fourth message ----

  function Finished(log: seq<Action>, p: Ptk, m: EapolKey, found: bool): seq<Action> {
    log + [Accepted(m, Some(p))] + [Entered(PtkInitDone)] + [KeyInstalled(p)] + (if found then [Authorized] else [])
  }

  lemma FourthTaken(cfg: Config, sm: Sm, m: EapolKey, env: Env)
    requires sm == Waiting4(sm.suite, sm.keys, sm.rx, sm.replay, if sm.reqUsed then Some(sm.reqCounter) else None, sm.log)
    requires sm.keys.valid && sm.keys.pair
    requires Answers(sm.suite, m, m.replay) && m.keyDataLen == 0 && Pending(sm.replay, m.replay) && cfg.verify(sm.keys.ptk, m)
    ensures var s := Handle(cfg, sm, Received(m, KEPT), env);
      && s.state == PtkInitDone && s.keys == sm.keys.(installed := true)
      && s.log == Finished(sm.log, sm.keys.ptk, m, env.found)
  {
    hide Pending;
    var t := sm.(rx := Rx(true, true, false, Some(m), m.nonce), replay := Consumed(sm.replay),
                 log := sm.log + [Accepted(m, Some(sm.keys.ptk))]);
    assert Credit(sm, m).(rx := t.rx) == t;
    assert Plausible(sm, m) && InPlace(sm, m);
    assert Handle(cfg, sm, Received(m, KEPT), env) == Settle(cfg, t, env);
    SettleOnce(cfg, t, env);
    var t1 := t.(state := PtkInitDone, changed := true, rx := t.rx.(received := false),
                 keys := sm.keys.(installed := true), log := Finished(sm.log, sm.keys.ptk, m, env.found));
    assert Step(cfg, t, env) == t1;
    SettleOnce(cfg, t1, env);
    assert Step(cfg, t1.(changed := false), env) == t1.(changed := false);
  }

  // ---- An honest station ----

  /** Whatever came before: a station that is initialised for a pre-shared key, associates, answers the first
      message authentically under the key derived from the nonces, and acknowledges the third, ends up with
      that key installed, and is authorised if the table knows it. The first message carried the nonce
      supplied with the association, the third the key. */
  lemma HonestHandshake(cfg: Config, inputs: seq<Input>, suite: Suite, m2: EapolKey, m4: EapolKey, envs: seq<Env>)
    requires Ready(cfg) && suite.keyMgmt == Psk && |envs| == 4
    requires Answers(suite, m2, 1) && m2.keyDataLen != 0 && Answers(suite, m4, 2) && m4.keyDataLen == 0
    requires var p := cfg.derive(cfg.psk.value, envs[1].nonce, m2.nonce); cfg.verify(p, m2) && cfg.verify(p, m4)
    ensures var p := cfg.derive(cfg.psk.value, envs[1].nonce, m2.nonce);
            var s := Run(cfg, inputs + [Input(Init(suite), envs[0])] + [Input(Associated, envs[1])]
                              + [Input(Received(m2, KEPT), envs[2])] + [Input(Received(m4, KEPT), envs[3])]);
            var n := |s.log| - if envs[3].found then 1 else 0;
      && s.state == PtkInitDone && s.keys.ptk == p && s.keys.valid && s.keys.installed
      && n > 5 && s.log[n - 1] == KeyInstalled(p) && (envs[3].found ==> s.log[n] == Authorized)
      && s.log[n - 4] == Sent(Msg3, 2, envs[1].nonce, p, true, cfg.fault(n - 4) == NoFault)
      && Sent(Msg1, 1, envs[1].nonce, NoPtk, false, true) in s.log
  {
    hide Handle;
    hide Pending;
    hide Run;
    hide Opened;
    hide Checked;
    hide Finished;
    var i2 := inputs + [Input(Init(suite), envs[0])] + [Input(Associated, envs[1])] + [Input(Received(m2, KEPT), envs[2])];
    var log, keys := Run(cfg, inputs).log + [Zeroed], NewKeys(cfg, envs[1].nonce);
    ThirdOut(cfg, inputs, suite, m2, envs);
    RunNext(cfg, i2, Input(Received(m4, KEPT), envs[3]));
    NewestPending(WINDOW2);
    FourthTaken(cfg, Run(cfg, i2), m4, envs[3]);
    HonestLog(cfg, log, keys, m2, m4, envs[3].found);
  }

  /** From initialisation to the third message. */
  lemma ThirdOut(cfg: Config, inputs: seq<Input>, suite: Suite, m2: EapolKey, envs: seq<Env>)
    requires Ready(cfg) && suite.keyMgmt == Psk && |envs| == 4 && Answers(suite, m2, 1) && m2.keyDataLen != 0
    requires cfg.verify(cfg.derive(cfg.psk.value, envs[1].nonce, m2.nonce), m2)
    ensures var log, keys := Run(cfg, inputs).log + [Zeroed], NewKeys(cfg, envs[1].nonce);
      Run(cfg, inputs + [Input(Init(suite), envs[0])] + [Input(Associated, envs[1])] + [Input(Received(m2, KEPT), envs[2])])
      == Waiting4(suite, KeysAfter(cfg, keys, m2), Rx(false, true, false, Some(m2), m2.nonce), WINDOW2, None,
                  Checked(cfg, Opened(log, envs[1].nonce), keys, m2))
  {
    hide Handle;
    hide Run;
    hide Opened;
    hide Checked;
    var i0 := inputs + [Input(Init(suite), envs[0])];
    var i1 := i0 + [Input(Associated, envs[1])];
    RunNext(cfg, inputs, Input(Init(suite), envs[0]));
    Initialised(cfg, Run(cfg, inputs), suite, envs[0]);
    var log, keys := Run(cfg, inputs).log + [Zeroed], NewKeys(cfg, envs[1].nonce);
    RunNext(cfg, i0, Input(Associated, envs[1]));
    FirstAssociation(cfg, suite, log, envs[1]);
    RunNext(cfg, i1, Input(Received(m2, KEPT), envs[2]));
    SecondTaken(cfg, suite, keys, NO_RX, false, Opened(log, envs[1].nonce), m2, envs[2]);
  }

  lemma HonestLog(cfg: Config, log: seq<Action>, keys: Keys, m2: EapolKey, m4: EapolKey, found: bool)
    requires cfg.psk.Some? && !keys.valid
    ensures var p := KeysAfter(cfg, keys, m2).ptk;
            var l := Finished(Checked(cfg, Opened(log, keys.anonce), keys, m2), p, m4, found);
            var n := |l| - if found then 1 else 0;
      && n > 5 && l[n - 1] == KeyInstalled(p) && (found ==> l[n] == Authorized)
      && l[n - 4] == Sent(Msg3, 2, keys.anonce, p, true, cfg.fault(n - 4) == NoFault)
      && Sent(Msg1, 1, keys.anonce, NoPtk, false, true) in l
  {
    var p := KeysAfter(cfg, keys, m2).ptk;
    var l1 := Opened(log, keys.anonce);
    var l := Finished(Checked(cfg, l1, keys, m2), p, m4, found);
    assert l[|l1| - 1] == Sent(Msg1, 1, keys.anonce, NoPtk, false, true);
  }

  lemma Initialised(cfg: Config, sm: Sm, suite: Suite, env: Env)
    ensures Handle(cfg, sm, Init(suite), env) == Blank(suite, sm.log + [Zeroed])
  {
  }

  lemma NewestPending(r: Replay)
    requires r.e0.valid
    ensures Pending(r, r.e0.counter)
  {
  }

  lemma RunNext(cfg: Config, inputs: seq<Input>, i: Input)
    ensures Run(cfg, inputs + [i]) == Handle(cfg, Run(cfg, inputs), i.event, i.env)
  {
    hide Handle;
    assert (inputs + [i])[..|inputs|] == inputs;
  }
}
