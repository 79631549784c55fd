/**
 What whole runs of the pairwise machine come to: which key is installed and where its nonces come from,
 which answers and requests count, and what notices and the timer do.
 */
module PtkRuns {
  import opened Common
  import opened PtkSpec
  import opened PtkLog
  import opened PtkInvariant
  import opened PtkTheorems
  import opened PtkKeys

  // ---- Where nonces come from ----

  /** The log has only grown, and every nonce taken meanwhile is `n`. */
  ghost predicate Grown(before: seq<Action>, after: seq<Action>, n: Nonce) {
    && before <= after
    && forall k | |before| <= k < |after| && after[k].Renewed? :: after[k].taken == n
  }

  lemma GrownOn(a: seq<Action>, b: seq<Action>, c: seq<Action>, n: Nonce)
    requires Grown(a, b, n) && Grown(b, c, n)
    ensures Grown(a, c, n)
  {
  }

  lemma EntriesGrow(cfg: Config, sm: Sm, env: Env)
    ensures Grown(sm.log, EnterDisconnected(sm).log, env.nonce)
    ensures Grown(sm.log, EnterAuthentication(sm).log, env.nonce)
    ensures Grown(sm.log, EnterAuthentication2(sm, env).log, env.nonce)
    ensures Grown(sm.log, EnterInitPmk(sm).log, env.nonce)
  {
  }

  lemma CalcGrows(cfg: Config, sm: Sm, n: Nonce)
    ensures Grown(sm.log, EnterInitPsk(cfg, sm).log, n)
    ensures Grown(sm.log, EnterPtkCalcNegotiating(cfg, sm).log, n)
    ensures Grown(sm.log, EnterPtkCalcNegotiating2(sm).log, n)
  {
  }

  lemma DisconnectGrows(sm: Sm, env: Env)
    ensures Grown(sm.log, EnterDisconnect(sm, env).log, env.nonce)
    ensures Grown(sm.log, StaDisconnect(sm, env).log, env.nonce)
  {
  }

  lemma InitializeGrows(sm: Sm, n: Nonce)
    ensures Grown(sm.log, EnterInitialize(sm).log, n)
  {
    hide RemovePtk;
    hide Grown;
    var s := Enter(sm, Initialize).(keys := sm.keys.(pair := true), timeoutCtr := 0);
    var t := if sm.req.init then s.(changed := false) else s;
    SameGrown(sm.log, [Entered(Initialize)], n);
    RemovePtkGrows(t, n);
    GrownOn(sm.log, t.log, RemovePtk(t).log, n);
  }

  lemma SendGrows(cfg: Config, sm: Sm, msg: Message, n: Nonce)
    ensures Grown(sm.log, Send(cfg, sm, msg).log, n)
  {
  }

  lemma SendingGrows(cfg: Config, sm: Sm, n: Nonce)
    ensures Grown(sm.log, EnterPtkStart(cfg, sm).log, n)
    ensures Grown(sm.log, EnterPtkInitNegotiating(cfg, sm).log, n)
  {
    hide Send;
    hide Grown;
    SameGrown(sm.log, [Entered(PtkStart)], n);
    SameGrown(sm.log, [Entered(PtkInitNegotiating)], n);
    SendGrows(cfg, Restarted(sm), Msg1, n);
    SendGrows(cfg, Renegotiated(sm), Msg3, n);
    GrownOn(sm.log, Restarted(sm).log, Send(cfg, Restarted(sm), Msg1).log, n);
    GrownOn(sm.log, Renegotiated(sm).log, Send(cfg, Renegotiated(sm), Msg3).log, n);
  }

  lemma DoneGrows(sm: Sm, env: Env, n: Nonce)
    ensures Grown(sm.log, EnterPtkInitDone(sm, env).log, n)
  {
  }

  lemma StepGrows(cfg: Config, sm: Sm, env: Env)
    ensures Grown(sm.log, Step(cfg, sm, env).log, env.nonce)
  {
    hide EnterInitialize;
    hide EnterDisconnect;
    hide EnterDisconnected;
    hide EnterAuthentication;
    hide EnterAuthentication2;
    hide EnterInitPmk;
    hide EnterInitPsk;
    hide EnterPtkStart;
    hide EnterPtkCalcNegotiating;
    hide EnterPtkCalcNegotiating2;
    hide EnterPtkInitNegotiating;
    hide EnterPtkInitDone;
    hide Grown;
    SameGrown(sm.log, [], env.nonce);
    EntriesGrow(cfg, sm, env);
    CalcGrows(cfg, sm, env.nonce);
    DisconnectGrows(sm, env);
    InitializeGrows(sm, env.nonce);
    SendingGrows(cfg, sm, env.nonce);
    DoneGrows(sm, env, env.nonce);
  }

  lemma {:induction false} SettleGrows(cfg: Config, sm: Sm, env: Env)
    ensures Grown(sm.log, Settle(cfg, sm, env).log, env.nonce)
    decreases Asked(sm.req), Happened(sm), Rank(sm.state)
  {
    hide Step;
    hide Grown;
    if sm.started {
      var s := sm.(changed := false);
      StepGrows(cfg, s, env);
      StepShrinks(cfg, s, env);
      var next := Step(cfg, s, env);
      if next.changed {
        SettleGrows(cfg, next, env);
        GrownOn(sm.log, next.log, Settle(cfg, next, env).log, env.nonce);
      }
    } else {
      SameGrown(sm.log, [], env.nonce);
    }
  }

  lemma SameGrown(log: seq<Action>, more: seq<Action>, n: Nonce)
    requires forall a <- more :: !a.Renewed?
    ensures Grown(log, log + more, n) && Grown(log, log, n)
  {
  }

  /** Whatever is handled, the log only grows, and a nonce taken is the one supplied with the input. */
  lemma HandleGrows(cfg: Config, sm: Sm, e: Event, env: Env)
    ensures Grown(sm.log, Handle(cfg, sm, e, env).log, env.nonce)
  {
    hide Settle;
    hide Receive;
    hide RemovePtk;
    hide Grown;
    SameGrown(sm.log, [Zeroed], env.nonce);
    match e
    case Associated => AssociatedGrows(cfg, sm, env);
    case Received(m, r) => ReceiveGrows(cfg, sm, m, r, env);
    case TimerFired => SettleGrows(cfg, sm.(timeoutEvt := true), env);
    case Notified(n) =>
      var s := Noticed(sm, n);
      RemovePtkGrows(s, env.nonce);
      SettleGrows(cfg, s, env);
      SettleGrows(cfg, RemovePtk(s), env);
      GrownOn(s.log, RemovePtk(s).log, Settle(cfg, RemovePtk(s), env).log, env.nonce);
    case _ =>
  }

  lemma RemovePtkGrows(sm: Sm, n: Nonce)
    ensures Grown(sm.log, RemovePtk(sm).log, n)
  {
  }

  lemma AssociatedGrows(cfg: Config, sm: Sm, env: Env)
    ensures Grown(sm.log, StaAssociated(cfg, sm, env).log, env.nonce)
  {
    hide Settle;
    hide Grown;
    SameGrown(sm.log, [ReplayReset], env.nonce);
    var r := Emit(sm.(replay := BLANK_REPLAY, req := sm.req.(reauth := true)), ReplayReset);
    SettleGrows(cfg, r, env);
    GrownOn(sm.log, r.log, Settle(cfg, r, env).log, env.nonce);
    var t := sm.(started := true, req := sm.req.(init := true));
    SettleGrows(cfg, t, env);
    var s := Settle(cfg, t, env);
    var u := s.(req := s.req.(init := false, auth := true));
    SettleGrows(cfg, u, env);
    GrownOn(sm.log, u.log, Settle(cfg, u, env).log, env.nonce);
  }

  lemma ReceiveGrows(cfg: Config, sm: Sm, m: EapolKey, r: Reading, env: Env)
    ensures Grown(sm.log, Receive(cfg, sm, m, r, env).log, env.nonce)
  {
    hide Settle;
    hide Grown;
    hide Plausible;
    hide InPlace;
    hide Classify;
    hide StaDisconnect;
    SameGrown(sm.log, [], env.nonce);
    DisconnectGrows(sm, env);
    var s := Credit(sm, m);
    SameGrown(sm.log, [if m.request then Requested(m, sm.keys.ptk)
                       else Accepted(m, if sm.keys.valid then Some(sm.keys.ptk) else None)], env.nonce);
    SettleGrows(cfg, Credited(sm, m), env);
    GrownOn(sm.log, s.log, Settle(cfg, Credited(sm, m), env).log, env.nonce);
  }

  /** In every run, a nonce taken is the one that was supplied with the input being handled just then. */
  lemma {:induction false} RunNonceSupplied(cfg: Config, inputs: seq<Input>, k: nat) returns (i: nat)
    requires k < |Run(cfg, inputs).log| && Run(cfg, inputs).log[k].Renewed?
    ensures i < |inputs| && Run(cfg, inputs).log[k].taken == inputs[i].env.nonce
    ensures |Run(cfg, inputs[..i]).log| <= k < |Run(cfg, inputs[..i + 1]).log|
    decreases |inputs|
  {
    hide Handle;
    var n := |inputs| - 1;
    var front := inputs[..n];
    HandleGrows(cfg, Run(cfg, front), inputs[n].event, inputs[n].env);
    assert inputs[..n + 1] == inputs;
    if k < |Run(cfg, front).log| {
      i := RunNonceSupplied(cfg, front, k);
      assert front[..i] == inputs[..i] && front[..i + 1] == inputs[..i + 1];
    } else {
      i := n;
    }
  }

  // ---- The key installed ----

  /** In every run, whenever a key is installed: the second message checked last, at `c`, is the answer `a`,
      and the nonce of the authenticator the one taken at `n`, the last entry of AUTHENTICATION2, which was
      supplied with input `i`. If the second message is authentic under the key derived from the configured
      key and these two nonces, that key is installed; if not, it is the key the message was accepted
      under. A message accepted without a key leads to the derived one. */
  lemma RunInstallsAgreedKey(cfg: Config, inputs: seq<Input>, k: nat) returns (c: nat, a: nat, n: nat, i: nat)
    requires k < |Run(cfg, inputs).log| && Run(cfg, inputs).log[k].KeyInstalled?
    ensures var log := Run(cfg, inputs).log;
      && a < c < k && n < c && cfg.psk.Some?
      && log[c] == Entered(PtkCalcNegotiating) && (forall j | c < j < k :: log[j] != Entered(PtkCalcNegotiating))
      && log[a].Accepted? && Classify(log[a].key) == Pairwise2 && (forall j | a < j < c :: !log[j].Accepted?)
      && log[n].Renewed? && (forall j | n < j < c :: !log[j].Renewed? && log[j] != Zeroed)
    ensures i < |inputs| && |Run(cfg, inputs[..i]).log| <= n < |Run(cfg, inputs[..i + 1]).log|
    ensures var log := Run(cfg, inputs).log;
            var p := cfg.derive(cfg.psk.value, inputs[i].env.nonce, log[a].key.nonce);
      && (cfg.verify(p, log[a].key) ==> log[k].installed == p)
      && (!cfg.verify(p, log[a].key) ==> log[a].under == Some(log[k].installed))
      && (log[a].under.None? ==> log[k].installed == p)
  {
    hide Run;
    hide LogOk;
    EveryRunKeysOk(cfg, inputs);
    KeyLogs(cfg, Run(cfg, inputs));
    c, a, n := InstalledKeyIs(cfg, Run(cfg, inputs).log, k);
    i := RunNonceSupplied(cfg, inputs, n);
  }

  /** In every run, each message carries the nonce taken at the last entry of AUTHENTICATION2. */
  lemma RunSendsNonce(cfg: Config, inputs: seq<Input>, k: nat) returns (n: nat)
    requires k < |Run(cfg, inputs).log| && Run(cfg, inputs).log[k].Sent?
    ensures var log := Run(cfg, inputs).log;
      && n < k && log[n] == Renewed(log[k].nonce) && forall j | n < j < k :: !log[j].Renewed? && log[j] != Zeroed
  {
    hide Run;
    hide LogOk;
    hide NonceOf;
    EveryRunKeysOk(cfg, inputs);
    KeyLogs(cfg, Run(cfg, inputs));
    LogOkPrefix(cfg, Keying, Run(cfg, inputs).log, k);
    n := NonceWhere(Run(cfg, inputs).log[..k]);
  }

  // ---- Requests ----

  /** In every run, each request taken is authentic, and the counters of requests taken strictly increase as
      long as they are not forgotten, which happens only when the master key is taken anew. */
  lemma RunRequestsIncrease(cfg: Config, inputs: seq<Input>, k1: nat, k2: nat)
    requires k1 < k2 < |Run(cfg, inputs).log|
    requires Run(cfg, inputs).log[k1].Requested? && Run(cfg, inputs).log[k2].Requested?
    requires forall i | k1 < i < k2 :: !ForgetsRequests(Run(cfg, inputs).log[i])
    ensures Run(cfg, inputs).log[k1].request.replay < Run(cfg, inputs).log[k2].request.replay
    ensures cfg.verify(Run(cfg, inputs).log[k2].verifiedBy, Run(cfg, inputs).log[k2].request)
  {
    hide Run;
    hide LogOk;
    EveryRunKeysOk(cfg, inputs);
    KeyLogs(cfg, Run(cfg, inputs));
    RequestCountersIncrease(cfg, Run(cfg, inputs).log, k1, k2);
    LogOkPrefix(cfg, Requesting, Run(cfg, inputs).log, k2);
  }

  /** After every run, a request whose counter is not above that of the last one taken changes nothing. */
  lemma RunIgnoresStaleRequest(cfg: Config, inputs: seq<Input>, k: nat, m: EapolKey, r: Reading, env: Env)
    requires k < |Run(cfg, inputs).log| && Run(cfg, inputs).log[k].Requested?
    requires forall i | k < i < |Run(cfg, inputs).log| :: !ForgetsRequests(Run(cfg, inputs).log[i])
    requires m.request && m.replay <= Run(cfg, inputs).log[k].request.replay
    ensures Handle(cfg, Run(cfg, inputs), Received(m, r), env) == Run(cfg, inputs)
  {
    hide Run;
    hide TakeKey;
    hide LogOk;
    hide InPlace;
    var sm := Run(cfg, inputs);
    EveryRunKeysOk(cfg, inputs);
    var last := LastRequested(cfg, sm.log, k);
    assert sm.log[..|sm.log|] == sm.log;
    LastRequestAfter(sm.log, last, |sm.log|);
    KeyLogs(cfg, sm);
    if k < last { RequestCountersIncrease(cfg, sm.log, k, last); }
    RequestRecorded(cfg, sm);
  }

  lemma RequestRecorded(cfg: Config, sm: Sm)
    requires KeysOk(cfg, sm)
    ensures LastRequest(sm.log) == if sm.reqUsed then Some(sm.reqCounter) else None
  {
  }

  lemma {:induction false} LastRequested(cfg: Config, log: seq<Action>, k: nat) returns (last: nat)
    requires k < |log| && log[k].Requested?
    ensures k <= last < |log| && log[last].Requested? && forall i | last < i < |log| :: !log[i].Requested?
    decreases |log| - k
  {
    last := k;
    if j :| k < j < |log| && log[j].Requested? { last := LastRequested(cfg, log, j); }
  }

  // ---- The window ----

  /** The counters of the latest messages, at most `n`, sent since the last barrier. */
  function Recent(log: seq<Action>, n: nat): set<Counter> {
    if log == [] || n == 0 then {}
    else
      var front, a := log[..|log| - 1], log[|log| - 1];
      if Barrier(a) then {}
      else if a.Sent? then {a.counter} + Recent(front, n - 1)
      else Recent(front, n)
  }

  function Open(r: Replay, n: nat): set<Counter>
    requires n <= 4
  {
    (if n >= 1 && r.e0.valid then {r.e0.counter} else {})
    + (if n >= 2 && r.e0.valid && r.e1.valid then {r.e1.counter} else {})
    + (if n >= 3 && r.e0.valid && r.e1.valid && r.e2.valid then {r.e2.counter} else {})
    + (if n >= 4 && r.e0.valid && r.e1.valid && r.e2.valid && r.e3.valid then {r.e3.counter} else {})
  }

  lemma {:induction false} OpenIsRecent(log: seq<Action>, n: nat)
    requires n <= 4
    ensures Open(Window(log), n) == Recent(log, n)
    decreases |log|
  {
    if log != [] && n > 0 {
      var front, a := log[..|log| - 1], log[|log| - 1];
      OpenIsRecent(front, n);
      OpenIsRecent(front, n - 1);
      var r := Window(front);
      if a.Sent? {
        assert Open(WindowStep(r, a), n) == {a.counter} + Open(r, n - 1);
      }
    }
  }

  /** After every run, a counter is acceptable exactly if one of the last four messages sent since the last
      acceptance or reset carried it. */
  lemma RunWindow(cfg: Config, inputs: seq<Input>, c: Counter)
    ensures Pending(Run(cfg, inputs).replay, c) <==> c in Recent(Run(cfg, inputs).log, REPLAY_WINDOW)
  {
    hide Run;
    hide LogOk;
    hide Window;
    hide Recent;
    var sm := Run(cfg, inputs);
    EveryRunIsGood(cfg, inputs);
    GoodWindow(cfg, sm);
    OpenIsRecent(sm.log, REPLAY_WINDOW);
    assert Pending(sm.replay, c) <==> c in Open(sm.replay, REPLAY_WINDOW);
  }

  lemma GoodWindow(cfg: Config, sm: Sm)
    requires Good(cfg, sm)
    ensures sm.replay == Window(sm.log)
  {
    hide LogOk;
    hide Attempts;
  }

  // ---- Which frames count ----

  predicate IsSecond(m: EapolKey) {
    !m.smk && !m.request && m.pairwise && m.keyDataLen != 0
  }

  /** What makes a frame count, read off the frame, the state, the key and the log. */
  predicate Counts(cfg: Config, sm: Sm, m: EapolKey, r: Reading) {
    && sm.started && !m.ack && m.mic && !m.smk && 0 <= m.room && m.keyDataLen <= m.room
    && (m.descriptor == KEY_TYPE_WPA || (sm.suite.version == Wpa2 && m.descriptor == KEY_TYPE_RSN))
    && (sm.suite.ccmp ==> m.version == VERSION_HMAC_SHA1_AES)
    && (sm.keys.valid ==> cfg.verify(sm.keys.ptk, m))
    && (m.request ==> sm.keys.valid && (LastRequest(sm.log).Some? ==> LastRequest(sm.log).value < m.replay))
    && (!m.request ==> m.replay in Recent(sm.log, REPLAY_WINDOW))
    && (IsSecond(m) ==> (sm.state == PtkStart || sm.state == PtkCalcNegotiating) && r.kdeOk && r.ieOk)
    && (!m.request && m.pairwise && !IsSecond(m) ==> sm.state == PtkInitNegotiating && sm.keys.valid)
  }

  /** After every run, a frame is logged as accepted, or as a request taken, exactly if it counts. One that
      does not count changes nothing, except that the integrity code may be held to be unverified, and
      except that a second message with a foreign information element may cost the station its place. */
  lemma RunTakesIff(cfg: Config, inputs: seq<Input>, m: EapolKey, r: Reading, env: Env)
    ensures var sm := Run(cfg, inputs);
            var s := Handle(cfg, sm, Received(m, r), env);
      && (sm.log + [Taking(sm, m)] <= s.log <==> Counts(cfg, sm, m, r))
      && (!Counts(cfg, sm, m, r) && !(IsSecond(m) && r.kdeOk && !r.ieOk) ==> s == sm.(micVerified := s.micVerified))
  {
    hide Run;
    hide Recent;
    hide LastRequest;
    hide Settle;
    hide Pending;
    hide KeysOk;
    var sm := Run(cfg, inputs);
    EveryRunKeysOk(cfg, inputs);
    RequestRecorded(cfg, sm);
    RunWindow(cfg, inputs, m.replay);
    TakesIff(cfg, sm, m, r, env);
  }

  lemma TakesIff(cfg: Config, sm: Sm, m: EapolKey, r: Reading, env: Env)
    requires LastRequest(sm.log) == if sm.reqUsed then Some(sm.reqCounter) else None
    requires Pending(sm.replay, m.replay) <==> m.replay in Recent(sm.log, REPLAY_WINDOW)
    ensures var s := Receive(cfg, sm, m, r, env);
      && (sm.log + [Taking(sm, m)] <= s.log <==> Counts(cfg, sm, m, r))
      && (!Counts(cfg, sm, m, r) && !(IsSecond(m) && r.kdeOk && !r.ieOk) ==> s == sm.(micVerified := s.micVerified))
  {
    hide Counts;
    hide Taken;
    CountsIff(cfg, sm, m, r);
    if Taken(cfg, sm, m) && (IsSecond(m) ==> r.kdeOk && r.ieOk) {
      TakenLogs(cfg, sm, m, r, env);
    } else {
      NotTaken(cfg, sm, m, r, env);
    }
  }

  function Taking(sm: Sm, m: EapolKey): Action {
    if m.request then Requested(m, sm.keys.ptk) else Accepted(m, if sm.keys.valid then Some(sm.keys.ptk) else None)
  }

  lemma CountsIff(cfg: Config, sm: Sm, m: EapolKey, r: Reading)
    requires LastRequest(sm.log) == if sm.reqUsed then Some(sm.reqCounter) else None
    requires Pending(sm.replay, m.replay) <==> m.replay in Recent(sm.log, REPLAY_WINDOW)
    ensures Counts(cfg, sm, m, r) <==> Taken(cfg, sm, m) && (IsSecond(m) ==> r.kdeOk && r.ieOk)
  {
    hide Recent;
    hide LastRequest;
    hide Pending;
  }

  lemma TakenLogs(cfg: Config, sm: Sm, m: EapolKey, r: Reading, env: Env)
    requires Taken(cfg, sm, m) && (IsSecond(m) ==> r.kdeOk && r.ieOk)
    ensures sm.log + [Taking(sm, m)] <= Receive(cfg, sm, m, r, env).log
  {
    hide Settle;
    hide Plausible;
    hide InPlace;
    hide Credit;
    SettleGrows(cfg, Credited(sm, m), env);
    CreditLogs(sm, m);
  }

  lemma CreditLogs(sm: Sm, m: EapolKey)
    ensures Credit(sm, m).log == sm.log + [Taking(sm, m)] && Credit(sm, m).rx == sm.rx
  {
  }

  lemma NotTaken(cfg: Config, sm: Sm, m: EapolKey, r: Reading, env: Env)
    requires !(Taken(cfg, sm, m) && (IsSecond(m) ==> r.kdeOk && r.ieOk))
    ensures var s := Receive(cfg, sm, m, r, env);
      && !(sm.log + [Taking(sm, m)] <= s.log)
      && (!(IsSecond(m) && r.kdeOk && !r.ieOk) ==> s == sm.(micVerified := s.micVerified))
  {
    hide Settle;
    hide Plausible;
    hide InPlace;
    hide Credit;
    assert env.found ==> StaDisconnect(sm, env).log[|sm.log|] == Deauthenticated;
  }
}
