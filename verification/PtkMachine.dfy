/**
 The pairwise state machine in the form the driver runs it: fields updated in place by the entry
 action of each state, a replay window shifted in place, and a loop that steps until nothing changes.
 Every method is proved to do to the fields what PtkSpec says; every handler keeps the invariant, and
 a sequence of handler calls is a run, so that all that holds of every run holds of the machine.
 */
module PtkMachine {
  import opened Common
  import opened PtkSpec
  import opened PtkLog
  import opened PtkInvariant
  import opened PtkTheorems
  import opened PtkKeys

  lemma CreditIgnoresMic(sm: Sm, m: EapolKey)
    ensures Credit(sm.(micVerified := sm.keys.valid), m) == Credit(sm, m)
  {
  }

  lemma RunLogsKeys(cfg: Config, inputs: seq<Input>)
    ensures LogOk(cfg, Requesting, Run(cfg, inputs).log) && LogOk(cfg, Keying, Run(cfg, inputs).log)
  {
    hide Run;
    hide LogOk;
    EveryRunKeysOk(cfg, inputs);
    KeyLogs(cfg, Run(cfg, inputs));
  }

  class StateMachine {
    const cfg: Config

    var state: PtkState
    var req: Requests
    var timeoutCtr: int
    var timeoutEvt: bool
    var rx: Rx
    var micVerified: bool
    var keys: Keys
    const keyReplay: array<ReplayEntry>
    var changed: bool
    var started: bool
    var reqReplayCounterUsed: bool
    var reqReplayCounter: Counter
    var suite: Suite

    /** What the machine has done to the outside world. */
    var log: seq<Action>

    ghost predicate Valid()
      reads this
    {
      keyReplay.Length == REPLAY_WINDOW
    }

    ghost function View(): Sm
      requires Valid()
      reads this, keyReplay
    {
      Sm(state, req, timeoutCtr, timeoutEvt, rx, micVerified, keys,
         Replay(keyReplay[0], keyReplay[1], keyReplay[2], keyReplay[3]),
         changed, started, reqReplayCounterUsed, reqReplayCounter, suite, log)
    }

    constructor (cfg: Config)
      ensures Valid() && View() == Blank(NO_SUITE, []) && this.cfg == cfg && fresh(keyReplay)
    {
      this.cfg := cfg;
      state, req, timeoutCtr, timeoutEvt := Initialize, NO_REQUESTS, 0, false;
      rx, micVerified, keys := NO_RX, false, NO_KEYS;
      keyReplay := new ReplayEntry[REPLAY_WINDOW](_ => NO_ENTRY);
      changed, started := false, false;
      reqReplayCounterUsed, reqReplayCounter, suite := false, 0, NO_SUITE;
      log := [];
    }

    /** memset of the whole structure. */
    method Zero()
      requires Valid()
      modifies this, keyReplay
      ensures Valid() && View() == Blank(NO_SUITE, old(log) + [Zeroed])
    {
      ClearReplay();
      assert Replay(keyReplay[0], keyReplay[1], keyReplay[2], keyReplay[3]) == BLANK_REPLAY;
      state, req, timeoutCtr, timeoutEvt := Initialize, NO_REQUESTS, 0, false;
      rx, micVerified, keys := NO_RX, false, NO_KEYS;
      changed, started := false, false;
      reqReplayCounterUsed, reqReplayCounter, suite := false, 0, NO_SUITE;
      log := log + [Zeroed];
    }

    method ClearReplay()
      requires Valid()
      modifies keyReplay
      ensures forall i | 0 <= i < REPLAY_WINDOW :: keyReplay[i] == NO_ENTRY
    {
      for i := 0 to REPLAY_WINDOW
        invariant forall k | 0 <= k < i :: keyReplay[k] == NO_ENTRY
      {
        keyReplay[i] := NO_ENTRY;
      }
    }

    method ForgetReplay()
      requires Valid()
      modifies this`log, keyReplay
      ensures View() == Emit(old(View()).(replay := BLANK_REPLAY), ReplayReset)
    {
      ClearReplay();
      log := log + [ReplayReset];
    }

    /** `wpa_replay_counter_valid`. */
    method ReplayCounterValid(c: Counter) returns (found: bool)
      requires Valid()
      ensures found == Pending(View().replay, c)
    {
      for i := 0 to REPLAY_WINDOW
        invariant forall k | 0 <= k < i :: keyReplay[k].valid && keyReplay[k].counter != c
      {
        if !keyReplay[i].valid {
          return false;
        }
        if keyReplay[i].counter == c {
          return true;
        }
      }
      found := false;
    }

    /** The replay window shift of `__wpa_send_eapol`. */
    method ShiftReplay()
      requires Valid()
      modifies keyReplay
      ensures keyReplay[0] == ReplayEntry(NextCounter(old(keyReplay[0].counter)), true)
      ensures forall i | 0 < i < REPLAY_WINDOW :: keyReplay[i] == old(keyReplay[i - 1])
    {
      var i := REPLAY_WINDOW - 1;
      while i > 0
        invariant 0 <= i < REPLAY_WINDOW
        invariant forall k | i < k < REPLAY_WINDOW :: keyReplay[k] == old(keyReplay[k - 1])
        invariant forall k | 0 <= k <= i :: keyReplay[k] == old(keyReplay[k])
      {
        keyReplay[i] := keyReplay[i - 1];
        i := i - 1;
      }
      keyReplay[0] := ReplayEntry(NextCounter(keyReplay[0].counter), true);
    }

    /** `wpa_send_eapol`. */
    method SendEapol(msg: Message)
      requires Valid()
      modifies this`log, keyReplay
      ensures View() == Send(cfg, old(View()), msg)
    {
      if !started {
        return;
      }
      var fault := cfg.fault(|log|);
      if fault == NoBuffer {
        log := log + [SendFailed(msg)];
        return;
      }
      ShiftReplay();
      var onAir := msg == Msg1 || (keys.valid && fault == NoFault);
      log := log + [Sent(msg, keyReplay[0].counter, keys.anonce, keys.ptk, keys.valid, onAir)];
    }

    /** `SM_ENTRY_MA`. */
    method EnterState(s: PtkState)
      requires Valid()
      modifies this`state, this`changed, this`log
      ensures View() == Enter(old(View()), s)
    {
      changed := true;
      state := s;
      log := log + [Entered(s)];
    }

    /** `wpa_remove_ptk`. */
    method DropPtk()
      requires Valid()
      modifies this`keys, this`log
      ensures View() == RemovePtk(old(View()))
    {
      if keys.installed {
        keys := keys.(ptk := NoPtk, installed := false);
        log := log + [KeyRemoved];
      }
    }

    /** `wpa_sta_disconnect`. */
    method DisconnectStation(env: Env)
      requires Valid()
      modifies this, keyReplay
      ensures Valid() && View() == StaDisconnect(old(View()), env)
    {
      if env.found {
        log := log + [Deauthenticated];
        Zero();
      }
    }

    method DoInitialize()
      requires Valid()
      modifies this
      ensures Valid() && View() == EnterInitialize(old(View()))
    {
      EnterState(Initialize);
      if req.init {
        changed := false;
      }
      keys := keys.(pair := true);
      DropPtk();
      timeoutCtr := 0;
    }

    method DoDisconnect(env: Env)
      requires Valid()
      modifies this, keyReplay
      ensures Valid() && View() == EnterDisconnect(old(View()), env)
    {
      EnterState(Disconnect);
      req := req.(disconnect := false);
      DisconnectStation(env);
    }

    method DoDisconnected()
      requires Valid()
      modifies this
      ensures Valid() && View() == EnterDisconnected(old(View()))
    {
      EnterState(Disconnected);
      req := req.(deauth := false);
    }

    method DoAuthentication()
      requires Valid()
      modifies this
      ensures Valid() && View() == EnterAuthentication(old(View()))
    {
      EnterState(Authentication);
      keys := keys.(ptk := NoPtk, valid := false);
      req := req.(auth := false);
    }

    method DoAuthentication2(env: Env)
      requires Valid()
      modifies this
      ensures Valid() && View() == EnterAuthentication2(old(View()), env)
    {
      state, changed, log := Authentication2, true, log + [Renewed(env.nonce)];
      keys, req, timeoutCtr := keys.(anonce := env.nonce), req.(reauth := false), 0;
    }

    method DoInitPmk()
      requires Valid()
      modifies this
      ensures Valid() && View() == EnterInitPmk(old(View()))
    {
      EnterState(InitPmk);
      reqReplayCounterUsed := false;
    }

    method DoInitPsk()
      requires Valid()
      modifies this
      ensures Valid() && View() == EnterInitPsk(cfg, old(View()))
    {
      EnterState(InitPsk);
      if cfg.psk.Some? {
        keys := keys.(pmk := cfg.psk.value);
      }
      reqReplayCounterUsed := false;
    }

    method DoPtkStart()
      requires Valid()
      modifies this, keyReplay
      ensures Valid() && View() == EnterPtkStart(cfg, old(View()))
    {
      EnterState(PtkStart);
      req := req.(ptk := false);
      timeoutEvt := false;
      timeoutCtr := timeoutCtr + 1;
      if timeoutCtr > PAIRWISE_UPDATE_COUNT {
        return;
      }
      SendEapol(Msg1);
    }

    method DoPtkCalcNegotiating()
      requires Valid()
      modifies this
      ensures Valid() && View() == EnterPtkCalcNegotiating(cfg, old(View()))
    {
      EnterState(PtkCalcNegotiating);
      rx := rx.(received := false);
      var candidate := if suite.keyMgmt == Psk then cfg.psk else Some(keys.pmk);
      if candidate.None? || rx.last.None? {
        return;
      }
      var derived := cfg.derive(candidate.value, keys.anonce, rx.nonce);
      if !cfg.verify(derived, rx.last.value) {
        return;
      }
      micVerified := true;
      keys := keys.(pmk := candidate.value, ptk := derived, valid := true);
    }

    method DoPtkCalcNegotiating2()
      requires Valid()
      modifies this
      ensures Valid() && View() == EnterPtkCalcNegotiating2(old(View()))
    {
      EnterState(PtkCalcNegotiating2);
      timeoutCtr := 0;
    }

    method DoPtkInitNegotiating()
      requires Valid()
      modifies this, keyReplay
      ensures Valid() && View() == EnterPtkInitNegotiating(cfg, old(View()))
    {
      EnterState(PtkInitNegotiating);
      timeoutEvt := false;
      timeoutCtr := timeoutCtr + 1;
      if timeoutCtr > PAIRWISE_UPDATE_COUNT {
        return;
      }
      SendEapol(Msg3);
    }

    method DoPtkInitDone(env: Env)
      requires Valid()
      modifies this
      ensures Valid() && View() == EnterPtkInitDone(old(View()), env)
    {
      EnterState(PtkInitDone);
      rx := rx.(received := false);
      if keys.pair {
        log := log + [KeyInstalled(keys.ptk)];
        keys := keys.(installed := true);
      }
      if env.found {
        log := log + [Authorized];
      }
    }

    /** The state switch of `SM_STEP(WPA_PTK)`. */
    method StepState(env: Env)
      requires Valid()
      modifies this, keyReplay
      ensures Valid() && View() == StateStep(cfg, old(View()), env)
    {
      hide EnterInitialize;
      hide EnterDisconnect;
      hide EnterDisconnected;
      hide EnterAuthentication2;
      hide EnterInitPmk;
      hide EnterInitPsk;
      hide EnterPtkStart;
      hide EnterPtkCalcNegotiating;
      hide EnterPtkCalcNegotiating2;
      hide EnterPtkInitNegotiating;
      hide EnterPtkInitDone;
      match state
      case Initialize =>
      case Disconnect => DoDisconnected();
      case Disconnected => DoInitialize();
      case Authentication => DoAuthentication2(env);
      case Authentication2 =>
        if suite.keyMgmt == Ieee8021x {
          DoInitPmk();
        } else if suite.keyMgmt == Psk {
          DoInitPsk();
        }
      case InitPmk => DoDisconnect(env);
      case InitPsk =>
        if cfg.psk.Some? {
          DoPtkStart();
        } else {
          DoDisconnect(env);
        }
      case PtkStart =>
        if rx.received && !rx.request && rx.pairwise {
          DoPtkCalcNegotiating();
        } else if timeoutCtr > PAIRWISE_UPDATE_COUNT {
          DoDisconnect(env);
        } else if timeoutEvt {
          DoPtkStart();
        }
      case PtkCalcNegotiating =>
        if micVerified {
          DoPtkCalcNegotiating2();
        } else if rx.received && !rx.request && rx.pairwise {
          DoPtkCalcNegotiating();
        } else if timeoutEvt {
          DoPtkStart();
        }
      case PtkCalcNegotiating2 => DoPtkInitNegotiating();
      case PtkInitNegotiating =>
        if rx.received && !rx.request && rx.pairwise && micVerified {
          DoPtkInitDone(env);
        } else if timeoutCtr > PAIRWISE_UPDATE_COUNT {
          DoDisconnect(env);
        } else if timeoutEvt {
          DoPtkInitNegotiating();
        }
      case PtkInitDone =>
    }

    /** `SM_STEP(WPA_PTK)`. */
    method StepOnce(env: Env)
      requires Valid()
      modifies this, keyReplay
      ensures Valid() && View() == Step(cfg, old(View()), env)
    {
      hide EnterInitialize;
      hide EnterDisconnect;
      hide EnterDisconnected;
      hide EnterAuthentication;
      hide EnterAuthentication2;
      hide EnterPtkStart;
      hide StateStep;
      if req.init {
        DoInitialize();
      } else if req.disconnect {
        DoDisconnect(env);
      } else if req.deauth {
        DoDisconnected();
      } else if req.auth {
        DoAuthentication();
      } else if req.reauth {
        DoAuthentication2(env);
      } else if req.ptk {
        DoPtkStart();
      } else {
        StepState(env);
      }
    }

    /** `wpa_sm_step`: the do-while loop, which ends from every state. */
    method SmStep(env: Env)
      requires Valid()
      modifies this, keyReplay
      ensures Valid() && View() == Settle(cfg, old(View()), env)
    {
      hide Step;
      var again := true;
      while again
        invariant Valid()
        invariant Settle(cfg, old(View()), env) == if again then Settle(cfg, View(), env) else View()
        decreases again, Asked(req), Happened(View()), Rank(state)
      {
        if !started {
          break;
        }
        changed := false;
        StepShrinks(cfg, View(), env);
        StepOnce(env);
        again := changed;
      }
    }

    // ---- Handlers ----

    /** Between calls. */
    ghost predicate Ready()
      reads this, keyReplay
    {
      Valid() && Good(cfg, View())
    }

    /** What a handler called for event `e` guarantees: the machine is ready again, has done what the
        specification says, and its log is in order as far as counters and attempts go; the retry limit
        and the handshake stay safe unless the event breaks them. */
    twostate predicate Handled(e: Event, env: Env)
      requires old(Ready())
      reads this, keyReplay
    {
      && Ready()
      && View() == Handle(cfg, old(View()), e, env)
      && LogOk(cfg, Replays, log) && LogOk(cfg, Retries, log)
      && (LimitedAtRest(old(View())) && !Breaks(cfg, Retries, old(View()), e) ==> LimitedAtRest(View()))
      && (HonestAtRest(cfg, old(View())) && !Breaks(cfg, Handshake, old(View()), e) ==> HonestAtRest(cfg, View()))
    }

    /** `wpa_auth_sta_init`, with the suite `wpa_validate_wpa_ie` settles on. */
    method Start(newSuite: Suite, ghost env: Env)
      requires Ready()
      modifies this, keyReplay
      ensures Handled(Init(newSuite), env)
    {
      hide Good;
      hide Breaks;
      hide LimitedAtRest;
      hide HonestAtRest;
      HandleGood(cfg, View(), Init(newSuite), env);
      GoodLogs(cfg, Handle(cfg, View(), Init(newSuite), env));
      Zero();
      suite := newSuite;
    }

    /** `wpa_auth_sta_associated`. */
    method Associate(env: Env)
      requires Ready()
      modifies this, keyReplay
      ensures Handled(Associated, env)
    {
      hide StaAssociated;
      hide Good;
      hide Breaks;
      hide LimitedAtRest;
      hide HonestAtRest;
      HandleGood(cfg, View(), Associated, env);
      GoodLogs(cfg, Handle(cfg, View(), Associated, env));
      StepAssociated(env);
    }

    /** The two ways a machine is set going. */
    method StepAssociated(env: Env)
      requires Valid()
      modifies this, keyReplay
      ensures Valid() && View() == StaAssociated(cfg, old(View()), env)
    {
      hide Settle;
      if started {
        ForgetReplay();
        req := req.(reauth := true);
        SmStep(env);
        return;
      }
      started := true;
      req := req.(init := true);
      SmStep(env);
      req := req.(init := false, auth := true);
      SmStep(env);
    }

    /** `wpa_receive`. */
    method ReceiveKey(m: EapolKey, r: Reading, env: Env)
      requires Ready()
      modifies this, keyReplay
      ensures Handled(Received(m, r), env)
    {
      hide Good;
      hide Breaks;
      hide LimitedAtRest;
      hide HonestAtRest;
      hide Receive;
      HandleGood(cfg, View(), Received(m, r), env);
      GoodLogs(cfg, Handle(cfg, View(), Received(m, r), env));
      CheckKeyFrame(m, r, env);
    }

    /** The checks of `wpa_receive`, in its order. */
    method CheckKeyFrame(m: EapolKey, r: Reading, env: Env)
      requires Valid()
      modifies this, keyReplay
      ensures Valid() && View() == Receive(cfg, old(View()), m, r, env)
    {
      hide TakeKey;
      hide StaDisconnect;
      hide Pending;
      if !started || m.room < 0 || m.keyDataLen > m.room {
        return;
      }
      if m.descriptor != KEY_TYPE_WPA && !(suite.version == Wpa2 && m.descriptor == KEY_TYPE_RSN) {
        return;
      }
      var kind := Classify(m);
      if kind != Smk && suite.ccmp && m.version != VERSION_HMAC_SHA1_AES {
        return;
      }
      if m.request {
        if reqReplayCounterUsed && m.replay <= reqReplayCounter {
          return;
        }
      } else {
        var pending := ReplayCounterValid(m.replay);
        if !pending {
          return;
        }
      }
      assert Plausible(View(), m);
      match kind {
        case Pairwise2 =>
          if state != PtkStart && state != PtkCalcNegotiating {
            return;
          }
          if !r.kdeOk {
            return;
          }
          if !r.ieOk {
            DisconnectStation(env);
            return;
          }
        case Pairwise4 =>
          if state != PtkInitNegotiating || !keys.valid {
            return;
          }
        case Group2 =>
        case Request =>
        case Smk =>
          return;
      }
      if m.ack || !m.mic {
        return;
      }
      TakeKeyFrame(m, r, env);
    }

    /** The part of `wpa_receive` from the integrity check on. */
    method TakeKeyFrame(m: EapolKey, r: Reading, env: Env)
      requires Valid()
      modifies this, keyReplay
      ensures Valid() && View() == TakeKey(cfg, old(View()), m, r, env)
    {
      hide Settle;
      hide Credit;
      if keys.valid && !cfg.verify(keys.ptk, m) {
        micVerified := false;
        return;
      }
      CreditIgnoresMic(View(), m);
      micVerified := keys.valid;
      if m.request && !micVerified {
        return;
      }
      CreditFrame(m);
      if !r.keepOk {
        rx := rx.(last := None);
        return;
      }
      rx := Rx(true, m.pairwise, m.request, Some(m), m.nonce);
      SmStep(env);
    }

    /** What an accepted frame changes before the machine is stepped. */
    method CreditFrame(m: EapolKey)
      requires Valid() && micVerified == keys.valid
      modifies this, keyReplay
      ensures Valid() && View() == Credit(old(View()), m)
    {
      if m.request {
        reqReplayCounterUsed, reqReplayCounter, log := true, m.replay, log + [Requested(m, keys.ptk)];
        if m.error || m.pairwise {
          req, keys := req.(ptk := true), keys.(valid := false);
        }
      } else {
        keyReplay[0] := keyReplay[0].(valid := false);
        log := log + [Accepted(m, if keys.valid then Some(keys.ptk) else None)];
      }
    }

    /** `wpa_send_eapol_timeout`. */
    method OnTimeout(env: Env)
      requires Ready()
      modifies this, keyReplay
      ensures Handled(TimerFired, env)
    {
      hide Settle;
      hide Good;
      hide Breaks;
      hide LimitedAtRest;
      hide HonestAtRest;
      HandleGood(cfg, View(), TimerFired, env);
      GoodLogs(cfg, Handle(cfg, View(), TimerFired, env));
      if !started {
        return;
      }
      timeoutEvt := true;
      SmStep(env);
    }

    /** `wpa_auth_sm_event`. */
    method OnEvent(n: Notice, env: Env)
      requires Ready()
      modifies this, keyReplay
      ensures Handled(Notified(n), env)
    {
      hide Settle;
      hide RemovePtk;
      hide Good;
      hide Breaks;
      hide LimitedAtRest;
      hide HonestAtRest;
      HandleGood(cfg, View(), Notified(n), env);
      GoodLogs(cfg, Handle(cfg, View(), Notified(n), env));
      if !started {
        return;
      }
      match n {
        case DeauthNotice => req := req.(deauth := true);
        case DisassocNotice => req := req.(deauth := true);
        case ReauthNotice => req := req.(reauth := true);
        case ReauthEapolNotice => req := req.(reauth := true);
        case _ =>
      }
      keys := keys.(ptk := NoPtk, valid := false);
      if n != ReauthEapolNotice {
        DropPtk();
      }
      SmStep(env);
    }

    /** `wpa_auth_sta_no_wpa`. */
    method OnNoWpa(ghost env: Env)
      requires Ready()
      modifies this, keyReplay
      ensures Handled(NoWpaAssociation, env)
    {
      hide Good;
      hide Breaks;
      hide LimitedAtRest;
      hide HonestAtRest;
      HandleGood(cfg, View(), NoWpaAssociation, env);
      GoodLogs(cfg, Handle(cfg, View(), NoWpaAssociation, env));
      if started {
        suite := suite.(keyMgmt := NoMgmt);
      }
    }

    /** The memset that comes with freeing the station. */
    method OnStationFreed(ghost env: Env)
      requires Ready()
      modifies this, keyReplay
      ensures Handled(StationFreed, env)
    {
      hide Good;
      hide Breaks;
      hide LimitedAtRest;
      hide HonestAtRest;
      HandleGood(cfg, View(), StationFreed, env);
      GoodLogs(cfg, Handle(cfg, View(), StationFreed, env));
      Zero();
    }

    /** Whatever happens to the machine, one event at a time. */
    method Dispatch(e: Event, env: Env)
      requires Ready()
      modifies this, keyReplay
      ensures Handled(e, env)
    {
      hide Good;
      hide Breaks;
      hide LimitedAtRest;
      hide HonestAtRest;
      hide Handle;
      match e {
        case Init(s) => Start(s, env);
        case Associated => Associate(env);
        case Received(m, r) => ReceiveKey(m, r, env);
        case TimerFired => OnTimeout(env);
        case Notified(n) => OnEvent(n, env);
        case NoWpaAssociation => OnNoWpa(env);
        case StationFreed => OnStationFreed(env);
      }
    }

    /** A sequence of handler calls is a run of the specification, and leaves a log in order: counters and
        attempts always, the handshake unless a request was forgotten at the wrong moment. */
    method Drive(inputs: seq<Input>)
      requires Valid() && View() == POWER_UP
      modifies this, keyReplay
      ensures Ready() && View() == Run(cfg, inputs)
      ensures LogOk(cfg, Replays, log) && LogOk(cfg, Retries, log)
      ensures LogOk(cfg, Requesting, log) && LogOk(cfg, Keying, log)
      ensures NeverBreaks(cfg, Retries, POWER_UP, inputs) ==> timeoutCtr <= PAIRWISE_UPDATE_COUNT
      ensures NeverBreaks(cfg, Handshake, POWER_UP, inputs) ==> LogOk(cfg, Handshake, log)
    {
      hide Good;
      hide Handle;
      hide LogOk;
      hide Breaks;
      hide NeverBreaks;
      hide LimitedAtRest;
      hide HonestAtRest;
      PowerUpGood(cfg, Replays);
      assert inputs[..0] == [];
      for i := 0 to |inputs|
        invariant Ready() && View() == RunFrom(cfg, POWER_UP, inputs[..i])
      {
        Dispatch(inputs[i].event, inputs[i].env);
        assert inputs[..i + 1][..i] == inputs[..i];
      }
      assert inputs[..|inputs|] == inputs;
      EveryRunIsGood(cfg, inputs);
      RunLogsKeys(cfg, inputs);
      if NeverBreaks(cfg, Retries, POWER_UP, inputs) { UnbrokenRunInOrder(cfg, Retries, inputs); }
      if NeverBreaks(cfg, Handshake, POWER_UP, inputs) { UnbrokenRunInOrder(cfg, Handshake, inputs); }
    }
  }
}
