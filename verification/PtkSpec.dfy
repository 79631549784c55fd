/**
 The authenticator's pairwise key state machine (sections 8.5.3 and 8.5.6 of IEEE 802.11-2007) as
 a transition system over values: the twelve states, their entry actions, the step function, the
 handlers that feed it, and a log of what the machine did to the outside world.
 */
module PtkSpec {
  import opened Common

  // ---- Data ----

  const COUNTER_MODULO := 0x1_0000_0000_0000_0000
  const PAIRWISE_UPDATE_COUNT := 4
  const REPLAY_WINDOW := 4

  type Counter = int
  type Nonce = int
  type Pmk = int
  datatype Ptk = NoPtk | Ptk(bits: int)

  datatype PtkState =
    | Initialize | Disconnect | Disconnected | Authentication | Authentication2
    | InitPmk | InitPsk | PtkStart | PtkCalcNegotiating | PtkCalcNegotiating2
    | PtkInitNegotiating | PtkInitDone

  datatype KeyMgmt = NoMgmt | Psk | Ieee8021x
  datatype Version = NoWpa | Wpa | Wpa2

  /** A received EAPOL-Key frame: the key information bits the authenticator looks at, the space
      the frame has for key data, and an opaque rest that the integrity code also covers. */
  datatype EapolKey = EapolKey(
    descriptor: int, version: int, smk: bool, request: bool, error: bool, pairwise: bool,
    ack: bool, mic: bool, secure: bool,
    replay: Counter, nonce: Nonce, keyDataLen: int, room: int, rest: int)

  const KEY_TYPE_RSN := 2
  const KEY_TYPE_WPA := 254
  const VERSION_HMAC_SHA1_AES := 2

  datatype Kind = Pairwise2 | Pairwise4 | Group2 | Request | Smk

  function Classify(m: EapolKey): Kind {
    if m.smk then Smk
    else if m.request then Request
    else if !m.pairwise then Group2
    else if m.keyDataLen == 0 then Pairwise4
    else Pairwise2
  }

  datatype ReplayEntry = ReplayEntry(counter: Counter, valid: bool)

  /** The four most recent replay counters, newest first. */
  datatype Replay = Replay(e0: ReplayEntry, e1: ReplayEntry, e2: ReplayEntry, e3: ReplayEntry)

  datatype Message = Msg1 | Msg3

  /** What can go wrong while a message is being built. */
  datatype Fault = NoFault | NoBuffer | NoWrap

  /** Everything observable, in order. A message is logged as sent once it has taken its counter: `keyed`
      says whether the key was valid then, `onAir` whether the message got as far as the air. */
  datatype Action =
    | Entered(state: PtkState)
    | Renewed(taken: Nonce)      // entered AUTHENTICATION2, with a new nonce
    | Sent(msg: Message, counter: Counter, nonce: Nonce, ptk: Ptk, keyed: bool, onAir: bool)
    | SendFailed(failed: Message)
    | Accepted(key: EapolKey, under: Option<Ptk>)
    | Requested(request: EapolKey, verifiedBy: Ptk)
    | ReplayReset
    | Zeroed
    | KeyInstalled(installed: Ptk)
    | KeyRemoved
    | Authorized
    | Deauthenticated

  /** The cryptography, the configured key and the resources, all arbitrary. */
  datatype Config = Config(
    verify: (Ptk, EapolKey) -> bool,
    derive: (Pmk, Nonce, Nonce) -> Ptk,
    psk: Option<Pmk>,
    fault: nat -> Fault)

  /** What the surroundings contribute to one call: the authenticator nonce to use next, and whether
      the station table still knows the station. */
  datatype Env = Env(nonce: Nonce, found: bool)

  /** The pending requests, in the order in which a step looks at them. */
  datatype Requests = Requests(init: bool, disconnect: bool, deauth: bool, auth: bool, reauth: bool, ptk: bool)

  /** The last EAPOL-Key frame taken, and what is known about it. */
  datatype Rx = Rx(received: bool, pairwise: bool, request: bool, last: Option<EapolKey>, nonce: Nonce)

  datatype Keys = Keys(anonce: Nonce, pmk: Pmk, ptk: Ptk, valid: bool, installed: bool, pair: bool)

  datatype Suite = Suite(version: Version, ccmp: bool, keyMgmt: KeyMgmt)

  /** `struct wpa_state_machine`, with the log. */
  datatype Sm = Sm(
    state: PtkState,
    req: Requests,
    timeoutCtr: int,
    timeoutEvt: bool,
    rx: Rx,
    micVerified: bool,
    keys: Keys,
    replay: Replay,
    changed: bool,
    started: bool,
    reqUsed: bool,
    reqCounter: Counter,
    suite: Suite,
    log: seq<Action>)

  const NO_REQUESTS := Requests(false, false, false, false, false, false)
  const NO_RX := Rx(false, false, false, None, 0)
  const NO_KEYS := Keys(0, 0, NoPtk, false, false, false)
  const NO_ENTRY := ReplayEntry(0, false)
  const BLANK_REPLAY := Replay(NO_ENTRY, NO_ENTRY, NO_ENTRY, NO_ENTRY)

  /** All bytes zero, as after memset. */
  function Blank(suite: Suite, log: seq<Action>): Sm {
    Sm(Initialize, NO_REQUESTS, 0, false, NO_RX, false, NO_KEYS, BLANK_REPLAY, false, false, false, 0, suite, log)
  }

  const NO_SUITE := Suite(NoWpa, false, NoMgmt)

  function Emit(sm: Sm, a: Action): Sm {
    sm.(log := sm.log + [a])
  }

  // ---- Replay window ----

  function NextCounter(c: Counter): Counter {
    if c + 1 == COUNTER_MODULO then 0 else c + 1
  }

  /** `wpa_replay_counter_valid`: the counter is among the entries before the first invalid one. */
  predicate Pending(r: Replay, c: Counter) {
    r.e0.valid && (r.e0.counter == c ||
    (r.e1.valid && (r.e1.counter == c ||
    (r.e2.valid && (r.e2.counter == c ||
    (r.e3.valid && r.e3.counter == c))))))
  }

  function Shifted(r: Replay): Replay {
    Replay(ReplayEntry(NextCounter(r.e0.counter), true), r.e0, r.e1, r.e2)
  }

  function Consumed(r: Replay): Replay {
    r.(e0 := r.e0.(valid := false))
  }

  // ---- Sending ----

  /** `wpa_send_eapol`: the replay counter is taken before anything after it can fail. */
  function Send(cfg: Config, sm: Sm, msg: Message): Sm {
    if !sm.started then sm
    else
      var fault := cfg.fault(|sm.log|);
      if fault == NoBuffer then Emit(sm, SendFailed(msg))
      else
        var onAir := msg == Msg1 || (sm.keys.valid && fault == NoFault);
        Emit(sm.(replay := Shifted(sm.replay)),
             Sent(msg, NextCounter(sm.replay.e0.counter), sm.keys.anonce, sm.keys.ptk, sm.keys.valid, onAir))
  }

  // ---- State entry actions ----

  /** `SM_ENTRY_MA` for a non-global entry. */
  function Enter(sm: Sm, state: PtkState): Sm {
    sm.(state := state, changed := true, log := sm.log + [Entered(state)])
  }

  function RemovePtk(sm: Sm): Sm {
    if sm.keys.installed
    then Emit(sm.(keys := sm.keys.(ptk := NoPtk, installed := false)), KeyRemoved)
    else sm
  }

  /** While the init request stands, entering reports no change, so that the loop stops. */
  function EnterInitialize(sm: Sm): Sm {
    var s := Enter(sm, Initialize).(keys := sm.keys.(pair := true), timeoutCtr := 0);
    RemovePtk(if sm.req.init then s.(changed := false) else s)
  }

  /** `wpa_sta_disconnect`: when the station is found it is freed, and its machine zeroed with it. */
  function StaDisconnect(sm: Sm, env: Env): Sm {
    if env.found then Blank(NO_SUITE, sm.log + [Deauthenticated] + [Zeroed]) else sm
  }

  function EnterDisconnect(sm: Sm, env: Env): Sm {
    StaDisconnect(Enter(sm, Disconnect).(req := sm.req.(disconnect := false)), env)
  }

  function EnterDisconnected(sm: Sm): Sm {
    Enter(sm, Disconnected).(req := sm.req.(deauth := false))
  }

  function EnterAuthentication(sm: Sm): Sm {
    Enter(sm, Authentication).(keys := sm.keys.(ptk := NoPtk, valid := false), req := sm.req.(auth := false))
  }

  function EnterAuthentication2(sm: Sm, env: Env): Sm {
    sm.(state := Authentication2, changed := true, keys := sm.keys.(anonce := env.nonce),
        req := sm.req.(reauth := false), timeoutCtr := 0, log := sm.log + [Renewed(env.nonce)])
  }

  function EnterInitPmk(sm: Sm): Sm {
    Enter(sm, InitPmk).(reqUsed := false)
  }

  function EnterInitPsk(cfg: Config, sm: Sm): Sm {
    var s := Enter(sm, InitPsk).(reqUsed := false);
    if cfg.psk.Some? then s.(keys := sm.keys.(pmk := cfg.psk.value)) else s
  }

  function EnterPtkStart(cfg: Config, sm: Sm): Sm {
    var s := Enter(sm, PtkStart).(req := sm.req.(ptk := false), timeoutEvt := false, timeoutCtr := sm.timeoutCtr + 1);
    if s.timeoutCtr > PAIRWISE_UPDATE_COUNT then s else Send(cfg, s, Msg1)
  }

  /** The pairwise master key the second message is checked against. */
  function CurrentPmk(cfg: Config, sm: Sm): Option<Pmk> {
    if sm.suite.keyMgmt == Psk then cfg.psk else Some(sm.keys.pmk)
  }

  function EnterPtkCalcNegotiating(cfg: Config, sm: Sm): Sm {
    var s := Enter(sm, PtkCalcNegotiating).(rx := sm.rx.(received := false));
    var pmk := CurrentPmk(cfg, sm);
    if pmk.None? || sm.rx.last.None? then s
    else
      var ptk := cfg.derive(pmk.value, sm.keys.anonce, sm.rx.nonce);
      if cfg.verify(ptk, sm.rx.last.value)
      then s.(micVerified := true, keys := sm.keys.(pmk := pmk.value, ptk := ptk, valid := true))
      else s
  }

  function EnterPtkCalcNegotiating2(sm: Sm): Sm {
    Enter(sm, PtkCalcNegotiating2).(timeoutCtr := 0)
  }

  function EnterPtkInitNegotiating(cfg: Config, sm: Sm): Sm {
    var s := Enter(sm, PtkInitNegotiating).(timeoutEvt := false, timeoutCtr := sm.timeoutCtr + 1);
    if s.timeoutCtr > PAIRWISE_UPDATE_COUNT then s else Send(cfg, s, Msg3)
  }

  function EnterPtkInitDone(sm: Sm, env: Env): Sm {
    var s := Enter(sm, PtkInitDone).(rx := sm.rx.(received := false));
    var t := if sm.keys.pair then Emit(s.(keys := sm.keys.(installed := true)), KeyInstalled(sm.keys.ptk)) else s;
    if env.found then Emit(t, Authorized) else t
  }

  // ---- One step ----

  /** A response to a handshake message is waiting to be looked at. */
  predicate Response(sm: Sm) {
    sm.rx.received && !sm.rx.request && sm.rx.pairwise
  }

  /** The part of `SM_STEP(WPA_PTK)` that depends on the state, when no request is pending. */
  function StateStep(cfg: Config, sm: Sm, env: Env): Sm {
    match sm.state
    case Initialize => sm
    case Disconnect => EnterDisconnected(sm)
    case Disconnected => EnterInitialize(sm)
    case Authentication => EnterAuthentication2(sm, env)
    case Authentication2 =>
      if sm.suite.keyMgmt == Ieee8021x then EnterInitPmk(sm)
      else if sm.suite.keyMgmt == Psk then EnterInitPsk(cfg, sm)
      else sm
    case InitPmk => EnterDisconnect(sm, env)
    case InitPsk => if cfg.psk.Some? then EnterPtkStart(cfg, sm) else EnterDisconnect(sm, env)
    case PtkStart =>
      if Response(sm) then EnterPtkCalcNegotiating(cfg, sm)
      else if sm.timeoutCtr > PAIRWISE_UPDATE_COUNT then EnterDisconnect(sm, env)
      else if sm.timeoutEvt then EnterPtkStart(cfg, sm)
      else sm
    case PtkCalcNegotiating =>
      if sm.micVerified then EnterPtkCalcNegotiating2(sm)
      else if Response(sm) then EnterPtkCalcNegotiating(cfg, sm)
      else if sm.timeoutEvt then EnterPtkStart(cfg, sm)
      else sm
    case PtkCalcNegotiating2 => EnterPtkInitNegotiating(cfg, sm)
    case PtkInitNegotiating =>
      if Response(sm) && sm.micVerified then EnterPtkInitDone(sm, env)
      else if sm.timeoutCtr > PAIRWISE_UPDATE_COUNT then EnterDisconnect(sm, env)
      else if sm.timeoutEvt then EnterPtkInitNegotiating(cfg, sm)
      else sm
    case PtkInitDone => sm
  }

  /** `SM_STEP(WPA_PTK)`. */
  function Step(cfg: Config, sm: Sm, env: Env): Sm {
    if sm.req.init then EnterInitialize(sm)
    else if sm.req.disconnect then EnterDisconnect(sm, env)
    else if sm.req.deauth then EnterDisconnected(sm)
    else if sm.req.auth then EnterAuthentication(sm)
    else if sm.req.reauth then EnterAuthentication2(sm, env)
    else if sm.req.ptk then EnterPtkStart(cfg, sm)
    else StateStep(cfg, sm, env)
  }

  // ---- Termination of the step loop ----

  function Bit(b: bool): nat {
    if b then 1 else 0
  }

  function Asked(r: Requests): nat {
    Bit(r.init) + Bit(r.disconnect) + Bit(r.deauth) + Bit(r.auth) + Bit(r.reauth) + Bit(r.ptk)
  }

  function Happened(sm: Sm): nat {
    Bit(sm.rx.received) + Bit(sm.timeoutEvt)
  }

  function Rank(state: PtkState): nat {
    match state
    case Authentication => 11
    case Authentication2 => 10
    case InitPmk => 9
    case InitPsk => 9
    case PtkStart => 8
    case PtkCalcNegotiating => 7
    case PtkCalcNegotiating2 => 6
    case PtkInitNegotiating => 5
    case PtkInitDone => 4
    case Disconnect => 3
    case Disconnected => 2
    case Initialize => 1
  }

  ghost predicate Smaller(a: Sm, b: Sm) {
    || Asked(a.req) < Asked(b.req)
    || (Asked(a.req) == Asked(b.req) && Happened(a) < Happened(b))
    || (Asked(a.req) == Asked(b.req) && Happened(a) == Happened(b) && Rank(a.state) < Rank(b.state))
  }

  /** What the step loop's progress depends on. */
  datatype Control = Control(state: PtkState, req: Requests, received: bool, timeoutEvt: bool, changed: bool)

  function Ctl(sm: Sm): Control {
    Control(sm.state, sm.req, sm.rx.received, sm.timeoutEvt, sm.changed)
  }

  lemma SendCtl(cfg: Config, sm: Sm, msg: Message)
    ensures Ctl(Send(cfg, sm, msg)) == Ctl(sm)
  {
  }

  lemma InitializeCtl(sm: Sm)
    ensures Ctl(EnterInitialize(sm)) == Ctl(sm).(state := Initialize, changed := !sm.req.init)
  {
  }

  lemma DisconnectCtl(sm: Sm, env: Env)
    ensures var c := Ctl(EnterDisconnect(sm, env));
      !c.changed || c == Ctl(sm).(state := Disconnect, req := sm.req.(disconnect := false), changed := true)
  {
  }

  lemma DisconnectedCtl(sm: Sm)
    ensures Ctl(EnterDisconnected(sm)) == Ctl(sm).(state := Disconnected, req := sm.req.(deauth := false), changed := true)
  {
  }

  lemma AuthenticationCtl(sm: Sm, env: Env)
    ensures Ctl(EnterAuthentication(sm)) == Ctl(sm).(state := Authentication, req := sm.req.(auth := false), changed := true)
    ensures Ctl(EnterAuthentication2(sm, env)) ==
            Ctl(sm).(state := Authentication2, req := sm.req.(reauth := false), changed := true)
  {
  }

  lemma InitPmkPskCtl(cfg: Config, sm: Sm)
    ensures Ctl(EnterInitPmk(sm)) == Ctl(sm).(state := InitPmk, changed := true)
    ensures Ctl(EnterInitPsk(cfg, sm)) == Ctl(sm).(state := InitPsk, changed := true)
  {
  }

  lemma PtkCalcNegotiating2Ctl(sm: Sm)
    ensures Ctl(EnterPtkCalcNegotiating2(sm)) == Ctl(sm).(state := PtkCalcNegotiating2, changed := true)
  {
  }

  lemma PtkStartCtl(cfg: Config, sm: Sm)
    ensures Ctl(EnterPtkStart(cfg, sm)) ==
            Control(PtkStart, sm.req.(ptk := false), sm.rx.received, false, true)
  {
    hide Send;
    var s := Enter(sm, PtkStart).(req := sm.req.(ptk := false), timeoutEvt := false, timeoutCtr := sm.timeoutCtr + 1);
    SendCtl(cfg, s, Msg1);
  }

  lemma PtkInitNegotiatingCtl(cfg: Config, sm: Sm)
    ensures Ctl(EnterPtkInitNegotiating(cfg, sm)) ==
            Control(PtkInitNegotiating, sm.req, sm.rx.received, false, true)
  {
    hide Send;
    var s := Enter(sm, PtkInitNegotiating).(timeoutEvt := false, timeoutCtr := sm.timeoutCtr + 1);
    SendCtl(cfg, s, Msg3);
  }

  lemma PtkCalcNegotiatingCtl(cfg: Config, sm: Sm)
    ensures Ctl(EnterPtkCalcNegotiating(cfg, sm)) ==
            Control(PtkCalcNegotiating, sm.req, false, sm.timeoutEvt, true)
  {
  }

  lemma PtkInitDoneCtl(sm: Sm, env: Env)
    ensures Ctl(EnterPtkInitDone(sm, env)) == Control(PtkInitDone, sm.req, false, sm.timeoutEvt, true)
  {
  }

  /** Whatever the state, a step that no request asked for and that reports a change has used up an
      event or has moved down the order of states. */
  lemma StateStepShrinks(cfg: Config, sm: Sm, env: Env)
    requires !sm.changed && Asked(sm.req) == 0
    ensures StateStep(cfg, sm, env).changed ==> Smaller(StateStep(cfg, sm, env), sm)
  {
    hide EnterInitialize;
    hide EnterDisconnect;
    hide EnterDisconnected;
    hide EnterAuthentication2;
    hide EnterInitPmk;
    hide EnterInitPsk;
    hide EnterPtkStart;
    hide EnterPtkCalcNegotiating;
    hide EnterPtkCalcNegotiating2;
    hide EnterPtkInitNegotiating;
    hide EnterPtkInitDone;
    match sm.state
    case PtkStart =>
      DisconnectCtl(sm, env);
      PtkStartCtl(cfg, sm);
      PtkCalcNegotiatingCtl(cfg, sm);
    case PtkCalcNegotiating =>
      PtkCalcNegotiating2Ctl(sm);
      PtkStartCtl(cfg, sm);
      PtkCalcNegotiatingCtl(cfg, sm);
    case PtkCalcNegotiating2 =>
      PtkInitNegotiatingCtl(cfg, sm);
    case PtkInitNegotiating =>
      DisconnectCtl(sm, env);
      PtkInitNegotiatingCtl(cfg, sm);
      PtkInitDoneCtl(sm, env);
    case InitPsk =>
      DisconnectCtl(sm, env);
      PtkStartCtl(cfg, sm);
    case InitPmk =>
      DisconnectCtl(sm, env);
    case Disconnected =>
      InitializeCtl(sm);
    case Disconnect =>
      DisconnectedCtl(sm);
    case Authentication =>
      AuthenticationCtl(sm, env);
    case Authentication2 =>
      InitPmkPskCtl(cfg, sm);
    case _ =>
  }

  /** Whatever the state and whatever is pending, a step that reports a change has used up a request,
      or an event, or has moved down the order of states. */
  lemma StepShrinks(cfg: Config, sm: Sm, env: Env)
    requires !sm.changed
    ensures Step(cfg, sm, env).changed ==> Smaller(Step(cfg, sm, env), sm)
  {
    hide EnterInitialize;
    hide EnterDisconnect;
    hide EnterDisconnected;
    hide EnterAuthentication;
    hide EnterAuthentication2;
    hide EnterPtkStart;
    hide StateStep;
    InitializeCtl(sm);
    DisconnectCtl(sm, env);
    DisconnectedCtl(sm);
    AuthenticationCtl(sm, env);
    PtkStartCtl(cfg, sm);
    if Asked(sm.req) == 0 {
      StateStepShrinks(cfg, sm, env);
    }
  }

  /** `wpa_sm_step`: step until nothing changes. */
  function Settle(cfg: Config, sm: Sm, env: Env): Sm
    decreases Asked(sm.req), Happened(sm), Rank(sm.state)
  {
    if !sm.started then sm
    else
      var next := Step(cfg, sm.(changed := false), env);
      StepShrinks(cfg, sm.(changed := false), env);
      if next.changed then Settle(cfg, next, env) else next
  }

  lemma SettleOnce(cfg: Config, sm: Sm, env: Env)
    requires sm.started
    ensures var next := Step(cfg, sm.(changed := false), env);
      Settle(cfg, sm, env) == if next.changed then Settle(cfg, next, env) else next
  {
  }

  // ---- Handlers ----

  /** `wpa_auth_sta_init` followed by the outcome of `wpa_validate_wpa_ie`. */
  function StaInit(sm: Sm, suite: Suite): Sm {
    Blank(suite, sm.log + [Zeroed])
  }

  /** `wpa_auth_sta_associated`. */
  function StaAssociated(cfg: Config, sm: Sm, env: Env): Sm {
    if sm.started then
      Settle(cfg, Emit(sm.(replay := BLANK_REPLAY, req := sm.req.(reauth := true)), ReplayReset), env)
    else
      var s := Settle(cfg, sm.(started := true, req := sm.req.(init := true)), env);
      Settle(cfg, s.(req := s.req.(init := false, auth := true)), env)
  }

  function RequestNewPtk(sm: Sm): Sm {
    sm.(req := sm.req.(ptk := true), keys := sm.keys.(valid := false))
  }

  /** The checks of `wpa_receive` that depend on the frame, the version and the replay state only. */
  predicate Plausible(sm: Sm, m: EapolKey) {
    && 0 <= m.room && m.keyDataLen <= m.room
    && (m.descriptor == KEY_TYPE_WPA || (sm.suite.version == Wpa2 && m.descriptor == KEY_TYPE_RSN))
    && (Classify(m) != Smk && sm.suite.ccmp ==> m.version == VERSION_HMAC_SHA1_AES)
    && (if m.request then sm.reqUsed ==> m.replay > sm.reqCounter else Pending(sm.replay, m.replay))
  }

  /** The state a message of this kind may be received in. */
  predicate InPlace(sm: Sm, m: EapolKey) {
    match Classify(m)
    case Pairwise2 => sm.state == PtkStart || sm.state == PtkCalcNegotiating
    case Pairwise4 => sm.state == PtkInitNegotiating && sm.keys.valid
    case Group2 => true
    case Request => true
    case Smk => false
  }

  /** What the environment tells about a received frame: whether its key data parses, whether its
      information element matches the one of the association, and whether a copy can be kept. */
  datatype Reading = Reading(kdeOk: bool, ieOk: bool, keepOk: bool)

  /** What a frame with a good integrity code, or one that cannot be checked yet, changes at once. */
  function Credit(sm: Sm, m: EapolKey): Sm {
    var s := sm.(micVerified := sm.keys.valid);
    if m.request then
      var t := Emit(s.(reqUsed := true, reqCounter := m.replay), Requested(m, sm.keys.ptk));
      if m.error || m.pairwise then RequestNewPtk(t) else t
    else
      Emit(s.(replay := Consumed(s.replay)), Accepted(m, if sm.keys.valid then Some(sm.keys.ptk) else None))
  }

  /** The rest of `wpa_receive`, for a frame that passed the checks up to the integrity code. */
  function TakeKey(cfg: Config, sm: Sm, m: EapolKey, r: Reading, env: Env): Sm {
    if (sm.keys.valid && !cfg.verify(sm.keys.ptk, m)) || (!sm.keys.valid && m.request) then
      sm.(micVerified := false)
    else
      var s := Credit(sm, m);
      if !r.keepOk then s.(rx := s.rx.(last := None))
      else Settle(cfg, s.(rx := Rx(true, m.pairwise, m.request, Some(m), m.nonce)), env)
  }

  /** `wpa_receive`. */
  function Receive(cfg: Config, sm: Sm, m: EapolKey, r: Reading, env: Env): Sm {
    if !sm.started || !Plausible(sm, m) || !InPlace(sm, m) then sm
    else if Classify(m) == Pairwise2 && !r.kdeOk then sm
    else if Classify(m) == Pairwise2 && !r.ieOk then StaDisconnect(sm, env)
    else if m.ack || !m.mic then sm
    else TakeKey(cfg, sm, m, r, env)
  }

  /** `wpa_send_eapol_timeout`. */
  function Timeout(cfg: Config, sm: Sm, env: Env): Sm {
    if !sm.started then sm else Settle(cfg, sm.(timeoutEvt := true), env)
  }

  datatype Notice = AuthNotice | AssocNotice | DeauthNotice | DisassocNotice | ReauthNotice | ReauthEapolNotice

  /** `wpa_auth_sm_event`. */
  function SmEvent(cfg: Config, sm: Sm, n: Notice, env: Env): Sm {
    if !sm.started then sm
    else
      var req := match n
        case DeauthNotice => sm.req.(deauth := true)
        case DisassocNotice => sm.req.(deauth := true)
        case ReauthNotice => sm.req.(reauth := true)
        case ReauthEapolNotice => sm.req.(reauth := true)
        case _ => sm.req;
      var s := sm.(req := req, keys := sm.keys.(ptk := NoPtk, valid := false));
      Settle(cfg, if n == ReauthEapolNotice then s else RemovePtk(s), env)
  }

  /** `wpa_auth_sta_no_wpa`. */
  function StaNoWpa(sm: Sm): Sm {
    if sm.started then sm.(suite := sm.suite.(keyMgmt := NoMgmt)) else sm
  }

  datatype Event =
    | Init(suite: Suite)
    | Associated
    | Received(key: EapolKey, reading: Reading)
    | TimerFired
    | Notified(notice: Notice)
    | NoWpaAssociation
    | StationFreed

  function Handle(cfg: Config, sm: Sm, e: Event, env: Env): Sm {
    match e
    case Init(suite) => StaInit(sm, suite)
    case Associated => StaAssociated(cfg, sm, env)
    case Received(m, r) => Receive(cfg, sm, m, r, env)
    case TimerFired => Timeout(cfg, sm, env)
    case Notified(n) => SmEvent(cfg, sm, n, env)
    case NoWpaAssociation => StaNoWpa(sm)
    case StationFreed => Blank(NO_SUITE, sm.log + [Zeroed])
  }

  datatype Input = Input(event: Event, env: Env)

  const POWER_UP := Blank(NO_SUITE, [])

  function RunFrom(cfg: Config, sm: Sm, inputs: seq<Input>): Sm
    decreases |inputs|
  {
    if inputs == [] then sm
    else
      var last := inputs[|inputs| - 1];
      Handle(cfg, RunFrom(cfg, sm, inputs[..|inputs| - 1]), last.event, last.env)
  }

  /** A whole run from power-up. */
  function Run(cfg: Config, inputs: seq<Input>): Sm {
    RunFrom(cfg, POWER_UP, inputs)
  }

  /** Running on from where a run has led. */
  lemma {:induction false} RunOn(cfg: Config, sm: Sm, a: seq<Input>, b: seq<Input>)
    ensures RunFrom(cfg, sm, a + b) == RunFrom(cfg, RunFrom(cfg, sm, a), b)
    decreases |b|
  {
    hide Handle;
    if b == [] {
      assert a + b == a;
    } else {
      assert (a + b)[..|a + b| - 1] == a + b[..|b| - 1];
      RunOn(cfg, sm, a, b[..|b| - 1]);
    }
  }
}
