/**
 Three concrete runs. In one a request for a new key is forgotten, and a key is then installed on a fourth
 message that answers a first message. In another the third message never gets on the air, and the key
 is installed all the same. In the last the station associates again while its key is valid, and the key
 of the old nonce is installed at the end of the new handshake.
 */
module PtkCounterexample {
  import opened Common
  import opened PtkSpec
  import opened PtkLog
  import opened PtkInvariant
  import opened PtkTheorems
  import opened PtkHandshake

  const SUITE := Suite(Wpa2, true, Psk)
  const KEY := Ptk(1)
  const ENV := Env(0, true)

  /** Everything verifies, and nothing fails, except that the message logged at `bad` cannot be wrapped. */
  function Cfg(bad: int): Config {
    Config((p: Ptk, m: EapolKey) => true, (k: Pmk, a: Nonce, s: Nonce) => KEY, Some(0),
           (n: nat) => if n == bad then NoWrap else NoFault)
  }

  function Frame(replay: Counter, dataLen: int, request: bool): EapolKey {
    EapolKey(KEY_TYPE_RSN, VERSION_HMAC_SHA1_AES, false, request, false, true, false, true, true,
             replay, 0, dataLen, dataLen, 0)
  }

  const SECOND := Frame(1, 22, false)
  const FOURTH := Frame(2, 0, false)
  const REQUEST := Frame(1, 22, true)
  const LOST := Reading(true, true, false)

  const RX2 := Rx(false, true, false, Some(SECOND), 0)
  const OPEN_KEYS := Keys(0, 0, KEY, true, false, true)


  const STARTED := [Input(Init(SUITE), ENV)] + [Input(Associated, ENV)]
  const ANSWERED := STARTED + [Input(Received(SECOND, KEPT), ENV)]

  /** The log of an association from power-up, and what follows it when the second message arrives. */
  const LOG1: seq<Action> := Opened([Zeroed], 0)

  function Log2(bad: int): seq<Action> {
    Checked(Cfg(bad), LOG1, NewKeys(Cfg(bad), 0), SECOND)
  }

  /** From power-up to the third message. */
  lemma Answered(bad: int)
    ensures Run(Cfg(bad), ANSWERED) == Waiting4(SUITE, OPEN_KEYS, RX2, WINDOW2, None, Log2(bad))
  {
    hide Handle;
    var cfg := Cfg(bad);
    RunNext(cfg, [], Input(Init(SUITE), ENV));
    Initialised(cfg, Run(cfg, []), SUITE, ENV);
    assert [] + [Input(Init(SUITE), ENV)] == [Input(Init(SUITE), ENV)] && [] + [Zeroed] == [Zeroed];
    RunNext(cfg, [Input(Init(SUITE), ENV)], Input(Associated, ENV));
    FirstAssociation(cfg, SUITE, [Zeroed], ENV);
    RunNext(cfg, STARTED, Input(Received(SECOND, KEPT), ENV));
    SecondTaken(cfg, SUITE, NewKeys(cfg, 0), NO_RX, false, LOG1, SECOND, ENV);
  }

  // ---- A forgotten request ----

  /** The request is believed but forgotten: it stays pending. */
  function Lost(log: seq<Action>): Sm {
    Sm(PtkStart, NO_REQUESTS.(ptk := true), 1, false, RX2.(last := None), true, OPEN_KEYS.(valid := false),
       WINDOW1, false, true, true, 1, SUITE, log)
  }

  lemma LostRequest(bad: int, log: seq<Action>)
    ensures Handle(Cfg(bad), Waiting2(SUITE, OPEN_KEYS, RX2, true, log), Received(REQUEST, LOST), ENV) ==
            Lost(log + [Requested(REQUEST, KEY)])
  {
    assert Credit(Waiting2(SUITE, OPEN_KEYS, RX2, true, log), REQUEST).(rx := RX2.(last := None)) ==
           Lost(log + [Requested(REQUEST, KEY)]);
  }

  const WINDOW3 := Replay(ReplayEntry(3, true), ReplayEntry(2, true), ReplayEntry(1, false), NO_ENTRY)

  function Crossed(bad: int, log: seq<Action>): seq<Action> {
    log + [Accepted(SECOND, None)] + [Entered(PtkStart)] + [Sent(Msg1, 2, 0, KEY, false, true)]
    + [Entered(PtkCalcNegotiating)] + [Entered(PtkCalcNegotiating2)]
    + [Entered(PtkInitNegotiating)] + [Sent(Msg3, 3, 0, KEY, true, Cfg(bad).fault(|log| + 6) == NoFault)]
  }

  /** The pending request makes the machine send another first message after it has accepted the
      second one, whose answer window is then open again. */
  lemma SecondAfterLostRequest(bad: int, log: seq<Action>)
    ensures Handle(Cfg(bad), Lost(log), Received(SECOND, KEPT), ENV) ==
            Waiting4(SUITE, OPEN_KEYS, RX2, WINDOW3, Some(1), Crossed(bad, log))
  {
    hide EnterInitialize;
    hide EnterDisconnect;
    hide EnterDisconnected;
    hide EnterAuthentication;
    hide EnterAuthentication2;
    hide EnterPtkInitNegotiating;
    hide EnterPtkInitDone;
    var w := Lost(log);
    var t := w.(rx := RX2.(received := true), micVerified := false, replay := Consumed(WINDOW1),
                log := log + [Accepted(SECOND, None)]);
    assert Credit(w, SECOND).(rx := t.rx) == t;
    SettleOnce(Cfg(bad), t, ENV);
    var t1 := t.(req := NO_REQUESTS, changed := true, timeoutCtr := 2, replay := WINDOW2,
                 log := t.log + [Entered(PtkStart)] + [Sent(Msg1, 2, 0, KEY, false, true)]);
    assert Step(Cfg(bad), t, ENV) == t1;
    SettleOnce(Cfg(bad), t1, ENV);
    var t2 := t1.(state := PtkCalcNegotiating, rx := RX2, micVerified := true, keys := OPEN_KEYS,
                  log := t1.log + [Entered(PtkCalcNegotiating)]);
    assert Step(Cfg(bad), t1.(changed := false), ENV) == t2;
    Negotiate(Cfg(bad), t2, ENV);
  }

  const LOSSY := ANSWERED + [Input(Associated, ENV)] + [Input(Received(REQUEST, LOST), ENV)]
                 + [Input(Received(SECOND, KEPT), ENV)] + [Input(Received(FOURTH, KEPT), ENV)]

  /** The run whose log is not in order: the key goes in on the answer to a first message. */
  lemma HandshakeNeedsKeptRequests()
    ensures var log := Run(Cfg(-1), LOSSY).log;
      !LogOk(Cfg(-1), Handshake, log) && KeyInstalled(KEY) in log && Authorized in log
  {
    hide Handle;
    hide LogOk;
    hide RunFrom;
    var bad, cfg := -1, Cfg(-1);
    Answered(bad);
    var inputs := ANSWERED;
    RunNext(cfg, inputs, Input(Associated, ENV));
    SecondAssociation(cfg, SUITE, OPEN_KEYS, RX2, WINDOW2, Log2(bad), ENV);
    var log := Reopened(Log2(bad), OPEN_KEYS);
    inputs := inputs + [Input(Associated, ENV)];
    RunNext(cfg, inputs, Input(Received(REQUEST, LOST), ENV));
    LostRequest(bad, log);
    inputs := inputs + [Input(Received(REQUEST, LOST), ENV)];
    RunNext(cfg, inputs, Input(Received(SECOND, KEPT), ENV));
    SecondAfterLostRequest(bad, log + [Requested(REQUEST, KEY)]);
    inputs := inputs + [Input(Received(SECOND, KEPT), ENV)];
    RunNext(cfg, inputs, Input(Received(FOURTH, KEPT), ENV));
    FourthTaken(cfg, Run(cfg, inputs), FOURTH, ENV);
    NotInOrder(bad, log + [Requested(REQUEST, KEY)]);
    FinishedHas(Crossed(bad, log + [Requested(REQUEST, KEY)]), KEY, FOURTH);
  }

  lemma FinishedHas(log: seq<Action>, p: Ptk, m: EapolKey)
    ensures var l := Finished(log, p, m, true); KeyInstalled(p) in l && Authorized in l && |l| == |log| + 4
  {
    var l := Finished(log, p, m, true);
    assert l[|log| + 2] == KeyInstalled(p) && l[|log| + 3] == Authorized;
  }

  lemma NotInOrder(bad: int, log: seq<Action>)
    ensures !LogOk(Cfg(bad), Handshake, Finished(Crossed(bad, log), KEY, FOURTH, true))
  {
    hide LogOk;
    hide Negotiated;
    var l := Crossed(bad, log);
    var fourth := l + [Accepted(FOURTH, Some(KEY))];
    Snoc(Cfg(bad), fourth + [Entered(PtkInitDone)] + [KeyInstalled(KEY)], Authorized);
    Snoc(Cfg(bad), fourth + [Entered(PtkInitDone)], KeyInstalled(KEY));
    Snoc(Cfg(bad), fourth, Entered(PtkInitDone));
    var third := Sent(Msg3, 3, 0, KEY, true, Cfg(bad).fault(|log| + 6) == NoFault);
    var asked := log + [Accepted(SECOND, None)] + [Entered(PtkStart)] + [Sent(Msg1, 2, 0, KEY, false, true)]
                 + [Entered(PtkCalcNegotiating)] + [Entered(PtkCalcNegotiating2)];
    forall p
      ensures !FourthAccepted(fourth, p)
    {
      NegotiatedSnoc(l, Accepted(FOURTH, Some(KEY)), 2, p);
      NegotiatedSnoc(asked + [Entered(PtkInitNegotiating)], third, 2, p);
      NegotiatedSnoc(asked, Entered(PtkInitNegotiating), 2, p);
      NegotiatedSnoc(log + [Accepted(SECOND, None)] + [Entered(PtkStart)] + [Sent(Msg1, 2, 0, KEY, false, true)]
                     + [Entered(PtkCalcNegotiating)], Entered(PtkCalcNegotiating2), 2, p);
    }
  }

  // ---- A third message that is never sent ----

  const PLAIN := ANSWERED + [Input(Received(FOURTH, KEPT), ENV)]

  /** The run whose third message is never sent: its key data cannot be wrapped once its counter has been
      taken. No copy is lost, the log is in order, and the key goes in. */
  lemma ThirdNeverOnAir()
    ensures var log := Run(Cfg(11), PLAIN).log;
      && NeverBreaks(Cfg(11), Handshake, POWER_UP, PLAIN)
      && KeyInstalled(KEY) in log && Authorized in log
      && (exists k | 0 <= k < |log| :: log[k].Sent? && log[k].msg == Msg3)
      && (forall k | 0 <= k < |log| && log[k].Sent? && log[k].msg == Msg3 :: !log[k].onAir)
  {
    hide Handle;
    hide RunFrom;
    hide NeverBreaks;
    var cfg := Cfg(11);
    Answered(11);
    RunNext(cfg, ANSWERED, Input(Received(FOURTH, KEPT), ENV));
    FourthTaken(cfg, Run(cfg, ANSWERED), FOURTH, ENV);
    NothingLost(11);
    FinishedHas(Log2(11), KEY, FOURTH);
    ThirdsOf();
  }

  lemma ThirdsOf()
    ensures var log := Finished(Log2(11), KEY, FOURTH, true);
      && |log| > 11 && log[11].Sent? && log[11].msg == Msg3 && !log[11].onAir
      && forall k | 0 <= k < |log| && log[k].Sent? && log[k].msg == Msg3 :: k == 11
  {
  }

  lemma NothingLost(bad: int)
    ensures NeverBreaks(Cfg(bad), Handshake, POWER_UP, PLAIN)
  {
    hide RunFrom;
    hide Plausible;
  }

  // ---- The key of the old nonce ----

  /** A frame is authentic exactly under the key of nonce 7. */
  function OldOnly(): Config {
    Config((p: Ptk, m: EapolKey) => p == Ptk(7), (k: Pmk, a: Nonce, s: Nonce) => Ptk(a), Some(0), (n: nat) => NoFault)
  }

  const OLD := Env(7, true)
  const NEW := Env(9, true)
  const TWICE := [Input(Init(SUITE), OLD)] + [Input(Associated, OLD)] + [Input(Received(SECOND, KEPT), OLD)]
                 + [Input(Associated, NEW)] + [Input(Received(SECOND, KEPT), NEW)] + [Input(Received(FOURTH, KEPT), NEW)]

  /** The key installed need not come from the latest nonce: a key that is still valid when the station
      associates again, with nonce 9, is the one its second message is accepted under; the key of the new
      nonce is derived, found not to fit, and the old one kept. */
  lemma OldKeyInstalled()
    ensures var s := Run(OldOnly(), TWICE);
      && s.state == PtkInitDone && s.keys.anonce == 9 && s.keys.ptk == Ptk(7) && KeyInstalled(Ptk(7)) in s.log
      && OldOnly().derive(0, 9, SECOND.nonce) == Ptk(9)
  {
    hide Handle;
    hide RunFrom;
    var cfg := OldOnly();
    var inputs := [Input(Init(SUITE), OLD)];
    RunNext(cfg, [], Input(Init(SUITE), OLD));
    assert [] + inputs == inputs;
    Initialised(cfg, Run(cfg, []), SUITE, OLD);
    var log := Run(cfg, []).log + [Zeroed];
    RunNext(cfg, inputs, Input(Associated, OLD));
    FirstAssociation(cfg, SUITE, log, OLD);
    inputs, log := inputs + [Input(Associated, OLD)], Opened(log, 7);
    var keys := NewKeys(cfg, 7);
    RunNext(cfg, inputs, Input(Received(SECOND, KEPT), OLD));
    SecondTaken(cfg, SUITE, keys, NO_RX, false, log, SECOND, OLD);
    inputs, log := inputs + [Input(Received(SECOND, KEPT), OLD)], Checked(cfg, log, keys, SECOND);
    keys := KeysAfter(cfg, keys, SECOND);
    assert keys == Keys(7, 0, Ptk(7), true, false, true);
    RunNext(cfg, inputs, Input(Associated, NEW));
    SecondAssociation(cfg, SUITE, keys, RX2, WINDOW2, log, NEW);
    keys := keys.(anonce := 9);
    inputs, log := inputs + [Input(Associated, NEW)], Reopened(log, keys);
    RunNext(cfg, inputs, Input(Received(SECOND, KEPT), NEW));
    SecondTaken(cfg, SUITE, keys, RX2, true, log, SECOND, NEW);
    inputs, log := inputs + [Input(Received(SECOND, KEPT), NEW)], Checked(cfg, log, keys, SECOND);
    RunNext(cfg, inputs, Input(Received(FOURTH, KEPT), NEW));
    FourthTaken(cfg, Run(cfg, inputs), FOURTH, NEW);
    FinishedHas(log, Ptk(7), FOURTH);
  }
}
