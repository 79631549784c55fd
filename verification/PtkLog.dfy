/**
 What a log of the authenticator means: the replay window it leaves, the number of attempts since the
 retry counter was last reset, which third message an answer belongs to; and what a log must satisfy
 for the handshake to have been a handshake.
 */
module PtkLog {
  import opened Common
  import opened PtkSpec

  // ---- Readings of a log ----

  function WindowStep(r: Replay, a: Action): Replay {
    match a
    case Sent(_, c, _, _, _, _) => Replay(ReplayEntry(c, true), r.e0, r.e1, r.e2)
    case Accepted(_, _) => Consumed(r)
    case ReplayReset => BLANK_REPLAY
    case Zeroed => BLANK_REPLAY
    case _ => r
  }

  /** The replay window after the actions of the log. */
  function Window(log: seq<Action>): Replay {
    if log == [] then BLANK_REPLAY else WindowStep(Window(log[..|log| - 1]), log[|log| - 1])
  }

  predicate ResetsRetries(a: Action) {
    || a == Zeroed || a.Renewed?
    || (a.Entered? && (a.state == Initialize || a.state == PtkCalcNegotiating2))
  }

  function AttemptsStep(n: nat, a: Action): nat {
    if ResetsRetries(a) then 0 else if a.Sent? || a.SendFailed? then n + 1 else n
  }

  /** How often a message has been sent, or tried, since the retry counter was last reset. */
  function Attempts(log: seq<Action>): nat {
    if log == [] then 0 else AttemptsStep(Attempts(log[..|log| - 1]), log[|log| - 1])
  }

  predicate Negotiation(a: Action) {
    a.Sent? || a.SendFailed? || a.Requested? || a == Entered(PtkInitNegotiating)
  }

  predicate Third(a: Action, c: Counter, p: Ptk) {
    a.Sent? && a.msg == Msg3 && a.counter == c && a.ptk == p && a.keyed
  }

  /** A third message with counter `c` was built under the valid key `p`, and since then the machine has
      only been resending third messages, or taking requests. */
  predicate Negotiated(log: seq<Action>, c: Counter, p: Ptk) {
    log != [] &&
    var last := log[|log| - 1];
    || Third(last, c, p)
    || (Negotiation(last) && Negotiated(log[..|log| - 1], c, p))
  }

  /** The log ends with the acceptance of an authentic fourth message that answers a third message
      of the current negotiation. */
  predicate FourthAccepted(log: seq<Action>, p: Ptk) {
    log != [] &&
    var last := log[|log| - 1];
    && last.Accepted? && last.under == Some(p) && Classify(last.key) == Pairwise4
    && Negotiated(log[..|log| - 1], last.key.replay, p)
  }

  /** What a log can be in order about: the replay counters, the number of attempts, the handshake, the
      requests for a new key, and the keys themselves. */
  datatype Aspect = Replays | Retries | Handshake | Requesting | Keying

  /** What must hold of the log before an action for that action to be in order. */
  ghost predicate Justified(cfg: Config, x: Aspect, log: seq<Action>, a: Action) {
    match x
    case Replays => Counted(cfg, log, a)
    case Retries => a.Sent? || a.SendFailed? ==> Attempts(log) < PAIRWISE_UPDATE_COUNT
    case Handshake => Shaken(log, a)
    case Requesting => Orderly(cfg, log, a)
    case Keying => Keyed(cfg, log, a)
  }

  /** A message takes the next counter, and gets on the air unless it needs a key that is not valid or a
      resource that is missing; an answer is accepted only with a pending counter, and only verified
      if there is a key. */
  ghost predicate Counted(cfg: Config, log: seq<Action>, a: Action) {
    match a
    case Sent(msg, c, _, _, keyed, onAir) =>
      && c == NextCounter(Window(log).e0.counter) && cfg.fault(|log|) != NoBuffer
      && onAir == (msg == Msg1 || (keyed && cfg.fault(|log|) == NoFault))
    case Accepted(m, under) =>
      && !m.request && Pending(Window(log), m.replay)
      && (under.Some? ==> cfg.verify(under.value, m))
    case _ => true
  }

  /** The machine is done, installs a key and authorises only at the end of a handshake. */
  ghost predicate Shaken(log: seq<Action>, a: Action) {
    match a
    case Entered(s) =>
      s == PtkInitDone ==> exists p :: FourthAccepted(log, p)
    case KeyInstalled(p) =>
      log != [] && log[|log| - 1] == Entered(PtkInitDone) && FourthAccepted(log[..|log| - 1], p)
    case Authorized =>
      log != [] && (log[|log| - 1] == Entered(PtkInitDone) || log[|log| - 1].KeyInstalled?)
    case _ => true
  }

  /** The counter of the last request taken since such counters were last forgotten. */
  function LastRequest(log: seq<Action>): Option<Counter> {
    if log == [] then None
    else
      var a := log[|log| - 1];
      if a.Requested? then Some(a.request.replay)
      else if ForgetsRequests(a) then None
      else LastRequest(log[..|log| - 1])
  }

  predicate ForgetsRequests(a: Action) {
    a == Zeroed || a == Entered(InitPmk) || a == Entered(InitPsk)
  }

  /** A request is taken only if it is authentic and its counter is above that of the last one. */
  predicate Orderly(cfg: Config, log: seq<Action>, a: Action) {
    a.Requested? ==>
      && a.request.request && cfg.verify(a.verifiedBy, a.request)
      && (LastRequest(log).Some? ==> LastRequest(log).value < a.request.replay)
  }

  /** The authenticator's nonce: the one taken at the last entry of AUTHENTICATION2. */
  function NonceOf(log: seq<Action>): Option<Nonce> {
    if log == [] then None
    else
      var a := log[|log| - 1];
      if a.Renewed? then Some(a.taken) else if a == Zeroed then None else NonceOf(log[..|log| - 1])
  }

  /** The last answer accepted, with the key it was verified under. */
  function LastAnswer(log: seq<Action>): Option<Action> {
    if log == [] then None
    else if log[|log| - 1].Accepted? then Some(log[|log| - 1])
    else LastAnswer(log[..|log| - 1])
  }

  /** The key that the nonce of the log and the one of answer `m` lead to. */
  function KeyFrom(cfg: Config, log: seq<Action>, m: EapolKey): Ptk
    requires cfg.psk.Some? && NonceOf(log).Some?
  {
    cfg.derive(cfg.psk.value, NonceOf(log).value, m.nonce)
  }

  /** A second message can be checked: there is a nonce, and an answer. */
  predicate Checkable(cfg: Config, log: seq<Action>) {
    && cfg.psk.Some? && NonceOf(log).Some?
    && LastAnswer(log).Some? && LastAnswer(log).value.Accepted?
  }

  /** The key agreed on when the second message was last checked: the one derived, if the message is
      authentic under it; otherwise the one the message was accepted under. */
  function Agreed(cfg: Config, log: seq<Action>): Option<Ptk> {
    if log == [] then None
    else
      var front, a := log[..|log| - 1], log[|log| - 1];
      if a == Entered(PtkCalcNegotiating) && Checkable(cfg, front) then
        var answer := LastAnswer(front).value;
        var p := KeyFrom(cfg, front, answer.key);
        if cfg.verify(p, answer.key) then Some(p) else answer.under
      else if a == Zeroed then None
      else Agreed(cfg, front)
  }

  /** Messages carry the nonce of the log; a second message has just been accepted when it is checked; and
      what is installed is the key agreed on. */
  predicate Keyed(cfg: Config, log: seq<Action>, a: Action) {
    match a
    case Sent(_, _, n, _, _, _) => NonceOf(log) == Some(n)
    case Entered(s) =>
      s == PtkCalcNegotiating ==>
        && Checkable(cfg, log)
        && Classify(LastAnswer(log).value.key) == Pairwise2
    case KeyInstalled(p) => Agreed(cfg, log) == Some(p)
    case _ => true
  }

  ghost predicate LogOk(cfg: Config, x: Aspect, log: seq<Action>) {
    log == [] || (LogOk(cfg, x, log[..|log| - 1]) && Justified(cfg, x, log[..|log| - 1], log[|log| - 1]))
  }

  /** How the readings of a log follow it by one action. */
  lemma Snoc(cfg: Config, log: seq<Action>, a: Action)
    ensures Window(log + [a]) == WindowStep(Window(log), a)
    ensures Attempts(log + [a]) == AttemptsStep(Attempts(log), a)
    ensures forall x :: LogOk(cfg, x, log + [a]) <==> LogOk(cfg, x, log) && Justified(cfg, x, log, a)
  {
    assert (log + [a])[..|log|] == log;
  }

  lemma NegotiatedSnoc(log: seq<Action>, a: Action, c: Counter, p: Ptk)
    ensures Negotiated(log + [a], c, p) <==>
      || Third(a, c, p)
      || (Negotiation(a) && Negotiated(log, c, p))
    ensures FourthAccepted(log + [a], p) <==>
      a.Accepted? && a.under == Some(p) && Classify(a.key) == Pairwise4 && Negotiated(log, a.key.replay, p)
  {
    assert (log + [a])[..|log|] == log;
  }

  // ---- What a good log guarantees ----

  lemma {:induction false} LogOkPrefix(cfg: Config, x: Aspect, log: seq<Action>, n: nat)
    requires LogOk(cfg, x, log) && n <= |log|
    ensures LogOk(cfg, x, log[..n])
    ensures n < |log| ==> Justified(cfg, x, log[..n], log[n])
    decreases |log|
  {
    if n == |log| {
      assert log[..n] == log;
    } else {
      var front := log[..|log| - 1];
      if n < |front| {
        LogOkPrefix(cfg, x, front, n);
        assert front[..n] == log[..n];
      }
    }
  }

  /** Between two resets of the retry counter, first and third messages together are sent or tried at
      most four times. */
  lemma {:induction false} AtMostFourAttempts(cfg: Config, log: seq<Action>, n: nat)
    requires LogOk(cfg, Retries, log) && n <= |log|
    ensures Attempts(log[..n]) <= PAIRWISE_UPDATE_COUNT
    decreases n
  {
    if n > 0 {
      AtMostFourAttempts(cfg, log, n - 1);
      LogOkPrefix(cfg, Retries, log, n - 1);
      assert log[..n][..n - 1] == log[..n - 1];
    }
  }

  /** Where the third message of a negotiation stands in the log. */
  lemma {:induction false} NegotiatedWhere(log: seq<Action>, c: Counter, p: Ptk) returns (j: nat)
    requires Negotiated(log, c, p)
    ensures j < |log| && Third(log[j], c, p)
    ensures forall k | j < k < |log| :: Negotiation(log[k])
    decreases |log|
  {
    var last := log[|log| - 1];
    if Third(last, c, p) {
      j := |log| - 1;
    } else {
      j := NegotiatedWhere(log[..|log| - 1], c, p);
    }
  }

  /** Whenever PTKINITDONE is entered: right before, the machine accepted a fourth message whose integrity
      code it had verified under some key; and that message carries the replay counter of a third message
      built under that key while it was valid, since when nothing but resending had happened. That third
      message went out exactly if its key data could be wrapped. */
  lemma DoneAfterHandshake(cfg: Config, log: seq<Action>, k: nat) returns (j: nat)
    requires LogOk(cfg, Replays, log) && LogOk(cfg, Handshake, log) && k < |log| && log[k] == Entered(PtkInitDone)
    ensures j + 1 < k && log[k - 1].Accepted? && log[k - 1].under.Some?
    ensures var p := log[k - 1].under.value;
            var m := log[k - 1].key;
      && Classify(m) == Pairwise4 && cfg.verify(p, m)
      && Third(log[j], m.replay, p) && (log[j].onAir <==> cfg.fault(j) != NoWrap)
      && forall i | j < i < k - 1 :: Negotiation(log[i])
  {
    hide Negotiated;
    hide Window;
    hide LogOk;
    LogOkPrefix(cfg, Handshake, log, k);
    var accepted := log[..k];
    var p :| FourthAccepted(accepted, p);
    assert accepted[..|accepted| - 1] == log[..k - 1];
    LogOkPrefix(cfg, Replays, log, k - 1);
    j := NegotiatedWhere(log[..k - 1], log[k - 1].key.replay, p);
    LogOkPrefix(cfg, Replays, log, j);
  }

  /** Whenever a key is installed, it is right after PTKINITDONE has been entered, and it is the key the
      fourth message was verified under. */
  lemma KeyInstalledAfterHandshake(cfg: Config, log: seq<Action>, k: nat) returns (j: nat)
    requires LogOk(cfg, Replays, log) && LogOk(cfg, Handshake, log) && k < |log| && log[k].KeyInstalled?
    ensures j + 2 < k && log[k - 1] == Entered(PtkInitDone) && log[k - 2].Accepted?
    ensures var p := log[k].installed;
            var m := log[k - 2].key;
      && log[k - 2].under == Some(p) && Classify(m) == Pairwise4 && cfg.verify(p, m)
      && Third(log[j], m.replay, p) && (log[j].onAir <==> cfg.fault(j) != NoWrap)
      && forall i | j < i < k - 2 :: Negotiation(log[i])
  {
    hide Negotiated;
    hide Window;
    hide LogOk;
    LogOkPrefix(cfg, Handshake, log, k);
    var before := log[..k];
    assert before[..|before| - 1] == log[..k - 1];
    assert FourthAccepted(log[..k - 1], log[k].installed);
    j := DoneAfterHandshake(cfg, log, k - 1);
  }

  /** A station is only authorised right after PTKINITDONE has been entered. */
  lemma AuthorizedAfterDone(cfg: Config, log: seq<Action>, k: nat)
    requires LogOk(cfg, Handshake, log) && k < |log| && log[k] == Authorized
    ensures k >= 1 && (log[k - 1] == Entered(PtkInitDone) ||
                       (k >= 2 && log[k - 1].KeyInstalled? && log[k - 2] == Entered(PtkInitDone)))
  {
    hide FourthAccepted;
    LogOkPrefix(cfg, Handshake, log, k);
    if log[k - 1].KeyInstalled? {
      LogOkPrefix(cfg, Handshake, log, k - 1);
    }
  }

  // ---- Replay counters ----

  /** Past such an action no earlier counter is acceptable. */
  predicate Barrier(a: Action) {
    a.Accepted? || a == ReplayReset || a == Zeroed
  }

  predicate Resets(a: Action) {
    a == ReplayReset || a == Zeroed
  }

  /** The position of a sent message with counter `c` since the last barrier. */
  ghost predicate SentSince(log: seq<Action>, c: Counter, j: nat) {
    && j < |log| && log[j].Sent? && log[j].counter == c
    && forall k | j < k < |log| :: !Barrier(log[k])
  }

  /** Entry `i` of the window, if it and all newer ones are valid, is the counter of a message sent
      since the last barrier. */
  ghost predicate EntryFresh(log: seq<Action>, e: ReplayEntry) {
    e.valid ==> exists j :: SentSince(log, e.counter, j)
  }

  ghost predicate PrefixFresh(log: seq<Action>, r: Replay) {
    && EntryFresh(log, r.e0)
    && (r.e0.valid ==> EntryFresh(log, r.e1))
    && (r.e0.valid && r.e1.valid ==> EntryFresh(log, r.e2))
    && (r.e0.valid && r.e1.valid && r.e2.valid ==> EntryFresh(log, r.e3))
  }

  lemma EntryStaysFresh(log: seq<Action>, a: Action, e: ReplayEntry)
    requires EntryFresh(log, e) && !Barrier(a)
    ensures EntryFresh(log + [a], e)
  {
    if e.valid {
      var j :| SentSince(log, e.counter, j);
      assert SentSince(log + [a], e.counter, j);
    }
  }

  lemma {:induction false} WindowFresh(log: seq<Action>)
    ensures PrefixFresh(log, Window(log))
    decreases |log|
  {
    hide EntryFresh;
    if log == [] {
      BlankFresh(log);
    } else {
      var front, a := log[..|log| - 1], log[|log| - 1];
      WindowFresh(front);
      var r := Window(front);
      assert log == front + [a];
      if Barrier(a) {
        BarrierFresh(log, WindowStep(r, a));
      } else {
        PrefixStaysFresh(front, a, r);
      }
    }
  }

  lemma BlankFresh(log: seq<Action>)
    ensures PrefixFresh(log, BLANK_REPLAY)
  {
  }

  lemma BarrierFresh(log: seq<Action>, r: Replay)
    requires !r.e0.valid
    ensures PrefixFresh(log, r)
  {
  }

  lemma PrefixStaysFresh(front: seq<Action>, a: Action, r: Replay)
    requires PrefixFresh(front, r) && !Barrier(a)
    ensures PrefixFresh(front + [a], WindowStep(r, a))
  {
    hide EntryFresh;
    var log := front + [a];
    EntryStaysFresh(front, a, r.e0);
    if r.e0.valid {
      EntryStaysFresh(front, a, r.e1);
      if r.e1.valid {
        EntryStaysFresh(front, a, r.e2);
        if r.e2.valid {
          EntryStaysFresh(front, a, r.e3);
        }
      }
    }
    if a.Sent? {
      NewlySent(front, a);
    }
  }

  lemma NewlySent(front: seq<Action>, a: Action)
    requires a.Sent?
    ensures EntryFresh(front + [a], ReplayEntry(a.counter, true))
  {
    assert SentSince(front + [a], a.counter, |front|);
  }

  /** Every accepted answer echoes the counter of a message built after the previous acceptance; that
      message went out exactly if it was a first message, or its key was valid and its key data could be
      wrapped. */
  lemma AcceptedWasSentSince(cfg: Config, log: seq<Action>, k: nat) returns (j: nat)
    requires LogOk(cfg, Replays, log) && k < |log| && log[k].Accepted?
    ensures j < k && log[j].Sent? && log[j].counter == log[k].key.replay
    ensures log[j].onAir <==> log[j].msg == Msg1 || (log[j].keyed && cfg.fault(j) != NoWrap)
    ensures forall i | j < i < k :: !Barrier(log[i])
  {
    hide LogOk;
    LogOkPrefix(cfg, Replays, log, k);
    var before := log[..k];
    WindowFresh(before);
    PendingIsFresh(before, Window(before), log[k].key.replay);
    j :| SentSince(before, log[k].key.replay, j);
    assert forall i | j < i < k :: before[i] == log[i];
    LogOkPrefix(cfg, Replays, log, j);
  }

  lemma PendingIsFresh(log: seq<Action>, r: Replay, c: Counter)
    requires PrefixFresh(log, r) && Pending(r, c)
    ensures exists j :: SentSince(log, c, j)
  {
    hide SentSince;
  }

  /** Messages sent since the counters were last reset. */
  function Sends(log: seq<Action>): nat {
    if log == [] then 0
    else
      var last := log[|log| - 1];
      if Resets(last) then 0 else Sends(log[..|log| - 1]) + (if last.Sent? then 1 else 0)
  }

  lemma {:induction false} NewestCounter(cfg: Config, log: seq<Action>)
    requires LogOk(cfg, Replays, log) && Sends(log) < COUNTER_MODULO
    ensures Window(log).e0.counter == Sends(log)
    decreases |log|
  {
    if log != [] {
      var last := log[|log| - 1];
      if !Resets(last) {
        NewestCounter(cfg, log[..|log| - 1]);
        assert Justified(cfg, Replays, log[..|log| - 1], last);
      }
    }
  }

  lemma {:induction false} SendsGrow(log: seq<Action>, a: nat, b: nat)
    requires a <= b <= |log| && forall i | a <= i < b :: !Resets(log[i])
    ensures Sends(log[..a]) <= Sends(log[..b])
    decreases b - a
  {
    if a < b {
      SendsGrow(log, a, b - 1);
      assert log[..b][..b - 1] == log[..b - 1];
    }
  }

  /** Within one association, as long as the 64-bit counter does not run out, the counters of
      successive accepted answers strictly increase. */
  lemma AcceptedCountersIncrease(cfg: Config, log: seq<Action>, k1: nat, k2: nat)
    requires LogOk(cfg, Replays, log) && k1 < k2 < |log| && log[k1].Accepted? && log[k2].Accepted?
    requires forall i | k1 < i < k2 :: !Resets(log[i])
    requires forall n | 0 <= n <= |log| :: Sends(log[..n]) < COUNTER_MODULO
    ensures log[k1].key.replay < log[k2].key.replay
  {
    hide LogOk;
    var j1 := AcceptedWasSentSince(cfg, log, k1);
    var j2 := AcceptedWasSentSince(cfg, log, k2);
    assert Barrier(log[k1]);
    assert k1 < j2;
    SentCounter(cfg, log, j1);
    SentCounter(cfg, log, j2);
    assert forall i | j1 < i < j2 :: !Resets(log[i]) by {
      forall i | j1 < i < j2
        ensures !Resets(log[i])
      {
        if i < k1 {
          assert !Barrier(log[i]);
        } else if i > k1 {
          assert i < k2;
        }
      }
    }
    SendsGrow(log, j1 + 1, j2);
  }

  /** A sent message carries its number in the sequence of messages since the last reset. */
  lemma SentCounter(cfg: Config, log: seq<Action>, j: nat)
    requires LogOk(cfg, Replays, log) && j < |log| && log[j].Sent?
    requires forall n | 0 <= n <= |log| :: Sends(log[..n]) < COUNTER_MODULO
    ensures log[j].counter == Sends(log[..j]) + 1 == Sends(log[..j + 1])
  {
    LogOkPrefix(cfg, Replays, log, j);
    assert log[..j + 1][..j] == log[..j];
    assert Sends(log[..j + 1]) < COUNTER_MODULO;
    NewestCounter(cfg, log[..j]);
  }

  // ---- Requests and keys ----

  lemma {:induction false} LastRequestAfter(log: seq<Action>, k: nat, n: nat)
    requires k < n <= |log| && log[k].Requested? && forall i | k < i < n :: !ForgetsRequests(log[i])
    ensures LastRequest(log[..n]).Some?
    ensures (forall i | k < i < n :: !log[i].Requested?) ==> LastRequest(log[..n]).value == log[k].request.replay
    decreases n
  {
    assert log[..n][..n - 1] == log[..n - 1];
    if k < n - 1 { LastRequestAfter(log, k, n - 1); }
  }

  /** The counters of requests that are taken strictly increase until they are forgotten. */
  lemma {:induction false} RequestCountersIncrease(cfg: Config, log: seq<Action>, k1: nat, k2: nat)
    requires LogOk(cfg, Requesting, log) && k1 < k2 < |log| && log[k1].Requested? && log[k2].Requested?
    requires forall i | k1 < i < k2 :: !ForgetsRequests(log[i])
    ensures log[k1].request.replay < log[k2].request.replay
    decreases k2 - k1
  {
    hide LogOk;
    hide LastRequest;
    LogOkPrefix(cfg, Requesting, log, k2);
    if k :| k1 < k < k2 && log[k].Requested? {
      RequestCountersIncrease(cfg, log, k1, k);
      RequestCountersIncrease(cfg, log, k, k2);
    } else {
      LastRequestAfter(log, k1, k2);
    }
  }

  lemma {:induction false} AnswerWhere(log: seq<Action>) returns (a: nat)
    requires LastAnswer(log).Some?
    ensures a < |log| && log[a].Accepted? && LastAnswer(log) == Some(log[a])
    ensures forall i | a < i < |log| :: !log[i].Accepted?
    decreases |log|
  {
    if log[|log| - 1].Accepted? { a := |log| - 1; } else { a := AnswerWhere(log[..|log| - 1]); }
  }

  lemma {:induction false} NonceWhere(log: seq<Action>) returns (n: nat)
    requires NonceOf(log).Some?
    ensures n < |log| && log[n].Renewed? && NonceOf(log) == Some(log[n].taken)
    ensures forall i | n < i < |log| :: !log[i].Renewed? && log[i] != Zeroed
    decreases |log|
  {
    if log[|log| - 1].Renewed? { n := |log| - 1; } else { n := NonceWhere(log[..|log| - 1]); }
  }

  lemma {:induction false} AgreedWhere(cfg: Config, log: seq<Action>) returns (c: nat)
    requires LogOk(cfg, Keying, log) && Agreed(cfg, log).Some?
    ensures c < |log| && log[c] == Entered(PtkCalcNegotiating) && Checkable(cfg, log[..c])
    ensures Classify(LastAnswer(log[..c]).value.key) == Pairwise2
    ensures forall i | c < i < |log| :: log[i] != Entered(PtkCalcNegotiating) && log[i] != Zeroed
    ensures var m := LastAnswer(log[..c]).value;
            var p := KeyFrom(cfg, log[..c], m.key);
      Agreed(cfg, log) == if cfg.verify(p, m.key) then Some(p) else m.under
    decreases |log|
  {
    var front, last := log[..|log| - 1], log[|log| - 1];
    assert Justified(cfg, Keying, front, last);
    if last == Entered(PtkCalcNegotiating) {
      c := |log| - 1;
    } else {
      c := AgreedWhere(cfg, front);
      assert front[..c] == log[..c];
    }
  }

  /** Whenever a key is installed: at the last check of a second message, `c`, the answer accepted last is a
      second message, `a`; the authenticator's nonce is the one taken at the last entry of AUTHENTICATION2,
      `n`; and the key installed is the one derived from the configured key and the two nonces, if the
      message is authentic under it, and otherwise the key the message had been accepted under. */
  lemma InstalledKeyIs(cfg: Config, log: seq<Action>, k: nat) returns (c: nat, a: nat, n: nat)
    requires LogOk(cfg, Keying, log) && k < |log| && log[k].KeyInstalled?
    ensures a < c < k && n < c && cfg.psk.Some?
    ensures log[c] == Entered(PtkCalcNegotiating) && forall i | c < i < k :: log[i] != Entered(PtkCalcNegotiating)
    ensures log[a].Accepted? && Classify(log[a].key) == Pairwise2 && forall i | a < i < c :: !log[i].Accepted?
    ensures log[n].Renewed? && forall i | n < i < c :: !log[i].Renewed? && log[i] != Zeroed
    ensures var p := cfg.derive(cfg.psk.value, log[n].taken, log[a].key.nonce);
      if cfg.verify(p, log[a].key) then log[k].installed == p else log[a].under == Some(log[k].installed)
  {
    hide LogOk;
    hide Agreed;
    LogOkPrefix(cfg, Keying, log, k);
    c := AgreedWhere(cfg, log[..k]);
    assert log[..k][..c] == log[..c];
    a := AnswerWhere(log[..c]);
    n := NonceWhere(log[..c]);
  }
}
