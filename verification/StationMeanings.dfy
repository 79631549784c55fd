/**
 What the records of the station table come to mean over whole histories: the marks after any sequence of
 associations, when buffered frames go stale on a clock that does not wrap, what the traffic indication
 promises, and what the HT operation mode says about the members of the cell.
 */
module StationMeanings {
  import opened Common
  import opened PowerSaveQueues
  import opened Stations
  import opened AccessPoint
  import Protection

  // ---- Associations ----

  /** The record after the associations `reqs`, one after the other. */
  function JoinedAll(s: Station, reqs: seq<AssocReq>, o: Opts): Station {
    if reqs == [] then s else Joined(JoinedAll(s, reqs[..|reqs| - 1], o), reqs[|reqs| - 1], o)
  }

  predicate HtUsed(r: AssocReq, o: Opts) {
    r.ht && r.wmm && !o.disable11n
  }

  /** Some request has the property. */
  ghost predicate Some(reqs: seq<AssocReq>, p: AssocReq -> bool) {
    exists r <- reqs :: p(r)
  }

  lemma SomeSnoc(reqs: seq<AssocReq>, p: AssocReq -> bool)
    ensures Some(reqs, p) <==> reqs != [] && (Some(reqs[..|reqs| - 1], p) || p(reqs[|reqs| - 1]))
  {
    if reqs != [] {
      var front, last := reqs[..|reqs| - 1], reqs[|reqs| - 1];
      assert forall r :: r in reqs <==> r in front || r == last;
    }
  }

  /** A record taken up afresh and associated any number of times: each mark is set exactly if some request
      lacked what it stands for. */
  lemma {:induction false} MarksMeaning(s: Station, reqs: seq<AssocReq>, o: Opts)
    requires s.marks == NO_MARKS && !s.nonErp
    ensures var m := JoinedAll(s, reqs, o).marks;
      && (m.noShortSlot <==> Some(reqs, (r: AssocReq) => !r.shortSlot))
      && (m.noShortPreamble <==> Some(reqs, (r: AssocReq) => !r.shortPreamble))
      && (m.nonErp <==> o.erpOn && o.modeG && Some(reqs, (r: AssocReq) => !r.fastRate))
      && (m.noHt <==> Some(reqs, (r: AssocReq) => !HtUsed(r, o)))
      && (m.noHtGf <==> Some(reqs, (r: AssocReq) => HtUsed(r, o) && !r.greenfield))
      && (m.ht20 <==> Some(reqs, (r: AssocReq) => HtUsed(r, o) && !r.wide))
    decreases |reqs|
  {
    hide Some;
    SomeSnoc(reqs, (r: AssocReq) => !r.shortSlot);
    SomeSnoc(reqs, (r: AssocReq) => !r.shortPreamble);
    SomeSnoc(reqs, (r: AssocReq) => !r.fastRate);
    SomeSnoc(reqs, (r: AssocReq) => !HtUsed(r, o));
    SomeSnoc(reqs, (r: AssocReq) => HtUsed(r, o) && !r.greenfield);
    SomeSnoc(reqs, (r: AssocReq) => HtUsed(r, o) && !r.wide);
    if reqs != [] {
      SettingsMeaning(s, reqs[..|reqs| - 1], o);
      MarksMeaning(s, reqs[..|reqs| - 1], o);
    }
  }

  /** The QoS settings, the power-save categories and service period, the HT state and the listen interval are
      those of the last request; the station is authorised exactly if it was before, or no key is
      configured; and nothing else has changed. */
  lemma {:induction false} SettingsMeaning(s: Station, reqs: seq<AssocReq>, o: Opts)
    requires !s.nonErp
    ensures var t := JoinedAll(s, reqs, o);
      && (t.nonErp ==> o.modeG)
      && (reqs != [] ==>
            var last := reqs[|reqs| - 1];
            && t.wmm == last.wmm && t.ht == HtUsed(last, o) && t.listenInterval == last.listenInterval
            && (last.wmm ==> t.uapsd == last.acs && t.maxSp == last.maxSp)
            && (!last.wmm ==> t.uapsd == NO_ACS && t.maxSp == 0)
            && t.assoc && (t.authorized <==> s.authorized || !o.psk) && (t.nonErp <==> o.modeG && !last.fastRate))
      && t.addr == s.addr && t.aid == s.aid && t.valid == s.valid && t.auth == s.auth && t.ps == s.ps && t.sp == s.sp
      && t.queues == s.queues && t.fwQLen == s.fwQLen && t.challenge == s.challenge && t.arpRetryCount == s.arpRetryCount
      && (reqs == [] ==> t == s)
    decreases |reqs|
  {
    hide Limited;
    if reqs != [] { SettingsMeaning(s, reqs[..|reqs| - 1], o); }
  }

  // ---- Frames going stale ----

  /** How long a frame waits for a dozing station: its listen interval in beacon intervals, rounded down to
      seconds, and ten seconds at least. */
  function Allowance(listenInterval: nat, bcnInterval: nat): nat {
    var seconds := listenInterval * bcnInterval * 32 / 15625;
    if seconds < 10 then 10000 else 1000 * seconds
  }

  /** On a clock that does not wrap, a frame has expired exactly when it has waited longer than that. */
  lemma ExpiredMeaning(listenInterval: nat, bcnInterval: nat, f: Frame, t: int, s: int)
    requires f.queuedAt == s % TICK_MODULO && s <= t && t - s <= TICK_MODULO / 2
    requires Allowance(listenInterval, bcnInterval) < TICK_MODULO / 2
    ensures BufferExpired(listenInterval, bcnInterval, f, t % TICK_MODULO) <==> t - s > Allowance(listenInterval, bcnInterval)
  {
    DeadlineMeaning(t, s, Allowance(listenInterval, bcnInterval));
  }

  // ---- The traffic indication ----

  lemma {:induction false} SomethingEligible(q: Queues, ignored: AcSet, n: nat)
    requires n <= NUM_ACS
    ensures Before(q, ignored, n) != [] <==> exists ac :: 0 <= ac < n && !Has(ignored, ac) && At(q, ac) != []
  {
    hide At;
    hide Has;
    if n > 0 { SomethingEligible(q, ignored, n - 1); }
  }

  /** Unless the device holds frames itself, a station's bit is set exactly when a poll would be answered with
      a buffered frame, the first of those eligible; and that frame has More Data set exactly if more are. */
  lemma IndicationMeansPoll(s: Station)
    requires s.fwQLen <= 0
    ensures Indicate(s) <==> Taken(s.queues, IgnoredForPoll(s), 1) != []
    ensures Indicate(s) ==>
      var out := Response(s, 1, IgnoredForPoll(s), PsPoll);
      && |out| == 1 && out[0].Data? && out[0].frame == Eligible(s.queues, IgnoredForPoll(s))[0]
      && (out[0].moreData <==> |Eligible(s.queues, IgnoredForPoll(s))| > 1)
  {
    hide At;
    hide Has;
    hide After;
    hide IgnoredForPoll;
    SomethingEligible(s.queues, IgnoredForPoll(s), NUM_ACS);
    ResponseMarks(s.queues, IgnoredForPoll(s), 1, false);
  }

  /** A poll looks at the categories the station does not trigger itself, or at all if it triggers all. */
  lemma PollLooksAt(s: Station, ac: int)
    requires 0 <= ac < NUM_ACS
    ensures Has(IgnoredForPoll(s), ac) <==> Has(s.uapsd, ac) && exists a :: 0 <= a < NUM_ACS && !Has(s.uapsd, a)
  {
    if s.uapsd != ALL_ACS {
      assert !Has(s.uapsd, 0) || !Has(s.uapsd, 1) || !Has(s.uapsd, 2) || !Has(s.uapsd, 3);
    }
  }

  /** A response sends a null frame exactly when there is nothing to send, and the device has reported that
      it has nothing either. */
  lemma NullFrameIff(s: Station, n: nat, ignored: AcSet, reason: Reason)
    requires n >= 1
    ensures var out := Response(s, n, ignored, reason);
      && ((exists x <- out :: x.Null?) <==>
            Eligible(s.queues, ignored) == [] && s.fwQLen < 0 && s.fwQLen != UNKNOWN_FW_QUEUE_LENGTH)
      && ((exists x <- out :: x.Null?) ==> |out| == 1 && out[0].qos == s.wmm && (out[0].eosp <==> s.wmm && reason == Uapsd))
  {
    hide After;
    hide Before;
    var taken := Taken(s.queues, ignored, n);
    assert taken == [] <==> Eligible(s.queues, ignored) == [];
    if taken != [] {
      var out := Response(s, n, ignored, reason);
      assert forall i :: 0 <= i < |out| ==> !out[i].Null?;
    } else if s.fwQLen < 0 && s.fwQLen != UNKNOWN_FW_QUEUE_LENGTH {
      assert Response(s, n, ignored, reason)[0].Null?;
    }
  }

  /** What a response of at most `n` frames is: the first of the eligible frames, most urgent category first and
      oldest first within each; More Data on every one but the last, and on the last exactly if more remain;
      the end of the service period only on the last, and there exactly for a QoS frame of a service period.
      The record keeps the other eligible frames, and the service period is over. */
  lemma ResponseMeaning(s: Station, n: nat, ignored: AcSet, reason: Reason)
    requires n >= 1 && Eligible(s.queues, ignored) != []
    ensures var out, all, t := Response(s, n, ignored, reason), Eligible(s.queues, ignored), Responded(s, n, ignored, reason);
      && |out| == Min(n, |all|)
      && (forall i :: 0 <= i < |out| ==> out[i].Data? && out[i].frame == all[i])
      && (forall i :: 0 <= i < |out| - 1 ==> out[i].moreData && !out[i].eosp)
      && (out[|out| - 1].moreData <==> n < |all|)
      && (out[|out| - 1].eosp <==> reason == Uapsd && out[|out| - 1].frame.qos)
      && Eligible(t.queues, ignored) == all[|out|..] && !t.sp
      && (forall ac :: 0 <= ac < NUM_ACS && Has(ignored, ac) ==> At(t.queues, ac) == At(s.queues, ac))
  {
    hide After;
    hide Before;
    hide Size;
    hide At;
    hide Has;
    ResponseMarks(s.queues, ignored, n, reason == Uapsd);
    ResponseSplits(s.queues, ignored, n);
    var all, taken := Eligible(s.queues, ignored), Taken(s.queues, ignored, n);
    assert all[|taken|..] == Eligible(After(s.queues, ignored, n), ignored);
  }

  /** A trigger from a dozing station, in a category it triggers and outside a service period, gets up to two
      frames for each unit of its setting, or eight for none, from the categories it triggers; the other
      categories are untouched. Any other frame with the power-management bit gets nothing. */
  lemma TriggerMeaning(s: Station, up: int)
    requires s.ps && 0 <= s.maxSp <= 3
    ensures var t, out, all := Answered(s, false, true, up), Answer(s, false, true, up), Eligible(s.queues, Complement(s.uapsd));
      if Has(s.uapsd, UpToAc(up % 8)) && !s.sp
      then
        && FramesOf(out) == all[..Min(if s.maxSp == 0 then 8 else 2 * s.maxSp, |all|)]
        && (forall ac :: 0 <= ac < NUM_ACS && !Has(s.uapsd, ac) ==> At(t.queues, ac) == At(s.queues, ac))
      else t == s && out == []
  {
    hide After;
    hide Before;
    hide Size;
    hide At;
    hide FramesOf;
    hide Response;
    ResponseSplits(s.queues, Complement(s.uapsd), ServiceLength(s.maxSp));
    FramesOfResponse(s, ServiceLength(s.maxSp), Complement(s.uapsd), Uapsd);
  }

  /** A frame put in a queue that a poll looks at is indicated. */
  lemma QueuedIsIndicated(s: Station, ac: int, f: Frame)
    requires 0 <= ac < NUM_ACS && (!Has(IgnoredForPoll(s), ac) || s.fwQLen >= 0 || s.fwQLen == UNKNOWN_FW_QUEUE_LENGTH)
    ensures Indicate(Queued(s, ac, f))
  {
    hide At;
    hide Has;
    EnqueueAppends(s.queues, ac, f);
    var q := Queued(s, ac, f);
    assert At(q.queues, ac) != [];
    assert IgnoredForPoll(q) == IgnoredForPoll(s);
  }

  // ---- The HT operation mode ----

  lemma SomeWhere(ss: seq<Station>, p: Station -> bool)
    ensures |Where(ss, p)| != 0 <==> exists i :: 0 <= i < |ss| && p(ss[i])
  {
    if i :| 0 <= i < |ss| && p(ss[i]) {
      assert i in Where(ss, p);
    } else {
      assert Where(ss, p) == {};
    }
  }

  /** The mode, in terms of the members of the cell: mixed with a member that is not HT; otherwise protected
      at 20 MHz with such a member of a wide cell; otherwise for a neighbour that is not HT; and the marks for
      members without greenfield and for anything around that is not HT. */
  lemma HtModeOfCell(ss: seq<Station>, num: Tally, bits: seq<bool>, pool: int, olbcHt: bool, secondary: bool)
    requires Sound(ss, num, bits, pool)
    ensures var m := Protection.HtMode(num.ht, olbcHt, secondary);
            var noHt := exists i :: 0 <= i < |ss| && ss[i].marks.noHt;
            var ht20 := exists i :: 0 <= i < |ss| && ss[i].marks.ht20;
      && (m.protection == 3 <==> noHt)
      && (m.protection == 2 <==> !noHt && secondary && ht20)
      && (m.protection == 1 <==> !noHt && !(secondary && ht20) && olbcHt)
      && 0 <= m.protection <= 3
      && (m.nonGf <==> exists i :: 0 <= i < |ss| && ss[i].marks.noHtGf)
      && (m.obssNonHt <==> noHt || olbcHt)
  {
    hide Total;
    hide TableOk;
    hide AidsOk;
    hide Where;
    CountersAreCardinalities(ss);
    SomeWhere(ss, (s: Station) => s.marks.noHt);
    SomeWhere(ss, (s: Station) => s.marks.ht20);
    SomeWhere(ss, (s: Station) => s.marks.noHtGf);
  }
}
