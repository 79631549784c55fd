/**
 The access point at work: buffering for dozing stations, their polls and service periods, and the comings
 and goings of stations. Every handler keeps one invariant.
 */
module AccessPoint {
  import opened Common
  import opened PowerSaveQueues
  import opened Stations
  import Protection

  // ---- Records ----

  lemma RespondedKeeps(s: Station, n: nat, ignored: AcSet, reason: Reason)
    requires Fit(s)
    ensures Fit(Responded(s, n, ignored, reason))
    ensures Share(Responded(s, n, ignored, reason))
         == Share(s).(buffered := Share(s).buffered - |Taken(s.queues, ignored, n)|)
  {
    hide After;
    hide Taken;
    hide Size;
    hide Bounded;
    hide One;
    ResponseSplits(s.queues, ignored, n);
    AfterBounded(s.queues, ignored, n);
  }

  function Queued(s: Station, ac: int, f: Frame): Station
    requires 0 <= ac < NUM_ACS
  {
    s.(queues := Enqueue(s.queues, ac, f),
       fwQLen := if s.fwQLen == UNKNOWN_FW_QUEUE_LENGTH then 1 else s.fwQLen + 1)
  }

  lemma QueuedKeeps(s: Station, ac: int, f: Frame)
    requires 0 <= ac < NUM_ACS && Fit(s) && s.ps
    ensures Fit(Queued(s, ac, f))
    ensures Share(Queued(s, ac, f)) == Share(s).(buffered := Share(s).buffered + 1 - |EnqueueVictim(s.queues, ac)|)
  {
    hide Holds;
    hide Enqueue;
    hide EnqueueVictim;
    hide One;
    hide Size;
    hide Bounded;
    EnqueueKeepsCopies(s.queues, ac, f, f);
  }

  lemma EnqueueConserves(ss: seq<Station>, accepted: seq<Tag>, sent: seq<Frame>, dropped: seq<Frame>,
                         i: nat, ac: int, f: Frame)
    requires Conserved(ss, accepted, sent, dropped) && i < |ss| && 0 <= ac < NUM_ACS
    ensures Conserved(ss[i := Queued(ss[i], ac, f)], accepted + [Tag(i, ac, f)], sent,
                      dropped + EnqueueVictim(ss[i].queues, ac))
  {
    hide Copies;
    hide Holds;
    hide Held;
    hide Enqueue;
    hide EnqueueVictim;
    hide Lined;
    hide FramesIn;
    var v := EnqueueVictim(ss[i].queues, ac);
    EnqueueLined(ss, accepted, i, ac, f);
    FramesInSnoc(accepted, Tag(i, ac, f));
    forall g: Frame
      ensures Copies(FramesIn(accepted) + [f], g) == Copies(FramesIn(accepted), g) + Copies([f], g)
      ensures Copies(dropped + v, g) == Copies(dropped, g) + Copies(v, g)
      ensures Held(ss[i := Queued(ss[i], ac, f)], g) == Held(ss, g) + Copies([f], g) - Copies(v, g)
    {
      CopiesConcat(FramesIn(accepted), [f], g);
      CopiesConcat(dropped, v, g);
      HeldUpdate(ss, i, Queued(ss[i], ac, f), g);
      EnqueueKeepsCopies(ss[i].queues, ac, f, g);
    }
  }

  lemma FramesInSnoc(tags: seq<Tag>, t: Tag)
    ensures FramesIn(tags + [t]) == FramesIn(tags) + [t.frame]
  {
  }

  lemma ForSnoc(tags: seq<Tag>, t: Tag, slot: nat, ac: int)
    ensures For(tags + [t], slot, ac) == For(tags, slot, ac) + if t.slot == slot && t.ac == ac then [t.frame] else []
  {
    assert (tags + [t])[..|tags|] == tags;
  }

  /** The new frame goes behind what was accepted before it. */
  lemma EnqueueLined(ss: seq<Station>, accepted: seq<Tag>, i: nat, ac: int, f: Frame)
    requires Lined(ss, accepted) && i < |ss| && 0 <= ac < NUM_ACS
    ensures Lined(ss[i := Queued(ss[i], ac, f)], accepted + [Tag(i, ac, f)])
  {
    hide At;
    hide For;
    hide Enqueue;
    hide Remainder;
    var after, more := ss[i := Queued(ss[i], ac, f)], accepted + [Tag(i, ac, f)];
    forall j, a | 0 <= j < |ss| && 0 <= a < NUM_ACS
      ensures Remainder(At(after[j].queues, a), For(more, j, a))
    {
      ForSnoc(accepted, Tag(i, ac, f), j, a);
      EnqueueAppends(ss[i].queues, ac, f);
      if j == i && a == ac {
        AppendRemainder(At(ss[i].queues, ac), For(accepted, i, ac), f, if |At(ss[i].queues, ac)| >= STA_MAX_TX_BUFFER then 1 else 0);
      } else {
        assert For(more, j, a) == For(accepted, j, a);
      }
    }
  }

  lemma AppendRemainder(s: seq<Frame>, t: seq<Frame>, f: Frame, k: nat)
    requires Remainder(s, t) && k <= |s|
    ensures Remainder(s[k..] + [f], t + [f])
  {
  }

  lemma AwakeKeeps(s: Station)
    requires Fit(s)
    ensures s.ps ==> Fit(Woken(s)) && Share(Woken(s)) == Share(s).(ps := 0, buffered := 0)
    ensures Fit(DrvRemoved(s)) && Share(DrvRemoved(s)) == Share(s).(ps := 0, buffered := 0)
    ensures Share(s).ps == One(s.ps) && Share(s).buffered == Size(s.queues)
  {
    hide Size;
    hide Bounded;
    EmptySize();
  }

  lemma EmptySize()
    ensures Size(EMPTY) == 0 && Bounded(EMPTY)
  {
  }

  function FramesOf(sent: seq<Sending>): seq<Frame> {
    if sent == [] then []
    else FramesOf(sent[..|sent| - 1]) + if sent[|sent| - 1].Null? then [] else [sent[|sent| - 1].frame]
  }

  lemma {:induction false} FramesOfConcat(a: seq<Sending>, b: seq<Sending>)
    ensures FramesOf(a + b) == FramesOf(a) + FramesOf(b)
  {
    if b == [] {
      assert a + b == a;
    } else {
      assert (a + b)[..|a + b| - 1] == a + b[..|b| - 1];
      FramesOfConcat(a, b[..|b| - 1]);
    }
  }

  lemma {:induction false} FramesOfAll(out: seq<Sending>, frames: seq<Frame>)
    requires |out| == |frames| && forall i :: 0 <= i < |out| ==> !out[i].Null? && out[i].frame == frames[i]
    ensures FramesOf(out) == frames
  {
    if out != [] {
      FramesOfAll(out[..|out| - 1], frames[..|frames| - 1]);
      assert frames == frames[..|frames| - 1] + [frames[|frames| - 1]];
    }
  }

  lemma FramesOfResponse(s: Station, n: nat, ignored: AcSet, reason: Reason)
    ensures FramesOf(Response(s, n, ignored, reason)) == Taken(s.queues, ignored, n)
  {
    hide Taken;
    hide After;
    hide Eligible;
    var taken := Taken(s.queues, ignored, n);
    if taken == [] {
      assert |Response(s, n, ignored, reason)| <= 1;
    } else {
      FramesOfAll(Response(s, n, ignored, reason), taken);
    }
  }

  function Unmarked(frames: seq<Frame>): (r: seq<Sending>)
    ensures |r| == |frames|
  {
    seq(|frames|, i requires 0 <= i < |frames| => Plain(frames[i]))
  }

  lemma BlankTable(n: nat, pool: nat)
    requires 1 <= n <= AID_BITS
    ensures Sound(seq(n, _ => BLANK), ZERO, seq(AID_BITS, _ => false), pool)
    ensures Conserved(seq(n, _ => BLANK), [], [], [])
  {
    hide Total;
    hide Held;
    hide Share;
    hide Fit;
    BlankShare();
    BlankFits();
    var ss := seq(n, _ => BLANK);
    TotalAllZero(ss);
    forall f: Frame
      ensures Held(ss, f) == 0
    {
      HeldNone(ss, f);
    }
    assert FramesIn([]) == [];
  }

  lemma BlankFits()
    ensures Fit(BLANK)
  {
  }

  // ---- The access point ----

  class ApInfo {
    const sta: array<Station>
    const protection: Protection.Protection
    const poolSize: nat
    const timAllOne: bool
    const bcnInterval: nat
    const psk: bool
    const disable11n: bool
    const ownAddr: int
    const authOpen: bool
    const authShared: bool
    var num: Tally
    var staAid: seq<bool>
    var tim: seq<bool>
    var accepted: seq<Tag>
    var sent: seq<Sending>
    var dropped: seq<Frame>

    ghost predicate Valid() reads this, sta, protection, protection.list {
      && protection.Valid() && protection.ht == num.ht
      && Sound(sta[..], num, staAid, poolSize)
      && Conserved(sta[..], accepted, FramesOf(sent), dropped)
      && |tim| > sta.Length
    }

    /** `APInfoInit` and `APStaInfo_Init`. */
    constructor (maxSta: nat, pool: nat, timAllOne: bool, bcnInterval: nat, psk: bool, disable11n: bool,
                 ownAddr: int, authOpen: bool, authShared: bool, protection: Protection.Protection)
      requires 1 <= maxSta <= AID_BITS
      requires protection.Valid() && protection.ht == Protection.NO_COUNTS
      ensures Valid() && fresh(sta) && sta.Length == maxSta && this.protection == protection
      ensures forall i :: 0 <= i < maxSta ==> sta[i] == BLANK
    {
      hide HasAid;
      this.protection, this.timAllOne, this.bcnInterval, this.psk := protection, timAllOne, bcnInterval, psk;
      poolSize, this.disable11n := pool, disable11n;
      this.ownAddr, this.authOpen, this.authShared := ownAddr, authOpen, authShared;
      num, accepted, sent, dropped := ZERO, [], [], [];
      staAid := seq(AID_BITS, _ => false);
      tim := seq(AID_BITS * ((maxSta + AID_BITS) / AID_BITS), _ => false);
      sta := new Station[maxSta](_ => BLANK);
      new;
      assert sta[..] == seq(maxSta, _ => BLANK);
      BlankTable(maxSta, pool);
    }

    lemma AidInTim(i: nat)
      requires Valid() && i < sta.Length
      ensures 0 <= sta[i].aid < |tim| && Fit(sta[i])
    {
      hide Fit;
      hide HasAid;
      hide Conserved;
      assert sta[..][i] == sta[i];
    }

    /** `sta_info_recalc_tim`: afterwards the station's bit says whether it has something waiting. */
    method RecalcTim(i: nat) returns (changed: bool)
      requires i < sta.Length && 0 <= sta[i].aid < |tim|
      modifies this`tim
      ensures tim == old(tim)[sta[i].aid := Indicate(sta[i])]
      ensures changed <==> tim != old(tim)
    {
      hide At;
      hide Has;
      var s := sta[i];
      var ignore := IgnoredForPoll(s);
      var indicate := false;
      var ac := 0;
      while ac < NUM_ACS && !indicate
        invariant 0 <= ac <= NUM_ACS
        invariant indicate ==> exists a :: 0 <= a < NUM_ACS && !Has(ignore, a) && At(s.queues, a) != []
        invariant !indicate ==> forall a :: 0 <= a < ac ==> Has(ignore, a) || At(s.queues, a) == []
        decreases NUM_ACS - ac, !indicate
      {
        if !Has(ignore, ac) && At(s.queues, ac) != [] { indicate := true; }
        ac := ac + 1;
      }
      indicate := indicate || s.fwQLen > 0;
      if indicate == tim[s.aid] {
        assert tim[s.aid := indicate] == tim;
        return false;
      }
      tim := tim[s.aid := indicate];
      assert tim[s.aid] != old(tim)[s.aid];
      return true;
    }

    /** `ieee80211_sta_ps_deliver_response`. */
    method DeliverResponse(i: nat, n: nat, ignored: AcSet, reason: Reason)
      requires Valid() && i < sta.Length
      modifies sta, this`num, this`sent, this`tim
      ensures Valid()
      ensures sta[..] == old(sta[..])[i := Responded(old(sta[i]), n, ignored, reason)]
      ensures sent == old(sent) + Response(old(sta[i]), n, ignored, reason)
      ensures tim == old(tim)[sta[i].aid := Indicate(sta[i])]
    {
      hide Sound;
      hide Conserved;
      hide Fit;
      hide Indicate;
      hide FramesOf;
      hide Taken;
      hide Responded;
      hide Response;
      AidInTim(i);
      ghost var ss := sta[..];
      var s, out, taken := Respond(sta[i], n, ignored, reason);
      ResponseStep(ss, num, num.(buffered := num.buffered - taken), staAid, poolSize, i, n, ignored, reason);
      ResponseConserves(ss, accepted, sent, dropped, i, n, ignored, reason);
      num := num.(buffered := num.buffered - taken);
      sent := sent + out;
      sta[i] := s;
      assert sta[..] == ss[i := s];
      assert 0 <= s.aid < |tim| by { SameAid(old(sta[i]), n, ignored, reason); }
      var changed := RecalcTim(i);
    }

    /** `sta_ps_deliver_poll_response`. */
    method PollResponse(i: nat)
      requires Valid() && i < sta.Length
      modifies sta, this`num, this`sent, this`tim
      ensures Valid()
      ensures var s := old(sta[i]);
        && sta[..] == old(sta[..])[i := Responded(s, 1, IgnoredForPoll(s), PsPoll)]
        && sent == old(sent) + Response(s, 1, IgnoredForPoll(s), PsPoll)
        && tim == old(tim)[sta[i].aid := Indicate(sta[i])]
    {
      hide Valid;
      hide Responded;
      hide Response;
      DeliverResponse(i, 1, IgnoredForPoll(sta[i]), PsPoll);
    }

    /** `sta_ps_deliver_uapsd`. */
    method DeliverUapsd(i: nat)
      requires Valid() && i < sta.Length
      modifies sta, this`num, this`sent, this`tim
      ensures Valid()
      ensures old(sta[i].uapsd) == NO_ACS ==> sta[..] == old(sta[..]) && sent == old(sent) && tim == old(tim)
      ensures old(sta[i].uapsd) != NO_ACS ==> var s := old(sta[i]);
        && sta[..] == old(sta[..])[i := Responded(s, ServiceLength(s.maxSp), Complement(s.uapsd), Uapsd)]
        && sent == old(sent) + Response(s, ServiceLength(s.maxSp), Complement(s.uapsd), Uapsd)
        && tim == old(tim)[sta[i].aid := Indicate(sta[i])]
    {
      hide Valid;
      hide Responded;
      hide Response;
      if sta[i].uapsd == NO_ACS { return; }
      DeliverResponse(i, ServiceLength(sta[i].maxSp), Complement(sta[i].uapsd), Uapsd);
    }

    /** `purge_old_ps_buffers`. */
    method PurgeOld()
      requires Valid()
      modifies sta, this`num, this`dropped
      ensures Valid()
      ensures sta[..] == PurgeTable(old(sta[..]))
      ensures dropped == old(dropped) + Victims(old(sta[..]))
      ensures num == old(num).(buffered := old(num.buffered) - |Victims(old(sta[..]))|)
      ensures old(num.buffered) > 0 ==> num.buffered < old(num.buffered)
    {
      hide Sound;
      hide Conserved;
      hide PurgeRecord;
      hide FramesOf;
      hide Victims;
      ghost var ss := sta[..];
      PurgeSound(ss, num, staAid, poolSize);
      PurgeConserves(ss, accepted, FramesOf(sent), dropped);
      PurgeEach();
    }

    /** The loop of `purge_old_ps_buffers`. */
    method PurgeEach()
      modifies sta, this`num, this`dropped
      ensures sta[..] == PurgeTable(old(sta[..]))
      ensures dropped == old(dropped) + Victims(old(sta[..]))
      ensures num == old(num).(buffered := old(num.buffered) - |Victims(old(sta[..]))|)
    {
      hide PurgeRecord;
      hide Victim;
      ghost var ss := sta[..];
      var i := 0;
      while i < sta.Length
        invariant 0 <= i <= sta.Length == |ss|
        invariant forall k :: 0 <= k < i ==> sta[k] == PurgeRecord(ss[k])
        invariant forall k :: i <= k < sta.Length ==> sta[k] == ss[k]
        invariant dropped == old(dropped) + Victims(ss[..i])
        invariant num == old(num).(buffered := old(num.buffered) - |Victims(ss[..i])|)
      {
        assert ss[..i + 1][..i] == ss[..i];
        var s, victim := PurgeOne(sta[i]);
        sta[i] := s;
        num := num.(buffered := num.buffered - |victim|);
        dropped := dropped + victim;
        i := i + 1;
      }
      assert ss[..i] == ss;
      assert sta[..] == PurgeTable(ss);
    }

    /** `tx_h_unicast_ps_buf`: a frame for a dozing station is buffered, after a purge if the pool is used
        up; if that changes the station's traffic indication, one frame is sent as for a poll. */
    method BufferUnicast(i: nat, up: int, frame: Frame, native: bool, now: int) returns (queued: bool)
      requires Valid() && i < sta.Length
      modifies sta, this`num, this`sent, this`dropped, this`tim, this`accepted
      ensures Valid()
      ensures queued <==> old(sta[i].ps) && !native
      ensures !queued ==> sta[..] == old(sta[..]) && num == old(num) && sent == old(sent) && dropped == old(dropped)
                          && tim == old(tim) && accepted == old(accepted)
      ensures queued ==>
        var f := frame.(queuedAt := now);
        var ss := if old(num.buffered) >= poolSize then PurgeTable(old(sta[..])) else old(sta[..]);
        var s := Queued(ss[i], UpToAc(up), f);
        var poll := !timAllOne && Indicate(s) != old(tim)[s.aid];
        && accepted == old(accepted) + [Tag(i, UpToAc(up), f)]
        && dropped == old(dropped) + (if old(num.buffered) >= poolSize then Victims(old(sta[..])) else [])
                      + EnqueueVictim(ss[i].queues, UpToAc(up))
        && sta[..] == ss[i := if poll then Responded(s, 1, IgnoredForPoll(s), PsPoll) else s]
        && sent == old(sent) + if poll then Response(s, 1, IgnoredForPoll(s), PsPoll) else []
    {
      hide Conserved;
      hide Sound;
      hide Fit;
      hide Responded;
      hide Response;
      hide PurgeRecord;
      hide Victims;
      hide EnqueueVictim;
      hide Queued;
      hide Indicate;
      hide FramesOf;
      var ac := UpToAc(up);
      AidInTim(i);
      FitQueued(sta[i], ac);
      queued := (sta[i].ps || At(sta[i].queues, ac) != []) && !native;
      if !queued { return; }
      ghost var ss := sta[..];
      BufferBound(ss, num, staAid, poolSize);
      if num.buffered >= poolSize {
        PurgeOld();
        PurgedKeepsMode(ss[i]);
        ss := PurgeTable(ss);
      }
      assert sta[..] == ss && sta[i] == ss[i];
      var f := frame.(queuedAt := now);
      EnqueueFrame(i, ac, f);
      if !timAllOne {
        AidInTim(i);
        var changed := RecalcTim(i);
        if changed { PollResponse(i); }
      }
    }

    /** The queueing itself. */
    method EnqueueFrame(i: nat, ac: int, f: Frame)
      requires Valid() && i < sta.Length && 0 <= ac < NUM_ACS && sta[i].ps
      requires num.buffered < Max(poolSize, 1)
      modifies sta, this`num, this`dropped, this`accepted
      ensures Valid()
      ensures sta[..] == old(sta[..])[i := Queued(old(sta[i]), ac, f)]
      ensures Appended(old(sta[i].queues), sta[i].queues, ac, f)
      ensures accepted == old(accepted) + [Tag(i, ac, f)] && dropped == old(dropped) + EnqueueVictim(old(sta[i].queues), ac)
    {
      hide Conserved;
      hide Sound;
      hide FramesOf;
      hide Fit;
      hide Appended;
      ghost var ss := sta[..];
      EnqueueStep(ss, num, staAid, poolSize, i, ac, f);
      EnqueueConserves(ss, accepted, FramesOf(sent), dropped, i, ac, f);
      EnqueueAppends(sta[i].queues, ac, f);
      var q := sta[i].queues;
      if |At(q, ac)| >= STA_MAX_TX_BUFFER {
        dropped := dropped + [At(q, ac)[0]];
        q := Put(q, ac, At(q, ac)[1..]);
      } else {
        num := num.(buffered := num.buffered + 1);
        dropped := dropped + [];
      }
      accepted := accepted + [Tag(i, ac, f)];
      q := PutTail(q, ac, f);
      sta[i] := sta[i].(queues := q,
                        fwQLen := if sta[i].fwQLen == UNKNOWN_FW_QUEUE_LENGTH then 1 else sta[i].fwQLen + 1);
      assert sta[..] == ss[i := sta[i]];
    }

    /** `purge_sta_ps_buffers`. */
    method PurgeSta(s: Station) returns (frames: seq<Frame>)
      ensures frames == Backwards(s.queues)
    {
      frames := [];
      var ac := NUM_ACS - 1;
      while ac >= 0
        invariant -1 <= ac < NUM_ACS
        invariant frames == Backwards(Cleared(s.queues, ac))
      {
        var got, rest := Drain(At(s.queues, ac), |At(s.queues, ac)|);
        frames := frames + got;
        ac := ac - 1;
      }
    }

    /** The draining of `sta_ps_deliver_wakeup`. */
    method DrainAll(s: Station) returns (frames: seq<Frame>)
      ensures frames == AllFrames(s.queues)
    {
      frames := [];
      var ac := 0;
      while ac < NUM_ACS
        invariant 0 <= ac <= NUM_ACS
        invariant frames == AllFrames(Upto(s.queues, ac))
      {
        var got, rest := Drain(At(s.queues, ac), |At(s.queues, ac)|);
        frames := frames + got;
        ac := ac + 1;
      }
    }

    /** `ap_sta_ps_end` with `sta_ps_deliver_wakeup`: everything buffered is sent, most urgent category first. */
    method DeliverWakeup(i: nat)
      requires Valid() && i < sta.Length && sta[i].ps
      modifies sta, this`num, this`sent, this`tim
      ensures Valid()
      ensures sta[..] == old(sta[..])[i := Woken(old(sta[i]))]
      ensures sent == old(sent) + Unmarked(AllFrames(old(sta[i].queues)))
      ensures !Indicate(sta[i]) && tim == old(tim)[sta[i].aid := false]
    {
      hide Sound;
      hide Conserved;
      hide FramesOf;
      hide Fit;
      hide AllFrames;
      AidInTim(i);
      ghost var ss := sta[..];
      WakeStep(ss, num, staAid, poolSize, i);
      WakeConserves(ss, accepted, sent, dropped, i);
      var frames := DrainAll(sta[i]);
      sent := sent + Unmarked(frames);
      num := num.(ps := num.ps - 1, buffered := num.buffered - |frames|);
      sta[i] := sta[i].(queues := EMPTY, sp := false, ps := false, fwQLen := UNKNOWN_FW_QUEUE_LENGTH);
      assert sta[..] == ss[i := sta[i]];
      NothingIndicated(sta[i]);
      var changed := RecalcTim(i);
    }

    /** `rx_h_sta_process`: a data frame without the power-management bit wakes a dozing station, any frame
        with it puts an awake one to doze. */
    method StaProcess(i: nat, data: bool, pm: bool)
      requires Valid() && i < sta.Length && sta[i].assoc
      modifies sta, this`num, this`sent, this`tim
      ensures Valid()
      ensures sta[..] == old(sta[..])[i := Processed(old(sta[i]), data, pm)]
      ensures sent == old(sent) + if old(sta[i].ps) && data && !pm then Unmarked(AllFrames(old(sta[i].queues))) else []
      ensures tim == if old(sta[i].ps) != pm && (pm ==> sta[i].fwQLen > 0) && (!pm ==> data)
                     then old(tim)[sta[i].aid := Indicate(sta[i])] else old(tim)
    {
      hide Sound;
      hide Conserved;
      hide FramesOf;
      hide AllFrames;
      ghost var ss := sta[..];
      assert ss[i := ss[i]] == ss;
      if sta[i].ps {
        if data && !pm {
          SomeoneDozes(ss, num, staAid, poolSize, i);
          if num.ps == 0 { return; }
          DeliverWakeup(i);
        }
      } else if pm {
        DozeStep(ss, num, staAid, poolSize, i);
        ConservedSame(ss, accepted, FramesOf(sent), dropped, i, ss[i].(ps := true));
        num := num.(ps := num.ps + 1);
        sta[i] := sta[i].(ps := true);
        assert sta[..] == ss[i := sta[i]];
        if sta[i].fwQLen > 0 {
          AidInTim(i);
          var changed := RecalcTim(i);
        }
      }
    }

    /** `rx_h_uapsd_and_pspoll`: a poll is answered with one frame, a trigger in a category the station
        triggers starts a service period. */
    method RxUapsdAndPsPoll(i: nat, poll: bool, pm: bool, up: int) returns (consumed: bool)
      requires Valid() && i < sta.Length
      modifies sta, this`num, this`sent, this`tim
      ensures Valid()
      ensures consumed <==> old(sta[i].ps) && poll
      ensures sta[..] == old(sta[..])[i := Answered(old(sta[i]), poll, pm, up)]
      ensures sent == old(sent) + Answer(old(sta[i]), poll, pm, up)
      ensures tim == if Asks(old(sta[i]), poll, pm, up) then old(tim)[sta[i].aid := Indicate(sta[i])] else old(tim)
    {
      hide Valid;
      hide Responded;
      hide Response;
      assert sta[..] == sta[..][i := sta[i]];
      if !sta[i].ps { return false; }
      if poll {
        PollResponse(i);
        return true;
      } else if pm {
        var ac := UpToAc(up % 8);
        if !Has(sta[i].uapsd, ac) { return false; }
        if sta[i].sp { return false; }
        DeliverUapsd(i);
      }
      return false;
    }

    /** `ssv6xxx_data_need_to_be_received`: what a frame from an associated station does to its power state;
        whether the frame goes up. */
    method NeedToBeReceived(i: nat, kind: Kind, pm: bool, up: int) returns (pass: bool)
      requires Valid() && i < sta.Length
      modifies sta, this`num, this`sent, this`tim
      ensures Valid()
      ensures sta[..] == old(sta[..])[i := Received(old(sta[i]), kind, pm, up)]
      ensures sent == old(sent) + Emitted(old(sta[i]), kind, pm, up)
      ensures tim == if Refreshes(old(sta[i]), kind, pm, up) then old(tim)[sta[i].aid := Indicate(sta[i])] else old(tim)
      ensures pass <==> old(sta[i].assoc) && kind == DataFrame
    {
      hide Valid;
      hide Responded;
      hide Answered;
      hide Processed;
      hide Answer;
      hide Indicate;
      hide Woken;
      hide Unmarked;
      hide AllFrames;
      ghost var ss := sta[..];
      assert ss == ss[i := ss[i]];
      if !sta[i].assoc { return false; }
      AnsweredKeeps(ss[i], kind == PollFrame, pm, up);
      AnswersOnly(ss[i], kind == PollFrame, pm, up);
      var consumed := RxUapsdAndPsPoll(i, kind == PollFrame, pm, up);
      if consumed { return false; }
      assert sta[i] == Answered(ss[i], kind == PollFrame, pm, up);
      StaProcess(i, kind != PollFrame, pm);
      return kind == DataFrame;
    }

    /** `sta_info_cleanup_expire_buffered_ac`. */
    method ExpireAc(i: nat, ac: int, now: int) returns (have: bool)
      requires Valid() && i < sta.Length && 0 <= ac < NUM_ACS
      modifies sta, this`num, this`dropped, this`tim
      ensures Valid()
      ensures sta[..] == old(sta[..])[i := ExpireOne(old(sta[i]), bcnInterval, now, ac)]
      ensures var s := old(sta[i]);
        dropped == old(dropped) + At(s.queues, ac)[..Stale(At(s.queues, ac), s.listenInterval, bcnInterval, now)]
      ensures tim == old(tim)[sta[i].aid := Indicate(sta[i])]
      ensures have <==> At(sta[i].queues, ac) != []
    {
      hide Sound;
      hide Conserved;
      hide FramesOf;
      hide Fit;
      hide At;
      hide Put;
      hide Indicate;
      AidInTim(i);
      ghost var ss := sta[..];
      var s := sta[i];
      var gone, queue := DropStale(At(s.queues, ac), s.listenInterval, bcnInterval, now);
      ExpireStep(ss, num, staAid, poolSize, i, ac, |gone|);
      ExpireConserves(ss, accepted, FramesOf(sent), dropped, i, ac, |gone|);
      num := num.(buffered := num.buffered - |gone|);
      dropped := dropped + gone;
      sta[i] := s.(queues := Put(s.queues, ac, queue));
      assert sta[..] == ss[i := sta[i]];
      var changed := RecalcTim(i);
      have := queue != [];
    }

    /** `sta_info_cleanup_expire_buffered`. */
    method ExpireStation(i: nat, now: int) returns (have: bool)
      requires Valid() && i < sta.Length
      modifies sta, this`num, this`dropped, this`tim
      ensures Valid()
      ensures sta[..] == old(sta[..])[i := Expire(old(sta[i]), bcnInterval, now)]
      ensures dropped == old(dropped) + StaleOf(old(sta[i]), bcnInterval, now, NUM_ACS)
      ensures tim == old(tim)[sta[i].aid := Indicate(sta[i])]
      ensures have <==> Size(sta[i].queues) > 0
    {
      hide Valid;
      hide Remains;
      hide At;
      hide Size;
      hide Indicate;
      hide Stale;
      hide ExpireOne;
      hide ExpireFirst;
      hide Expire;
      hide Fit;
      ghost var ss := sta[..];
      have := false;
      AidInTim(i);
      TrimStart(ss[i], bcnInterval, now);
      assert ss == ss[i := ss[i]];
      var ac := 0;
      while ac < NUM_ACS
        invariant 0 <= ac <= NUM_ACS && Valid()
        invariant sta[..] == ss[i := ExpireFirst(ss[i], bcnInterval, now, ac)]
        invariant have <==> Remains(ss[i], bcnInterval, now, ac)
        invariant dropped == old(dropped) + StaleOf(ss[i], bcnInterval, now, ac)
        invariant |tim| == |old(tim)| && 0 <= ss[i].aid < |tim|
        invariant tim == if ac == 0 then old(tim) else old(tim)[ss[i].aid := Indicate(sta[i])]
      {
        TrimStep(ss[i], bcnInterval, now, ac);
        TrimKeeps(ss[i], bcnInterval, now, ac);
        TrimKeeps(ss[i], bcnInterval, now, ac + 1);
        assert sta[i] == ExpireFirst(ss[i], bcnInterval, now, ac);
        var more := ExpireAc(i, ac, now);
        assert sta[i] == ExpireFirst(ss[i], bcnInterval, now, ac + 1);
        have := have || more;
        ac := ac + 1;
      }
      assert sta[i] == ExpireFirst(ss[i], bcnInterval, now, ac);
      TrimKeeps(ss[i], bcnInterval, now, ac);
    }

    /** `sta_info_cleanup`: the timer is wanted again exactly while something is buffered. */
    method Cleanup(now: int) returns (timerNeeded: bool)
      requires Valid()
      modifies sta, this`num, this`dropped, this`tim
      ensures Valid()
      ensures sta[..] == ExpireAll(old(sta[..]), bcnInterval, now)
      ensures dropped == old(dropped) + StaleAll(old(sta[..]), bcnInterval, now, sta.Length)
      ensures tim == Refreshed(old(tim), sta[..], sta.Length)
      ensures timerNeeded <==> num.buffered > 0
    {
      hide Valid;
      hide Expire;
      hide Size;
      hide Total;
      hide Fit;
      hide Indicate;
      hide StaleOf;
      hide StaleAll;
      hide Refreshed;
      ghost var ss := sta[..];
      ghost var after := ExpireAll(ss, bcnInterval, now);
      timerNeeded := false;
      CleanupStart(tim, ss, after, bcnInterval, now);
      var i := 0;
      while i < sta.Length
        invariant 0 <= i <= sta.Length == |ss| && Valid()
        invariant forall k :: 0 <= k < i ==> sta[k] == after[k]
        invariant forall k :: i <= k < sta.Length ==> sta[k] == ss[k]
        invariant dropped == old(dropped) + StaleAll(ss, bcnInterval, now, i)
        invariant tim == Refreshed(old(tim), after, i)
        invariant timerNeeded <==> exists k :: 0 <= k < i && Size(sta[k].queues) > 0
      {
        AidInTim(i);
        ExpireKeeps(ss[i], bcnInterval, now);
        CleanupStep(old(tim), ss, after, bcnInterval, now, i);
        if !sta[i].valid {
          UnusedExpires(sta[i], bcnInterval, now);
        } else {
          var have := ExpireStation(i, now);
          timerNeeded := timerNeeded || have;
        }
        i := i + 1;
      }
      assert sta[..] == after;
      BufferedIn();
    }

    lemma BufferedIn()
      requires Valid()
      ensures num.buffered > 0 <==> exists i :: 0 <= i < sta.Length && Size(sta[i].queues) > 0
    {
      hide Total;
      hide Size;
      hide Conserved;
      hide AidsOk;
      hide TableOk;
      SomeBuffered(sta[..]);
      assert forall i :: 0 <= i < sta.Length ==> sta[..][i] == sta[i];
    }

    /** A report of how many frames the device holds for a station. */
    method ReportQueue(i: nat, len: int)
      requires Valid() && i < sta.Length
      modifies sta, this`tim
      ensures Valid()
      ensures sta[..] == old(sta[..])[i := old(sta[i]).(fwQLen := len)]
      ensures tim == if len > 0 then old(tim)[sta[i].aid := Indicate(sta[i])] else old(tim)
    {
      hide Sound;
      hide Conserved;
      hide FramesOf;
      hide Indicate;
      ghost var ss := sta[..];
      AidInTim(i);
      FitFw(ss[i], len);
      hide Fit;
      hide Share;
      FlagStep(ss, num, staAid, poolSize, i, ss[i].(fwQLen := len), num);
      ConservedSame(ss, accepted, FramesOf(sent), dropped, i, ss[i].(fwQLen := len));
      sta[i] := sta[i].(fwQLen := len);
      assert sta[..] == ss[i := sta[i]];
      if len > 0 { var changed := RecalcTim(i); }
    }

    /** A changed record and the counters that go with it. */
    method Store(i: nat, s: Station, n: Tally)
      requires i < sta.Length && |tim| > sta.Length
      requires protection.Valid() && protection.ht == n.ht
      requires Sound(sta[..][i := s], n, staAid, poolSize)
      requires Conserved(sta[..][i := s], accepted, FramesOf(sent), dropped)
      modifies sta, this`num
      ensures Valid() && sta[..] == old(sta[..])[i := s] && num == n
    {
      hide Sound;
      hide Conserved;
      hide FramesOf;
      ghost var ss := sta[..];
      sta[i] := s;
      num := n;
      assert sta[..] == ss[i := s];
    }

    // ---- Coming and going ----

    /** `ap_sta_set_authorized`. */
    method SetAuthorized(i: nat, on: bool)
      requires Valid() && i < sta.Length && sta[i].valid
      modifies sta, this`num
      ensures Valid()
      ensures sta[..] == old(sta[..])[i := old(sta[i]).(authorized := on)]
    {
      hide Sound;
      hide Conserved;
      hide FramesOf;
      hide Fit;
      hide Share;
      hide Plus;
      hide Minus;
      hide One;
      ghost var ss := sta[..];
      assert ss[i := ss[i]] == ss;
      if on == sta[i].authorized { return; }
      AidInTim(i);
      FitFlag(num, ss[i], on);
      ConservedSame(ss, accepted, FramesOf(sent), dropped, i, ss[i].(authorized := on));
      FlagStep(ss, num, staAid, poolSize, i, ss[i].(authorized := on),
               num.(authorized := if on then num.authorized + 1 else num.authorized - 1));
      Store(i, sta[i].(authorized := on), num.(authorized := if on then num.authorized + 1 else num.authorized - 1));
    }

    /** `APStaInfo_DrvRemove`: nothing stays buffered for the station, nor indicated to it. */
    method DrvRemove(i: nat)
      requires Valid() && i < sta.Length
      modifies sta, this`num, this`dropped, this`tim
      ensures Valid()
      ensures sta[..] == old(sta[..])[i := DrvRemoved(old(sta[i]))]
      ensures dropped == old(dropped) + if old(sta[i].ps) then Backwards(old(sta[i].queues)) else []
      ensures tim == if old(sta[i].ps) then old(tim)[sta[i].aid := false] else old(tim)
    {
      hide Sound;
      hide Conserved;
      hide FramesOf;
      hide Backwards;
      hide Fit;
      ghost var ss := sta[..];
      assert ss[i := ss[i]] == ss;
      if !sta[i].ps { return; }
      AidInTim(i);
      WakeStep(ss, num, staAid, poolSize, i);
      RemoveConserves(ss, accepted, FramesOf(sent), dropped, i);
      num := num.(ps := num.ps - 1);
      var frames := PurgeSta(sta[i]);
      num := num.(buffered := num.buffered - |frames|);
      dropped := dropped + frames;
      sta[i] := sta[i].(ps := false, queues := EMPTY, fwQLen := UNKNOWN_FW_QUEUE_LENGTH);
      assert sta[..] == ss[i := sta[i]];
      NothingIndicated(sta[i]);
      var changed := RecalcTim(i);
    }

    /** `APStaInfo_free`: the record is reset, its identifier is free again and every counter forgets it. */
    method Free(i: nat)
      requires Valid() && i < sta.Length
      modifies sta, this`num, this`staAid, this`dropped, this`tim, protection`ht, protection`htOpMode
      ensures Valid()
      ensures !old(sta[i].valid) ==> sta[..] == old(sta[..]) && tim == old(tim) && dropped == old(dropped)
      ensures old(sta[i].valid) ==> sta[..] == old(sta[..])[i := BLANK]
      ensures dropped == old(dropped) + if old(sta[i].ps) then Backwards(old(sta[i].queues)) else []
      ensures old(sta[i].ps) ==> tim == old(tim)[old(sta[i].aid) := false]
    {
      hide Sound;
      hide Conserved;
      hide FramesOf;
      hide Backwards;
      hide Fit;
      hide Share;
      ghost var ss := sta[..];
      AidInTim(i);
      if !sta[i].valid {
        NotDozing(sta[i]);
        return;
      }
      SetAuthorized(i, false);
      DrvRemove(i);
      assert sta[..] == ss[i := sta[i]];
      Reset(i);
      assert sta[..] == ss[i := BLANK];
    }

    /** The rest of `APStaInfo_free`, for a station neither authorised nor dozing any more. */
    method Reset(i: nat)
      requires Valid() && i < sta.Length && sta[i].valid && !sta[i].authorized && !sta[i].ps
      modifies sta, this`num, this`staAid, protection`ht, protection`htOpMode
      ensures Valid() && sta[..] == old(sta[..])[i := BLANK]
    {
      hide Sound;
      hide Conserved;
      hide FramesOf;
      hide Fit;
      hide Forget;
      ghost var ss := sta[..];
      var s := sta[i];
      AidInTim(i);
      FreeStep(ss, num, staAid, poolSize, i);
      FreeConserves(ss, accepted, FramesOf(sent), dropped, i);
      if s.aid > 0 { staAid := staAid[s.aid - 1 := false]; }
      num := Forget(num, s, sta.Length);
      sta[i] := BLANK;
      assert sta[..] == ss[i := BLANK];
      protection.SetHtCounts(num.ht);
    }

    /** `change_sta_disassoc_to_deauth`. The association is given up last here, which nothing observes. */
    method DisassocToDeauth(i: nat)
      requires Valid() && i < sta.Length && sta[i].valid
      modifies sta, this`num, this`dropped, this`tim
      ensures Valid()
      ensures sta[..] == old(sta[..])[i := DrvRemoved(old(sta[i]).(authorized := false)).(assoc := false)]
      ensures dropped == old(dropped) + if old(sta[i].ps) then Backwards(old(sta[i].queues)) else []
    {
      hide Sound;
      hide Conserved;
      hide FramesOf;
      hide Backwards;
      hide Fit;
      hide Share;
      ghost var ss := sta[..];
      SetAuthorized(i, false);
      DrvRemove(i);
      ghost var s := sta[i];
      assert sta[..] == ss[i := s];
      AidInTim(i);
      FitUnassociated(s);
      FlagStep(sta[..], num, staAid, poolSize, i, s.(assoc := false), num);
      ConservedSame(sta[..], accepted, FramesOf(sent), dropped, i, s.(assoc := false));
      Store(i, sta[i].(assoc := false), num);
      assert sta[..] == ss[i := s.(assoc := false)];
    }

    /** `APStaInfo_FindStaByAddr`. */
    method FindStaByAddr(addr: int) returns (i: int)
      ensures -1 <= i < sta.Length
      ensures i >= 0 ==> sta[i].valid && sta[i].addr == addr
      ensures i == -1 ==> forall k :: 0 <= k < sta.Length && sta[k].valid ==> sta[k].addr != addr
    {
      i := 0;
      while i < sta.Length
        invariant 0 <= i <= sta.Length
        invariant forall k :: 0 <= k < i && sta[k].valid ==> sta[k].addr != addr
      {
        if sta[i].valid && sta[i].addr == addr { return; }
        i := i + 1;
      }
      i := -1;
    }

    /** Removing a silent station, from `APStaInfo_add`. */
    method Evict(i: nat)
      requires Valid() && i < sta.Length && sta[i].valid
      modifies sta, this`num, this`staAid, this`dropped, this`tim, protection`ht, protection`htOpMode
      ensures Valid() && sta[..] == old(sta[..])[i := BLANK]
    {
      hide Valid;
      hide DrvRemoved;
      hide Backwards;
      ghost var ss := sta[..];
      StaysValid(sta[i]);
      DisassocToDeauth(i);
      Free(i);
      assert sta[..] == ss[i := BLANK];
    }

    /** The search of `APStaInfo_add` for the station that has been silent longest. */
    method MostSilent() returns (v: nat)
      ensures v <= sta.Length
      ensures v < sta.Length ==>
        && sta[v].arpRetryCount > STA_TIMEOUT_RETRY_COUNT
        && forall k :: 0 <= k < sta.Length ==> sta[k].arpRetryCount <= sta[v].arpRetryCount
      ensures v == sta.Length ==> forall k :: 0 <= k < sta.Length ==> sta[k].arpRetryCount <= STA_TIMEOUT_RETRY_COUNT
    {
      v := sta.Length;
      var max := 0;
      var k := 0;
      while k < sta.Length
        invariant 0 <= k <= sta.Length && (v < k || v == sta.Length)
        invariant v < k ==>
          && max == sta[v].arpRetryCount > STA_TIMEOUT_RETRY_COUNT
          && forall j :: 0 <= j < k ==> sta[j].arpRetryCount <= max
        invariant v == sta.Length ==> max == 0 && forall j :: 0 <= j < k ==> sta[j].arpRetryCount <= STA_TIMEOUT_RETRY_COUNT
      {
        if sta[k].arpRetryCount > max && sta[k].arpRetryCount > STA_TIMEOUT_RETRY_COUNT {
          v, max := k, sta[k].arpRetryCount;
        }
        k := k + 1;
      }
    }

    /** `APStaInfo_GetNewSta`, with the address and the count that `APStaInfo_add` fills in. */
    method GetNewSta(addr: int) returns (r: int)
      requires Valid()
      requires forall k :: 0 <= k < sta.Length && sta[k].valid ==> sta[k].addr != addr
      modifies sta, this`num
      ensures Valid() && -1 <= r < sta.Length
      ensures r == -1 ==> sta[..] == old(sta[..]) && forall k :: 0 <= k < sta.Length ==> sta[k].valid
      ensures r >= 0 ==>
        && !old(sta[r].valid) && (forall k :: 0 <= k < r ==> old(sta[k].valid))
        && sta[..] == old(sta[..])[r := old(sta[r]).(valid := true, addr := addr)]
    {
      hide Sound;
      hide Conserved;
      hide FramesOf;
      hide Fit;
      hide Share;
      ghost var ss := sta[..];
      r := 0;
      while r < sta.Length
        invariant 0 <= r <= sta.Length
        invariant forall k :: 0 <= k < r ==> sta[k].valid
      {
        if !sta[r].valid {
          NewStep(ss, num, staAid, poolSize, r, addr);
          ConservedSame(ss, accepted, FramesOf(sent), dropped, r, ss[r].(valid := true, addr := addr));
          Store(r, sta[r].(valid := true, addr := addr), num.(sta := num.sta + 1));
          return;
        }
        r := r + 1;
      }
      r := -1;
    }

    /** `APStaInfo_add`: a known station is found again; a new one gets a record, a silent station losing
        its own if need be. It fails exactly when every record belongs to another station that still
        answers. */
    method Add(addr: int) returns (r: int)
      requires Valid()
      modifies sta, this`num, this`staAid, this`dropped, this`tim, protection`ht, protection`htOpMode
      ensures Valid() && -1 <= r < sta.Length
      ensures r >= 0 ==> sta[r].valid && sta[r].addr == addr
      ensures (exists k :: 0 <= k < sta.Length && old(sta[k].valid) && old(sta[k].addr) == addr) ==> r >= 0 && sta[..] == old(sta[..])
      ensures r == -1 <==> forall k :: 0 <= k < sta.Length ==>
        old(sta[k].valid) && old(sta[k].addr) != addr && old(sta[k].arpRetryCount) <= STA_TIMEOUT_RETRY_COUNT
      ensures forall k :: 0 <= k < sta.Length && k != r ==>
        || sta[k] == old(sta[k])
        || (sta[k] == BLANK && old(sta[k].arpRetryCount) > STA_TIMEOUT_RETRY_COUNT)
      ensures r >= 0 ==>
        || sta[..] == old(sta[..])
        || (!sta[r].auth && !sta[r].assoc && sta[r].aid == 0 && sta[r].challenge == None)
    {
      hide Valid;
      hide Fit;
      ghost var ss := sta[..];
      r := FindStaByAddr(addr);
      if r >= 0 { return; }
      SilentIsUsed();
      ghost var evicted := sta.Length;
      if sta[0].arpRetryCount > STA_TIMEOUT_RETRY_COUNT {
        Evict(0);
        evicted := 0;
      }
      SilentIsUsed();
      FullIsUsed();
      if num.sta >= sta.Length {
        var v := MostSilent();
        if v < sta.Length {
          Evict(v);
          evicted := v;
        }
      }
      assert evicted < sta.Length ==>
        ss[evicted].arpRetryCount > STA_TIMEOUT_RETRY_COUNT && sta[evicted] == BLANK && sta[..] == ss[evicted := BLANK];
      assert evicted == sta.Length ==> sta[..] == ss;
      FullIsUsed();
      SilentIsUsed();
      r := GetNewSta(addr);
      if r == -1 {
        assert evicted == sta.Length;
      } else if evicted < sta.Length {
        assert !(old(sta[evicted].valid) && old(sta[evicted].arpRetryCount) <= STA_TIMEOUT_RETRY_COUNT);
      } else {
        assert !old(sta[r].valid);
      }
    }

    lemma SilentIsUsed()
      requires Valid()
      ensures sta.Length >= 1 && forall k :: 0 <= k < sta.Length && sta[k].arpRetryCount > 0 ==> sta[k].valid
      ensures forall k :: 0 <= k < sta.Length && !sta[k].valid ==>
        !sta[k].auth && !sta[k].assoc && sta[k].aid == 0 && sta[k].challenge == None
    {
      hide Conserved;
      hide AidsOk;
      hide Total;
      hide Size;
      hide Bounded;
      assert forall k :: 0 <= k < sta.Length ==> sta[..][k] == sta[k];
    }

    lemma FullIsUsed()
      requires Valid()
      ensures num.sta >= sta.Length <==> forall k :: 0 <= k < sta.Length ==> sta[k].valid
    {
      hide Conserved;
      hide AidsOk;
      hide Total;
      hide TableOk;
      TotalFull(sta[..]);
      assert forall k :: 0 <= k < sta.Length ==> sta[..][k] == sta[k];
    }

    /** `hostapd_get_aid`: a station keeps its identifier; a new one gets the lowest that is free, which is
        never above the table size, so the bitmap never runs out. */
    method GetAid(i: nat) returns (ok: bool)
      requires Valid() && i < sta.Length && sta[i].valid
      modifies sta, this`num, this`staAid
      ensures Valid() && ok && num == old(num)
      ensures 1 <= sta[i].aid <= sta.Length
      ensures old(sta[i].aid) > 0 ==> sta[..] == old(sta[..]) && staAid == old(staAid)
      ensures old(sta[i].aid) == 0 ==>
        && sta[..] == old(sta[..])[i := old(sta[i]).(aid := sta[i].aid)]
        && staAid == old(staAid)[sta[i].aid - 1 := true]
        && !HasAid(old(sta[..]), sta[i].aid)
        && (forall a :: 1 <= a < sta[i].aid ==> HasAid(old(sta[..]), a))
    {
      hide Sound;
      hide Conserved;
      hide FramesOf;
      hide Fit;
      hide HasAid;
      ghost var ss := sta[..];
      AidInTim(i);
      AidBits(ss, num, staAid, poolSize, i);
      if sta[i].aid > 0 { return true; }
      var j := FirstClear(staAid);
      AidStep(ss, num, staAid, poolSize, i, j);
      if j == AID_BITS { assert false; }
      AssignAid(i, j);
      return true;
    }

    method AssignAid(i: nat, j: nat)
      requires Valid() && i < sta.Length && j < |staAid|
      requires Sound(sta[..][i := sta[i].(aid := j + 1)], num, staAid[j := true], poolSize)
      modifies sta, this`num, this`staAid
      ensures Valid() && num == old(num)
      ensures sta[..] == old(sta[..])[i := old(sta[i]).(aid := j + 1)]
      ensures staAid == old(staAid)[j := true]
    {
      hide Sound;
      hide Conserved;
      hide FramesOf;
      ConservedSame(sta[..], accepted, FramesOf(sent), dropped, i, sta[i].(aid := j + 1));
      staAid := staAid[j := true];
      Store(i, sta[i].(aid := j + 1), num);
    }

    /** The search of `hostapd_get_aid` in its one word. */
    method FirstClear(bits: seq<bool>) returns (j: nat)
      requires |bits| == AID_BITS
      ensures j <= AID_BITS && (forall b :: 0 <= b < j ==> bits[b]) && (j < AID_BITS ==> !bits[j])
    {
      j := 0;
      while j < AID_BITS && bits[j]
        invariant j <= AID_BITS
        invariant forall b :: 0 <= b < j ==> bits[b]
      {
        j := j + 1;
      }
    }

    /** `handle_assoc`: an authenticated station that asks properly is associated with a unique identifier
        and counted once under each of its limitations; a refused one loses its record. */
    method HandleAssoc(addr: int, req: AssocReq) returns (status: Status)
      requires Valid()
      modifies sta, this`num, this`staAid, this`dropped, this`tim, protection`ht, protection`htOpMode
      ensures Valid()
      ensures status == NotAuthenticated <==>
        !exists k :: 0 <= k < sta.Length && old(sta[k].valid) && old(sta[k].addr) == addr && old(sta[k].auth)
      ensures status == NotAuthenticated ==> sta[..] == old(sta[..])
      ensures status == Denied <==> status != NotAuthenticated && !req.acceptable
      ensures forall k :: 0 <= k < sta.Length && status != NotAuthenticated && old(sta[k].addr) == addr && old(sta[k].valid) ==>
        if req.acceptable
        then 1 <= sta[k].aid <= sta.Length
             && sta[..] == old(sta[..])[k := Joined(old(sta[k]).(aid := sta[k].aid), req, Options())]
        else sta[..] == old(sta[..])[k := BLANK]
    {
      hide Sound;
      hide Conserved;
      hide FramesOf;
      hide Fit;
      hide Joined;
      hide HasAid;
      ghost var ss := sta[..];
      var i := FindStaByAddr(addr);
      OnlyOne(addr, i);
      if i < 0 || !sta[i].auth { return NotAuthenticated; }
      if !req.acceptable {
        Free(i);
        return Denied;
      }
      AidInTim(i);
      SameRecord(sta[i]);
      assert ss[i := ss[i]] == ss;
      var ok := GetAid(i);
      if !ok { assert false; }
      ghost var s := sta[i];
      assert sta[..] == ss[i := s];
      Join(i, req);
      JoinedKeepsAid(s, req, Options());
      assert sta[..] == ss[i := s][i := sta[i]];
      assert sta[..] == ss[i := sta[i]];
      return Associated;
    }

    lemma OnlyOne(addr: int, i: int)
      requires Valid() && -1 <= i < sta.Length
      requires i >= 0 ==> sta[i].valid && sta[i].addr == addr
      ensures i >= 0 ==> forall k :: 0 <= k < sta.Length && sta[k].valid && sta[k].addr == addr ==> k == i
    {
      hide Conserved;
      hide AidsOk;
      hide Total;
      hide Fit;
      assert forall k :: 0 <= k < sta.Length ==> sta[..][k] == sta[k];
    }

    function Options(): Opts reads protection {
      Opts(protection.modeG, protection.erpOn, disable11n, psk)
    }

    /** `handle_assoc` from the identifier on. */
    method Join(i: nat, req: AssocReq)
      requires Valid() && i < sta.Length && sta[i].valid && sta[i].aid > 0
      modifies sta, this`num, protection`ht, protection`htOpMode
      ensures Valid() && sta[..] == old(sta[..])[i := Joined(old(sta[i]), req, Options())]
    {
      hide Sound;
      hide Conserved;
      hide FramesOf;
      hide Fit;
      hide Joined;
      hide Share;
      ghost var ss := sta[..];
      AidInTim(i);
      var n, s := JoinRecord(num, sta[i], req, Options());
      JoinedFits(ss[i], req, Options());
      FlagStep(ss, num, staAid, poolSize, i, s, n);
      ConservedSame(ss, accepted, FramesOf(sent), dropped, i, s);
      num := n;
      sta[i] := s;
      assert sta[..] == ss[i := s];
      protection.SetHtCounts(num.ht);
    }

    /** `ap_mlme_rx_auth`. `countermeasures` and `memory` are the state of TKIP countermeasures and the outcome
        of the allocation of a challenge, `text` the challenge drawn. A request that fails the first checks
        changes nothing; one that is refused later costs the station its record; and a station is
        authenticated under the shared key only by returning, encrypted, the challenge it was given. */
    method RxAuth(addr: int, req: AuthReq, countermeasures: bool, memory: bool, text: int) returns (status: AuthStatus, r: int)
      requires Valid()
      modifies sta, this`num, this`staAid, this`dropped, this`tim, protection`ht, protection`htOpMode
      ensures Valid() && -1 <= r < sta.Length && (r >= 0 <==> status == AuthOk)
      ensures FirstChecks(addr, req, countermeasures) != AuthOk ==>
        status == FirstChecks(addr, req, countermeasures) && sta[..] == old(sta[..])
      ensures status == MicFailure <==> countermeasures
      ensures status == UnsupportedAlg <==>
        !countermeasures && !(req.alg == AUTH_OPEN && authOpen) && !(req.alg == AUTH_SHARED_KEY && authShared)
      ensures status == AuthOk ==>
        && addr != ownAddr && !countermeasures
        && (req.transaction == 1 || (req.transaction == 3 && req.alg == AUTH_SHARED_KEY && authShared))
      ensures FirstChecks(addr, req, countermeasures) == AuthOk ==>
        (status == NoRoom <==> forall k :: 0 <= k < sta.Length ==>
          old(sta[k].valid) && old(sta[k].addr) != addr && old(sta[k].arpRetryCount) <= STA_TIMEOUT_RETRY_COUNT)
      ensures status == AuthOk ==>
        && sta[r].valid && sta[r].addr == addr
        && (req.alg == AUTH_OPEN ==> sta[r].auth)
        && (req.alg != AUTH_OPEN && req.transaction == 1 ==> sta[r].challenge.Some?)
        && (req.alg != AUTH_OPEN && req.transaction != 1 ==>
              && sta[r].auth && sta[r].challenge == None && req.wep
              && old(sta[r].valid) && old(sta[r].addr) == addr
              && old(sta[r].challenge) == req.challenge && req.challenge.Some?)
      ensures status == ChallengeFail || (status == Unspecified && FirstChecks(addr, req, countermeasures) == AuthOk) ==>
        forall k :: 0 <= k < sta.Length && sta[k].valid ==> sta[k].addr != addr
      ensures forall k :: 0 <= k < sta.Length && k != r ==> sta[k] == old(sta[k]) || sta[k] == BLANK
    {
      hide Valid;
      hide Fit;
      status := FirstChecks(addr, req, countermeasures);
      if status != AuthOk { return status, -1; }
      r := Add(addr);
      if r < 0 { return NoRoom, -1; }
      OnlyOne(addr, r);
      var s := sta[r].(auth := true);
      if req.alg != AUTH_OPEN { status, s := SharedKey(sta[r], req, memory, text); }
      if status != AuthOk {
        Free(r);
        r := -1;
      } else {
        SetAuthState(r, s.auth, s.challenge);
      }
    }

    /** The checks of `ap_mlme_rx_auth` before the station is looked up. */
    function FirstChecks(addr: int, req: AuthReq, countermeasures: bool): AuthStatus {
      if countermeasures then MicFailure
      else if !((authOpen && req.alg == AUTH_OPEN) || (authShared && req.alg == AUTH_SHARED_KEY)) then UnsupportedAlg
      else if !(req.transaction == 1 || (req.alg == AUTH_SHARED_KEY && req.transaction == 3)) then UnknownTransaction
      else if addr == ownAddr then Unspecified
      else AuthOk
    }

    method SetAuthState(r: nat, auth: bool, challenge: Option<int>)
      requires Valid() && r < sta.Length && sta[r].valid
      modifies sta, this`num
      ensures Valid() && num == old(num)
      ensures sta[..] == old(sta[..])[r := old(sta[r]).(auth := auth, challenge := challenge)]
    {
      hide Sound;
      hide Conserved;
      hide FramesOf;
      hide Fit;
      hide Share;
      var s := sta[r].(auth := auth, challenge := challenge);
      AidInTim(r);
      FitAuth(sta[r], auth, challenge, 0);
      FlagStep(sta[..], num, staAid, poolSize, r, s, num);
      ConservedSame(sta[..], accepted, FramesOf(sent), dropped, r, s);
      Store(r, s, num);
    }

    /** `ap_mlme_rx_deauth`. */
    method RxDeauth(addr: int) returns (found: bool)
      requires Valid()
      modifies sta, this`num, this`staAid, this`dropped, this`tim, protection`ht, protection`htOpMode
      ensures Valid()
      ensures found <==> exists k :: 0 <= k < sta.Length && old(sta[k].valid) && old(sta[k].addr) == addr
      ensures forall k :: 0 <= k < sta.Length ==>
        sta[k] == if old(sta[k].valid) && old(sta[k].addr) == addr then BLANK else old(sta[k])
    {
      hide Valid;
      hide Backwards;
      var i := FindStaByAddr(addr);
      if i < 0 { return false; }
      OnlyOne(addr, i);
      SetAuthorized(i, false);
      Free(i);
      return true;
    }

    /** `ap_mlme_rx_disassoc`. */
    method RxDisassoc(addr: int) returns (found: bool)
      requires Valid()
      modifies sta, this`num, this`staAid, this`dropped, this`tim, protection`ht, protection`htOpMode
      ensures Valid()
      ensures found <==> exists k :: 0 <= k < sta.Length && old(sta[k].valid) && old(sta[k].addr) == addr
      ensures forall k :: 0 <= k < sta.Length ==>
        sta[k] == if old(sta[k].valid) && old(sta[k].addr) == addr then BLANK else old(sta[k])
    {
      hide Valid;
      hide Backwards;
      var i := FindStaByAddr(addr);
      if i < 0 { return false; }
      OnlyOne(addr, i);
      Evict(i);
      return true;
    }

    /** A neighbour's beacon changes no station; it is recorded as ProcessBeacon says, the overlap conditions
        and with them the HT mode follow, and the whole invariant survives exactly when the table does. */
    method RxBeacon(b: Protection.Beacon, now: int) returns (ghost slot: nat)
      requires Valid()
      modifies protection, protection.list
      ensures protection.list == old(protection.list) && slot < protection.list.Length
      ensures Protection.IsSlot(old(protection.list[..]), b.bssid, slot)
      ensures protection.list[..] ==
        old(protection.list[..])[slot := Protection.Heard(Protection.Base(old(protection.list[slot]), b.bssid), b, now)]
      ensures protection.olbcHt <==> old(protection.olbcHt) || !b.ht
      ensures protection.olbc <==>
        || old(protection.olbc)
        || (protection.erpOn && Protection.Legacy(protection.list[slot], protection.modeG, protection.channel))
      ensures Valid() <==>
        || (b.bssid != 0 && now != 0)
        || (b.bssid == 0 && now == 0 && old(protection.numNeighborAp) < Protection.TABLE_SIZE)
    {
      hide Sound;
      hide Conserved;
      hide Protection.SomeLegacy;
      hide Protection.SomeNonHt;
      hide Protection.TableOk;
      hide Protection.IsSlot;
      hide Protection.Legacy;
      slot := protection.ProcessBeacon(b, now);
    }

    /** The neighbour timer changes no station; afterwards the overlap conditions are exact. */
    method NeighborTimer(now: int)
      requires Valid()
      modifies protection, protection.list
      ensures Valid()
      ensures protection.erpOn ==>
        (protection.olbc <==> Protection.SomeLegacy(protection.list[..], protection.modeG, protection.channel))
      ensures protection.olbcHt <==> Protection.SomeNonHt(protection.list[..])
    {
      hide Sound;
      hide Conserved;
      hide Protection.SomeLegacy;
      hide Protection.SomeNonHt;
      hide Protection.TableOk;
      protection.ListTimer(now);
    }

    /** The polling of a silent station, from `ap_handle_timer`; `silent` is false when it was heard. */
    method CountSilence(i: nat, silent: bool)
      requires Valid() && i < sta.Length && sta[i].valid
      modifies sta, this`num
      ensures Valid() && num == old(num)
      ensures sta[..] == old(sta[..])[i := var s := old(sta[i]); s.(arpRetryCount :=
        if !silent then 0 else if s.arpRetryCount <= STA_TIMEOUT_RETRY_COUNT then s.arpRetryCount + 1 else s.arpRetryCount)]
    {
      hide Sound;
      hide Conserved;
      hide FramesOf;
      hide Fit;
      hide Share;
      ghost var ss := sta[..];
      var s := sta[i];
      var n := if !silent then 0 else if s.arpRetryCount <= STA_TIMEOUT_RETRY_COUNT then s.arpRetryCount + 1 else s.arpRetryCount;
      AidInTim(i);
      FitAuth(s, s.auth, None, n);
      FlagStep(ss, num, staAid, poolSize, i, s.(arpRetryCount := n), num);
      ConservedSame(ss, accepted, FramesOf(sent), dropped, i, s.(arpRetryCount := n));
      Store(i, s.(arpRetryCount := n), num);
    }
  }

  const AUTH_OPEN := 0
  const AUTH_SHARED_KEY := 1

  /** An authentication request, with the challenge it returns if it does. */
  datatype AuthReq = AuthReq(alg: int, transaction: int, wep: bool, challenge: Option<int>)

  datatype AuthStatus = AuthOk | MicFailure | UnsupportedAlg | UnknownTransaction | Unspecified | NoRoom | ChallengeFail

  /** `auth_shared_key`: hand out a challenge, or check the one that comes back. */
  method SharedKey(sta: Station, req: AuthReq, memory: bool, text: int) returns (status: AuthStatus, s: Station)
    ensures s == sta.(auth := s.auth, challenge := s.challenge)
    ensures status == AuthOk && req.transaction == 1 ==>
      s.auth == sta.auth && s.challenge == if sta.challenge.Some? then sta.challenge else Some(text)
    ensures status == AuthOk && req.transaction != 1 ==>
      && s.auth && s.challenge == None && req.wep
      && sta.challenge == req.challenge && req.challenge.Some?
    ensures status == AuthOk <==>
      || (req.transaction == 1 && (sta.challenge.Some? || memory))
      || (req.transaction == 3 && req.wep && req.challenge.Some? && sta.challenge == req.challenge)
    ensures status == AuthOk || status == Unspecified || status == ChallengeFail
  {
    status, s := AuthOk, sta;
    if req.transaction == 1 {
      if sta.challenge == None {
        if !memory { return Unspecified, sta; }
        s := sta.(challenge := Some(text));
      }
      return;
    }
    if req.transaction != 3 { return Unspecified, sta; }
    if !req.wep || sta.challenge == None || req.challenge == None || sta.challenge != req.challenge {
      return ChallengeFail, sta;
    }
    s := sta.(auth := true, challenge := None);
  }

  datatype Status = NotAuthenticated | Denied | Associated

  datatype Opts = Opts(modeG: bool, erpOn: bool, disable11n: bool, psk: bool)

  /** What matters in an association request: whether it passes the checks, the QoS request, the HT
      capabilities, whether a rate beyond 802.11b is offered, and the capability bits. */
  datatype AssocReq = AssocReq(acceptable: bool, listenInterval: int, wmm: bool, acs: AcSet, maxSp: int,
                               ht: bool, greenfield: bool, wide: bool, fastRate: bool, shortSlot: bool, shortPreamble: bool)

  /** The record of a station that has associated. A limitation once counted stays counted until the record
      is freed, even if the station associates again without it. */
  function Joined(s: Station, req: AssocReq, o: Opts): Station {
    var nonErp := !req.fastRate && (o.modeG || s.nonErp);
    var ht := req.ht && req.wmm && !o.disable11n;
    s.(wmm := req.wmm, uapsd := if req.wmm then req.acs else NO_ACS, maxSp := if req.wmm then req.maxSp else 0,
       listenInterval := req.listenInterval, ht := ht, nonErp := nonErp,
       marks := Limited(s.marks, req, o.erpOn && nonErp, ht),
       assoc := true, authorized := s.authorized || !o.psk)
  }

  function Limited(m: Marks, req: AssocReq, nonErp: bool, ht: bool): Marks {
    Marks(m.nonErp || nonErp, m.noShortSlot || !req.shortSlot, m.noShortPreamble || !req.shortPreamble,
          m.noHtGf || (ht && !req.greenfield), m.noHt || !ht, m.ht20 || (ht && !req.wide))
  }

  /** The statements of `handle_assoc` that write the record and count it. */
  method JoinRecord(num: Tally, sta: Station, req: AssocReq, o: Opts) returns (n: Tally, s: Station)
    ensures s == Joined(sta, req, o)
    ensures n == Plus(Minus(num, Share(sta)), Share(s))
  {
    hide One;
    hide Share;
    hide Plus;
    hide Minus;
    hide Limited;
    var ht := req.ht && req.wmm && !o.disable11n;
    var nonErp := sta.nonErp;
    if o.modeG { nonErp := true; }
    if req.fastRate { nonErp := false; }
    var m;
    n, m := CountMarks(num, sta.marks, req, o.erpOn && nonErp, ht);
    var nAuthorized, authorized := CountOnce(num.authorized, sta.authorized, !o.psk);
    n := n.(authorized := nAuthorized);
    s := sta.(wmm := req.wmm, uapsd := if req.wmm then req.acs else NO_ACS, maxSp := if req.wmm then req.maxSp else 0,
              ht := ht, listenInterval := req.listenInterval, nonErp := nonErp,
              marks := m, assoc := true, authorized := authorized);
    JoinedShare(sta, s, num, n);
  }

  /** The marks of a record and the counters that go with them, after `m` became `k`. */
  ghost predicate Recounted(num: Tally, n: Tally, m: Marks, k: Marks) {
    && n.nonErp == num.nonErp - One(m.nonErp) + One(k.nonErp)
    && n.noShortSlot == num.noShortSlot - One(m.noShortSlot) + One(k.noShortSlot)
    && n.noShortPreamble == num.noShortPreamble - One(m.noShortPreamble) + One(k.noShortPreamble)
    && n.ht.noGf == num.ht.noGf - One(m.noHtGf) + One(k.noHtGf)
    && n.ht.noHt == num.ht.noHt - One(m.noHt) + One(k.noHt)
    && n.ht.ht20 == num.ht.ht20 - One(m.ht20) + One(k.ht20)
    && n.sta == num.sta && n.ps == num.ps && n.buffered == num.buffered && n.authorized == num.authorized
  }

  method CountMarks(num: Tally, m: Marks, req: AssocReq, nonErp: bool, ht: bool) returns (n: Tally, k: Marks)
    ensures k == Limited(m, req, nonErp, ht)
    ensures Recounted(num, n, m, k)
  {
    hide One;
    var nNonErp, kNonErp := CountOnce(num.nonErp, m.nonErp, nonErp);
    var nNoShortSlot, kNoShortSlot := CountOnce(num.noShortSlot, m.noShortSlot, !req.shortSlot);
    var nNoShortPreamble, kNoShortPreamble := CountOnce(num.noShortPreamble, m.noShortPreamble, !req.shortPreamble);
    var nHt, noHtGf, noHt, ht20 := UpdateHtState(num.ht, m, ht, req);
    k := Marks(kNonErp, kNoShortSlot, kNoShortPreamble, noHtGf, noHt, ht20);
    n := num.(nonErp := nNonErp, noShortSlot := nNoShortSlot, noShortPreamble := nNoShortPreamble, ht := nHt);
  }

  /** A limitation is counted when the station's mark for it is first set. */
  method CountOnce(num: int, mark: bool, due: bool) returns (n: int, m: bool)
    ensures m == (mark || due) && n == num - One(mark) + One(m)
  {
    n, m := num, mark;
    if due && !m {
      m := true;
      n := n + 1;
    }
  }

  lemma JoinedShare(s: Station, t: Station, num: Tally, n: Tally)
    requires t.valid == s.valid && t.ps == s.ps && t.queues == s.queues
    requires Recounted(num, n.(authorized := num.authorized), s.marks, t.marks)
    requires n.authorized == num.authorized - One(s.authorized) + One(t.authorized)
    ensures n == Plus(Minus(num, Share(s)), Share(t))
  {
    hide One;
    hide Size;
  }

  /** `update_ht_state`. */
  method UpdateHtState(num: Protection.HtCounts, m: Marks, ht: bool, req: AssocReq)
    returns (n: Protection.HtCounts, noHtGf: bool, noHt: bool, ht20: bool)
    ensures noHtGf == (m.noHtGf || (ht && !req.greenfield))
    ensures ht20 == (m.ht20 || (ht && !req.wide))
    ensures noHt == (m.noHt || !ht)
    ensures n.noGf == num.noGf - One(m.noHtGf) + One(noHtGf)
    ensures n.noHt == num.noHt - One(m.noHt) + One(noHt)
    ensures n.ht20 == num.ht20 - One(m.ht20) + One(ht20)
  {
    noHtGf, noHt, ht20 := m.noHtGf, m.noHt, m.ht20;
    var nNoGf, nNoHt, nHt20 := num.noGf, num.noHt, num.ht20;
    if ht {
      nNoGf, noHtGf := CountOnce(nNoGf, noHtGf, !req.greenfield);
      nHt20, ht20 := CountOnce(nHt20, ht20, !req.wide);
    } else {
      nNoHt, noHt := CountOnce(nNoHt, noHt, true);
    }
    n := Protection.HtCounts(nNoGf, nNoHt, nHt20);
  }

  lemma SameRecord(s: Station)
    ensures s.(aid := s.aid) == s
  {
  }

  lemma JoinedKeepsAid(s: Station, req: AssocReq, o: Opts)
    ensures Joined(s, req, o).aid == s.aid
  {
  }

  lemma JoinedFits(s: Station, req: AssocReq, o: Opts)
    requires Fit(s) && s.valid && s.aid > 0
    ensures var t := Joined(s, req, o);
      Fit(t) && t.aid == s.aid && t.valid && t.addr == s.addr && t.queues == s.queues
  {
    hide Bounded;
    hide Size;
  }

  lemma FitAuth(s: Station, auth: bool, c: Option<int>, n: int)
    requires Fit(s) && s.valid
    ensures Fit(s.(auth := auth, challenge := c)) && Share(s.(auth := auth, challenge := c)) == Share(s)
    ensures Fit(s.(arpRetryCount := n)) && Share(s.(arpRetryCount := n)) == Share(s)
  {
    hide Bounded;
    hide Size;
    hide One;
  }

  lemma AidBits(ss: seq<Station>, num: Tally, bits: seq<bool>, pool: int, i: nat)
    requires Sound(ss, num, bits, pool) && i < |ss|
    ensures |bits| == AID_BITS && 0 <= ss[i].aid <= |ss|
  {
    hide HasAid;
  }

  lemma AidStep(ss: seq<Station>, num: Tally, bits: seq<bool>, pool: int, i: nat, j: nat)
    requires Sound(ss, num, bits, pool) && i < |ss| && ss[i].valid && ss[i].aid == 0
    requires |bits| == AID_BITS && j <= AID_BITS && (forall b :: 0 <= b < j ==> bits[b]) && (j < AID_BITS ==> !bits[j])
    ensures j < |ss| && j < AID_BITS
    ensures Sound(ss[i := ss[i].(aid := j + 1)], num, bits[j := true], pool)
    ensures !HasAid(ss, j + 1)
    ensures forall a :: 1 <= a <= j ==> HasAid(ss, a)
  {
    hide HasAid;
    hide AidsOk;
    hide Fit;
    hide Share;
    FirstClearBit(ss, bits, i, j);
    AidFree(ss, bits, j);
    AidsBelow(ss, bits, j);
    var s := ss[i].(aid := j + 1);
    AidTaken(ss, bits, i, j, s);
    FitAid(ss[i], j + 1);
    TotalUpdate(ss, i, s);
    TableUpdate(ss, i, s);
  }

  lemma FitAid(s: Station, a: int)
    requires Fit(s) && s.valid && a > 0
    ensures Fit(s.(aid := a)) && Share(s.(aid := a)) == Share(s)
  {
    hide Bounded;
    hide Size;
    hide One;
  }

  lemma AidFree(ss: seq<Station>, bits: seq<bool>, j: nat)
    requires AidsOk(ss, bits) && |bits| == AID_BITS && j < AID_BITS && !bits[j]
    ensures !HasAid(ss, j + 1)
  {
    assert HasAid(ss, j + 1) <==> bits[j];
  }

  lemma AidsBelow(ss: seq<Station>, bits: seq<bool>, j: nat)
    requires AidsOk(ss, bits) && |bits| == AID_BITS && j < AID_BITS && forall b :: 0 <= b < j ==> bits[b]
    ensures forall a :: 1 <= a <= j ==> HasAid(ss, a)
  {
    hide HasAid;
  }

  /** With a pool of at least one frame, never more is buffered than the pool allows. */
  lemma PoolBound(ss: seq<Station>, num: Tally, bits: seq<bool>, pool: nat)
    requires Sound(ss, num, bits, pool) && pool >= 1
    ensures Total(ss).buffered <= pool
  {
    hide Total;
  }

  /** With an empty pool the purge finds nothing to drop, and buffering goes over the limit. */
  lemma EmptyPoolOverflows(ss: seq<Station>, num: Tally, bits: seq<bool>, i: nat, ac: int, f: Frame)
    requires Sound(ss, num, bits, 0) && num.buffered == 0 && i < |ss| && ss[i].ps && 0 <= ac < NUM_ACS
    ensures num.buffered >= 0 && Total(PurgeTable(ss)[i := Queued(PurgeTable(ss)[i], ac, f)]).buffered == 1
  {
    hide Enqueue;
    hide EnqueueVictim;
    hide AidsOk;
    hide Fit;
    hide Share;
    hide Victims;
    hide Queued;
    PurgeSound(ss, num, bits, 0);
    PurgedKeepsMode(ss[i]);
    var after := PurgeTable(ss);
    BufferBound(after, num.(buffered := num.buffered - |Victims(ss)|), bits, 0);
    TotalAtLeast(after, i);
    EnqueueStep(after, num, bits, 0, i, ac, f);
    NothingToDrop(after[i].queues, ac);
  }

  lemma NothingToDrop(q: Queues, ac: int)
    requires 0 <= ac < NUM_ACS && Size(q) == 0
    ensures EnqueueVictim(q, ac) == []
  {
  }

  /** A null frame always goes out in a category of its own class: for a poll one the station does not
      trigger itself, unless it triggers all; for a service period one that it does. */
  lemma NullFrameCategory(s: Station)
    ensures IgnoredForPoll(s) != ALL_ACS && !Has(IgnoredForPoll(s), UpToAc(NullTid(IgnoredForPoll(s))))
    ensures s.uapsd != NO_ACS ==>
      Complement(s.uapsd) != ALL_ACS && Has(s.uapsd, UpToAc(NullTid(Complement(s.uapsd))))
  {
    NullTidIsMostUrgent(IgnoredForPoll(s));
    if s.uapsd != NO_ACS { NullTidIsMostUrgent(Complement(s.uapsd)); }
  }

  lemma NotDozing(s: Station)
    requires Fit(s) && !s.valid
    ensures !s.ps
  {
  }

  lemma StaysValid(s: Station)
    ensures DrvRemoved(s.(authorized := false)).(assoc := false).valid == s.valid
  {
  }

  lemma FitUnassociated(s: Station)
    requires Fit(s) && !s.ps && s.valid
    ensures Fit(s.(assoc := false)) && Share(s.(assoc := false)) == Share(s)
  {
    hide Bounded;
    hide Size;
    hide One;
  }

  /** The decrements of `APStaInfo_free` that are left for a record that is neither authorised nor dozing. */
  function Forget(n: Tally, s: Station, maxAid: nat): Tally {
    n.(sta := if 0 < n.sta <= maxAid then n.sta - 1 else n.sta,
       nonErp := if s.marks.nonErp then n.nonErp - 1 else n.nonErp,
       noShortSlot := if s.marks.noShortSlot then n.noShortSlot - 1 else n.noShortSlot,
       noShortPreamble := if s.marks.noShortPreamble then n.noShortPreamble - 1 else n.noShortPreamble,
       ht := Protection.HtCounts(if s.marks.noHtGf then n.ht.noGf - 1 else n.ht.noGf,
                                 if s.marks.noHt then n.ht.noHt - 1 else n.ht.noHt,
                                 if s.marks.ht20 then n.ht.ht20 - 1 else n.ht.ht20))
  }

  lemma FreeStep(ss: seq<Station>, num: Tally, bits: seq<bool>, pool: int, i: nat)
    requires Sound(ss, num, bits, pool) && i < |ss| && ss[i].valid && !ss[i].authorized && !ss[i].ps
    ensures 0 <= ss[i].aid <= |bits|
    ensures Sound(ss[i := BLANK], Forget(num, ss[i], |ss|), if ss[i].aid > 0 then bits[ss[i].aid - 1 := false] else bits, pool)
  {
    AidRange(ss, bits, i);
    hide AidsOk;
    hide Fit;
    hide Share;
    hide Forget;
    TotalUpdate(ss, i, BLANK);
    AidGiven(ss, bits, i, BLANK);
    BlankFits();
    TableUpdate(ss, i, BLANK);
    ForgetIsMinus(ss, num, i);
  }

  lemma AidRange(ss: seq<Station>, bits: seq<bool>, i: nat)
    requires AidsOk(ss, bits) && i < |ss| <= AID_BITS
    ensures 0 <= ss[i].aid <= |bits| == AID_BITS
  {
  }

  lemma ForgetIsMinus(ss: seq<Station>, num: Tally, i: nat)
    requires i < |ss| && Fit(ss[i]) && num == Total(ss) && ss[i].valid && !ss[i].authorized && !ss[i].ps
    ensures Forget(num, ss[i], |ss|) == Plus(Minus(num, Share(ss[i])), Share(BLANK))
    ensures Forget(num, ss[i], |ss|).buffered == num.buffered
  {
    hide Total;
    hide Bounded;
    TotalAtLeast(ss, i);
    TotalBounds(ss);
  }

  lemma FreeConserves(ss: seq<Station>, accepted: seq<Tag>, sent: seq<Frame>, dropped: seq<Frame>, i: nat)
    requires Conserved(ss, accepted, sent, dropped) && i < |ss| && Fit(ss[i]) && !ss[i].ps
    ensures Conserved(ss[i := BLANK], accepted, sent, dropped)
  {
    hide Conserved;
    hide Bounded;
    assert ss[i].queues == EMPTY;
    ConservedSame(ss, accepted, sent, dropped, i, BLANK);
  }

  lemma NewStep(ss: seq<Station>, num: Tally, bits: seq<bool>, pool: int, i: nat, addr: int)
    requires Sound(ss, num, bits, pool) && i < |ss| && !ss[i].valid
    requires forall k :: 0 <= k < |ss| && ss[k].valid ==> ss[k].addr != addr
    ensures Sound(ss[i := ss[i].(valid := true, addr := addr)], num.(sta := num.sta + 1), bits, pool)
  {
    hide AidsOk;
    hide Fit;
    hide Share;
    var s := ss[i].(valid := true, addr := addr);
    NewFits(ss[i], addr);
    TotalUpdate(ss, i, s);
    TableUpdate(ss, i, s);
    AidsSame(ss, bits, ss[i := s]);
  }

  lemma NewFits(s: Station, addr: int)
    requires Fit(s) && !s.valid
    ensures Fit(s.(valid := true, addr := addr))
    ensures Share(s).sta == 0 && Share(s.(valid := true, addr := addr)) == Share(s).(sta := 1)
  {
    hide Bounded;
    hide Size;
  }

  /** A record without the expired frames of one category, and of the first `k`. */
  function ExpireOne(s: Station, bcn: int, now: int, ac: int): Station
    requires 0 <= ac < NUM_ACS
  {
    s.(queues := Put(s.queues, ac, At(s.queues, ac)[Stale(At(s.queues, ac), s.listenInterval, bcn, now)..]))
  }

  function ExpireFirst(s: Station, bcn: int, now: int, k: int): Station {
    s.(queues := Trimmed(s, bcn, now, k))
  }

  lemma TrimStart(s: Station, bcn: int, now: int)
    ensures ExpireFirst(s, bcn, now, 0) == s && !Remains(s, bcn, now, 0)
    ensures ExpireFirst(s, bcn, now, NUM_ACS) == Expire(s, bcn, now)
    ensures Remains(s, bcn, now, NUM_ACS) <==> Size(Expire(s, bcn, now).queues) > 0
  {
  }

  lemma TrimStep(s: Station, bcn: int, now: int, ac: int)
    requires 0 <= ac < NUM_ACS
    ensures var t := ExpireFirst(s, bcn, now, ac + 1);
      && t == ExpireOne(ExpireFirst(s, bcn, now, ac), bcn, now, ac)
      && (Remains(s, bcn, now, ac + 1) <==> Remains(s, bcn, now, ac) || At(t.queues, ac) != [])
  {
    hide Stale;
  }

  lemma CleanupStart(tim: seq<bool>, ss: seq<Station>, after: seq<Station>, bcn: int, now: int)
    ensures Refreshed(tim, after, 0) == tim && StaleAll(ss, bcn, now, 0) == []
  {
  }

  lemma CleanupStep(tim: seq<bool>, ss: seq<Station>, after: seq<Station>, bcn: int, now: int, i: nat)
    requires i < |ss| == |after|
    ensures StaleAll(ss, bcn, now, i + 1)
         == StaleAll(ss, bcn, now, i) + if ss[i].valid then StaleOf(ss[i], bcn, now, NUM_ACS) else []
    ensures Refreshed(tim, after, i + 1)
         == if after[i].valid && 0 <= after[i].aid < |tim|
            then Refreshed(tim, after, i)[after[i].aid := Indicate(after[i])] else Refreshed(tim, after, i)
  {
  }

  lemma ExpireKeeps(s: Station, bcn: int, now: int)
    ensures Expire(s, bcn, now).aid == s.aid && Expire(s, bcn, now).valid == s.valid
  {
  }

  lemma TrimKeeps(s: Station, bcn: int, now: int, k: nat)
    ensures ExpireFirst(s, bcn, now, k).aid == s.aid && ExpireFirst(s, bcn, now, k).listenInterval == s.listenInterval
    ensures k < NUM_ACS ==> At(ExpireFirst(s, bcn, now, k).queues, k) == At(s.queues, k)
  {
    hide Stale;
  }

  /** Whether anything fresh is left in the first `k` categories. */
  predicate Remains(s: Station, bcn: int, now: int, k: int) {
    var q := Trimmed(s, bcn, now, k);
    (k > 0 && q.vo != []) || (k > 1 && q.vi != []) || (k > 2 && q.be != []) || (k > 3 && q.bk != [])
  }

  lemma UnusedExpires(s: Station, bcn: int, now: int)
    requires Fit(s) && !s.valid
    ensures Expire(s, bcn, now) == s && Size(s.queues) == 0
  {
    hide Stale;
    hide Bounded;
  }

  lemma FitFw(s: Station, len: int)
    requires Fit(s)
    ensures Fit(s.(fwQLen := len)) && Share(s.(fwQLen := len)) == Share(s)
  {
    hide Bounded;
    hide Size;
    hide One;
  }

  lemma FitFlag(num: Tally, s: Station, on: bool)
    requires Fit(s) && s.valid && on != s.authorized
    ensures Fit(s.(authorized := on))
    ensures num.(authorized := if on then num.authorized + 1 else num.authorized - 1)
         == Plus(Minus(num, Share(s)), Share(s.(authorized := on)))
  {
    hide Bounded;
    hide Size;
  }

  /** A change of one record that touches neither its identity nor its buffer. */
  lemma FlagStep(ss: seq<Station>, num: Tally, bits: seq<bool>, pool: int, i: nat, s: Station, num': Tally)
    requires Sound(ss, num, bits, pool) && i < |ss| && Fit(s)
    requires s.aid == ss[i].aid && s.valid == ss[i].valid && s.addr == ss[i].addr && s.queues == ss[i].queues
    requires num' == Plus(Minus(num, Share(ss[i])), Share(s))
    ensures Sound(ss[i := s], num', bits, pool)
  {
    hide Size;
    hide AidsOk;
    hide TableOk;
    hide Fit;
    SoundReplace(ss, num, bits, pool, i, s, num');
  }

  lemma RemoveConserves(ss: seq<Station>, accepted: seq<Tag>, sent: seq<Frame>, dropped: seq<Frame>, i: nat)
    requires Conserved(ss, accepted, sent, dropped) && i < |ss| && ss[i].ps
    ensures Conserved(ss[i := DrvRemoved(ss[i])], accepted, sent, dropped + Backwards(ss[i].queues))
  {
    hide Conserved;
    hide Leaves;
    hide Backwards;
    AllLeave(ss[i].queues);
    ConservedReplace(ss, accepted, sent, dropped, i, DrvRemoved(ss[i]), Backwards(ss[i].queues));
  }

  datatype Kind = DataFrame | NullFrame | PollFrame

  /** The frame is a poll, or a trigger in a category the station triggers outside a service period. */
  predicate Asks(s: Station, poll: bool, pm: bool, up: int) {
    s.ps && (poll || (pm && Has(s.uapsd, UpToAc(up % 8)) && !s.sp))
  }

  /** What a poll or a trigger makes of a record, and what it sends. */
  function Answered(s: Station, poll: bool, pm: bool, up: int): Station {
    if !s.ps then s
    else if poll then Responded(s, 1, IgnoredForPoll(s), PsPoll)
    else if pm && Has(s.uapsd, UpToAc(up % 8)) && !s.sp
    then Responded(s, ServiceLength(s.maxSp), Complement(s.uapsd), Uapsd)
    else s
  }

  function Answer(s: Station, poll: bool, pm: bool, up: int): seq<Sending> {
    if !s.ps then []
    else if poll then Response(s, 1, IgnoredForPoll(s), PsPoll)
    else if pm && Has(s.uapsd, UpToAc(up % 8)) && !s.sp
    then Response(s, ServiceLength(s.maxSp), Complement(s.uapsd), Uapsd)
    else []
  }

  function Processed(s: Station, data: bool, pm: bool): Station {
    if s.ps && data && !pm then Woken(s) else if !s.ps && pm then s.(ps := true) else s
  }

  function Received(s: Station, kind: Kind, pm: bool, up: int): Station {
    if !s.assoc then s
    else
      var t := Answered(s, kind == PollFrame, pm, up);
      if s.ps && kind == PollFrame then t else Processed(t, kind != PollFrame, pm)
  }

  /** What a received frame makes the access point send: the answer to a poll or trigger, or everything
      buffered for a station that wakes. */
  function Emitted(s: Station, kind: Kind, pm: bool, up: int): seq<Sending> {
    if !s.assoc || !s.ps then []
    else if kind == PollFrame || pm then Answer(s, kind == PollFrame, pm, up)
    else Unmarked(AllFrames(s.queues))
  }

  /** Whether it recomputes the traffic indication: after an answer, on waking, and on dozing off with frames
      in the device. */
  predicate Refreshes(s: Station, kind: Kind, pm: bool, up: int) {
    s.assoc &&
    if s.ps then Asks(s, kind == PollFrame, pm, up) || (kind != PollFrame && !pm)
    else pm && s.fwQLen > 0
  }

  /** Nothing but a data frame without the power-management bit wakes a station, and that leaves nothing
      buffered for it; a station that goes on dozing is at most served. */
  lemma ReceivedMeaning(s: Station, kind: Kind, pm: bool, up: int)
    requires Fit(s) && s.assoc
    ensures var t := Received(s, kind, pm, up);
      && (t.ps <==> if s.ps then pm || kind == PollFrame else pm)
      && (s.ps && !t.ps ==> t.queues == EMPTY)
      && (t.ps && t.queues != s.queues ==> t == Answered(s, kind == PollFrame, pm, up))
  {
    hide Responded;
    AnsweredKeeps(s, kind == PollFrame, pm, up);
  }

  lemma AnswersOnly(s: Station, poll: bool, pm: bool, up: int)
    ensures !Asks(s, poll, pm, up) ==> Answered(s, poll, pm, up) == s && Answer(s, poll, pm, up) == []
    ensures Processed(s, !poll, pm).fwQLen == s.fwQLen || (s.ps && !poll && !pm)
    ensures Asks(s, poll, pm, up) && !poll ==>
      var t := Answered(s, poll, pm, up); Processed(t, true, pm) == t
  {
    hide Responded;
    AnsweredKeeps(s, poll, pm, up);
  }

  lemma AnsweredKeeps(s: Station, poll: bool, pm: bool, up: int)
    ensures Answered(s, poll, pm, up).assoc == s.assoc && Answered(s, poll, pm, up).ps == s.ps
  {
  }

  /** The loop that drops expired frames from the front of a queue. */
  method DropStale(q: seq<Frame>, listenInterval: int, bcnInterval: int, now: int) returns (gone: seq<Frame>, rest: seq<Frame>)
    ensures var k := Stale(q, listenInterval, bcnInterval, now); gone == q[..k] && rest == q[k..]
  {
    hide BufferExpired;
    gone, rest := [], q;
    while rest != [] && BufferExpired(listenInterval, bcnInterval, rest[0], now)
      invariant |gone| <= |q| && gone == q[..|gone|] && rest == q[|gone|..]
      invariant Stale(q, listenInterval, bcnInterval, now) == |gone| + Stale(rest, listenInterval, bcnInterval, now)
      decreases |rest|
    {
      gone := gone + [rest[0]];
      rest := rest[1..];
    }
  }

  lemma ExpireStep(ss: seq<Station>, num: Tally, bits: seq<bool>, pool: int, i: nat, ac: int, k: nat)
    requires Sound(ss, num, bits, pool) && i < |ss| && 0 <= ac < NUM_ACS && k <= |At(ss[i].queues, ac)|
    ensures Sound(ss[i := ss[i].(queues := Put(ss[i].queues, ac, At(ss[i].queues, ac)[k..]))],
                  num.(buffered := num.buffered - k), bits, pool)
  {
    hide AidsOk;
    hide Fit;
    hide Share;
    hide Put;
    hide At;
    var s := ss[i];
    var q := Put(s.queues, ac, At(s.queues, ac)[k..]);
    FrontLeaves(s.queues, ac, k);
    ShareQueues(s, q);
    FewerFit(s, q);
    SoundReplace(ss, num, bits, pool, i, s.(queues := q), num.(buffered := num.buffered - k));
  }

  lemma FewerFit(s: Station, q: Queues)
    requires Fit(s) && Size(q) <= Size(s.queues) && (Bounded(s.queues) ==> Bounded(q))
    ensures Fit(s.(queues := q))
  {
    hide Size;
    hide Bounded;
  }

  lemma ExpireConserves(ss: seq<Station>, accepted: seq<Tag>, sent: seq<Frame>, dropped: seq<Frame>, i: nat, ac: int, k: nat)
    requires Conserved(ss, accepted, sent, dropped)
    requires i < |ss| && 0 <= ac < NUM_ACS && k <= |At(ss[i].queues, ac)|
    ensures Conserved(ss[i := ss[i].(queues := Put(ss[i].queues, ac, At(ss[i].queues, ac)[k..]))],
                      accepted, sent, dropped + At(ss[i].queues, ac)[..k])
  {
    hide Conserved;
    hide Leaves;
    hide Put;
    hide At;
    var s := ss[i];
    FrontLeaves(s.queues, ac, k);
    ConservedReplace(ss, accepted, sent, dropped, i, s.(queues := Put(s.queues, ac, At(s.queues, ac)[k..])),
                     At(s.queues, ac)[..k]);
  }

  function Upto(q: Queues, k: int): Queues {
    Queues(if k > 0 then q.vo else [], if k > 1 then q.vi else [], if k > 2 then q.be else [], if k > 3 then q.bk else [])
  }

  function Cleared(q: Queues, k: int): Queues {
    Queues(if k < 0 then q.vo else [], if k < 1 then q.vi else [], if k < 2 then q.be else [], if k < 3 then q.bk else [])
  }

  lemma NothingIndicated(s: Station)
    requires s.queues == EMPTY && s.fwQLen <= 0
    ensures !Indicate(s)
  {
  }

  lemma WakeStep(ss: seq<Station>, num: Tally, bits: seq<bool>, pool: int, i: nat)
    requires Sound(ss, num, bits, pool) && i < |ss|
    ensures ss[i].ps ==>
      Sound(ss[i := Woken(ss[i])], num.(ps := num.ps - 1, buffered := num.buffered - |AllFrames(ss[i].queues)|), bits, pool)
    ensures Sound(ss[i := DrvRemoved(ss[i])],
                  num.(ps := num.ps - One(ss[i].ps), buffered := num.buffered - |Backwards(ss[i].queues)|), bits, pool)
  {
    hide Share;
    hide Fit;
    hide AidsOk;
    hide AllFrames;
    hide Backwards;
    hide Size;
    var s := ss[i];
    AwakeKeeps(s);
    AllLeave(s.queues);
    if s.ps {
      SoundReplace(ss, num, bits, pool, i, Woken(s), num.(ps := num.ps - 1, buffered := num.buffered - |AllFrames(s.queues)|));
    }
    SoundReplace(ss, num, bits, pool, i, DrvRemoved(s),
                 num.(ps := num.ps - One(s.ps), buffered := num.buffered - |Backwards(s.queues)|));
  }

  lemma WakeConserves(ss: seq<Station>, accepted: seq<Tag>, sent: seq<Sending>, dropped: seq<Frame>, i: nat)
    requires Conserved(ss, accepted, FramesOf(sent), dropped) && i < |ss|
    ensures Conserved(ss[i := Woken(ss[i])], accepted, FramesOf(sent + Unmarked(AllFrames(ss[i].queues))), dropped)
  {
    hide Conserved;
    hide FramesOf;
    hide Leaves;
    hide AllFrames;
    var frames := AllFrames(ss[i].queues);
    AllLeave(ss[i].queues);
    ConservedReplace(ss, accepted, FramesOf(sent), dropped, i, Woken(ss[i]), frames);
    FramesOfConcat(sent, Unmarked(frames));
    FramesOfAll(Unmarked(frames), frames);
  }

  lemma DozeStep(ss: seq<Station>, num: Tally, bits: seq<bool>, pool: int, i: nat)
    requires Sound(ss, num, bits, pool) && i < |ss| && ss[i].assoc && !ss[i].ps
    ensures Sound(ss[i := ss[i].(ps := true)], num.(ps := num.ps + 1), bits, pool)
  {
    hide AidsOk;
    hide Size;
    hide Bounded;
    SoundReplace(ss, num, bits, pool, i, ss[i].(ps := true), num.(ps := num.ps + 1));
  }

  lemma SomeoneDozes(ss: seq<Station>, num: Tally, bits: seq<bool>, pool: int, i: nat)
    requires Sound(ss, num, bits, pool) && i < |ss| && ss[i].ps
    ensures num.ps > 0
  {
    TotalAtLeast(ss, i);
  }

  function PutTail(q: Queues, ac: int, f: Frame): Queues
    requires 0 <= ac < NUM_ACS
  {
    Put(q, ac, At(q, ac) + [f])
  }

  lemma BufferBound(ss: seq<Station>, num: Tally, bits: seq<bool>, pool: int)
    requires Sound(ss, num, bits, pool)
    ensures 0 <= num.buffered <= Max(pool, 1)
  {
    TotalBounds(ss);
  }

  lemma FitQueued(s: Station, ac: int)
    requires Fit(s) && 0 <= ac < NUM_ACS
    ensures At(s.queues, ac) != [] ==> s.ps
  {
  }

  lemma PurgedKeepsMode(s: Station)
    ensures PurgeRecord(s).ps == s.ps && PurgeRecord(s).aid == s.aid
  {
  }

  lemma EnqueueStep(ss: seq<Station>, num: Tally, bits: seq<bool>, pool: nat, i: nat, ac: int, f: Frame)
    requires Sound(ss, num, bits, pool) && i < |ss| && 0 <= ac < NUM_ACS && ss[i].ps
    requires num.buffered < Max(pool, 1)
    ensures Sound(ss[i := Queued(ss[i], ac, f)],
                  num.(buffered := num.buffered + 1 - |EnqueueVictim(ss[i].queues, ac)|), bits, pool)
  {
    hide Enqueue;
    hide EnqueueVictim;
    hide Share;
    hide Fit;
    hide AidsOk;
    QueuedKeeps(ss[i], ac, f);
    SoundReplace(ss, num, bits, pool, i, Queued(ss[i], ac, f),
                 num.(buffered := num.buffered + 1 - |EnqueueVictim(ss[i].queues, ac)|));
  }

  /** One record of the purge: the oldest frame of the least urgent category that has any. */
  method PurgeOne(s: Station) returns (r: Station, victim: seq<Frame>)
    ensures r == PurgeRecord(s) && victim == Victim(s)
  {
    r, victim := s, [];
    if !s.valid { return; }
    var ac := NUM_ACS - 1;
    while ac >= 0
      invariant -1 <= ac < NUM_ACS
      invariant forall a :: ac < a < NUM_ACS ==> At(s.queues, a) == []
    {
      if At(s.queues, ac) != [] {
        r := s.(queues := Put(s.queues, ac, At(s.queues, ac)[1..]));
        victim := [At(s.queues, ac)[0]];
        return;
      }
      ac := ac - 1;
    }
  }

  lemma SameAid(s: Station, n: nat, ignored: AcSet, reason: Reason)
    ensures Responded(s, n, ignored, reason).aid == s.aid
  {
  }

  /** The frames of a response, and the record without them. */
  method Respond(s: Station, n: nat, ignored: AcSet, reason: Reason) returns (r: Station, out: seq<Sending>, taken: nat)
    ensures r == Responded(s, n, ignored, reason)
    ensures out == Response(s, n, ignored, reason)
    ensures taken == |Taken(s.queues, ignored, n)|
  {
    hide Taken;
    hide After;
    hide Marked;
    var frames, rest, more := TakeFrames(s.queues, ignored, n);
    taken := |frames|;
    out := [];
    if frames == [] {
      if s.fwQLen < 0 && s.fwQLen != UNKNOWN_FW_QUEUE_LENGTH {
        out := [Null(NullTid(ignored), s.wmm, s.wmm && reason == Uapsd)];
      }
    } else {
      out := MarkFrames(frames, more, reason == Uapsd);
    }
    r := s.(queues := rest, sp := false,
            fwQLen := if s.fwQLen >= 0 && reason == PsPoll then s.fwQLen + taken else s.fwQLen);
  }

  lemma ResponseStep(ss: seq<Station>, num: Tally, num': Tally, bits: seq<bool>, pool: int,
                     i: nat, n: nat, ignored: AcSet, reason: Reason)
    requires Sound(ss, num, bits, pool) && i < |ss|
    requires num' == num.(buffered := num.buffered - |Taken(ss[i].queues, ignored, n)|)
    ensures Sound(ss[i := Responded(ss[i], n, ignored, reason)], num', bits, pool)
  {
    hide Taken;
    hide After;
    hide Share;
    hide Fit;
    hide AidsOk;
    RespondedKeeps(ss[i], n, ignored, reason);
    SoundReplace(ss, num, bits, pool, i, Responded(ss[i], n, ignored, reason), num');
  }

  lemma ResponseConserves(ss: seq<Station>, accepted: seq<Tag>, sent: seq<Sending>, dropped: seq<Frame>,
                          i: nat, n: nat, ignored: AcSet, reason: Reason)
    requires Conserved(ss, accepted, FramesOf(sent), dropped) && i < |ss|
    ensures Conserved(ss[i := Responded(ss[i], n, ignored, reason)], accepted,
                      FramesOf(sent + Response(ss[i], n, ignored, reason)), dropped)
  {
    hide Taken;
    hide After;
    hide Conserved;
    hide Leaves;
    hide FramesOf;
    hide Response;
    var s := Responded(ss[i], n, ignored, reason);
    ResponseLeaves(ss[i].queues, ignored, n);
    ConservedReplace(ss, accepted, FramesOf(sent), dropped, i, s, Taken(ss[i].queues, ignored, n));
    FramesOfResponse(ss[i], n, ignored, reason);
    FramesOfConcat(sent, Response(ss[i], n, ignored, reason));
  }
}
