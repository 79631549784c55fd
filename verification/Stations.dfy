/**
 The station table of the access point: what a record says, the counters as sums over the table, the
 identifiers handed out, and the frames the table holds.
 */
module Stations {
  import opened Common
  import opened PowerSaveQueues
  import Protection

  const UNKNOWN_FW_QUEUE_LENGTH := -9999
  const STA_TIMEOUT_RETRY_COUNT := 5
  const AID_BITS := 32

  /** Under which limitations a station has been counted. */
  datatype Marks = Marks(nonErp: bool, noShortSlot: bool, noShortPreamble: bool, noHtGf: bool, noHt: bool, ht20: bool)

  const NO_MARKS := Marks(false, false, false, false, false, false)

  datatype Station = Station(
    addr: int, aid: int,
    valid: bool, auth: bool, assoc: bool, authorized: bool, ps: bool, sp: bool,
    wmm: bool, ht: bool, nonErp: bool,
    marks: Marks,
    queues: Queues, uapsd: AcSet, maxSp: int,
    arpRetryCount: int, listenInterval: int, fwQLen: int, challenge: Option<int>)

  /** A record after `APStaInfo_StaReset`. */
  const BLANK := Station(0, 0, false, false, false, false, false, false, false, false, false,
                         NO_MARKS, EMPTY, NO_ACS, 0, 0, 0, 0, None)

  /** An unused record carries no flag, no identifier and no sign of a silent station. */
  predicate Unused(s: Station) {
    && s.aid == 0 && s.arpRetryCount == 0 && s.challenge == None
    && !s.auth && !s.assoc && !s.authorized && !s.ps && !s.sp
    && s.marks == NO_MARKS
  }

  /** What holds of every record in use or not: only an associated station dozes; a station that is awake
      has nothing buffered; an associated station has an identifier; no queue is over its limit. */
  predicate Fit(s: Station) {
    && (!s.valid ==> Unused(s))
    && (s.ps ==> s.assoc)
    && (!s.ps ==> Size(s.queues) == 0)
    && (s.assoc ==> s.aid > 0)
    && s.aid >= 0
    && Bounded(s.queues)
  }

  // ---- Counters ----

  datatype Tally = Tally(sta: int, authorized: int, ps: int, nonErp: int, noShortSlot: int, noShortPreamble: int,
                         ht: Protection.HtCounts, buffered: int)

  const ZERO := Tally(0, 0, 0, 0, 0, 0, Protection.NO_COUNTS, 0)

  function One(b: bool): int { if b then 1 else 0 }

  function Share(s: Station): Tally {
    Tally(One(s.valid), One(s.authorized), One(s.ps), One(s.marks.nonErp), One(s.marks.noShortSlot), One(s.marks.noShortPreamble),
          Protection.HtCounts(One(s.marks.noHtGf), One(s.marks.noHt), One(s.marks.ht20)), Size(s.queues))
  }

  function Plus(a: Tally, b: Tally): Tally {
    Tally(a.sta + b.sta, a.authorized + b.authorized, a.ps + b.ps, a.nonErp + b.nonErp,
          a.noShortSlot + b.noShortSlot, a.noShortPreamble + b.noShortPreamble,
          Protection.HtCounts(a.ht.noGf + b.ht.noGf, a.ht.noHt + b.ht.noHt, a.ht.ht20 + b.ht.ht20),
          a.buffered + b.buffered)
  }

  function Minus(a: Tally, b: Tally): Tally {
    Tally(a.sta - b.sta, a.authorized - b.authorized, a.ps - b.ps, a.nonErp - b.nonErp,
          a.noShortSlot - b.noShortSlot, a.noShortPreamble - b.noShortPreamble,
          Protection.HtCounts(a.ht.noGf - b.ht.noGf, a.ht.noHt - b.ht.noHt, a.ht.ht20 - b.ht.ht20),
          a.buffered - b.buffered)
  }

  /** Every counter at once: how many records carry each flag, and how many frames are buffered. */
  function Total(ss: seq<Station>): Tally {
    if ss == [] then ZERO else Plus(Total(ss[..|ss| - 1]), Share(ss[|ss| - 1]))
  }

  lemma {:induction false} TotalUpdate(ss: seq<Station>, i: nat, s: Station)
    requires i < |ss|
    ensures Total(ss[i := s]) == Plus(Minus(Total(ss), Share(ss[i])), Share(s))
  {
    hide Share;
    var k := |ss| - 1;
    if i == k {
      assert ss[i := s][..k] == ss[..k];
    } else {
      assert ss[i := s][..k] == ss[..k][i := s];
      TotalUpdate(ss[..k], i, s);
    }
  }

  /** Each counter is at least what one record contributes. */
  lemma {:induction false} TotalAtLeast(ss: seq<Station>, i: nat)
    requires i < |ss|
    ensures Total(ss).sta >= One(ss[i].valid) && Total(ss).ps >= One(ss[i].ps)
    ensures Total(ss).buffered >= Size(ss[i].queues)
    decreases |ss|
  {
    var k := |ss| - 1;
    TotalBounds(ss[..k]);
    if i < k { TotalAtLeast(ss[..k], i); }
  }

  lemma {:induction false} TotalBounds(ss: seq<Station>)
    ensures 0 <= Total(ss).sta <= |ss| && 0 <= Total(ss).ps && 0 <= Total(ss).buffered
  {
    if ss != [] { TotalBounds(ss[..|ss| - 1]); }
  }

  /** As many records as the table has are in use exactly when every one is. */
  lemma {:induction false} TotalFull(ss: seq<Station>)
    ensures Total(ss).sta <= |ss|
    ensures Total(ss).sta == |ss| <==> (forall i :: 0 <= i < |ss| ==> ss[i].valid)
  {
    if ss != [] {
      var k := |ss| - 1;
      TotalFull(ss[..k]);
      assert forall i :: 0 <= i < k ==> ss[..k][i] == ss[i];
    }
  }

  lemma BlankShare()
    ensures Share(BLANK) == ZERO
  {
  }

  lemma {:induction false} TotalAllZero(ss: seq<Station>)
    requires forall i :: 0 <= i < |ss| ==> Share(ss[i]) == ZERO
    ensures Total(ss) == ZERO
  {
    hide Share;
    hide Plus;
    if ss != [] {
      var k := |ss| - 1;
      TotalAllZero(ss[..k]);
      PlusZero();
      assert Total(ss) == Plus(Total(ss[..k]), Share(ss[k]));
    }
  }

  lemma PlusZero()
    ensures Plus(ZERO, ZERO) == ZERO
  {
  }

  /** The records with a property. */
  function Where(ss: seq<Station>, p: Station -> bool): set<int> {
    set i | 0 <= i < |ss| && p(ss[i])
  }

  lemma WhereStep(ss: seq<Station>, p: Station -> bool)
    requires ss != []
    ensures |Where(ss, p)| == |Where(ss[..|ss| - 1], p)| + One(p(ss[|ss| - 1]))
  {
    var k := |ss| - 1;
    assert Where(ss, p) == Where(ss[..k], p) + if p(ss[k]) then {k} else {};
  }

  /** Each counter is the number of records that carry its flag. */
  lemma {:induction false} CountersAreCardinalities(ss: seq<Station>)
    ensures Total(ss).sta == |Where(ss, (s: Station) => s.valid)|
    ensures Total(ss).authorized == |Where(ss, (s: Station) => s.authorized)|
    ensures Total(ss).ps == |Where(ss, (s: Station) => s.ps)|
    ensures Total(ss).nonErp == |Where(ss, (s: Station) => s.marks.nonErp)|
    ensures Total(ss).noShortSlot == |Where(ss, (s: Station) => s.marks.noShortSlot)|
    ensures Total(ss).noShortPreamble == |Where(ss, (s: Station) => s.marks.noShortPreamble)|
    ensures Total(ss).ht.noGf == |Where(ss, (s: Station) => s.marks.noHtGf)|
    ensures Total(ss).ht.noHt == |Where(ss, (s: Station) => s.marks.noHt)|
    ensures Total(ss).ht.ht20 == |Where(ss, (s: Station) => s.marks.ht20)|
  {
    hide Size;
    hide One;
    hide Where;
    CardinalityStep(ss, (s: Station) => s.valid);
    CardinalityStep(ss, (s: Station) => s.authorized);
    CardinalityStep(ss, (s: Station) => s.ps);
    CardinalityStep(ss, (s: Station) => s.marks.nonErp);
    CardinalityStep(ss, (s: Station) => s.marks.noShortSlot);
    CardinalityStep(ss, (s: Station) => s.marks.noShortPreamble);
    CardinalityStep(ss, (s: Station) => s.marks.noHtGf);
    CardinalityStep(ss, (s: Station) => s.marks.noHt);
    CardinalityStep(ss, (s: Station) => s.marks.ht20);
    if ss != [] { CountersAreCardinalities(ss[..|ss| - 1]); }
  }

  lemma CardinalityStep(ss: seq<Station>, p: Station -> bool)
    ensures |Where(ss, p)| == if ss == [] then 0 else |Where(ss[..|ss| - 1], p)| + One(p(ss[|ss| - 1]))
  {
    if ss == [] {
      assert Where(ss, p) == {};
    } else {
      WhereStep(ss, p);
    }
  }

  // ---- Purging when the shared buffer is full ----

  function PurgeRecord(s: Station): Station {
    if s.valid then s.(queues := PurgeOldest(s.queues)) else s
  }

  function PurgeTable(ss: seq<Station>): (r: seq<Station>)
    ensures |r| == |ss|
    ensures forall i :: 0 <= i < |ss| ==> r[i] == PurgeRecord(ss[i])
  {
    seq(|ss|, i requires 0 <= i < |ss| => PurgeRecord(ss[i]))
  }

  function Victim(s: Station): seq<Frame> { if s.valid then OldestVictim(s.queues) else [] }

  function Victims(ss: seq<Station>): seq<Frame> {
    if ss == [] then [] else Victims(ss[..|ss| - 1]) + Victim(ss[|ss| - 1])
  }

  lemma PurgeNothing(q: Queues)
    requires Size(q) == 0
    ensures PurgeOldest(q) == q
  {
  }

  lemma ShareQueues(s: Station, q: Queues)
    ensures Share(s).buffered == Size(s.queues)
    ensures Share(s.(queues := q)) == Share(s).(buffered := Size(q))
  {
    hide One;
    hide Size;
  }

  lemma FitQueues(s: Station, q: Queues)
    requires Fit(s) && s.ps && Bounded(q)
    ensures Fit(s.(queues := q))
  {
    hide Bounded;
  }

  lemma FitAwake(s: Station)
    requires Fit(s) && Size(s.queues) > 0
    ensures s.ps && s.valid && Bounded(s.queues)
  {
    hide Bounded;
    hide Size;
  }

  lemma PurgeShare(s: Station)
    requires Fit(s)
    ensures Fit(PurgeRecord(s))
    ensures Share(PurgeRecord(s)) == Share(s).(buffered := Share(s).buffered - |Victim(s)|)
    ensures Share(s).buffered >= 0 && (Share(s).buffered > 0 ==> |Victim(s)| > 0)
  {
    hide PurgeOldest;
    hide OldestVictim;
    hide Bounded;
    hide Size;
    hide Share;
    hide Fit;
    PurgeSize(s.queues);
    ShareQueues(s, PurgeOldest(s.queues));
    if s.valid {
      assert PurgeRecord(s) == s.(queues := PurgeOldest(s.queues));
      if Size(s.queues) > 0 {
        FitAwake(s);
        FitQueues(s, PurgeOldest(s.queues));
      } else {
        PurgeNothing(s.queues);
      }
    } else {
      FitUnused(s);
    }
  }

  lemma FitUnused(s: Station)
    requires Fit(s) && !s.valid
    ensures Size(s.queues) == 0
  {
    hide Size;
    hide Bounded;
  }

  /** Purging makes room: if anything is buffered at all, some record gives up a frame. */
  lemma {:induction false} PurgeMakesRoom(ss: seq<Station>)
    requires forall i :: 0 <= i < |ss| ==> Fit(ss[i])
    ensures Total(PurgeTable(ss)) == Total(ss).(buffered := Total(ss).buffered - |Victims(ss)|)
    ensures Total(ss).buffered > 0 ==> |Victims(ss)| > 0
  {
    hide Share;
    hide Victim;
    hide Fit;
    hide PurgeRecord;
    if ss != [] {
      var k := |ss| - 1;
      PurgeMakesRoom(ss[..k]);
      PurgeShare(ss[k]);
      assert PurgeTable(ss)[..k] == PurgeTable(ss[..k]);
    }
  }

  // ---- Frames held ----

  function Held(ss: seq<Station>, f: Frame): int {
    if ss == [] then 0 else Held(ss[..|ss| - 1], f) + Holds(ss[|ss| - 1].queues, f)
  }

  lemma {:induction false} HeldUpdate(ss: seq<Station>, i: nat, s: Station, f: Frame)
    requires i < |ss|
    ensures Held(ss[i := s], f) == Held(ss, f) - Holds(ss[i].queues, f) + Holds(s.queues, f)
  {
    hide Holds;
    var k := |ss| - 1;
    if i == k {
      assert ss[i := s][..k] == ss[..k];
    } else {
      assert ss[i := s][..k] == ss[..k][i := s];
      HeldUpdate(ss[..k], i, s, f);
    }
  }

  lemma {:induction false} HeldNone(ss: seq<Station>, f: Frame)
    requires forall i :: 0 <= i < |ss| ==> ss[i].queues == EMPTY
    ensures Held(ss, f) == 0
  {
    if ss != [] { HeldNone(ss[..|ss| - 1], f); }
  }

  // ---- Association identifiers ----

  ghost predicate HasAid(ss: seq<Station>, a: int) {
    exists i :: 0 <= i < |ss| && ss[i].aid == a
  }

  /** Identifiers are at most the table size and unique, and the bitmap marks exactly those in use. */
  ghost predicate AidsOk(ss: seq<Station>, bits: seq<bool>) {
    && |bits| == AID_BITS
    && (forall i :: 0 <= i < |ss| ==> 0 <= ss[i].aid <= |ss|)
    && (forall i, j :: 0 <= i < j < |ss| && ss[i].aid != 0 ==> ss[i].aid != ss[j].aid)
    && (forall a :: 1 <= a <= AID_BITS ==> (HasAid(ss, a) <==> bits[a - 1]))
  }

  function Aids(ss: seq<Station>): set<int> {
    if ss == [] then {}
    else Aids(ss[..|ss| - 1]) + if ss[|ss| - 1].aid > 0 then {ss[|ss| - 1].aid} else {}
  }

  lemma {:induction false} AidsBounded(ss: seq<Station>)
    ensures |Aids(ss)| <= |ss|
    ensures (exists i :: 0 <= i < |ss| && ss[i].aid <= 0) ==> |Aids(ss)| < |ss|
    ensures forall i :: 0 <= i < |ss| && ss[i].aid > 0 ==> ss[i].aid in Aids(ss)
  {
    if ss != [] {
      var k := |ss| - 1;
      AidsBounded(ss[..k]);
      assert forall i :: 0 <= i < k ==> ss[..k][i] == ss[i];
    }
  }

  lemma {:induction false} RangeFits(n: nat, s: set<int>)
    requires forall a :: 1 <= a <= n ==> a in s
    ensures n <= |s|
  {
    if n > 0 {
      RangeFits(n - 1, s - {n});
    }
  }

  /** Pigeonhole: while some record has no identifier, the first clear bit is below the table size. */
  lemma FirstClearBit(ss: seq<Station>, bits: seq<bool>, i: nat, j: nat)
    requires AidsOk(ss, bits) && i < |ss| && ss[i].aid == 0
    requires j <= AID_BITS && forall b :: 0 <= b < j ==> bits[b]
    ensures j < |ss|
  {
    AidsBounded(ss);
    forall a | 1 <= a <= j
      ensures a in Aids(ss)
    {
      assert HasAid(ss, a) <==> bits[a - 1];
    }
    RangeFits(j, Aids(ss));
  }

  lemma AidTaken(ss: seq<Station>, bits: seq<bool>, i: nat, j: nat, s: Station)
    requires AidsOk(ss, bits) && i < |ss| && ss[i].aid == 0
    requires j < AID_BITS && j < |ss| && !bits[j] && s.aid == j + 1
    ensures AidsOk(ss[i := s], bits[j := true])
  {
    var after := ss[i := s];
    assert after[i].aid == j + 1;
    assert forall k :: 0 <= k < |ss| && k != i ==> after[k] == ss[k];
    assert !HasAid(ss, j + 1);
    forall a | 1 <= a <= AID_BITS
      ensures HasAid(after, a) <==> bits[j := true][a - 1]
    {
      if HasAid(ss, a) {
        var k :| 0 <= k < |ss| && ss[k].aid == a;
        assert after[k].aid == a;
      }
    }
  }

  lemma AidGiven(ss: seq<Station>, bits: seq<bool>, i: nat, s: Station)
    requires AidsOk(ss, bits) && i < |ss| && |ss| <= AID_BITS && s.aid == 0
    ensures ss[i].aid > 0 ==> AidsOk(ss[i := s], bits[ss[i].aid - 1 := false])
    ensures ss[i].aid == 0 ==> AidsOk(ss[i := s], bits)
  {
    var after := ss[i := s];
    assert forall k :: 0 <= k < |ss| && k != i ==> after[k] == ss[k];
    forall a | 1 <= a <= AID_BITS && a != ss[i].aid
      ensures HasAid(after, a) <==> HasAid(ss, a)
    {
      if HasAid(ss, a) {
        var k :| 0 <= k < |ss| && ss[k].aid == a;
        assert after[k].aid == a;
      }
    }
  }

  lemma AidsSame(ss: seq<Station>, bits: seq<bool>, after: seq<Station>)
    requires AidsOk(ss, bits) && |after| == |ss|
    requires forall k :: 0 <= k < |ss| ==> after[k].aid == ss[k].aid
    ensures AidsOk(after, bits)
  {
    forall a | 1 <= a <= AID_BITS
      ensures HasAid(after, a) <==> HasAid(ss, a)
    {
      if HasAid(ss, a) {
        var k :| 0 <= k < |ss| && ss[k].aid == a;
        assert after[k].aid == a;
      }
    }
  }

  // ---- The table ----

  ghost predicate TableOk(ss: seq<Station>) {
    && (forall i :: 0 <= i < |ss| ==> Fit(ss[i]))
    && (forall i, j :: 0 <= i < j < |ss| && ss[i].valid && ss[j].valid ==> ss[i].addr != ss[j].addr)
  }

  lemma TableUpdate(ss: seq<Station>, i: nat, s: Station)
    requires TableOk(ss) && i < |ss| && Fit(s)
    requires !s.valid || (ss[i].valid && s.addr == ss[i].addr)
             || forall k :: 0 <= k < |ss| && ss[k].valid ==> ss[k].addr != s.addr
    ensures TableOk(ss[i := s])
  {
    hide Fit;
  }

  // ---- The traffic indication ----

  function IgnoredForPoll(s: Station): AcSet { if s.uapsd == ALL_ACS then NO_ACS else s.uapsd }

  /** Whether a station has something waiting: in a category it does not trigger itself (in any, if it
      triggers all), or in the device. */
  predicate Indicate(s: Station) {
    || (exists ac :: 0 <= ac < NUM_ACS && !Has(IgnoredForPoll(s), ac) && At(s.queues, ac) != [])
    || s.fwQLen > 0
  }

  // ---- What each operation makes of a record ----

  datatype Reason = PsPoll | Uapsd

  /** `ieee80211_sta_ps_deliver_response`. */
  function Responded(s: Station, n: nat, ignored: AcSet, reason: Reason): Station {
    s.(queues := After(s.queues, ignored, n), sp := false,
       fwQLen := if s.fwQLen >= 0 && reason == PsPoll then s.fwQLen + |Taken(s.queues, ignored, n)| else s.fwQLen)
  }

  /** What it sends: the marked frames, or a null frame when there are none and the device has reported
      that it has none either. */
  function Response(s: Station, n: nat, ignored: AcSet, reason: Reason): seq<Sending> {
    if Taken(s.queues, ignored, n) == [] then
      if s.fwQLen < 0 && s.fwQLen != UNKNOWN_FW_QUEUE_LENGTH
      then [Null(NullTid(ignored), s.wmm, s.wmm && reason == Uapsd)] else []
    else Marked(Taken(s.queues, ignored, n), Eligible(After(s.queues, ignored, n), ignored) != [], reason == Uapsd)
  }

  /** The most frames of one service period: two for each unit of the setting, and eight for zero. */
  function ServiceLength(maxSp: int): (n: nat)
    ensures 1 <= maxSp <= 3 ==> n == 2 * maxSp
    ensures maxSp == 0 ==> n == 8
  {
    if maxSp == 1 then 2 else if maxSp == 2 then 4 else if maxSp == 3 then 6 else if maxSp == 0 then 8
    else if maxSp < 0 then 0 else maxSp
  }

  /** `sta_ps_deliver_wakeup`. */
  function Woken(s: Station): Station {
    s.(queues := EMPTY, sp := false, ps := false, fwQLen := UNKNOWN_FW_QUEUE_LENGTH)
  }

  /** `APStaInfo_DrvRemove`. */
  function DrvRemoved(s: Station): Station {
    if s.ps then s.(ps := false, queues := EMPTY, fwQLen := UNKNOWN_FW_QUEUE_LENGTH) else s
  }

  /** Everything buffered, most urgent category first; and least urgent first. */
  function AllFrames(q: Queues): seq<Frame> { q.vo + q.vi + q.be + q.bk }

  function Backwards(q: Queues): seq<Frame> { q.bk + q.be + q.vi + q.vo }

  lemma AllFramesCopies(q: Queues, f: Frame)
    ensures Copies(AllFrames(q), f) == Holds(q, f)
    ensures |AllFrames(q)| == Size(q)
  {
    hide Copies;
    CopiesConcat(q.vo + q.vi + q.be, q.bk, f);
    CopiesConcat(q.vo + q.vi, q.be, f);
    CopiesConcat(q.vo, q.vi, f);
  }

  /** `sta_info_buffer_expired`, on 32-bit ticks. */
  predicate BufferExpired(listenInterval: int, bcnInterval: int, f: Frame, now: int) {
    var t := (listenInterval * bcnInterval * 32 / 15625) * 1000;
    var timeout := if t < 10000 then 10000 else t;
    TimeAfter(now, f.queuedAt + timeout)
  }

  /** How many frames at the front of a queue have expired. */
  function Stale(q: seq<Frame>, listenInterval: int, bcnInterval: int, now: int): (k: nat)
    ensures k <= |q|
    ensures forall i :: 0 <= i < k ==> BufferExpired(listenInterval, bcnInterval, q[i], now)
    ensures k < |q| ==> !BufferExpired(listenInterval, bcnInterval, q[k], now)
  {
    if q != [] && BufferExpired(listenInterval, bcnInterval, q[0], now)
    then 1 + Stale(q[1..], listenInterval, bcnInterval, now) else 0
  }

  /** The queues without the expired frames at their fronts. */
  function Trimmed(s: Station, bcnInterval: int, now: int, upTo: int): Queues {
    var k := s.listenInterval;
    Queues(if upTo > 0 then s.queues.vo[Stale(s.queues.vo, k, bcnInterval, now)..] else s.queues.vo,
           if upTo > 1 then s.queues.vi[Stale(s.queues.vi, k, bcnInterval, now)..] else s.queues.vi,
           if upTo > 2 then s.queues.be[Stale(s.queues.be, k, bcnInterval, now)..] else s.queues.be,
           if upTo > 3 then s.queues.bk[Stale(s.queues.bk, k, bcnInterval, now)..] else s.queues.bk)
  }

  function Expire(s: Station, bcnInterval: int, now: int): Station {
    s.(queues := Trimmed(s, bcnInterval, now, NUM_ACS))
  }

  /** The expired frames of the first `k` categories, and of the first `k` records in use. */
  function StaleOf(s: Station, bcnInterval: int, now: int, k: nat): seq<Frame> {
    if k == 0 then []
    else
      var q := At(s.queues, k - 1);
      StaleOf(s, bcnInterval, now, k - 1) + q[..Stale(q, s.listenInterval, bcnInterval, now)]
  }

  function StaleAll(ss: seq<Station>, bcnInterval: int, now: int, k: nat): seq<Frame>
    requires k <= |ss|
  {
    if k == 0 then []
    else
      StaleAll(ss, bcnInterval, now, k - 1)
      + if ss[k - 1].valid then StaleOf(ss[k - 1], bcnInterval, now, NUM_ACS) else []
  }

  function ExpireAll(ss: seq<Station>, bcnInterval: int, now: int): (r: seq<Station>)
    ensures |r| == |ss| && forall i :: 0 <= i < |ss| ==> r[i] == Expire(ss[i], bcnInterval, now)
  {
    seq(|ss|, i requires 0 <= i < |ss| => Expire(ss[i], bcnInterval, now))
  }

  /** The indications after those of the first `k` records in use have been recomputed. */
  function Refreshed(tim: seq<bool>, ss: seq<Station>, k: nat): (r: seq<bool>)
    requires k <= |ss|
    ensures |r| == |tim|
  {
    if k == 0 then tim
    else
      var t := Refreshed(tim, ss, k - 1);
      if ss[k - 1].valid && 0 <= ss[k - 1].aid < |tim| then t[ss[k - 1].aid := Indicate(ss[k - 1])] else t
  }

  /** Recomputing all of them makes each associated station's bit right, and leaves bits that belong to
      nobody as they were. */
  lemma {:induction false} RefreshedMeaning(tim: seq<bool>, ss: seq<Station>, bits: seq<bool>, k: nat, a: nat)
    requires k <= |ss| && AidsOk(ss, bits) && 0 < a < |tim|
    ensures forall i :: 0 <= i < k && ss[i].valid && ss[i].aid == a ==> Refreshed(tim, ss, k)[a] == Indicate(ss[i])
    ensures (forall i :: 0 <= i < k && ss[i].valid ==> ss[i].aid != a) ==> Refreshed(tim, ss, k)[a] == tim[a]
  {
    hide Indicate;
    hide HasAid;
    if k > 0 { RefreshedMeaning(tim, ss, bits, k - 1, a); }
  }

  lemma {:induction false} SomeBuffered(ss: seq<Station>)
    ensures Total(ss).buffered > 0 <==> exists i :: 0 <= i < |ss| && Size(ss[i].queues) > 0
  {
    if ss != [] {
      var k := |ss| - 1;
      SomeBuffered(ss[..k]);
      TotalBounds(ss[..k]);
      assert forall i :: 0 <= i < k ==> ss[..k][i] == ss[i];
      if Size(ss[k].queues) == 0 && (exists i :: 0 <= i < |ss| && Size(ss[i].queues) > 0) {
        var i :| 0 <= i < |ss| && Size(ss[i].queues) > 0;
        assert Size(ss[..k][i].queues) > 0;
      }
    }
  }

  // ---- The invariant, on values ----

  function Max(a: int, b: int): int { if a >= b then a else b }

  /** What every handler keeps: the counters are the sums over the table, no more frames are buffered than
      the pool allows (one, if the pool is empty), and the identifiers are in order. */
  ghost predicate Sound(ss: seq<Station>, num: Tally, bits: seq<bool>, pool: int) {
    && 1 <= |ss| <= AID_BITS
    && TableOk(ss)
    && num == Total(ss)
    && num.buffered <= Max(pool, 1)
    && AidsOk(ss, bits)
  }

  lemma SoundReplace(ss: seq<Station>, num: Tally, bits: seq<bool>, pool: int, i: nat, s: Station, num': Tally)
    requires Sound(ss, num, bits, pool) && i < |ss| && Fit(s)
    requires s.aid == ss[i].aid && s.valid == ss[i].valid && s.addr == ss[i].addr
    requires num' == Plus(Minus(num, Share(ss[i])), Share(s))
    requires num'.buffered <= Max(pool, 1)
    ensures Sound(ss[i := s], num', bits, pool)
  {
    hide Share;
    hide Fit;
    hide AidsOk;
    TotalUpdate(ss, i, s);
    TableUpdate(ss, i, s);
    AidsSame(ss, bits, ss[i := s]);
  }

  /** A frame accepted for buffering, with the record and the category it was accepted for. */
  datatype Tag = Tag(slot: nat, ac: int, frame: Frame)

  function FramesIn(tags: seq<Tag>): seq<Frame> {
    seq(|tags|, i requires 0 <= i < |tags| => tags[i].frame)
  }

  /** The frames accepted for one category of one record, oldest first. */
  function For(tags: seq<Tag>, slot: nat, ac: int): seq<Frame> {
    if tags == [] then []
    else
      var t := tags[|tags| - 1];
      For(tags[..|tags| - 1], slot, ac) + if t.slot == slot && t.ac == ac then [t.frame] else []
  }

  /** `s` is what remains of `t` when some of its first elements are gone. */
  predicate Remainder(s: seq<Frame>, t: seq<Frame>) {
    |s| <= |t| && s == t[|t| - |s|..]
  }

  /** First in, first out: every queue holds the latest of the frames accepted for it, in order. */
  ghost predicate Lined(ss: seq<Station>, accepted: seq<Tag>) {
    forall i, ac :: 0 <= i < |ss| && 0 <= ac < NUM_ACS ==> Remainder(At(ss[i].queues, ac), For(accepted, i, ac))
  }

  /** Every frame accepted for buffering was sent, was dropped or is still buffered, as often as it was
      accepted; and those still buffered are, in each queue, the latest accepted for it. */
  ghost predicate Conserved(ss: seq<Station>, accepted: seq<Tag>, sent: seq<Frame>, dropped: seq<Frame>) {
    && (forall f: Frame :: Copies(FramesIn(accepted), f) == Copies(sent, f) + Copies(dropped, f) + Held(ss, f))
    && Lined(ss, accepted)
  }

  /** The frames `out` are gone, from the fronts of the queues. */
  ghost predicate Leaves(q: Queues, after: Queues, out: seq<Frame>) {
    && (forall f: Frame :: Holds(after, f) + Copies(out, f) == Holds(q, f))
    && Shrinks(q, after)
  }

  ghost predicate Shrinks(q: Queues, after: Queues) {
    forall ac :: 0 <= ac < NUM_ACS ==> Remainder(At(after, ac), At(q, ac))
  }

  lemma RemainderOf(t: seq<Frame>, k: nat)
    requires k <= |t|
    ensures Remainder(t[k..], t)
  {
  }

  lemma RemainderTrans(r: seq<Frame>, s: seq<Frame>, t: seq<Frame>)
    requires Remainder(r, s) && Remainder(s, t)
    ensures Remainder(r, t)
  {
    assert r == t[|t| - |s|..][|s| - |r|..];
  }

  lemma LinedReplace(ss: seq<Station>, accepted: seq<Tag>, i: nat, s: Station)
    requires Lined(ss, accepted) && i < |ss| && Shrinks(ss[i].queues, s.queues)
    ensures Lined(ss[i := s], accepted)
  {
    hide At;
    hide Remainder;
    hide For;
    forall ac | 0 <= ac < NUM_ACS
      ensures Remainder(At(s.queues, ac), For(accepted, i, ac))
    {
      RemainderTrans(At(s.queues, ac), At(ss[i].queues, ac), For(accepted, i, ac));
    }
  }

  /** So, within a category, frames leave in the order in which they were accepted: if one is still waiting,
      so is every later one. */
  lemma LeaveInOrder(ss: seq<Station>, accepted: seq<Tag>, sent: seq<Frame>, dropped: seq<Frame>,
                     i: nat, ac: int, j: nat, k: nat)
    requires Conserved(ss, accepted, sent, dropped) && i < |ss| && 0 <= ac < NUM_ACS
    requires |For(accepted, i, ac)| - |At(ss[i].queues, ac)| <= j <= k < |For(accepted, i, ac)|
    ensures var gone := |For(accepted, i, ac)| - |At(ss[i].queues, ac)|;
      && gone >= 0
      && At(ss[i].queues, ac)[j - gone] == For(accepted, i, ac)[j]
      && At(ss[i].queues, ac)[k - gone] == For(accepted, i, ac)[k]
  {
    hide Copies;
    hide Held;
    hide At;
    hide For;
    assert Remainder(At(ss[i].queues, ac), For(accepted, i, ac));
  }

  lemma ConservedReplace(ss: seq<Station>, accepted: seq<Tag>, sent: seq<Frame>, dropped: seq<Frame>,
                         i: nat, s: Station, out: seq<Frame>)
    requires Conserved(ss, accepted, sent, dropped) && i < |ss|
    requires Leaves(ss[i].queues, s.queues, out)
    ensures Conserved(ss[i := s], accepted, sent + out, dropped)
    ensures Conserved(ss[i := s], accepted, sent, dropped + out)
  {
    hide Copies;
    hide Holds;
    hide Held;
    hide FramesIn;
    hide Lined;
    hide Shrinks;
    LinedReplace(ss, accepted, i, s);
    forall f: Frame
      ensures Copies(sent + out, f) == Copies(sent, f) + Copies(out, f)
      ensures Copies(dropped + out, f) == Copies(dropped, f) + Copies(out, f)
      ensures Held(ss[i := s], f) == Held(ss, f) - Copies(out, f)
    {
      CopiesConcat(sent, out, f);
      CopiesConcat(dropped, out, f);
      HeldUpdate(ss, i, s, f);
    }
  }

  lemma NothingLeaves(q: Queues)
    ensures Leaves(q, q, [])
  {
  }

  lemma ConservedSame(ss: seq<Station>, accepted: seq<Tag>, sent: seq<Frame>, dropped: seq<Frame>, i: nat, s: Station)
    requires Conserved(ss, accepted, sent, dropped) && i < |ss| && s.queues == ss[i].queues
    ensures Conserved(ss[i := s], accepted, sent, dropped)
  {
    hide Leaves;
    hide Conserved;
    NothingLeaves(s.queues);
    ConservedReplace(ss, accepted, sent, dropped, i, s, []);
    assert sent + [] == sent;
  }

  lemma AllLeave(q: Queues)
    ensures Leaves(q, EMPTY, AllFrames(q)) && Leaves(q, EMPTY, Backwards(q))
    ensures |AllFrames(q)| == |Backwards(q)| == Size(q)
  {
    forall f: Frame
      ensures Holds(EMPTY, f) + Copies(AllFrames(q), f) == Holds(q, f)
      ensures Holds(EMPTY, f) + Copies(Backwards(q), f) == Holds(q, f)
    {
      AllFramesCopies(q, f);
      AllFramesCopies(Queues(q.bk, q.be, q.vi, q.vo), f);
    }
  }

  lemma ResponseLeaves(q: Queues, ignored: AcSet, n: nat)
    ensures Leaves(q, After(q, ignored, n), Taken(q, ignored, n))
  {
    hide Holds;
    hide Copies;
    hide After;
    hide Taken;
    forall f: Frame
      ensures Holds(After(q, ignored, n), f) + Copies(Taken(q, ignored, n), f) == Holds(q, f)
    {
      ResponseKeepsCopies(q, ignored, n, f);
    }
    ResponseShrinks(q, ignored, n);
  }

  lemma ResponseShrinks(q: Queues, ignored: AcSet, n: nat)
    ensures Shrinks(q, After(q, ignored, n))
  {
    hide After;
    hide At;
    hide Served;
    forall ac | 0 <= ac < NUM_ACS
      ensures Remainder(At(After(q, ignored, n), ac), At(q, ac))
    {
      AfterAt(q, ignored, n, ac);
      RemainderOf(At(q, ac), Served(q, ignored, n, ac));
    }
  }

  lemma FrontLeaves(q: Queues, ac: int, k: nat)
    requires 0 <= ac < NUM_ACS && k <= |At(q, ac)|
    ensures Leaves(q, Put(q, ac, At(q, ac)[k..]), At(q, ac)[..k])
    ensures Size(Put(q, ac, At(q, ac)[k..])) == Size(q) - k
    ensures Bounded(q) ==> Bounded(Put(q, ac, At(q, ac)[k..]))
  {
    hide Holds;
    hide Copies;
    hide Put;
    hide Size;
    hide Bounded;
    hide Shrinks;
    hide At;
    HoldsPut(q, ac, At(q, ac)[k..], Frame(0, false, 0));
    FrontShrinks(q, ac, k);
    FrontBounded(q, ac, k);
    forall f: Frame
      ensures Holds(Put(q, ac, At(q, ac)[k..]), f) + Copies(At(q, ac)[..k], f) == Holds(q, f)
    {
      HoldsPut(q, ac, At(q, ac)[k..], f);
      CopiesSplit(At(q, ac), k, f);
    }
  }

  lemma FrontShrinks(q: Queues, ac: int, k: nat)
    requires 0 <= ac < NUM_ACS && k <= |At(q, ac)|
    ensures Shrinks(q, Put(q, ac, At(q, ac)[k..]))
  {
    hide Put;
    hide At;
    RemainderOf(At(q, ac), k);
  }

  lemma FrontBounded(q: Queues, ac: int, k: nat)
    requires 0 <= ac < NUM_ACS && k <= |At(q, ac)|
    ensures Bounded(q) ==> Bounded(Put(q, ac, At(q, ac)[k..]))
  {
  }

  /** Purging the whole table. */
  lemma {:induction false} PurgeHeld(ss: seq<Station>, f: Frame)
    ensures Held(PurgeTable(ss), f) + Copies(Victims(ss), f) == Held(ss, f)
  {
    hide Holds;
    hide Copies;
    hide OldestVictim;
    hide PurgeOldest;
    CopiesConcat([], [], f);
    assert [] + [] == Victims([]);
    if ss != [] {
      var k := |ss| - 1;
      PurgeHeld(ss[..k], f);
      PurgeKeepsCopies(ss[k].queues, f);
      assert PurgeTable(ss)[..k] == PurgeTable(ss[..k]);
      CopiesConcat(Victims(ss[..k]), Victim(ss[k]), f);
    }
  }

  lemma PurgeShrinks(s: Station)
    ensures Shrinks(s.queues, PurgeRecord(s).queues)
  {
    var ac := LeastUrgent(s.queues);
    if s.valid && ac >= 0 { RemainderOf(At(s.queues, ac), 1); }
  }

  lemma PurgeLined(ss: seq<Station>, accepted: seq<Tag>)
    requires Lined(ss, accepted)
    ensures Lined(PurgeTable(ss), accepted)
  {
    hide At;
    hide Remainder;
    hide For;
    hide PurgeRecord;
    forall i, ac | 0 <= i < |ss| && 0 <= ac < NUM_ACS
      ensures Remainder(At(PurgeTable(ss)[i].queues, ac), For(accepted, i, ac))
    {
      PurgeShrinks(ss[i]);
      RemainderTrans(At(PurgeTable(ss)[i].queues, ac), At(ss[i].queues, ac), For(accepted, i, ac));
    }
  }

  lemma PurgeConserves(ss: seq<Station>, accepted: seq<Tag>, sent: seq<Frame>, dropped: seq<Frame>)
    requires Conserved(ss, accepted, sent, dropped)
    ensures Conserved(PurgeTable(ss), accepted, sent, dropped + Victims(ss))
  {
    hide Copies;
    hide Held;
    hide Victims;
    hide FramesIn;
    hide Lined;
    PurgeLined(ss, accepted);
    forall f: Frame
      ensures Copies(dropped + Victims(ss), f) + Held(PurgeTable(ss), f) == Copies(dropped, f) + Held(ss, f)
    {
      PurgeHeld(ss, f);
      CopiesConcat(dropped, Victims(ss), f);
    }
  }

  lemma PurgeSound(ss: seq<Station>, num: Tally, bits: seq<bool>, pool: int)
    requires Sound(ss, num, bits, pool)
    ensures Sound(PurgeTable(ss), num.(buffered := num.buffered - |Victims(ss)|), bits, pool)
    ensures num.buffered > 0 ==> |Victims(ss)| > 0
  {
    hide Share;
    hide Fit;
    hide PurgeOldest;
    hide AidsOk;
    PurgeMakesRoom(ss);
    AidsSame(ss, bits, PurgeTable(ss));
    forall i | 0 <= i < |ss|
      ensures Fit(PurgeTable(ss)[i])
    {
      PurgeShare(ss[i]);
    }
  }
}
