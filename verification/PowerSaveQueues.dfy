/**
 The four power-save queues of a station, one per access category, and the frames a service period or a
 poll takes from them.
 */
module PowerSaveQueues {

  datatype Frame = Frame(id: int, qos: bool, queuedAt: int)

  /** Access categories are numbered from the most urgent: 0 voice, 1 video, 2 best effort, 3 background. */
  const NUM_ACS := 4

  datatype Queues = Queues(vo: seq<Frame>, vi: seq<Frame>, be: seq<Frame>, bk: seq<Frame>)

  /** A set of access categories, as the low four bits of an octet. */
  datatype AcSet = AcSet(vo: bool, vi: bool, be: bool, bk: bool)

  const EMPTY := Queues([], [], [], [])
  const NO_ACS := AcSet(false, false, false, false)
  const ALL_ACS := AcSet(true, true, true, true)

  function At(q: Queues, ac: int): seq<Frame> {
    if ac == 0 then q.vo else if ac == 1 then q.vi else if ac == 2 then q.be else q.bk
  }

  function Put(q: Queues, ac: int, s: seq<Frame>): (r: Queues)
    requires 0 <= ac < NUM_ACS
    ensures At(r, ac) == s
    ensures forall a :: 0 <= a < NUM_ACS && a != ac ==> At(r, a) == At(q, a)
  {
    if ac == 0 then q.(vo := s) else if ac == 1 then q.(vi := s) else if ac == 2 then q.(be := s) else q.(bk := s)
  }

  function Has(a: AcSet, ac: int): bool {
    if ac == 0 then a.vo else if ac == 1 then a.vi else if ac == 2 then a.be else a.bk
  }

  function Complement(a: AcSet): AcSet { AcSet(!a.vo, !a.vi, !a.be, !a.bk) }

  function Size(q: Queues): nat { |q.vo| + |q.vi| + |q.be| + |q.bk| }

  lemma QueuesEqual(p: Queues, q: Queues)
    requires forall ac :: 0 <= ac < NUM_ACS ==> At(p, ac) == At(q, ac)
    ensures p == q
  {
    assert At(p, 0) == At(q, 0) && At(p, 1) == At(q, 1) && At(p, 2) == At(q, 2) && At(p, 3) == At(q, 3);
  }

  function Min(a: int, b: int): int { if a <= b then a else b }

  // ---- What a response may take ----

  /** The frames of the categories below `ac` that are not ignored, most urgent category first. */
  function Before(q: Queues, ignored: AcSet, ac: nat): seq<Frame> {
    if ac == 0 then []
    else Before(q, ignored, ac - 1) + if Has(ignored, ac - 1) then [] else At(q, ac - 1)
  }

  function Eligible(q: Queues, ignored: AcSet): seq<Frame> { Before(q, ignored, NUM_ACS) }

  /** How many frames of category `ac` a response of at most `n` frames takes: what the more urgent
      categories leave of `n`. */
  function Served(q: Queues, ignored: AcSet, n: nat, ac: nat): (k: nat)
    ensures k <= |At(q, ac)|
  {
    if Has(ignored, ac) || n <= |Before(q, ignored, ac)| then 0
    else Min(n - |Before(q, ignored, ac)|, |At(q, ac)|)
  }

  /** The queues a response of at most `n` frames leaves behind. */
  function After(q: Queues, ignored: AcSet, n: nat): Queues {
    Queues(q.vo[Served(q, ignored, n, 0)..], q.vi[Served(q, ignored, n, 1)..],
           q.be[Served(q, ignored, n, 2)..], q.bk[Served(q, ignored, n, 3)..])
  }

  function Taken(q: Queues, ignored: AcSet, n: nat): seq<Frame> {
    Eligible(q, ignored)[..Min(n, |Eligible(q, ignored)|)]
  }

  lemma AfterAt(q: Queues, ignored: AcSet, n: nat, ac: nat)
    requires ac < NUM_ACS
    ensures At(After(q, ignored, n), ac) == At(q, ac)[Served(q, ignored, n, ac)..]
  {
  }

  /** What is left of the eligible frames is what was not taken, in the same order. */
  lemma {:induction false} BeforeSplit(q: Queues, ignored: AcSet, n: nat, ac: nat)
    requires ac <= NUM_ACS
    ensures Before(After(q, ignored, n), ignored, ac) == Before(q, ignored, ac)[Min(n, |Before(q, ignored, ac)|)..]
  {
    hide After;
    hide At;
    hide Has;
    if ac > 0 {
      BeforeSplit(q, ignored, n, ac - 1);
      AfterAt(q, ignored, n, ac - 1);
    }
  }

  /** A response splits the eligible frames: it takes the first `n`, most urgent category first and
      oldest first within a category, and leaves the rest; the other categories are untouched. */
  lemma ResponseSplits(q: Queues, ignored: AcSet, n: nat)
    ensures Taken(q, ignored, n) + Eligible(After(q, ignored, n), ignored) == Eligible(q, ignored)
    ensures |Taken(q, ignored, n)| <= n
    ensures |Taken(q, ignored, n)| < n ==> Eligible(After(q, ignored, n), ignored) == []
    ensures forall ac :: 0 <= ac < NUM_ACS && Has(ignored, ac) ==> At(After(q, ignored, n), ac) == At(q, ac)
    ensures Size(After(q, ignored, n)) == Size(q) - |Taken(q, ignored, n)|
  {
    hide After;
    hide Before;
    hide Size;
    hide At;
    hide Has;
    forall ac | 0 <= ac < NUM_ACS && Has(ignored, ac)
      ensures At(After(q, ignored, n), ac) == At(q, ac)
    {
      AfterAt(q, ignored, n, ac);
    }
    BeforeSplit(q, ignored, n, NUM_ACS);
    SizeAfter(q, ignored, n);
  }

  function ServedUpTo(q: Queues, ignored: AcSet, n: nat, ac: nat): int {
    if ac == 0 then 0 else ServedUpTo(q, ignored, n, ac - 1) + Served(q, ignored, n, ac - 1)
  }

  lemma {:induction false} SizeSplit(q: Queues, ignored: AcSet, n: nat, ac: nat)
    ensures ServedUpTo(q, ignored, n, ac) == Min(n, |Before(q, ignored, ac)|)
  {
    hide At;
    hide Has;
    if ac > 0 { SizeSplit(q, ignored, n, ac - 1); }
  }

  lemma ServedInAll(q: Queues, ignored: AcSet, n: nat)
    ensures ServedUpTo(q, ignored, n, 4)
         == Served(q, ignored, n, 0) + Served(q, ignored, n, 1) + Served(q, ignored, n, 2) + Served(q, ignored, n, 3)
  {
    hide Served;
    assert ServedUpTo(q, ignored, n, 3) == ServedUpTo(q, ignored, n, 2) + Served(q, ignored, n, 2);
    assert ServedUpTo(q, ignored, n, 1) == ServedUpTo(q, ignored, n, 0) + Served(q, ignored, n, 0);
    assert ServedUpTo(q, ignored, n, 2) == Served(q, ignored, n, 0) + Served(q, ignored, n, 1);
  }

  lemma SizeAfter(q: Queues, ignored: AcSet, n: nat)
    ensures Size(After(q, ignored, n)) == Size(q) - Min(n, |Eligible(q, ignored)|)
  {
    SizeSplit(q, ignored, n, 4);
    ServedInAll(q, ignored, n);
    hide Served;
    hide ServedUpTo;
    hide Before;
  }

  /** The first `k` categories have given up what a response takes from them; the others are untouched. */
  ghost predicate Reached(q: Queues, ignored: AcSet, n: nat, rest: Queues, k: nat) {
    && (forall a :: 0 <= a < k ==> At(rest, a) == At(q, a)[Served(q, ignored, n, a)..])
    && (forall a :: k <= a < NUM_ACS ==> At(rest, a) == At(q, a))
  }

  lemma ReachedStep(q: Queues, ignored: AcSet, n: nat, rest: Queues, k: nat, s: seq<Frame>)
    requires k < NUM_ACS && Reached(q, ignored, n, rest, k)
    requires s == At(q, k)[Served(q, ignored, n, k)..]
    ensures Reached(q, ignored, n, Put(rest, k, s), k + 1)
  {
    hide At;
    hide Served;
    hide Put;
  }

  lemma ReachedStart(q: Queues, ignored: AcSet, n: nat)
    ensures Reached(q, ignored, n, q, 0)
  {
  }

  lemma ReachedHere(q: Queues, ignored: AcSet, n: nat, rest: Queues, k: nat)
    requires k < NUM_ACS && Reached(q, ignored, n, rest, k)
    ensures At(rest, k) == At(q, k)
  {
  }

  lemma BeforeNone(q: Queues, ignored: AcSet)
    ensures Before(q, ignored, 0) == []
  {
  }

  /** One category of the collection. */
  lemma BeforeStep(q: Queues, ignored: AcSet, n: nat, k: nat, taken: seq<Frame>, got: seq<Frame>, left: seq<Frame>)
    requires k < NUM_ACS && |taken| <= n && taken == Before(q, ignored, k)
    requires var s := if Has(ignored, k) then [] else At(q, k);
      got == s[..Min(n - |taken|, |s|)] && left == s[Min(n - |taken|, |s|)..]
    ensures |taken + got| <= n
    ensures taken + got == Before(q, ignored, k + 1)[..Min(n, |Before(q, ignored, k + 1)|)]
    ensures left != [] ==> |taken + got| == n < |Before(q, ignored, k + 1)|
    ensures left == [] ==> taken + got == Before(q, ignored, k + 1)
    ensures !Has(ignored, k) ==> left == At(q, k)[Served(q, ignored, n, k)..]
    ensures Has(ignored, k) ==> Served(q, ignored, n, k) == 0
  {
    hide At;
    hide Has;
  }

  /** The inner loop of the collection: up to `n` frames from the front of one queue. */
  method Drain(s: seq<Frame>, n: nat) returns (got: seq<Frame>, rest: seq<Frame>)
    ensures got == s[..Min(n, |s|)] && rest == s[Min(n, |s|)..]
  {
    got, rest := [], s;
    while |got| < n && rest != []
      invariant |got| <= n && |got| <= |s|
      invariant got == s[..|got|] && rest == s[|got|..]
      decreases |rest|
    {
      got := got + [rest[0]];
      rest := rest[1..];
    }
  }

  /** The collection after the first `ac` categories. */
  ghost predicate Collected(q: Queues, ignored: AcSet, n: nat, taken: seq<Frame>, rest: Queues, more: bool, ac: nat) {
    && ac <= NUM_ACS && |taken| <= n
    && taken == Before(q, ignored, ac)[..Min(n, |Before(q, ignored, ac)|)]
    && (more ==> |taken| == n < |Before(q, ignored, ac)|)
    && (!more ==> taken == Before(q, ignored, ac))
    && Reached(q, ignored, n, rest, ac)
  }

  lemma CollectStep(q: Queues, ignored: AcSet, n: nat, taken: seq<Frame>, rest: Queues, ac: nat,
                    got: seq<Frame>, left: seq<Frame>)
    requires ac < NUM_ACS && Collected(q, ignored, n, taken, rest, false, ac)
    requires var s := if Has(ignored, ac) then [] else At(rest, ac);
      got == s[..Min(n - |taken|, |s|)] && left == s[Min(n - |taken|, |s|)..]
    ensures Collected(q, ignored, n, taken + got, if Has(ignored, ac) then rest else Put(rest, ac, left), left != [], ac + 1)
  {
    hide At;
    hide Has;
    hide Put;
    hide Reached;
    hide Before;
    hide Served;
    ReachedHere(q, ignored, n, rest, ac);
    BeforeStep(q, ignored, n, ac, taken, got, left);
    if Has(ignored, ac) {
      ReachedStep(q, ignored, n, rest, ac, At(q, ac)[0..]);
      PutSame(rest, ac);
    } else {
      ReachedStep(q, ignored, n, rest, ac, left);
    }
  }

  /** `ieee80211_sta_ps_deliver_response`, the loops that collect the frames. */
  method TakeFrames(q: Queues, ignored: AcSet, n: nat) returns (taken: seq<Frame>, rest: Queues, more: bool)
    ensures taken == Taken(q, ignored, n)
    ensures rest == After(q, ignored, n)
    ensures more <==> Eligible(rest, ignored) != []
  {
    hide After;
    hide Taken;
    hide Eligible;
    hide At;
    hide Has;
    hide Put;
    hide Collected;
    taken, rest, more := [], q, false;
    CollectStart(q, ignored, n);
    var ac := 0;
    while ac < NUM_ACS && !more
      invariant 0 <= ac <= NUM_ACS && |taken| <= n
      invariant Collected(q, ignored, n, taken, rest, more, ac)
      decreases NUM_ACS - ac
    {
      var got, left := [], [];
      if !Has(ignored, ac) { got, left := Drain(At(rest, ac), n - |taken|); }
      CollectStep(q, ignored, n, taken, rest, ac, got, left);
      CollectedLength(q, ignored, n, taken + got, if Has(ignored, ac) then rest else Put(rest, ac, left), left != [], ac + 1);
      taken := taken + got;
      if !Has(ignored, ac) { rest := Put(rest, ac, left); }
      more := left != [];
      ac := ac + 1;
    }
    CollectDone(q, ignored, n, taken, rest, more, ac);
  }

  lemma CollectStart(q: Queues, ignored: AcSet, n: nat)
    ensures Collected(q, ignored, n, [], q, false, 0)
  {
    ReachedStart(q, ignored, n);
    BeforeNone(q, ignored);
  }

  lemma CollectedLength(q: Queues, ignored: AcSet, n: nat, taken: seq<Frame>, rest: Queues, more: bool, ac: nat)
    requires Collected(q, ignored, n, taken, rest, more, ac)
    ensures |taken| <= n
  {
  }

  lemma CollectDone(q: Queues, ignored: AcSet, n: nat, taken: seq<Frame>, rest: Queues, more: bool, ac: nat)
    requires Collected(q, ignored, n, taken, rest, more, ac) && (more || ac == NUM_ACS)
    ensures taken == Taken(q, ignored, n) && rest == After(q, ignored, n)
    ensures more <==> Eligible(rest, ignored) != []
  {
    hide After;
    hide Reached;
    hide Before;
    TakenSoFar(q, ignored, n, taken, rest, ac);
  }

  lemma PutSame(q: Queues, ac: int)
    requires 0 <= ac < NUM_ACS
    ensures Put(q, ac, At(q, ac)[0..]) == q
  {
  }

  lemma {:induction false} BeforePrefix(q: Queues, ignored: AcSet, a: nat, b: nat)
    requires a <= b
    ensures |Before(q, ignored, a)| <= |Before(q, ignored, b)|
    ensures Before(q, ignored, a) == Before(q, ignored, b)[..|Before(q, ignored, a)|]
    decreases b
  {
    hide At;
    hide Has;
    if a < b { BeforePrefix(q, ignored, a, b - 1); }
  }

  /** Where the collection stops, nothing more is due from the categories it did not reach. */
  lemma TakenSoFar(q: Queues, ignored: AcSet, n: nat, taken: seq<Frame>, rest: Queues, ac: nat)
    requires ac <= NUM_ACS && Reached(q, ignored, n, rest, ac)
    requires taken == Before(q, ignored, ac)[..Min(n, |Before(q, ignored, ac)|)]
    requires ac == NUM_ACS || n < |Before(q, ignored, ac)|
    ensures taken == Taken(q, ignored, n) && rest == After(q, ignored, n)
    ensures Eligible(rest, ignored) != [] <==> n < |Eligible(q, ignored)|
    ensures n < |Before(q, ignored, ac)| ==> n < |Eligible(q, ignored)|
  {
    hide After;
    hide At;
    hide Has;
    hide Before;
    BeforePrefix(q, ignored, ac, NUM_ACS);
    forall a | 0 <= a < NUM_ACS
      ensures At(rest, a) == At(After(q, ignored, n), a)
    {
      AfterAt(q, ignored, n, a);
      if a >= ac { BeforePrefix(q, ignored, ac, a); }
    }
    QueuesEqual(rest, After(q, ignored, n));
    BeforeSplit(q, ignored, n, NUM_ACS);
  }

  lemma AfterBounded(q: Queues, ignored: AcSet, n: nat)
    ensures Size(After(q, ignored, n)) <= Size(q)
    ensures Bounded(q) ==> Bounded(After(q, ignored, n))
  {
    hide Served;
  }

  // ---- Marking the frames of a response ----

  /** What goes to the transmit path: a buffered frame with its More Data and end-of-service-period
      marks, or a null frame. */
  datatype Sending =
    | Data(frame: Frame, moreData: bool, eosp: bool)
    | Plain(frame: Frame)                        // handed on unmarked at wake-up
    | Null(tid: int, qos: bool, eosp: bool)

  function Marked(frames: seq<Frame>, more: bool, uapsd: bool): (r: seq<Sending>)
    ensures |r| == |frames|
  {
    seq(|frames|, i requires 0 <= i < |frames| =>
      Data(frames[i], more || i + 1 < |frames|, uapsd && i + 1 == |frames| && frames[i].qos))
  }

  /** `ieee80211_sta_ps_deliver_response`, the loop that marks and sends. */
  method MarkFrames(frames: seq<Frame>, more: bool, uapsd: bool) returns (out: seq<Sending>)
    ensures out == Marked(frames, more, uapsd)
  {
    out := [];
    var queue := frames;
    while queue != []
      invariant |out| <= |frames| && queue == frames[|out|..]
      invariant forall i :: 0 <= i < |out| ==> out[i] == Marked(frames, more, uapsd)[i]
      decreases |queue|
    {
      var f := queue[0];
      queue := queue[1..];
      out := out + [Data(f, more || queue != [], uapsd && queue == [] && f.qos)];
    }
  }

  /** More Data is set on every frame but the last, and on the last exactly when an eligible frame is
      still buffered; the end of the service period is marked on no frame but the last, and on that one
      exactly when it is a QoS frame of a service period. */
  lemma ResponseMarks(q: Queues, ignored: AcSet, n: nat, uapsd: bool)
    ensures var out := Marked(Taken(q, ignored, n), Eligible(After(q, ignored, n), ignored) != [], uapsd);
      && |out| == Min(n, |Eligible(q, ignored)|)
      && (forall i :: 0 <= i < |out| ==> out[i].frame == Eligible(q, ignored)[i])
      && (forall i :: 0 <= i < |out| - 1 ==> out[i].moreData && !out[i].eosp)
      && (out != [] ==>
            && (out[|out| - 1].moreData <==> |out| < |Eligible(q, ignored)|)
            && (out[|out| - 1].eosp <==> uapsd && out[|out| - 1].frame.qos))
  {
    hide After;
    hide Before;
    hide Size;
    ResponseSplits(q, ignored, n);
  }

  /** `tid = 7 - ((ffs(~ignored_acs) - 1) << 1)`. */
  function NullTid(ignored: AcSet): int {
    if !ignored.vo then 7 else if !ignored.vi then 5 else if !ignored.be then 3 else if !ignored.bk then 1 else -1
  }

  /** `up_to_ac`: the priorities of 802.1D, paired off. */
  function UpToAc(up: int): (ac: int)
    ensures 0 <= ac < NUM_ACS
    ensures 0 <= up < 8 ==> ac == [2, 3, 3, 2, 1, 1, 0, 0][up]
  {
    if up == 1 || up == 2 then 3 else if up == 4 || up == 5 then 1 else if up == 6 || up == 7 then 0 else 2
  }

  /** A null frame goes out in the most urgent category that is not ignored. */
  lemma NullTidIsMostUrgent(ignored: AcSet)
    requires ignored != ALL_ACS
    ensures !Has(ignored, UpToAc(NullTid(ignored)))
    ensures forall ac :: 0 <= ac < UpToAc(NullTid(ignored)) ==> Has(ignored, ac)
  {
  }

  // ---- Other ways out of a queue ----

  /** `purge_old_ps_buffers` for one station: the oldest frame of the least urgent category that has any. */
  function LeastUrgent(q: Queues): (ac: int)
    ensures -1 <= ac < NUM_ACS
    ensures ac == -1 <==> Size(q) == 0
    ensures ac >= 0 ==> At(q, ac) != []
    ensures forall a :: ac < a < NUM_ACS ==> At(q, a) == []
  {
    if q.bk != [] then 3 else if q.be != [] then 2 else if q.vi != [] then 1 else if q.vo != [] then 0 else -1
  }

  function PurgeOldest(q: Queues): (r: Queues)
    ensures Size(r) == if Size(q) == 0 then 0 else Size(q) - 1
  {
    var ac := LeastUrgent(q);
    if ac < 0 then q else Put(q, ac, At(q, ac)[1..])
  }

  function OldestVictim(q: Queues): seq<Frame> {
    var ac := LeastUrgent(q);
    if ac < 0 then [] else [At(q, ac)[0]]
  }

  lemma PurgeSize(q: Queues)
    ensures |OldestVictim(q)| == if Size(q) == 0 then 0 else 1
    ensures Size(PurgeOldest(q)) == Size(q) - |OldestVictim(q)|
    ensures Bounded(q) ==> Bounded(PurgeOldest(q))
    ensures Size(q) == 0 <==> q == EMPTY
  {
  }

  const STA_MAX_TX_BUFFER := 128

  /** A full queue gives up its oldest frame for the new one. */
  function Enqueue(q: Queues, ac: int, f: Frame): Queues
    requires 0 <= ac < NUM_ACS
  {
    var s := At(q, ac);
    Put(q, ac, (if |s| >= STA_MAX_TX_BUFFER then s[1..] else s) + [f])
  }

  /** Category `ac` has got `f` at its tail, and has lost its oldest frame exactly if it was full; the other
      categories are as they were. */
  ghost predicate Appended(q: Queues, after: Queues, ac: int, f: Frame)
    requires 0 <= ac < NUM_ACS
  {
    && At(after, ac) == At(q, ac)[if |At(q, ac)| >= STA_MAX_TX_BUFFER then 1 else 0..] + [f]
    && forall a :: 0 <= a < NUM_ACS && a != ac ==> At(after, a) == At(q, a)
  }

  /** The new frame goes to the tail; the queue gives up its oldest frame exactly when it is full, and the
      other categories are untouched. */
  lemma EnqueueAppends(q: Queues, ac: int, f: Frame)
    requires 0 <= ac < NUM_ACS
    ensures Appended(q, Enqueue(q, ac, f), ac, f)
    ensures EnqueueVictim(q, ac) == At(q, ac)[..if |At(q, ac)| >= STA_MAX_TX_BUFFER then 1 else 0]
  {
    hide At;
    hide Put;
    var s := At(q, ac);
    assert s[0..] == s;
    if |s| >= STA_MAX_TX_BUFFER { assert s[..1] == [s[0]]; }
  }

  function EnqueueVictim(q: Queues, ac: int): seq<Frame>
    requires 0 <= ac < NUM_ACS
  {
    if |At(q, ac)| >= STA_MAX_TX_BUFFER then [At(q, ac)[0]] else []
  }

  predicate Bounded(q: Queues) {
    |q.vo| <= STA_MAX_TX_BUFFER && |q.vi| <= STA_MAX_TX_BUFFER && |q.be| <= STA_MAX_TX_BUFFER && |q.bk| <= STA_MAX_TX_BUFFER
  }

  // ---- Counting copies of a frame ----

  function Copies(s: seq<Frame>, f: Frame): nat {
    if s == [] then 0 else Copies(s[..|s| - 1], f) + if s[|s| - 1] == f then 1 else 0
  }

  function Holds(q: Queues, f: Frame): nat {
    Copies(q.vo, f) + Copies(q.vi, f) + Copies(q.be, f) + Copies(q.bk, f)
  }

  lemma {:induction false} CopiesConcat(s: seq<Frame>, t: seq<Frame>, f: Frame)
    ensures Copies(s + t, f) == Copies(s, f) + Copies(t, f)
  {
    if t == [] {
      assert s + t == s;
    } else {
      assert (s + t)[..|s + t| - 1] == s + t[..|t| - 1];
      CopiesConcat(s, t[..|t| - 1], f);
    }
  }

  lemma CopiesSplit(s: seq<Frame>, k: nat, f: Frame)
    requires k <= |s|
    ensures Copies(s[..k], f) + Copies(s[k..], f) == Copies(s, f)
  {
    assert s[..k] + s[k..] == s;
    CopiesConcat(s[..k], s[k..], f);
  }

  lemma HoldsPut(q: Queues, ac: int, s: seq<Frame>, f: Frame)
    requires 0 <= ac < NUM_ACS
    ensures Holds(Put(q, ac, s), f) == Holds(q, f) - Copies(At(q, ac), f) + Copies(s, f)
    ensures Size(Put(q, ac, s)) == Size(q) - |At(q, ac)| + |s|
  {
    hide Copies;
  }

  lemma PurgeKeepsCopies(q: Queues, f: Frame)
    ensures Holds(PurgeOldest(q), f) + Copies(OldestVictim(q), f) == Holds(q, f)
  {
    var ac := LeastUrgent(q);
    if ac >= 0 {
      HoldsPut(q, ac, At(q, ac)[1..], f);
      CopiesSplit(At(q, ac), 1, f);
    }
  }

  lemma EnqueueKeepsCopies(q: Queues, ac: int, g: Frame, f: Frame)
    requires 0 <= ac < NUM_ACS
    ensures Holds(Enqueue(q, ac, g), f) + Copies(EnqueueVictim(q, ac), f) == Holds(q, f) + Copies([g], f)
    ensures Size(Enqueue(q, ac, g)) + |EnqueueVictim(q, ac)| == Size(q) + 1
    ensures Bounded(q) ==> Bounded(Enqueue(q, ac, g))
  {
    var s := At(q, ac);
    var t := if |s| >= STA_MAX_TX_BUFFER then s[1..] else s;
    HoldsPut(q, ac, t + [g], f);
    CopiesConcat(t, [g], f);
    if |s| >= STA_MAX_TX_BUFFER { CopiesSplit(s, 1, f); }
  }

  lemma {:induction false} BeforeCopies(q: Queues, ignored: AcSet, n: nat, ac: nat, f: Frame)
    requires ac <= NUM_ACS
    ensures Copies(Before(q, ignored, ac)[..Min(n, |Before(q, ignored, ac)|)], f)
         == CopiesServed(q, ignored, n, ac, f)
  {
    hide At;
    hide Has;
    hide Copies;
    if ac == 0 {
      CopiesConcat([], [], f);
      assert [] + [] == Before(q, ignored, 0)[..0];
    } else {
      BeforeCopies(q, ignored, n, ac - 1, f);
      var b := Before(q, ignored, ac - 1);
      var t := if Has(ignored, ac - 1) then [] else At(q, ac - 1);
      var k := Served(q, ignored, n, ac - 1);
      assert Before(q, ignored, ac)[..Min(n, |b + t|)] == b[..Min(n, |b|)] + At(q, ac - 1)[..k];
      CopiesConcat(b[..Min(n, |b|)], At(q, ac - 1)[..k], f);
    }
  }

  function CopiesServed(q: Queues, ignored: AcSet, n: nat, ac: nat, f: Frame): nat {
    if ac == 0 then 0
    else CopiesServed(q, ignored, n, ac - 1, f) + Copies(At(q, ac - 1)[..Served(q, ignored, n, ac - 1)], f)
  }

  lemma ResponseKeepsCopies(q: Queues, ignored: AcSet, n: nat, f: Frame)
    ensures Holds(After(q, ignored, n), f) + Copies(Taken(q, ignored, n), f) == Holds(q, f)
  {
    hide Served;
    BeforeCopies(q, ignored, n, NUM_ACS, f);
    CopiesSplit(At(q, 0), Served(q, ignored, n, 0), f);
    CopiesSplit(At(q, 1), Served(q, ignored, n, 1), f);
    CopiesSplit(At(q, 2), Served(q, ignored, n, 2), f);
    CopiesSplit(At(q, 3), Served(q, ignored, n, 3), f);
    assert CopiesServed(q, ignored, n, 4, f) == CopiesServed(q, ignored, n, 3, f) + Copies(At(q, 3)[..Served(q, ignored, n, 3)], f);
    assert CopiesServed(q, ignored, n, 3, f) == CopiesServed(q, ignored, n, 2, f) + Copies(At(q, 2)[..Served(q, ignored, n, 2)], f);
    assert CopiesServed(q, ignored, n, 2, f) == CopiesServed(q, ignored, n, 1, f) + Copies(At(q, 1)[..Served(q, ignored, n, 1)], f);
  }
}
