/**
 What the reordering window guarantees over every run of one Block Ack session: the window invariant,
 where a timeout stops, in-order delivery without repetition, and conservation of frames.
 */
module ReorderTheorems {
  import opened SequenceNumbers
  import opened ReorderSpec

  // ---- Facts about Between ----

  ghost predicate Ascending(rs: seq<Release>, lo: int, hi: int) {
    && (forall i | 0 <= i < |rs| :: lo <= rs[i].num < hi)
    && (forall i, j | 0 <= i < j < |rs| :: rs[i].num < rs[j].num)
  }

  lemma {:induction false} BetweenAscending(held: map<int, Entry>, lo: int, hi: int)
    ensures Ascending(Between(held, lo, hi), lo, if lo < hi then hi else lo)
    decreases hi - lo
  {
    if lo < hi {
      BetweenAscending(held, lo, hi - 1);
    }
  }

  /** Between lists exactly the held numbers of the range. */
  lemma {:induction false} BetweenExact(held: map<int, Entry>, lo: int, hi: int, r: Release)
    ensures r in Between(held, lo, hi) <==> lo <= r.num < hi && r.num in held && held[r.num].frame == r.frame
    decreases hi - lo
  {
    if lo < hi {
      BetweenExact(held, lo, hi - 1, r);
    }
  }

  lemma {:induction false} BetweenSplit(held: map<int, Entry>, lo: int, mid: int, hi: int)
    requires lo <= mid <= hi
    ensures Between(held, lo, hi) == Between(held, lo, mid) + Between(held, mid, hi)
    decreases hi - mid
  {
    if mid < hi {
      BetweenSplit(held, lo, mid, hi - 1);
    }
  }

  lemma {:induction false} BetweenAgree(a: map<int, Entry>, b: map<int, Entry>, lo: int, hi: int)
    requires forall u | lo <= u < hi :: (u in a <==> u in b) && (u in a ==> a[u] == b[u])
    ensures Between(a, lo, hi) == Between(b, lo, hi)
    decreases hi - lo
  {
    if lo < hi {
      BetweenAgree(a, b, lo, hi - 1);
    }
  }

  lemma {:induction false} BetweenNone(held: map<int, Entry>, lo: int, hi: int)
    requires forall u | lo <= u < hi :: u !in held
    ensures Between(held, lo, hi) == []
    decreases hi - lo
  {
    if lo < hi {
      BetweenNone(held, lo, hi - 1);
    }
  }

  lemma FramesConcat(a: seq<Release>, b: seq<Release>)
    ensures Frames(a + b) == Frames(a) + Frames(b)
  {
  }

  lemma AscendingConcat(a: seq<Release>, b: seq<Release>, lo: int, mid: int, hi: int)
    requires Ascending(a, lo, mid) && Ascending(b, mid, hi) && lo <= mid <= hi
    ensures Ascending(a + b, lo, hi)
  {
  }

  // ---- Where the head stops ----

  lemma {:induction false} RunEndMeaning(held: set<int>, u: int, limit: int)
    requires u <= limit
    ensures var e := RunEnd(held, u, limit);
      && u <= e <= limit
      && (forall v | u <= v < e :: v in held)
      && (e < limit ==> e !in held)
    decreases limit - u
  {
    if u < limit && u in held {
      RunEndMeaning(held, u + 1, limit);
    }
  }

  /** The first held number from `u` on, or the limit. */
  function FirstHeld(held: set<int>, u: int, limit: int): int
    decreases limit - u
  {
    if u >= limit || u in held then u else FirstHeld(held, u + 1, limit)
  }

  lemma {:induction false} FirstHeldMeaning(held: set<int>, u: int, limit: int)
    requires u <= limit
    ensures var f := FirstHeld(held, u, limit);
      && u <= f <= limit
      && (f < limit ==> f in held)
      && (forall v | u <= v < f :: v !in held)
    decreases limit - u
  {
    if u < limit && u !in held {
      FirstHeldMeaning(held, u + 1, limit);
    }
  }

  /** Held, with the number before it missing. */
  predicate AfterGap(held: set<int>, u: int) {
    u in held && u - 1 !in held
  }

  /** The head position a timeout scan must reach, without reference to how it scans: it stops in
      front of a missing number and right behind a held one, every gap it crossed was followed by
      an expired frame, and the gap it stopped at is not. */
  ghost predicate TimeoutStop(held: set<int>, late: set<int>, head: int, stop: int, limit: int) {
    && head <= stop <= limit
    && (stop < limit ==> stop !in held)
    && (head < stop ==> stop - 1 in held)
    && (forall u | head < u < stop && AfterGap(held, u) :: u in late)
    && (var next := FirstHeld(held, stop, limit);
        next < limit ==> next !in late)
  }

  /** That description leaves no choice. */
  lemma TimeoutStopUnique(held: set<int>, late: set<int>, head: int, a: int, b: int, limit: int)
    requires TimeoutStop(held, late, head, a, limit) && TimeoutStop(held, late, head, b, limit)
    ensures a == b
  {
    TimeoutStopOrder(held, late, head, a, b, limit);
    TimeoutStopOrder(held, late, head, b, a, limit);
  }

  lemma TimeoutStopOrder(held: set<int>, late: set<int>, head: int, a: int, b: int, limit: int)
    requires TimeoutStop(held, late, head, a, limit) && TimeoutStop(held, late, head, b, limit)
    ensures b <= a
  {
    FirstHeldMeaning(held, a, limit);
    if a < b {
      var next := FirstHeld(held, a, limit);
      assert next <= b - 1;
      assert AfterGap(held, next);
    }
  }

  lemma {:induction false} TimeoutEndMeaning(held: set<int>, late: set<int>, head: int, pos: int, limit: int)
    requires head <= pos <= limit
    requires forall u | head <= u < pos :: u !in held
    ensures var e := TimeoutEnd(held, late, head, pos, limit);
      && (e == head || pos < e <= limit)
      && (e < limit ==> e !in held)
      && (head < e ==> e - 1 in held)
      && (forall u | head < u < e && AfterGap(held, u) :: u in late)
      && (var next := FirstHeld(held, e, limit);
          next < limit ==> next !in late)
    decreases limit - pos
  {
    FirstHeldSkip(held, head, pos, limit);
    if pos >= limit {
    } else if pos !in held {
      TimeoutEndMeaning(held, late, head, pos + 1, limit);
    } else if head < pos && pos !in late {
    } else {
      TimeoutEndMeaning(held, late, pos + 1, pos + 1, limit);
    }
  }

  lemma {:induction false} FirstHeldSkip(held: set<int>, u: int, v: int, limit: int)
    requires u <= v <= limit
    requires forall x | u <= x < v :: x !in held
    ensures FirstHeld(held, u, limit) == FirstHeld(held, v, limit)
    decreases v - u
  {
    if u < v {
      FirstHeldSkip(held, u + 1, v, limit);
    }
  }

  /** On its way out, a release pass always stops in front of a missing number. */
  lemma ReleasePointMeaning(w: Window, now: Tick, size: nat)
    requires WindowOk(w, size)
    ensures var to := ReleasePoint(w, now, size);
      w.head <= to <= w.head + size && to !in w.held
  {
    RunEndMeaning(w.held.Keys, w.head, w.head + size);
    TimeoutEndMeaning(w.held.Keys, Late(w.held, now), w.head, w.head, w.head + size);
  }

  // ---- One step ----

  /** The head after a step, stated for the three kinds of step at once. */
  ghost predicate GoodOutcome(w: Window, o: Outcome, size: nat) {
    && WindowOk(o.window, size)
    && w.head <= o.window.head
    && Ascending(o.released, w.head, o.window.head)
  }

  lemma AdvanceOk(w: Window, to: int, size: nat)
    requires WindowOk(w, size) && w.head <= to
    ensures WindowOk(Advance(w, to), size)
    ensures Ascending(Between(w.held, w.head, to), w.head, to)
  {
    BetweenAscending(w.held, w.head, to);
  }

  lemma ReleaseReadyOk(w: Window, now: Tick, size: nat)
    requires WindowOk(w, size)
    ensures GoodOutcome(w, ReleaseReady(w, now, size), size)
    ensures ReleaseReady(w, now, size).window.head !in ReleaseReady(w, now, size).window.held
  {
    ReleasePointMeaning(w, now, size);
    AdvanceOk(w, ReleasePoint(w, now, size), size);
  }

  lemma ReceiveMpduOk(w: Window, f: Frame, now: Tick, size: nat)
    requires WindowOk(w, size) && size >= 1
    ensures GoodOutcome(w, ReceiveMpdu(w, f, now, size), size)
  {
    hide Unwrap;
    hide Wrap;
    hide ReleasePoint;
    var u := Unwrap(w.head, f.seqNum);
    UnwrapIsNearest(w.head, f.seqNum);
    if w.head <= u {
      var to := ShiftPoint(w, u, size);
      var shifted := Advance(w, to);
      var out := Between(w.held, w.head, to);
      AdvanceOk(w, to, size);
      if u in shifted.held {
      } else if u == to && shifted.held == map[] {
        AscendingConcat(out, [Release(u, f)], w.head, to, u + 1);
      } else {
        var stored := Window(to, shifted.held[u := Entry(f, now)]);
        StoreOk(shifted, u, Entry(f, now), size);
        ReleaseReadyOk(stored, now, size);
        var ready := ReleaseReady(stored, now, size);
        AscendingConcat(out, ready.released, w.head, to, ready.window.head);
      }
    }
  }

  lemma StoreOk(w: Window, u: int, e: Entry, size: nat)
    requires WindowOk(w, size) && w.head <= u < w.head + size && e.frame.seqNum == Wrap(u)
    ensures WindowOk(Window(w.head, w.held[u := e]), size)
  {
  }

  lemma StepOk(w: Window, e: Event, size: nat)
    requires WindowOk(w, size) && size >= 1
    ensures GoodOutcome(w, Step(w, e, size), size)
  {
    match e
    case Mpdu(f, now) => ReceiveMpduOk(w, f, now, size);
    case Bar(start) => AdvanceOk(w, w.head + BarDistance(w, start), size);
    case TimerTick(now) => ReleaseReadyOk(w, now, size);
  }

  // ---- Whole runs ----

  /** Over any run, the window invariant holds and frames leave in strictly increasing order of
      their numbers, so none leaves twice and none leaves that was skipped. */
  lemma {:induction false} InOrderDelivery(w: Window, events: seq<Event>, size: nat)
    requires WindowOk(w, size) && size >= 1
    ensures GoodOutcome(w, Run(w, events, size), size)
    decreases |events|
  {
    if events != [] {
      var front := events[..|events| - 1];
      InOrderDelivery(w, front, size);
      var before := Run(w, front, size);
      var e := events[|events| - 1];
      StepOk(before.window, e, size);
      var last := Step(before.window, e, size);
      AscendingConcat(before.released, last.released, w.head, before.window.head, last.window.head);
    }
  }

  // ---- Conservation ----

  /** How often frame `f` occurs. */
  function Count(fs: seq<Frame>, f: Frame): nat {
    if fs == [] then 0 else Count(fs[..|fs| - 1], f) + (if fs[|fs| - 1] == f then 1 else 0)
  }

  function Copies(rs: seq<Release>, f: Frame): nat {
    if rs == [] then 0 else Copies(rs[..|rs| - 1], f) + (if rs[|rs| - 1].frame == f then 1 else 0)
  }

  lemma {:induction false} CountConcat(a: seq<Frame>, b: seq<Frame>, f: Frame)
    ensures Count(a + b, f) == Count(a, f) + Count(b, f)
  {
    if b == [] {
      assert a + b == a;
    } else {
      CountConcat(a, b[..|b| - 1], f);
      assert (a + b)[..|a + b| - 1] == a + b[..|b| - 1];
    }
  }

  lemma {:induction false} CopiesConcat(a: seq<Release>, b: seq<Release>, f: Frame)
    ensures Copies(a + b, f) == Copies(a, f) + Copies(b, f)
  {
    if b == [] {
      assert a + b == a;
    } else {
      CopiesConcat(a, b[..|b| - 1], f);
      assert (a + b)[..|a + b| - 1] == a + b[..|b| - 1];
    }
  }

  lemma {:induction false} CopiesIsCount(rs: seq<Release>, f: Frame)
    ensures Copies(rs, f) == Count(Frames(rs), f)
  {
    if rs != [] {
      CopiesIsCount(rs[..|rs| - 1], f);
      assert Frames(rs)[..|rs| - 1] == Frames(rs[..|rs| - 1]);
    }
  }

  /** How many copies of `f` wait in a window. */
  function Waiting(w: Window, f: Frame, size: nat): nat {
    Copies(Between(w.held, w.head, w.head + size), f)
  }

  lemma AdvanceConserves(w: Window, to: int, f: Frame, size: nat)
    requires WindowOk(w, size) && w.head <= to
    ensures Waiting(w, f, size) == Copies(Between(w.held, w.head, to), f) + Waiting(Advance(w, to), f, size)
  {
    hide Copies;
    hide Between;
    var end := to + size;
    var held' := Advance(w, to).held;
    BetweenSplit(w.held, w.head, w.head + size, end);
    BetweenNone(w.held, w.head + size, end);
    BetweenSplit(w.held, w.head, to, end);
    BetweenAgree(w.held, held', to, end);
    assert Between(w.held, w.head, end) == Between(w.held, w.head, w.head + size);
    CopiesConcat(Between(w.held, w.head, to), Between(held', to, end), f);
  }

  lemma BetweenStore(held: map<int, Entry>, u: int, e: Entry, lo: int, hi: int)
    requires lo <= u < hi && u !in held
    ensures var a, b := Between(held, lo, u), Between(held, u + 1, hi);
      && Between(held, lo, hi) == a + b
      && Between(held[u := e], lo, hi) == a + [Release(u, e.frame)] + b
  {
    var held' := held[u := e];
    BetweenSplit(held, lo, u + 1, hi);
    BetweenSplit(held', lo, u + 1, hi);
    BetweenAgree(held, held', lo, u);
    BetweenAgree(held, held', u + 1, hi);
  }

  lemma CopiesSnoc(a: seq<Release>, r: Release, f: Frame)
    ensures Copies(a + [r], f) == Copies(a, f) + (if r.frame == f then 1 else 0)
  {
    assert (a + [r])[..|a|] == a;
  }

  lemma StoreConserves(w: Window, u: int, e: Entry, f: Frame, size: nat)
    requires w.head <= u < w.head + size && u !in w.held
    ensures Waiting(Window(w.head, w.held[u := e]), f, size) ==
            Waiting(w, f, size) + (if e.frame == f then 1 else 0)
  {
    hide Between;
    hide Copies;
    var lo, hi, r := w.head, w.head + size, Release(u, e.frame);
    var a, b := Between(w.held, lo, u), Between(w.held, u + 1, hi);
    BetweenStore(w.held, u, e, lo, hi);
    CopiesConcat(a, b, f);
    CopiesConcat(a + [r], b, f);
    CopiesSnoc(a, r, f);
  }

  ghost predicate Conserves(w: Window, entered: seq<Frame>, f: Frame, o: Outcome, size: nat) {
    Waiting(w, f, size) + Count(entered, f) ==
    Copies(o.released, f) + Count(o.dropped, f) + Waiting(o.window, f, size)
  }

  lemma ReceiveMpduConserves(w: Window, g: Frame, now: Tick, f: Frame, size: nat)
    requires WindowOk(w, size) && size >= 1
    ensures Conserves(w, [g], f, ReceiveMpdu(w, g, now, size), size)
  {
    hide Between;
    hide Unwrap;
    hide Wrap;
    hide ReleasePoint;
    hide WindowOk;
    var u := Unwrap(w.head, g.seqNum);
    UnwrapIsNearest(w.head, g.seqNum);
    if w.head <= u {
      var to := ShiftPoint(w, u, size);
      var shifted := Advance(w, to);
      var out := Between(w.held, w.head, to);
      AdvanceOk(w, to, size);
      AdvanceConserves(w, to, f, size);
      if u in shifted.held {
      } else if u == to && shifted.held == map[] {
        BetweenNone(shifted.held, to, to + size);
        BetweenNone(map[], u + 1, u + 1 + size);
        CopiesSnoc(out, Release(u, g), f);
      } else {
        var stored := Window(to, shifted.held[u := Entry(g, now)]);
        StoreOk(shifted, u, Entry(g, now), size);
        StoreConserves(shifted, u, Entry(g, now), f, size);
        ReleasePointMeaning(stored, now, size);
        AdvanceConserves(stored, ReleasePoint(stored, now, size), f, size);
        CopiesConcat(out, ReleaseReady(stored, now, size).released, f);
      }
    }
  }

  lemma StepConserves(w: Window, e: Event, f: Frame, size: nat)
    requires WindowOk(w, size) && size >= 1
    ensures Conserves(w, Arriving(e), f, Step(w, e, size), size)
  {
    hide Copies;
    hide Between;
    hide Advance;
    hide Unwrap;
    hide Wrap;
    hide ReleasePoint;
    hide WindowOk;
    hide BarDistance;
    hide ReceiveMpdu;
    match e
    case Mpdu(g, now) =>
      ReceiveMpduConserves(w, g, now, f, size);
    case Bar(start) =>
      AdvanceConserves(w, w.head + BarDistance(w, start), f, size);
    case TimerTick(now) =>
      ReleasePointMeaning(w, now, size);
      AdvanceConserves(w, ReleasePoint(w, now, size), f, size);
  }

  /** Over any run, every copy of a frame that entered was handed on, dropped, or is still held,
      exactly one of the three, and nothing comes out that did not go in. */
  lemma {:induction false} FramesConserved(w: Window, events: seq<Event>, f: Frame, size: nat)
    requires WindowOk(w, size) && size >= 1
    ensures Conserves(w, Entered(events), f, Run(w, events, size), size)
    decreases |events|
  {
    if events != [] {
      var front, e := events[..|events| - 1], events[|events| - 1];
      FramesConserved(w, front, f, size);
      InOrderDelivery(w, front, size);
      var before := Run(w, front, size);
      StepConserves(before.window, e, f, size);
      var last := Step(before.window, e, size);
      CountConcat(Entered(front), Arriving(e), f);
      CopiesConcat(before.released, last.released, f);
      CountConcat(before.dropped, last.dropped, f);
    }
  }
}
