/**
 The reorder buffer against a clock that does not wrap: a gap is given up exactly when the frame right
 behind it has waited more than ten ticks. Also what becomes of each frame and each BlockAckReq, in
 terms of the number it stands for.
 */
module ReorderTiming {
  import opened Common
  import opened SequenceNumbers
  import opened ReorderSpec
  import opened ReorderTheorems
  import opened ReorderSorting

  /** The longest wait that the 32-bit comparison still tells apart. */
  const PATIENCE := TICK_MODULO / 2 + 10

  /** On a clock that does not wrap, a frame has waited too long after more than ten ticks. */
  lemma ExpiredMeaning(t: int, s: int)
    requires 0 <= t - s <= PATIENCE
    ensures Expired(t % TICK_MODULO, s % TICK_MODULO) <==> t - s > 10
  {
    TickSum(s, REORDER_TIMEOUT);
    TimeAfterMeaning(t, s + REORDER_TIMEOUT);
  }

  // ---- A tick ----

  /** `since` says when, on a clock that does not wrap, each held frame came in. */
  ghost predicate Clocked(held: map<int, Entry>, since: map<int, int>, t: int) {
    && since.Keys == held.Keys
    && forall u <- held :: held[u].time == since[u] % TICK_MODULO && 0 <= t - since[u] <= PATIENCE
  }

  lemma LateMeaning(held: map<int, Entry>, since: map<int, int>, t: int)
    requires Clocked(held, since, t)
    ensures Late(held, t % TICK_MODULO) == set u | u in held && t - since[u] > 10
  {
    hide Expired;
    forall u | u in held
      ensures Expired(t % TICK_MODULO, held[u].time) <==> t - since[u] > 10
    {
      ExpiredMeaning(t, since[u]);
    }
  }

  /** The lowest number held. */
  ghost predicate Lowest(held: map<int, Entry>, u: int) {
    u in held && forall v <- held :: u <= v
  }

  lemma FirstHeldLowest(w: Window, size: nat, u: int)
    requires WindowOk(w, size) && u in w.held
    ensures Lowest(w.held, FirstHeld(w.held.Keys, w.head, w.head + size))
    ensures w.head <= FirstHeld(w.held.Keys, w.head, w.head + size) < w.head + size
  {
    FirstHeldMeaning(w.held.Keys, w.head, w.head + size);
  }

  /** With the number at the head missing, a tick releases something exactly if the frame right behind the
      gap has waited more than ten ticks; and then it releases that frame. */
  lemma TickReleasesIff(w: Window, since: map<int, int>, t: int, size: nat, next: int)
    requires WindowOk(w, size) && size >= 1 && w.head !in w.held
    requires Clocked(w.held, since, t) && Lowest(w.held, next)
    ensures var o := ReleaseReady(w, t % TICK_MODULO, size);
      && (o != Outcome(w, [], []) <==> t - since[next] > 10)
      && (t - since[next] > 10 ==> Release(next, w.held[next].frame) in o.released && next < o.window.head)
  {
    hide Late;
    hide WindowOk;
    var now := t % TICK_MODULO;
    LateMeaning(w.held, since, t);
    FirstHeldLowest(w, size, next);
    TickNothing(w, now, size);
    if t - since[next] > 10 {
      TimeoutReleases(w, now, size);
      var to := ReleasePoint(w, now, size);
      if to <= next {
        FirstHeldSkip(w.held.Keys, w.head, to, w.head + size);
        assert false;
      }
      BetweenExact(w.held, w.head, to, Release(next, w.held[next].frame));
    }
  }

  // ---- Sorting ----

  /** The frame right behind gap `h` once `a` has come in at time `t` has waited ten ticks at most. */
  ghost predicate Patient(before: seq<Arrival>, times: seq<int>, a: Arrival, t: int, h: int)
    requires |times| == |before|
  {
    forall i | 0 <= i < |before| && before[i].Arrives? && Nearest(before + [a], h, before[i].num) :: t - times[i] <= 10
  }

  ghost predicate OnClock(arrivals: seq<Arrival>, times: seq<int>) {
    && |times| == |arrivals|
    && (forall i | 0 <= i < |arrivals| :: arrivals[i].now == times[i] % TICK_MODULO)
    && (forall i, j | 0 <= i <= j < |arrivals| :: times[i] <= times[j])
  }

  /** The next arrival or tick keeps the buffer sorting, unless it fills the gap, exactly if the frame right
      behind the gap has waited ten ticks at most. */
  lemma SortsOnTimed(start: int, front: seq<Arrival>, times: seq<int>, before: Outcome, a: Arrival, t: int, size: nat)
    requires 1 <= size <= MODULO / 2 && WindowOk(before.window, size) && Sorted(start, front, before)
    requires OnClock(front, times) && a.now == t % TICK_MODULO
    requires forall i | 0 <= i < |times| :: 0 <= t - times[i] <= PATIENCE
    requires a.Arrives? ==>
      a.frame.seqNum == Wrap(a.num) && before.window.head < a.num < before.window.head + size && !Seen(front, a.num)
    ensures var o := Step(before.window, EventOf(a), size);
      Sorted(start, front + [a], Outcome(o.window, before.released + o.released, before.dropped + o.dropped))
      <==> Patient(front, times, a, t, before.window.head)
  {
    hide Sorted;
    hide Step;
    hide WindowOk;
    hide Wrap;
    hide GapOnTime;
    hide Patient;
    SortsOnIff(start, front, before, a, size);
    if Patient(front, times, a, t, before.window.head) {
      PatientOnTime(start, front, times, before, a, t, size);
    }
    if GapOnTime(before.window, a, size) {
      OnTimePatient(start, front, times, before, a, t, size);
    }
  }

  lemma PatientOnTime(start: int, front: seq<Arrival>, times: seq<int>, before: Outcome, a: Arrival, t: int, size: nat)
    requires Sorted(start, front, before) && OnClock(front, times) && a.now == t % TICK_MODULO
    requires forall i | 0 <= i < |times| :: 0 <= t - times[i] <= PATIENCE
    requires Patient(front, times, a, t, before.window.head)
    ensures GapOnTime(before.window, a, size)
  {
    hide Expired;
    hide Nearest;
    var w := before.window;
    var all, limit := HeldWith(w, a), w.head + size;
    FirstHeldMeaning(all.Keys, w.head, limit);
    var next := FirstHeld(all.Keys, w.head, limit);
    if next < limit {
      if a.Arrives? && next == a.num {
        NotYetExpired(a.now);
      } else {
        var i :| 0 <= i < |front| && front[i].Arrives? && front[i].num == next;
        assert AtItsPlace(start, front[i], before);
        NearestBehind(start, front, before, a, all, next);
        ExpiredMeaning(t, times[i]);
      }
    }
  }

  lemma OnTimePatient(start: int, front: seq<Arrival>, times: seq<int>, before: Outcome, a: Arrival, t: int, size: nat)
    requires WindowOk(before.window, size) && Sorted(start, front, before) && OnClock(front, times)
    requires a.now == t % TICK_MODULO && forall i | 0 <= i < |times| :: 0 <= t - times[i] <= PATIENCE
    requires a.Arrives? ==> before.window.head < a.num && !Seen(front, a.num)
    requires GapOnTime(before.window, a, size)
    ensures Patient(front, times, a, t, before.window.head)
  {
    hide Expired;
    var w := before.window;
    var all, limit := HeldWith(w, a), w.head + size;
    FirstHeldMeaning(all.Keys, w.head, limit);
    forall i | 0 <= i < |front| && front[i].Arrives? && Nearest(front + [a], w.head, front[i].num)
      ensures t - times[i] <= 10
    {
      var n := front[i].num;
      assert Seen(front, n);
      assert AtItsPlace(start, front[i], before);
      assert n in all && all[n] == w.held[n];
      var next := FirstHeld(all.Keys, w.head, limit);
      if next < n {
        NextArrived(start, front, before, a, next);
        assert false;
      }
      assert next == n;
      ExpiredMeaning(t, times[i]);
    }
  }

  /** A number held once `a` has come in has arrived. */
  lemma NextArrived(start: int, front: seq<Arrival>, before: Outcome, a: Arrival, n: int)
    requires Sorted(start, front, before) && n in HeldWith(before.window, a)
    ensures exists k | 0 <= k < |front + [a]| :: (front + [a])[k].Arrives? && (front + [a])[k].num == n
  {
    if a.Arrives? && a.num == n {
      assert (front + [a])[|front|] == a;
    } else {
      assert Seen(front, n);
      var k :| 0 <= k < |front| && front[k].Arrives? && front[k].num == n;
      assert (front + [a])[k] == front[k];
    }
  }

  /** Each frame is new and in the window when it comes in, and unless it fills the gap, the frame right
      behind the gap has then waited ten ticks at most. */
  ghost predicate Prompt(start: int, arrivals: seq<Arrival>, times: seq<int>, size: nat)
    requires |times| == |arrivals|
  {
    forall i | 0 <= i < |arrivals| :: PromptAt(start, arrivals[..i], times[..i], arrivals[i], times[i], size)
  }

  ghost predicate PromptAt(start: int, before: seq<Arrival>, times: seq<int>, a: Arrival, t: int, size: nat)
    requires |times| == |before|
  {
    && (a.Arrives? ==> a.frame.seqNum == Wrap(a.num) && start <= a.num && !Seen(before, a.num))
    && (forall h | FirstMissing(start, before, h) ::
          && (a.Arrives? ==> a.num < h + size)
          && ((a.Arrives? && a.num == h) || Patient(before, times, a, t, h)))
  }

  /** On a clock that does not wrap: a session in which no gap keeps the frame behind it waiting for more than
      ten ticks hands the frames on in order, whatever order they arrived in. */
  lemma TimedRunSorts(start: int, arrivals: seq<Arrival>, times: seq<int>, size: nat)
    requires GoodSize(size) && OnClock(arrivals, times) && Prompt(start, arrivals, times, size)
    ensures Sorted(start, arrivals, Run(Window(start, map[]), Events(arrivals), size))
  {
    hide Sorted;
    hide Run;
    hide Harmless;
    hide PromptAt;
    hide Divides4096;
    forall i | 0 <= i < |arrivals|
      ensures Harmless(start, arrivals[..i], arrivals[i], size)
    {
      PromptHarmless(start, arrivals[..i], times[..i], arrivals[i], times[i], size);
    }
    UndisturbedRunSorts(start, arrivals, size);
  }

  lemma PromptHarmless(start: int, before: seq<Arrival>, times: seq<int>, a: Arrival, t: int, size: nat)
    requires |times| == |before| && PromptAt(start, before, times, a, t, size) && a.now == t % TICK_MODULO
    requires forall i | 0 <= i < |before| :: before[i].now == times[i] % TICK_MODULO && times[i] <= t
    ensures Harmless(start, before, a, size)
  {
    hide Expired;
    hide Nearest;
    hide FirstMissing;
    hide Wrap;
    forall h, i | FirstMissing(start, before, h) && Patient(before, times, a, t, h) &&
                  0 <= i < |before| && before[i].Arrives? && Nearest(before + [a], h, before[i].num)
      ensures !Expired(a.now, before[i].now)
    {
      ExpiredMeaning(t, times[i]);
    }
  }

  // ---- What becomes of a frame ----

  /** The received frame stands for number `u`: it is dropped, and nothing else happens, exactly if `u` lies
      before the head or is already held; otherwise it is handed on, or held with the time it came in, and
      everything that no longer fits in the window with it has left. */
  lemma FrameFate(w: Window, f: Frame, now: Tick, size: nat, u: int)
    requires WindowOk(w, size) && size >= 1
    requires f.seqNum == Wrap(u) && -MODULO / 2 < u - w.head <= MODULO / 2
    ensures var o := ReceiveMpdu(w, f, now, size);
      && (u < w.head || u in w.held ==> o == Outcome(w, [], [f]))
      && (w.head <= u && u !in w.held ==>
            && o.dropped == [] && u < o.window.head + size
            && (Release(u, f) in o.released || (u in o.window.held && o.window.held[u] == Entry(f, now))))
  {
    hide Wrap;
    hide Unwrap;
    hide ReleasePoint;
    NumberUnique(w.head, f.seqNum, u);
    if w.head <= u {
      if u < w.head + size { KeepsAll(w, size); }
      var shifted := Advance(w, ShiftPoint(w, u, size));
      if u !in shifted.held && !(u == shifted.head && shifted.held == map[]) {
        var stored := Window(shifted.head, shifted.held[u := Entry(f, now)]);
        AdvanceOk(w, shifted.head, size);
        StoreOk(shifted, u, Entry(f, now), size);
        ReleasePointMeaning(stored, now, size);
        BetweenExact(stored.held, stored.head, ReleasePoint(stored, now, size), Release(u, f));
      }
    }
  }

  lemma KeepsAll(w: Window, size: nat)
    requires WindowOk(w, size)
    ensures Advance(w, w.head) == w && Between(w.held, w.head, w.head) == []
  {
    assert Advance(w, w.head).held == w.held;
  }

  lemma NumberUnique(head: int, s: SeqNum, u: int)
    requires s == Wrap(u) && -MODULO / 2 < u - head <= MODULO / 2
    ensures Unwrap(head, s) == u
  {
    WrapDifference(u, head);
    NearRemainder(u - head);
  }

  /** A BlockAckReq for number `to` moves the head there, and what was held before it leaves, if `to` is not
      behind the head; otherwise it does nothing. */
  lemma BarFate(w: Window, start: SeqNum, to: int, size: nat, r: Release)
    requires WindowOk(w, size) && start == Wrap(to) && -MODULO / 2 <= to - w.head < MODULO / 2
    ensures var o := ReceiveBar(w, start);
      && o.dropped == []
      && (to < w.head ==> o == Outcome(w, [], []))
      && (w.head <= to ==>
            && o.window.head == to
            && (r in o.released <==> r.num in w.held && r.num < to && w.held[r.num].frame == r.frame)
            && (r.num in o.window.held <==> r.num in w.held && to <= r.num))
  {
    hide Wrap;
    WrapDifference(to, w.head);
    NearRemainder(to - w.head);
    KeepsAll(w, size);
    BetweenExact(w.held, w.head, w.head + BarDistance(w, start), r);
  }
}
