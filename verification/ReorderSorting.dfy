/**
 What the reorder buffer is for: a session in which every number arrives once, inside the window,
 and nothing waits too long hands the frames on in order, whatever order they arrived in.
 Also what a timeout may release, and what a flush returns.
 */
module ReorderSorting {
  import opened Common
  import opened SequenceNumbers
  import opened ReorderSpec
  import opened ReorderTheorems
  import opened ReorderBuffer

  // ---- Timeouts ----

  function Missing(held: map<int, Entry>, lo: int, hi: int): nat
    decreases hi - lo
  {
    if hi <= lo then 0 else Missing(held, lo, hi - 1) + (if hi - 1 in held then 0 else 1)
  }

  lemma {:induction false} MissingPlusReleased(held: map<int, Entry>, lo: int, hi: int)
    requires lo <= hi
    ensures |Between(held, lo, hi)| + Missing(held, lo, hi) == hi - lo
    decreases hi - lo
  {
    if lo < hi {
      MissingPlusReleased(held, lo, hi - 1);
    }
  }

  /** The number before `u` was held and is among the released ones. */
  ghost predicate FollowsReleased(w: Window, rs: seq<Release>, u: int) {
    w.head < u && u - 1 in w.held && Release(u - 1, w.held[u - 1].frame) in rs
  }

  /** When the head number is missing and frames wait, the release pass moves the head by exactly
      the missing numbers plus the frames it releases; it stops where TimeoutStop says; and each
      frame it releases has either itself waited too long or directly follows one released with it. */
  lemma TimeoutReleases(w: Window, now: Tick, size: nat)
    requires WindowOk(w, size) && w.head !in w.held && w.held != map[]
    ensures var o := ReleaseReady(w, now, size);
      && TimeoutStop(w.held.Keys, Late(w.held, now), w.head, o.window.head, w.head + size)
      && o.window.head - w.head == |o.released| + Missing(w.held, w.head, o.window.head)
      && forall r <- o.released :: r.num in Late(w.held, now) || FollowsReleased(w, o.released, r.num)
  {
    hide Late;
    hide WindowOk;
    var late, limit := Late(w.held, now), w.head + size;
    var to := ReleasePoint(w, now, size);
    TimeoutEndMeaning(w.held.Keys, late, w.head, w.head, limit);
    MissingPlusReleased(w.held, w.head, to);
    forall r | r in Between(w.held, w.head, to) && r.num !in late
      ensures FollowsReleased(w, Between(w.held, w.head, to), r.num)
    {
      BetweenExact(w.held, w.head, to, r);
      assert !AfterGap(w.held.Keys, r.num);
      BetweenExact(w.held, w.head, to, Release(r.num - 1, w.held[r.num - 1].frame));
    }
  }

  // ---- Flushes ----

  /** The frames in the ring are the waiting frames, starting from the head's slot and going once
      around: a flush returns each of them exactly once, in slot order rather than number order. */
  lemma RingHoldsWaiting(ring: seq<Slot>, time: seq<Tick>, ssn: int, size: nat, w: Window)
    requires Represents(ring, time, ssn, size, w)
    ensures var s := SlotOf(w.head, ssn, size);
      && Frames(Between(w.held, w.head, w.head + size)) == SlotFrames(ring[s..size]) + SlotFrames(ring[..s])
      && SlotFrames(ring) == SlotFrames(ring[..s]) + SlotFrames(ring[s..size])
  {
    hide SlotOf;
    hide Frames;
    hide Between;
    hide SlotFrames;
    var s := SlotOf(w.head, ssn, size);
    var turn := w.head + size - s;
    WaitingStretch(ring, time, ssn, size, w, w.head, size - s);
    SlotWrapsToZero(w.head, ssn, size);
    WaitingStretch(ring, time, ssn, size, w, turn, s);
    RotatedFrames(w.held, w.head, turn, w.head + size);
    assert ring[0..s] == ring[..s];
    SlotFramesParts(ring, s, size);
    if s == 0 {
      NoFrames(w.held, turn);
    }
  }

  lemma RotatedFrames(held: map<int, Entry>, lo: int, mid: int, hi: int)
    requires lo <= mid <= hi
    ensures Frames(Between(held, lo, hi)) == Frames(Between(held, lo, mid)) + Frames(Between(held, mid, hi))
  {
    BetweenSplit(held, lo, mid, hi);
    FramesConcat(Between(held, lo, mid), Between(held, mid, hi));
  }

  lemma NoFrames(held: map<int, Entry>, u: int)
    ensures Frames(Between(held, u, u)) == [] && SlotFrames([]) == []
  {
  }

  lemma SlotFramesParts(ring: seq<Slot>, s: nat, size: nat)
    requires s <= size <= |ring| && forall i | size <= i < |ring| :: ring[i].Empty?
    ensures SlotFrames(ring) == SlotFrames(ring[..s]) + SlotFrames(ring[s..size])
  {
    hide SlotFrames;
    assert ring == ring[..s] + ring[s..size] + ring[size..];
    SlotFramesConcat(ring[..s] + ring[s..size], ring[size..]);
    SlotFramesConcat(ring[..s], ring[s..size]);
    AllEmpty(ring[size..]);
  }

  lemma SlotWrapsToZero(u: int, ssn: int, size: nat)
    requires size > 0
    ensures SlotOf(u + size - SlotOf(u, ssn, size), ssn, size) == 0
  {
    var x := u - ssn;
    assert x == (x / size) * size + x % size;
    assert x + size - x % size == (x / size + 1) * size;
    RemainderUnique(x + size - x % size, size, x / size + 1, 0);
  }

  lemma {:induction false} WaitingStretch(ring: seq<Slot>, time: seq<Tick>, ssn: int, size: nat, w: Window, u: int, n: nat)
    requires Represents(ring, time, ssn, size, w)
    requires w.head <= u && u + n <= w.head + size
    requires n > 0 ==> SlotOf(u, ssn, size) + n <= size
    ensures n > 0 ==>
      Frames(Between(w.held, u, u + n)) == SlotFrames(ring[SlotOf(u, ssn, size)..SlotOf(u, ssn, size) + n])
    decreases n
  {
    if n > 0 {
      hide SlotOf;
      hide Represents;
      hide Between;
      hide Frames;
      hide SlotFrames;
      RingAt(ring, time, ssn, size, w, u);
      var s := SlotOf(u, ssn, size);
      if n == 1 {
        NothingYet(w, u);
        assert ring[s..s + 1] == [] + [ring[s]];
        StretchStep(w, u, u, [], ring[s]);
      } else {
        WaitingStretch(ring, time, ssn, size, w, u, n - 1);
        SlotAhead(u, n - 1, ssn, size);
        RingAt(ring, time, ssn, size, w, u + n - 1);
        assert ring[s..s + n] == ring[s..s + n - 1] + [ring[s + n - 1]];
        StretchStep(w, u, u + n - 1, ring[s..s + n - 1], ring[s + n - 1]);
      }
    }
  }

  lemma NothingYet(w: Window, u: int)
    ensures Frames(Between(w.held, u, u)) == SlotFrames([])
  {
  }

  lemma StretchStep(w: Window, lo: int, hi: int, ring: seq<Slot>, slot: Slot)
    requires lo <= hi && Frames(Between(w.held, lo, hi)) == SlotFrames(ring) && slot == SlotFor(w, hi)
    ensures Frames(Between(w.held, lo, hi + 1)) == SlotFrames(ring + [slot])
  {
    assert (ring + [slot])[..|ring|] == ring;
  }

  lemma SlotAhead(u: int, n: nat, ssn: int, size: nat)
    requires size > 0 && SlotOf(u, ssn, size) + n < size
    ensures SlotOf(u + n, ssn, size) == SlotOf(u, ssn, size) + n
  {
    var x := u - ssn;
    assert x == (x / size) * size + x % size;
    RemainderUnique(x + n, size, x / size, x % size + n);
  }

  // ---- Sorting ----

  /** What a sender's frames look like when they come in: a frame under the number it was sent with, or a
      tick of the driver's own timer. */
  datatype Arrival =
    | Arrives(num: int, frame: Frame, now: Tick)
    | Ticks(now: Tick)

  function EventOf(a: Arrival): Event {
    match a
    case Arrives(_, f, now) => Mpdu(f, now)
    case Ticks(now) => TimerTick(now)
  }

  function Events(arrivals: seq<Arrival>): (es: seq<Event>)
    ensures |es| == |arrivals| && forall i | 0 <= i < |es| :: es[i] == EventOf(arrivals[i])
  {
    seq(|arrivals|, i requires 0 <= i < |arrivals| => EventOf(arrivals[i]))
  }

  ghost predicate Seen(arrivals: seq<Arrival>, u: int) {
    exists i | 0 <= i < |arrivals| :: arrivals[i].Arrives? && arrivals[i].num == u
  }

  /** The first number from `start` on that has not arrived. */
  ghost predicate FirstMissing(start: int, arrivals: seq<Arrival>, h: int) {
    start <= h && !Seen(arrivals, h) && forall n | start <= n < h :: Seen(arrivals, n)
  }

  /** The arrived number closest behind `h`. */
  ghost predicate Nearest(arrivals: seq<Arrival>, h: int, n: int) {
    h < n && forall i | 0 <= i < |arrivals| && arrivals[i].Arrives? :: !(h < arrivals[i].num < n)
  }

  /** What comes in next disturbs nothing: a frame is new and lies in the window; and unless it fills the
      gap at the head, the frame waiting right behind the gap has not waited too long. */
  ghost predicate Harmless(start: int, before: seq<Arrival>, a: Arrival, size: nat) {
    && (a.Arrives? ==> a.frame.seqNum == Wrap(a.num) && start <= a.num && !Seen(before, a.num))
    && (forall h | FirstMissing(start, before, h) ::
          && (a.Arrives? ==> a.num < h + size)
          && ((a.Arrives? && a.num == h) ||
              forall i | 0 <= i < |before| && before[i].Arrives? && Nearest(before + [a], h, before[i].num) ::
                !Expired(a.now, before[i].now)))
  }

  ghost predicate Undisturbed(start: int, arrivals: seq<Arrival>, size: nat) {
    forall i | 0 <= i < |arrivals| :: Harmless(start, arrivals[..i], arrivals[i], size)
  }

  /** What has happened after an undisturbed run: everything before the first missing number has been
      released, in order and each with its own frame; everything after it is held; nothing is lost. */
  ghost predicate Sorted(start: int, arrivals: seq<Arrival>, o: Outcome) {
    && FirstMissing(start, arrivals, o.window.head)
    && o.dropped == []
    && |o.released| == o.window.head - start
    && (forall k | 0 <= k < |o.released| :: o.released[k].num == start + k)
    && (forall u :: u in o.window.held <==> Seen(arrivals, u) && o.window.head < u)
    && (forall i | 0 <= i < |arrivals| && arrivals[i].Arrives? :: AtItsPlace(start, arrivals[i], o))
  }

  ghost predicate AtItsPlace(start: int, a: Arrival, o: Outcome)
    requires a.Arrives? && |o.released| == o.window.head - start
  {
    && (start <= a.num < o.window.head ==> o.released[a.num - start].frame == a.frame)
    && (o.window.head < a.num ==> a.num in o.window.held && o.window.held[a.num] == Entry(a.frame, a.now))
  }

  lemma SeenMore(arrivals: seq<Arrival>, a: Arrival, u: int)
    ensures Seen(arrivals + [a], u) <==> Seen(arrivals, u) || (a.Arrives? && a.num == u)
  {
    var all := arrivals + [a];
    if Seen(arrivals, u) {
      var i :| 0 <= i < |arrivals| && arrivals[i].Arrives? && arrivals[i].num == u;
      assert all[i] == arrivals[i];
    }
    if a.Arrives? && a.num == u {
      assert all[|arrivals|] == a;
    }
  }

  lemma {:induction false} BetweenFull(held: map<int, Entry>, lo: int, hi: int)
    requires lo <= hi && forall u | lo <= u < hi :: u in held
    ensures var rs := Between(held, lo, hi);
      && |rs| == hi - lo
      && forall k | 0 <= k < |rs| :: rs[k] == Release(lo + k, held[lo + k].frame)
    decreases hi - lo
  {
    if lo < hi {
      BetweenFull(held, lo, hi - 1);
    }
  }

  /** The frame right behind the gap at the head, if there is one, is not late. */
  ghost predicate OnTime(held: set<int>, late: set<int>, pos: int, limit: int) {
    var next := FirstHeld(held, pos, limit);
    next < limit ==> next !in late
  }

  /** With the head missing, the timeout scan leaves it where it is if and only if the frame right behind
      the gap is not late: however late those further behind are. */
  lemma {:induction false} HeadStaysIff(held: set<int>, late: set<int>, head: int, pos: int, limit: int)
    requires head <= pos <= limit && head !in held && forall u | head <= u < pos :: u !in held
    ensures TimeoutEnd(held, late, head, pos, limit) == head <==> OnTime(held, late, pos, limit)
    decreases limit - pos
  {
    if pos < limit {
      if pos !in held {
        HeadStaysIff(held, late, head, pos + 1, limit);
      } else if pos in late {
        TimeoutEndMeaning(held, late, pos + 1, pos + 1, limit);
      }
    }
  }

  lemma UnwrapNear(head: int, u: int)
    requires 0 <= u - head <= MODULO / 2
    ensures Unwrap(head, Wrap(u)) == u
  {
    WrapDifference(u, head);
    NearRemainder(u - head);
  }

  /** What receiving a new in-window number does when the frame behind the gap is on time: the head moves to
      the next number that has not arrived. */
  lemma ReceiveNew(w: Window, u: int, f: Frame, now: Tick, size: nat)
    requires WindowOk(w, size) && size <= MODULO / 2
    requires w.head <= u < w.head + size && f.seqNum == Wrap(u)
    requires u !in w.held && w.head !in w.held
    requires u == w.head ||
      OnTime(w.held.Keys + {u}, Late(w.held[u := Entry(f, now)], now), w.head, w.head + size)
    ensures var o := ReceiveMpdu(w, f, now, size);
            var all := w.held[u := Entry(f, now)];
      && o.dropped == []
      && w.head <= o.window.head && o.window.head !in all
      && (forall n | w.head <= n < o.window.head :: n in all)
      && o.released == Between(all, w.head, o.window.head)
      && o.window == Advance(Window(w.head, all), o.window.head)
  {
    hide Wrap;
    hide Unwrap;
    hide Late;
    hide OnTime;
    UnwrapNear(w.head, u);
    AdvanceNone(w, size);
    var all := w.held[u := Entry(f, now)];
    var stored := Window(w.head, all);
    StoreOk(w, u, Entry(f, now), size);
    AdvanceNone(stored, size);
    RunEndMeaning(all.Keys, w.head, w.head + size);
    if u == w.head && w.held == map[] {
      assert all == map[u := Entry(f, now)];
      assert Between(all, w.head, u) == [];
      assert Between(all, w.head, u + 1) == [Release(u, f)];
      assert Advance(stored, u + 1).held == map[];
    } else if u != w.head {
      assert all.Keys == w.held.Keys + {u};
      HeadStaysIff(all.Keys, Late(all, now), w.head, w.head, w.head + size);
      assert all != map[];
    }
  }

  /** A tick does nothing if and only if the frame behind the gap is on time. */
  lemma TickNothing(w: Window, now: Tick, size: nat)
    requires WindowOk(w, size) && size >= 1 && w.head !in w.held
    ensures ReleaseReady(w, now, size) == Outcome(w, [], []) <==>
            OnTime(w.held.Keys, Late(w.held, now), w.head, w.head + size)
  {
    hide OnTime;
    hide Late;
    AdvanceNone(w, size);
    if w.held == map[] { NothingHeld(w, now, size); }
    HeadStaysIff(w.held.Keys, Late(w.held, now), w.head, w.head, w.head + size);
    assert Between(w.held, w.head, w.head) == [];
  }

  lemma NothingHeld(w: Window, now: Tick, size: nat)
    requires w.held == map[]
    ensures OnTime(w.held.Keys, Late(w.held, now), w.head, w.head + size)
  {
  }

  /** An undisturbed run sorts: whatever order the numbers came in, and whatever ticks came between, the
      frames went up in number order without a gap, each under its own number, and nothing was dropped. */
  lemma {:induction false} UndisturbedRunSorts(start: int, arrivals: seq<Arrival>, size: nat)
    requires GoodSize(size) && Undisturbed(start, arrivals, size)
    ensures Sorted(start, arrivals, Run(Window(start, map[]), Events(arrivals), size))
    decreases |arrivals|
  {
    hide Wrap;
    hide Divides4096;
    hide Harmless;
    hide Step;
    hide Sorted;
    var w0 := Window(start, map[]);
    if arrivals == [] {
      SortedNothing(start, size);
    } else {
      var n := |arrivals| - 1;
      var front, last := arrivals[..n], arrivals[n];
      UndisturbedFront(start, arrivals, size);
      UndisturbedRunSorts(start, front, size);
      assert Events(arrivals)[..n] == Events(front);
      InOrderDelivery(w0, Events(front), size);
      var before := Run(w0, Events(front), size);
      SortStep(start, front, before, last, size);
      assert arrivals == front + [last];
    }
  }

  lemma SortedNothing(start: int, size: nat)
    ensures Sorted(start, [], Run(Window(start, map[]), Events([]), size))
  {
    assert Events([]) == [];
  }

  lemma UndisturbedFront(start: int, arrivals: seq<Arrival>, size: nat)
    requires Undisturbed(start, arrivals, size) && arrivals != []
    ensures Undisturbed(start, arrivals[..|arrivals| - 1], size)
    ensures Harmless(start, arrivals[..|arrivals| - 1], arrivals[|arrivals| - 1], size)
  {
    hide Harmless;
    var front := arrivals[..|arrivals| - 1];
    forall i | 0 <= i < |front|
      ensures Harmless(start, front[..i], front[i], size)
    {
      assert front[..i] == arrivals[..i];
    }
  }

  lemma NotYetExpired(now: Tick)
    ensures !Expired(now, now)
  {
    if now + REORDER_TIMEOUT < TICK_MODULO {
      assert (now + REORDER_TIMEOUT) % TICK_MODULO == now + REORDER_TIMEOUT;
    } else {
      assert (now + REORDER_TIMEOUT) % TICK_MODULO == now + REORDER_TIMEOUT - TICK_MODULO;
    }
  }

  lemma HeldOrNew(start: int, front: seq<Arrival>, before: Outcome, a: Arrival, k: nat)
    requires Sorted(start, front, before) && k < |front + [a]| && (front + [a])[k].Arrives?
    ensures var n := (front + [a])[k].num;
      before.window.head < n ==> n in before.window.held || (a.Arrives? && n == a.num)
  {
    if k < |front| {
      assert Seen(front, front[k].num);
    }
  }

  lemma NearestBehind(start: int, front: seq<Arrival>, before: Outcome, a: Arrival, all: map<int, Entry>, next: int)
    requires Sorted(start, front, before) && before.window.head < next
    requires forall u :: u in before.window.held || (a.Arrives? && u == a.num) ==> u in all
    requires forall v | before.window.head <= v < next :: v !in all
    ensures Nearest(front + [a], before.window.head, next)
  {
    hide Sorted;
    forall k | 0 <= k < |front + [a]| && (front + [a])[k].Arrives?
      ensures !(before.window.head < (front + [a])[k].num < next)
    {
      HeldOrNew(start, front, before, a, k);
      var n := (front + [a])[k].num;
      assert before.window.head < n ==> n in all;
    }
  }

  /** Nothing disturbing has come in, so the frame behind the gap is on time. */
  lemma BehindTheGap(start: int, front: seq<Arrival>, before: Outcome, a: Arrival, size: nat)
    requires WindowOk(before.window, size) && Sorted(start, front, before) && Harmless(start, front, a, size)
    requires !(a.Arrives? && a.num == before.window.head)
    ensures var w := before.window;
      && (a.Arrives? ==>
            OnTime(w.held.Keys + {a.num}, Late(w.held[a.num := Entry(a.frame, a.now)], a.now), w.head, w.head + size))
      && (a.Ticks? ==> OnTime(w.held.Keys, Late(w.held, a.now), w.head, w.head + size))
  {
    hide Expired;
    hide Wrap;
    hide WindowOk;
    hide Nearest;
    var w := before.window;
    var all := if a.Arrives? then w.held[a.num := Entry(a.frame, a.now)] else w.held;
    var limit := w.head + size;
    FirstHeldMeaning(all.Keys, w.head, limit);
    var next := FirstHeld(all.Keys, w.head, limit);
    if next < limit {
      if a.Arrives? && next == a.num {
        NotYetExpired(a.now);
      } else {
        var i :| 0 <= i < |front| && front[i].Arrives? && front[i].num == next;
        assert AtItsPlace(start, front[i], before);
        NearestBehind(start, front, before, a, all, next);
        assert !Expired(a.now, front[i].now);
      }
    }
    if a.Arrives? {
      assert all.Keys == w.held.Keys + {a.num};
    }
  }

  lemma SortStep(start: int, front: seq<Arrival>, before: Outcome, a: Arrival, size: nat)
    requires 1 <= size <= MODULO / 2
    requires WindowOk(before.window, size) && Sorted(start, front, before) && Harmless(start, front, a, size)
    ensures var o := Step(before.window, EventOf(a), size);
      Sorted(start, front + [a], Outcome(o.window, before.released + o.released, before.dropped + o.dropped))
  {
    hide Expired;
    hide Wrap;
    hide WindowOk;
    hide ReceiveMpdu;
    hide OnTime;
    hide Late;
    hide Nearest;
    var w := before.window;
    if !(a.Arrives? && a.num == w.head) { BehindTheGap(start, front, before, a, size); }
    match a
    case Ticks(now) =>
      TickNothing(w, now, size);
      SortedStill(start, front, before, a);
    case Arrives(u, f, now) =>
      SortArrival(start, front, before, a, size);
  }

  lemma SortArrival(start: int, front: seq<Arrival>, before: Outcome, a: Arrival, size: nat)
    requires 1 <= size <= MODULO / 2 && a.Arrives?
    requires WindowOk(before.window, size) && Sorted(start, front, before) && Harmless(start, front, a, size)
    requires var w := before.window;
      a.num == w.head ||
      OnTime(w.held.Keys + {a.num}, Late(w.held[a.num := Entry(a.frame, a.now)], a.now), w.head, w.head + size)
    ensures var o := Step(before.window, EventOf(a), size);
      Sorted(start, front + [a], Outcome(o.window, before.released + o.released, before.dropped + o.dropped))
  {
    hide Expired;
    hide Wrap;
    hide WindowOk;
    hide ReceiveMpdu;
    hide OnTime;
    hide Late;
    hide Nearest;
    hide AtItsPlace;
    var w := before.window;
    assert w.head <= a.num;
    ReceiveNew(w, a.num, a.frame, a.now, size);
    var o := Step(w, EventOf(a), size);
    BetweenFull(w.held[a.num := Entry(a.frame, a.now)], w.head, o.window.head);
    SortedAfter(start, front, before, a, o);
  }

  lemma SortedStill(start: int, front: seq<Arrival>, before: Outcome, a: Arrival)
    requires Sorted(start, front, before) && a.Ticks?
    ensures Sorted(start, front + [a], Outcome(before.window, before.released + [], before.dropped + []))
  {
    forall u
      ensures Seen(front + [a], u) <==> Seen(front, u)
    {
      SeenMore(front, a, u);
    }
    hide Seen;
    assert before.released + [] == before.released;
  }

  lemma SortedAfter(start: int, front: seq<Arrival>, before: Outcome, a: Arrival, o: Outcome)
    requires Sorted(start, front, before) && a.Arrives? && before.window.head <= a.num && !Seen(front, a.num)
    requires var all := before.window.held[a.num := Entry(a.frame, a.now)];
             var lo, hi := before.window.head, o.window.head;
      && o.dropped == [] && lo <= hi && hi !in all
      && (forall n | lo <= n < hi :: n in all)
      && |o.released| == hi - lo
      && (forall k | 0 <= k < |o.released| :: o.released[k] == Release(lo + k, all[lo + k].frame))
      && o.window == Advance(Window(lo, all), hi)
    ensures Sorted(start, front + [a], Outcome(o.window, before.released + o.released, before.dropped + o.dropped))
  {
    var lo, hi := before.window.head, o.window.head;
    var all := before.window.held[a.num := Entry(a.frame, a.now)];
    var arrivals, after := front + [a], Outcome(o.window, before.released + o.released, before.dropped + o.dropped);
    forall u
      ensures Seen(arrivals, u) <==> Seen(front, u) || a.num == u
    {
      SeenMore(front, a, u);
    }
    forall i | 0 <= i < |arrivals| && arrivals[i].Arrives?
      ensures AtItsPlace(start, arrivals[i], after)
    {
      if i < |front| {
        assert arrivals[i] == front[i];
        assert Seen(front, front[i].num);
        assert AtItsPlace(start, front[i], before);
      }
    }
    hide Seen;
    forall n | start <= n < hi
      ensures Seen(arrivals, n)
    {
      if lo <= n {
        assert n in all;
      }
    }
    assert !Seen(arrivals, hi);
  }

  /** The frames held when `a` has come in, and whether the one right behind the gap is on time. */
  function HeldWith(w: Window, a: Arrival): map<int, Entry> {
    if a.Arrives? then w.held[a.num := Entry(a.frame, a.now)] else w.held
  }

  ghost predicate GapOnTime(w: Window, a: Arrival, size: nat) {
    OnTime(HeldWith(w, a).Keys, Late(HeldWith(w, a), a.now), w.head, w.head + size)
  }

  /** The condition is exact: when a new frame of the window that does not fill the gap comes in, or a tick,
      the buffer goes on sorting if and only if the frame right behind the gap is on time. */
  lemma SortsOnIff(start: int, front: seq<Arrival>, before: Outcome, a: Arrival, size: nat)
    requires 1 <= size <= MODULO / 2 && WindowOk(before.window, size) && Sorted(start, front, before)
    requires a.Arrives? ==>
      a.frame.seqNum == Wrap(a.num) && before.window.head < a.num < before.window.head + size && !Seen(front, a.num)
    ensures var o := Step(before.window, EventOf(a), size);
      Sorted(start, front + [a], Outcome(o.window, before.released + o.released, before.dropped + o.dropped))
      <==> GapOnTime(before.window, a, size)
  {
    hide Wrap;
    hide Expired;
    hide WindowOk;
    hide OnTime;
    hide Late;
    hide ReceiveMpdu;
    hide ReleaseReady;
    var w := before.window;
    var o := Step(w, EventOf(a), size);
    if GapOnTime(w, a, size) {
      if a.Ticks? {
        TickNothing(w, a.now, size);
        SortedStill(start, front, before, a);
      } else {
        assert HeldWith(w, a).Keys == w.held.Keys + {a.num};
        ReceiveNew(w, a.num, a.frame, a.now, size);
        BetweenFull(HeldWith(w, a), w.head, o.window.head);
        SortedAfter(start, front, before, a, o);
      }
    } else {
      GapSkipped(w, a, size);
      SeenMore(front, a, w.head);
    }
  }

  lemma GapSkipped(w: Window, a: Arrival, size: nat)
    requires 1 <= size <= MODULO / 2 && WindowOk(w, size) && w.head !in w.held
    requires a.Arrives? ==> a.frame.seqNum == Wrap(a.num) && w.head < a.num < w.head + size && a.num !in w.held
    requires !GapOnTime(w, a, size)
    ensures Step(w, EventOf(a), size).window.head > w.head
  {
    hide Wrap;
    hide Unwrap;
    hide Late;
    hide OnTime;
    hide WindowOk;
    var all := HeldWith(w, a);
    AdvanceNone(w, size);
    if w.held == map[] && a.Ticks? { NothingHeld(w, a.now, size); }
    HeadStaysIff(all.Keys, Late(all, a.now), w.head, w.head, w.head + size);
    TimeoutEndMeaning(all.Keys, Late(all, a.now), w.head, w.head, w.head + size);
    if a.Arrives? {
      UnwrapNear(w.head, a.num);
      assert a.num in all;
      assert ReleasePoint(Window(w.head, all), a.now, size) > w.head;
    }
  }

  /** In particular, `n` consecutive numbers in any order come out as exactly those numbers in order. */
  lemma PermutationDelivered(start: int, n: nat, arrivals: seq<Arrival>, size: nat)
    requires GoodSize(size) && Undisturbed(start, arrivals, size)
    requires forall u :: Seen(arrivals, u) <==> start <= u < start + n
    ensures var o := Run(Window(start, map[]), Events(arrivals), size);
      && o.window == Window(start + n, map[]) && o.dropped == []
      && |o.released| == n
      && (forall k | 0 <= k < n :: o.released[k].num == start + k)
      && (forall i | 0 <= i < |arrivals| && arrivals[i].Arrives? ::
            start <= arrivals[i].num < start + n && o.released[arrivals[i].num - start].frame == arrivals[i].frame)
  {
    hide Run;
    hide Undisturbed;
    UndisturbedRunSorts(start, arrivals, size);
    var o := Run(Window(start, map[]), Events(arrivals), size);
    assert !Seen(arrivals, start + n);
    assert Seen(arrivals, o.window.head) <==> start <= o.window.head < start + n;
    assert o.window.head == start + n;
    assert forall u :: u !in o.window.held;
    assert o.window.held == map[];
    forall i | 0 <= i < |arrivals| && arrivals[i].Arrives?
      ensures start <= arrivals[i].num < start + n && o.released[arrivals[i].num - start].frame == arrivals[i].frame
    {
      assert Seen(arrivals, arrivals[i].num);
      assert AtItsPlace(start, arrivals[i], o);
    }
  }
}
