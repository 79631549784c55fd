/**
 The receive reorder buffer as the driver keeps it: a ring of slots indexed through 12-bit
 sequence numbers, updated in place. Each lock-protected handler is one method, proved to take the
 ring from one abstract window to the next exactly as ReorderSpec.Step says.
 */
module ReorderBuffer {
  import opened SequenceNumbers
  import opened ReorderSpec
  import opened ReorderTheorems

  datatype Slot = Empty | Stored(frame: Frame)

  /** The frames in a stretch of the ring, in slot order. */
  function SlotFrames(ring: seq<Slot>): seq<Frame> {
    if ring == [] then []
    else SlotFrames(ring[..|ring| - 1]) +
         (if ring[|ring| - 1].Stored? then [ring[|ring| - 1].frame] else [])
  }

  lemma {:induction false} SlotFramesConcat(a: seq<Slot>, b: seq<Slot>)
    ensures SlotFrames(a + b) == SlotFrames(a) + SlotFrames(b)
  {
    if b == [] {
      assert a + b == a;
    } else {
      SlotFramesConcat(a, b[..|b| - 1]);
      assert (a + b)[..|a + b| - 1] == a + b[..|b| - 1];
    }
  }

  /** An occupied slot, given that there is one. */
  lemma SomeOccupied(ring: seq<Slot>, time: seq<Tick>, ssn: int, size: nat, w: Window) returns (k: nat)
    requires Represents(ring, time, ssn, size, w) && SlotFrames(ring) != []
    ensures k < size <= |ring| && ring[k].Stored?
  {
    AllEmpty(ring);
    k :| 0 <= k < |ring| && ring[k].Stored?;
  }

  /** Changing one slot changes the number of occupied slots accordingly. */
  lemma SlotFramesUpdate(ring: seq<Slot>, i: nat, s: Slot)
    requires i < |ring|
    ensures |SlotFrames(ring[i := s])| ==
            |SlotFrames(ring)| - (if ring[i].Stored? then 1 else 0) + (if s.Stored? then 1 else 0)
  {
    var a, b := ring[..i], ring[i + 1..];
    assert ring == a + [ring[i]] + b;
    assert ring[i := s] == a + [s] + b;
    SlotFramesConcat(a + [ring[i]], b);
    SlotFramesConcat(a, [ring[i]]);
    SlotFramesConcat(a + [s], b);
    SlotFramesConcat(a, [s]);
  }

  lemma {:induction false} AllEmpty(ring: seq<Slot>)
    ensures SlotFrames(ring) == [] <==> forall i | 0 <= i < |ring| :: ring[i].Empty?
  {
    if ring != [] {
      AllEmpty(ring[..|ring| - 1]);
      assert forall i | 0 <= i < |ring| - 1 :: ring[..|ring| - 1][i] == ring[i];
    }
  }

  // ---- The ring represents a window ----

  /** What slot SlotOf(u) must hold for window number `u`. */
  function SlotFor(w: Window, u: int): Slot {
    if u in w.held then Stored(w.held[u].frame) else Empty
  }

  ghost predicate Represents(ring: seq<Slot>, time: seq<Tick>, ssn: int, size: nat, w: Window) {
    && 0 < size <= |ring| == |time|
    && (forall u | w.head <= u < w.head + size :: ring[SlotOf(u, ssn, size)] == SlotFor(w, u))
    && (forall u <- w.held :: w.head <= u < w.head + size ==> time[SlotOf(u, ssn, size)] == w.held[u].time)
    && (forall i | size <= i < |ring| :: ring[i].Empty?)
  }

  /** Taking out number `pos` when nothing is held before it leaves a ring for the window
      that starts right behind `pos`. */
  lemma RingRelease(ring: seq<Slot>, time: seq<Tick>, ssn: int, size: nat, w: Window, pos: int)
    requires Represents(ring, time, ssn, size, w) && WindowOk(w, size)
    requires w.head <= pos < w.head + size
    requires forall u | w.head <= u < pos :: u !in w.held
    ensures Represents(ring[SlotOf(pos, ssn, size) := Empty], time, ssn, size, Advance(w, pos + 1))
  {
    var w', k := Advance(w, pos + 1), SlotOf(pos, ssn, size);
    var ring' := ring[k := Empty];
    forall u | w'.head <= u < w'.head + size
      ensures ring'[SlotOf(u, ssn, size)] == SlotFor(w', u)
    {
      if u < w.head + size {
        SlotDistinct(pos, u, ssn, size);
      } else {
        SlotPeriodic(u - size, ssn, size);
        assert u - size <= pos;
      }
    }
  }

  lemma RingAt(ring: seq<Slot>, time: seq<Tick>, ssn: int, size: nat, w: Window, u: int)
    requires Represents(ring, time, ssn, size, w) && w.head <= u < w.head + size
    ensures size <= |ring| == |time| && ring[SlotOf(u, ssn, size)] == SlotFor(w, u)
    ensures u in w.held ==> time[SlotOf(u, ssn, size)] == w.held[u].time
  {
  }

  lemma RingStore(ring: seq<Slot>, time: seq<Tick>, ssn: int, size: nat, w: Window, u: int, e: Entry)
    requires Represents(ring, time, ssn, size, w)
    requires w.head <= u < w.head + size
    ensures var k := SlotOf(u, ssn, size);
      Represents(ring[k := Stored(e.frame)], time[k := e.time], ssn, size, Window(w.head, w.held[u := e]))
  {
    forall v | w.head <= v < w.head + size && v != u
      ensures SlotOf(v, ssn, size) != SlotOf(u, ssn, size)
    {
      SlotDistinct(if u < v then u else v, if u < v then v else u, ssn, size);
    }
  }

  lemma EmptyOrSome(held: map<int, Entry>)
    ensures held == map[] || exists u :: u in held
  {
    if forall u :: u !in held {
      assert held == map[];
    }
  }

  /** No slot is occupied exactly when nothing is held. */
  lemma RingEmptyIff(ring: seq<Slot>, time: seq<Tick>, ssn: int, size: nat, w: Window)
    requires Represents(ring, time, ssn, size, w) && WindowOk(w, size)
    ensures SlotFrames(ring) == [] <==> w.held == map[]
  {
    AllEmpty(ring);
    if w.held == map[] {
      forall i | 0 <= i < |ring|
        ensures ring[i].Empty?
      {
        if i < size {
          NumberAtSlot(i, w.head, ssn, size);
          assert ring[SlotOf(NumberAt(i, w.head, ssn, size), ssn, size)].Empty?;
        }
      }
    } else {
      EmptyOrSome(w.held);
      var u :| u in w.held;
      assert ring[SlotOf(u, ssn, size)].Stored?;
    }
  }

  lemma AdvanceTwice(w: Window, a: int, b: int)
    requires a <= b
    ensures Advance(Advance(w, a), b) == Advance(w, b)
  {
  }

  lemma AdvanceNone(w: Window, size: nat)
    requires WindowOk(w, size)
    ensures Advance(w, w.head) == w
  {
    assert Advance(w, w.head).held == w.held;
  }

  /** While the head is on its way to `to`, the loop test asks exactly whether it has arrived. */
  lemma BarProgress(w: Window, to: SeqNum, h: int)
    requires w.head <= h <= w.head + BarDistance(w, to)
    ensures SeqLess(Wrap(h), to) <==> h < w.head + BarDistance(w, to)
  {
    SeqLessAhead(h, to);
    var d := (to - w.head) % MODULO;
    assert to - w.head == ((to - w.head) / MODULO) * MODULO + d;
    RemainderUnique(to - h, MODULO, (to - w.head) / MODULO, d - (h - w.head));
  }

  // ---- What is done with frames that leave ----

  /** Frames that go up the stack, and those freed because the station interface they belong
      to is disconnected. */
  function HandedUp(fs: seq<Frame>, down: set<nat>): seq<Frame> {
    if fs == [] then []
    else HandedUp(fs[..|fs| - 1], down) + (if fs[|fs| - 1].vif in down then [] else [fs[|fs| - 1]])
  }

  function FreedOf(fs: seq<Frame>, down: set<nat>): seq<Frame> {
    if fs == [] then []
    else FreedOf(fs[..|fs| - 1], down) + (if fs[|fs| - 1].vif in down then [fs[|fs| - 1]] else [])
  }

  lemma LeavingConcat(a: seq<Frame>, b: seq<Frame>, down: set<nat>)
    ensures HandedUp(a + b, down) == HandedUp(a, down) + HandedUp(b, down)
    ensures FreedOf(a + b, down) == FreedOf(a, down) + FreedOf(b, down)
  {
    hide HandedUp;
    hide FreedOf;
    HandedUpConcat(a, b, down);
    FreedOfConcat(a, b, down);
  }

  lemma {:induction false} HandedUpConcat(a: seq<Frame>, b: seq<Frame>, down: set<nat>)
    ensures HandedUp(a + b, down) == HandedUp(a, down) + HandedUp(b, down)
    decreases |b|
  {
    if b == [] {
      assert a + b == a;
    } else {
      HandedUpConcat(a, b[..|b| - 1], down);
      assert (a + b)[..|a + b| - 1] == a + b[..|b| - 1];
    }
  }

  lemma {:induction false} FreedOfConcat(a: seq<Frame>, b: seq<Frame>, down: set<nat>)
    ensures FreedOf(a + b, down) == FreedOf(a, down) + FreedOf(b, down)
    decreases |b|
  {
    if b == [] {
      assert a + b == a;
    } else {
      FreedOfConcat(a, b[..|b| - 1], down);
      assert (a + b)[..|a + b| - 1] == a + b[..|b| - 1];
    }
  }

  /** A frame that leaves is handed up, unless its interface is down: then it is freed. */
  lemma {:induction false} SidesByInterface(fs: seq<Frame>, down: set<nat>, f: Frame)
    ensures f in HandedUp(fs, down) <==> f in fs && f.vif !in down
    ensures f in FreedOf(fs, down) <==> f in fs && f.vif in down
  {
    if fs != [] {
      SidesByInterface(fs[..|fs| - 1], down, f);
      assert f in fs <==> f in fs[..|fs| - 1] || f == fs[|fs| - 1];
    }
  }

  /** Every frame that leaves is either handed up or freed, once. */
  lemma {:induction false} LeavingConserves(fs: seq<Frame>, down: set<nat>, f: Frame)
    ensures Count(fs, f) == Count(HandedUp(fs, down), f) + Count(FreedOf(fs, down), f)
  {
    if fs != [] {
      var front, last := fs[..|fs| - 1], fs[|fs| - 1];
      LeavingConserves(front, down, f);
      CountConcat(HandedUp(front, down), if last.vif in down then [] else [last], f);
      CountConcat(FreedOf(front, down), if last.vif in down then [last] else [], f);
    }
  }

  function Leaving(held: map<int, Entry>, lo: int, hi: int): seq<Frame> {
    Frames(Between(held, lo, hi))
  }

  /** Everything that releasing the slot of number `pos` brings about, when nothing is held
      before it. */
  lemma NumberReleased(ring: seq<Slot>, time: seq<Tick>, ssn: int, size: nat, w: Window, pos: int, down: set<nat>)
    requires GoodSize(size) && Represents(ring, time, ssn, size, w) && WindowOk(w, size)
    requires w.head <= pos < w.head + size
    requires forall u | w.head <= u < pos :: u !in w.held
    ensures var i := SlotOf(pos, ssn, size);
      && i < |ring| && ring[i] == SlotFor(w, pos)
      && Represents(ring[i := Empty], time, ssn, size, Advance(w, pos + 1))
      && |SlotFrames(ring[i := Empty])| == |SlotFrames(ring)| - (if pos in w.held then 1 else 0)
    ensures WindowOk(Advance(w, pos + 1), size)
    ensures Advance(w, pos + 1).head == pos + 1
    ensures Leaving(w.held, w.head, pos + 1) == if pos in w.held then [w.held[pos].frame] else []
    ensures pos in w.held ==>
      var f := w.held[pos].frame;
      && HandedUp([f], down) == (if f.vif in down then [] else [f])
      && FreedOf([f], down) == (if f.vif in down then [f] else [])
  {
    hide Wrap;
    hide SlotOf;
    hide RingIndex;
    hide Divides4096;
    hide Represents;
    hide WindowOk;
    RingAt(ring, time, ssn, size, w, pos);
    AdvanceOk(w, pos + 1, size);
    RingRelease(ring, time, ssn, size, w, pos);
    SlotFramesUpdate(ring, SlotOf(pos, ssn, size), Empty);
    BetweenNone(w.held, w.head, pos);
  }

  /** From window `w0`, releasing everything up to the head of `w` has produced these outputs. */
  ghost predicate Progress(w0: Window, w: Window, up: seq<Frame>, fr: seq<Frame>, down: set<nat>) {
    && w0.head <= w.head
    && w == Advance(w0, w.head)
    && up == HandedUp(Leaving(w0.held, w0.head, w.head), down)
    && fr == FreedOf(Leaving(w0.held, w0.head, w.head), down)
  }

  lemma ProgressStart(w: Window, size: nat, down: set<nat>)
    requires WindowOk(w, size)
    ensures Progress(w, w, [], [], down)
  {
    AdvanceNone(w, size);
  }

  lemma ProgressExtend(w0: Window, w: Window, up: seq<Frame>, fr: seq<Frame>, to: int, down: set<nat>)
    requires Progress(w0, w, up, fr, down) && w.head <= to
    ensures Advance(w, to).head == to
    ensures var fs := Leaving(w.held, w.head, to);
      Progress(w0, Advance(w, to), up + HandedUp(fs, down), fr + FreedOf(fs, down), down)
  {
    AdvanceTwice(w0, w.head, to);
    BetweenAgree(w0.held, w.held, w.head, to);
    BetweenSplit(w0.held, w0.head, w.head, to);
    FramesConcat(Between(w0.held, w0.head, w.head), Between(w.held, w.head, to));
    LeavingConcat(Leaving(w0.held, w0.head, w.head), Leaving(w.held, w.head, to), down);
  }

  lemma WrapSkip(head: int, skipped: nat)
    ensures (SeqInc(Wrap(head)) + skipped) % MODULO == Wrap(head + skipped + 1)
  {
    WrapNext(head);
    WrapDifference(head + 1, 0 - skipped);
  }

  /** Walking on from the head, the first time the head's slot comes round again is after `size` numbers. */
  lemma RingAround(head: int, pos: int, ssn: int, size: nat)
    requires size > 0 && head < pos
    ensures pos < head + size ==> SlotOf(pos, ssn, size) != SlotOf(head, ssn, size)
    ensures pos == head + size ==> SlotOf(pos, ssn, size) == SlotOf(head, ssn, size)
  {
    if pos < head + size {
      SlotDistinct(head, pos, ssn, size);
    }
    SlotPeriodic(head, ssn, size);
  }

  lemma NextSlot(j: nat, size: nat)
    requires j < size
    ensures (j + 1) % size == if j + 1 == size then 0 else j + 1
  {
    if j + 1 < size {
      RemainderUnique(j + 1, size, 0, j + 1);
    } else {
      RemainderUnique(j + 1, size, 1, 0);
    }
  }

  /** Once the scan has come round, nothing is left. */
  lemma NothingBeyond(w0: Window, size: nat, w: Window)
    requires WindowOk(w0, size) && w == Advance(w0, w.head)
    requires forall u | w.head <= u < w0.head + size :: u !in w.held
    ensures w.held == map[]
  {
  }

  lemma NothingFlushed(ring: seq<Slot>, down: set<nat>)
    ensures SlotFrames(ring[..0]) == [] && HandedUp([], down) == [] && FreedOf([], down) == []
  {
  }

  lemma FlushStep(ring: seq<Slot>, i: nat, down: set<nat>)
    requires i < |ring|
    ensures var fs, fs' := SlotFrames(ring[..i]), SlotFrames(ring[..i + 1]);
            var s := ring[i];
      && HandedUp(fs', down) == HandedUp(fs, down) + (if s.Stored? && s.frame.vif !in down then [s.frame] else [])
      && FreedOf(fs', down) == FreedOf(fs, down) + (if s.Stored? && s.frame.vif in down then [s.frame] else [])
  {
    assert ring[..i + 1][..i] == ring[..i];
    if ring[i].Stored? {
      LeavingConcat(SlotFrames(ring[..i]), [ring[i].frame], down);
    } else {
      assert SlotFrames(ring[..i + 1]) == SlotFrames(ring[..i]);
    }
  }

  // ---- The 12-bit tests of the receive path ----

  /** The test against head + size asks whether the frame lies beyond the window, for any window of 1 to
      2047 numbers. */
  lemma BeyondWindow(head: int, s: SeqNum, size: nat)
    requires Unwrap(head, s) >= head && 1 <= size < MODULO / 2
    ensures !SeqLess(s, Wrap(head) + size) <==> Unwrap(head, s) >= head + size
  {
    var u := Unwrap(head, s);
    UnwrapIsNearest(head, s);
    WrapDifference(head, s - size);
    WrapDifference(u, head + size);
    NearRemainder(u - head - size);
  }

  /** The shift moves the head exactly as far as needed to make the frame the last of the
      window, if and only if the window is not the one-slot window a frame half the number space
      ahead would need it to be. */
  lemma ShiftReaches(w: Window, s: SeqNum, size: nat)
    requires 1 <= size < MODULO / 2 && Unwrap(w.head, s) >= w.head + size
    ensures var u := Unwrap(w.head, s);
      w.head + BarDistance(w, SeqInc(SeqSub(s, size))) == u - size + 1
      <==> !(size == 1 && u == w.head + MODULO / 2)
  {
    var u := Unwrap(w.head, s);
    UnwrapIsNearest(w.head, s);
    WrapDifference(u, size);
    WrapNext(u - size);
    var to := u - size + 1;
    WrapDifference(to, w.head);
    NearRemainder(to - w.head);
  }

  /** Where the driver moves the head to make room for 12-bit number `s`: test and shift together. */
  function DriverShift(w: Window, s: SeqNum, size: nat): int {
    if SeqLess(s, Wrap(w.head) + size) then w.head else w.head + BarDistance(w, SeqInc(SeqSub(s, size)))
  }

  ghost predicate ShiftsRight(w: Window, s: SeqNum, size: nat) {
    Unwrap(w.head, s) >= w.head ==> DriverShift(w, s, size) == ShiftPoint(w, Unwrap(w.head, s), size)
  }

  /** At size 2048 the test takes the head number itself to lie beyond the window, but the shift then moves
      nothing. */
  lemma HalfWindowShift(w: Window, s: SeqNum)
    ensures ShiftsRight(w, s, MODULO / 2)
  {
    hide SeqLess;
    hide BarDistance;
    hide Wrap;
    hide Unwrap;
    hide SeqSub;
    hide SeqInc;
    if Unwrap(w.head, s) >= w.head {
      UnwrapIsNearest(w.head, s);
      HalfWindowTest(w.head, s);
      HalfWindowDistance(w, s);
    }
  }

  lemma HalfWindowTest(head: int, s: SeqNum)
    requires Unwrap(head, s) >= head
    ensures SeqLess(s, Wrap(head) + MODULO / 2) <==> head < Unwrap(head, s) < head + MODULO / 2
  {
    var u, size := Unwrap(head, s), MODULO / 2;
    UnwrapIsNearest(head, s);
    WrapDifference(head, s - size);
    WrapDifference(u, head + size);
    NearRemainder(u - head - size);
  }

  lemma HalfWindowDistance(w: Window, s: SeqNum)
    requires Unwrap(w.head, s) >= w.head
    ensures BarDistance(w, SeqInc(SeqSub(s, MODULO / 2)))
         == if Unwrap(w.head, s) == w.head + MODULO / 2 then 1 else 0
  {
    var u, size := Unwrap(w.head, s), MODULO / 2;
    UnwrapIsNearest(w.head, s);
    WrapDifference(u, size);
    WrapNext(u - size);
    WrapDifference(u - size + 1, w.head);
    NearRemainder(u - size + 1 - w.head);
  }

  lemma ShiftReachesAll(w: Window, s: SeqNum, size: nat)
    requires 2 <= size <= MODULO / 2
    ensures ShiftsRight(w, s, size)
  {
    hide SeqLess;
    hide Unwrap;
    hide BarDistance;
    if size == MODULO / 2 {
      HalfWindowShift(w, s);
    } else if Unwrap(w.head, s) >= w.head {
      BeyondWindow(w.head, s, size);
      if Unwrap(w.head, s) >= w.head + size { ShiftReaches(w, s, size); }
    }
  }

  /** A window of one number misses a frame 2048 ahead; one of 4096 numbers moves for a frame inside it. */
  lemma ShiftFails()
    ensures !ShiftsRight(Window(0, map[]), 2048, 1) && !ShiftsRight(Window(0, map[]), 1, 4096)
  {
  }

  /** Of the sizes that divide 4096, test and shift are right at every head and for every number exactly for
      2 to 2048. */
  lemma ShiftRightIff(size: nat)
    requires Divides4096(size)
    ensures (forall w, s :: ShiftsRight(w, s, size)) <==> 2 <= size <= MODULO / 2
  {
    hide ShiftsRight;
    if 2 <= size <= MODULO / 2 {
      forall w, s
        ensures ShiftsRight(w, s, size)
      {
        ShiftReachesAll(w, s, size);
      }
    } else {
      ShiftFails();
      assert MODULO == (MODULO / size) * size;
      assert size == 1 || size == MODULO;
    }
  }

  /** The sizes the driver's arithmetic works for, whatever the start number: no two numbers of a window
      share a slot, and the window is always shifted as it should be. */
  lemma GoodSizeExact(ssn: int, size: nat)
    requires size >= 1
    ensures GoodSize(size) <==>
      (forall head :: WindowFits(head, ssn, size)) && (forall w, s :: ShiftsRight(w, s, size))
  {
    hide ShiftsRight;
    if size > MODULO {
      WrapSmall(0);
      RemainderUnique(MODULO, MODULO, 1, 0);
      assert RingIndex(Wrap(0), ssn, size) == RingIndex(Wrap(MODULO), ssn, size);
      assert !WindowFits(0, ssn, size);
    } else {
      hide WindowFits;
      if size > 1 { NoCollisionIffDivides(ssn, size); }
      if Divides4096(size) { ShiftRightIff(size); }
    }
  }

  lemma ShiftLands(w: Window, s: SeqNum, size: nat)
    requires 2 <= size <= MODULO / 2 && Unwrap(w.head, s) >= w.head
    ensures ShiftPoint(w, Unwrap(w.head, s), size) ==
            if SeqLess(s, Wrap(w.head) + size) then w.head else w.head + BarDistance(w, SeqInc(SeqSub(s, size)))
  {
    ShiftReachesAll(w, s, size);
  }

  lemma SameNumber(u: int, v: int)
    requires -MODULO < u - v < MODULO
    ensures Wrap(u) == Wrap(v) <==> u == v
  {
    WrapDifference(u, Wrap(v));
    WrapDifference(v, u);
    NearRemainder(u - v);
  }

  lemma WrapSmall(u: int)
    requires 0 <= u < MODULO
    ensures Wrap(u) == u
  {
    NearRemainder(u);
  }

  lemma NothingLeaves(w: Window, down: set<nat>)
    ensures Between(w.held, w.head, w.head) == [] && Frames([]) == []
    ensures HandedUp([], down) == [] && FreedOf([], down) == []
  {
  }

  /** An empty ring represents an empty window wherever it starts. */
  lemma NextWindowEmpty(ring: seq<Slot>, time: seq<Tick>, ssn: int, size: nat, w: Window)
    requires Represents(ring, time, ssn, size, w) && w.held == map[] && WindowOk(w, size)
    ensures Represents(ring, time, ssn, size, Window(w.head + 1, map[]))
    ensures WindowOk(Window(w.head + 1, map[]), size)
  {
    RingRelease(ring, time, ssn, size, w, w.head);
    assert Advance(w, w.head + 1).held == map[];
    RingAt(ring, time, ssn, size, w, w.head);
    assert ring[SlotOf(w.head, ssn, size) := Empty] == ring;
  }

  // ---- Where departing frames go ----

  /** Each frame of `fs` went to one of `up` and `fr`, in order. */
  ghost predicate Split(fs: seq<Frame>, up: seq<Frame>, fr: seq<Frame>)
    decreases |fs|
  {
    if fs == [] then up == [] && fr == []
    else
      var front, last := fs[..|fs| - 1], fs[|fs| - 1];
      || (up != [] && up[|up| - 1] == last && Split(front, up[..|up| - 1], fr))
      || (fr != [] && fr[|fr| - 1] == last && Split(front, up, fr[..|fr| - 1]))
  }

  lemma {:induction false} SplitAppend(a: seq<Frame>, u1: seq<Frame>, f1: seq<Frame>, b: seq<Frame>, u2: seq<Frame>, f2: seq<Frame>)
    requires Split(a, u1, f1) && Split(b, u2, f2)
    ensures Split(a + b, u1 + u2, f1 + f2)
    decreases |b|
  {
    if b == [] {
      assert a + b == a && u1 + u2 == u1 && f1 + f2 == f1;
    } else {
      var front, last := b[..|b| - 1], b[|b| - 1];
      assert (a + b)[..|a + b| - 1] == a + front;
      if u2 != [] && u2[|u2| - 1] == last && Split(front, u2[..|u2| - 1], f2) {
        SplitAppend(a, u1, f1, front, u2[..|u2| - 1], f2);
        assert (u1 + u2)[..|u1 + u2| - 1] == u1 + u2[..|u2| - 1];
      } else {
        SplitAppend(a, u1, f1, front, u2, f2[..|f2| - 1]);
        assert (f1 + f2)[..|f1 + f2| - 1] == f1 + f2[..|f2| - 1];
      }
    }
  }

  lemma {:induction false} SplitLeaving(fs: seq<Frame>, down: set<nat>)
    ensures Split(fs, HandedUp(fs, down), FreedOf(fs, down))
    ensures down == {} ==> HandedUp(fs, down) == fs && FreedOf(fs, down) == []
    decreases |fs|
  {
    hide Split;
    if fs == [] {
      SplitOneWay([]);
    }
    if fs != [] {
      var front, last := fs[..|fs| - 1], fs[|fs| - 1];
      SplitLeaving(front, down);
      SplitOneWay([last]);
      assert fs == front + [last];
      if last.vif in down {
        SplitAppend(front, HandedUp(front, down), FreedOf(front, down), [last], [], [last]);
      } else {
        SplitAppend(front, HandedUp(front, down), FreedOf(front, down), [last], [last], []);
      }
    }
  }

  lemma {:induction false} SplitOneWay(fs: seq<Frame>)
    ensures Split(fs, [], fs) && Split(fs, fs, [])
    decreases |fs|
  {
    if fs != [] { SplitOneWay(fs[..|fs| - 1]); }
  }

  /** Everything that leaves in a run, step by step: what is released, then what is dropped. */
  function Departed(w: Window, events: seq<Event>, size: nat): seq<Frame>
    decreases |events|
  {
    if events == [] then []
    else
      var front := events[..|events| - 1];
      var o := Step(Run(w, front, size).window, events[|events| - 1], size);
      Departed(w, front, size) + (Frames(o.released) + o.dropped)
  }

  lemma {:induction false} SplitCounts(fs: seq<Frame>, up: seq<Frame>, fr: seq<Frame>, f: Frame)
    requires Split(fs, up, fr)
    ensures Count(up, f) + Count(fr, f) == Count(fs, f)
    decreases |fs|
  {
    if fs != [] {
      var front, last := fs[..|fs| - 1], fs[|fs| - 1];
      if up != [] && up[|up| - 1] == last && Split(front, up[..|up| - 1], fr) {
        SplitCounts(front, up[..|up| - 1], fr, f);
      } else {
        SplitCounts(front, up, fr[..|fr| - 1], f);
      }
    }
  }

  lemma {:induction false} DepartedCounts(w: Window, events: seq<Event>, size: nat, f: Frame)
    ensures var o := Run(w, events, size);
      Count(Departed(w, events, size), f) == Copies(o.released, f) + Count(o.dropped, f)
    decreases |events|
  {
    hide Step;
    hide Count;
    hide Copies;
    if events == [] {
      NoCopies(f);
    } else {
      var front := events[..|events| - 1];
      var before := Run(w, front, size);
      var o := Step(before.window, events[|events| - 1], size);
      DepartedCounts(w, front, size, f);
      CountConcat(Departed(w, front, size), Frames(o.released) + o.dropped, f);
      CountConcat(Frames(o.released), o.dropped, f);
      CopiesIsCount(o.released, f);
      CopiesConcat(before.released, o.released, f);
      CountConcat(before.dropped, o.dropped, f);
    }
  }

  lemma NoCopies(f: Frame)
    ensures Count([], f) == 0 && Copies([], f) == 0
  {
  }

  /** Every frame waiting or entering was handed up, was freed or still waits, as often. */
  ghost predicate Accounted(w: Window, events: seq<Event>, up: seq<Frame>, fr: seq<Frame>, after: Window, size: nat) {
    forall f :: Waiting(w, f, size) + Count(Entered(events), f) == Count(up, f) + Count(fr, f) + Waiting(after, f, size)
  }

  lemma SplitAccounts(w: Window, events: seq<Event>, up: seq<Frame>, fr: seq<Frame>, size: nat)
    requires WindowOk(w, size) && size >= 1 && Split(Departed(w, events, size), up, fr)
    ensures Accounted(w, events, up, fr, Run(w, events, size).window, size)
  {
    hide Waiting;
    hide Count;
    hide Copies;
    hide Split;
    hide Run;
    forall f: Frame
      ensures Waiting(w, f, size) + Count(Entered(events), f)
           == Count(up, f) + Count(fr, f) + Waiting(Run(w, events, size).window, f, size)
    {
      FramesConserved(w, events, f, size);
      DepartedCounts(w, events, size, f);
      SplitCounts(Departed(w, events, size), up, fr, f);
    }
  }

  /** What one event does to the two sides. */
  lemma SidesOf(o: Outcome, down: set<nat>)
    ensures Split(Frames(o.released) + o.dropped, HandedUp(Frames(o.released), down), FreedOf(Frames(o.released), down) + o.dropped)
    ensures down == {} ==> HandedUp(Frames(o.released), down) == Frames(o.released) && FreedOf(Frames(o.released), down) == []
  {
    hide Split;
    hide HandedUp;
    hide FreedOf;
    var fs := Frames(o.released);
    SplitLeaving(fs, down);
    SplitOneWay(o.dropped);
    SplitAppend(fs, HandedUp(fs, down), FreedOf(fs, down), o.dropped, [], o.dropped);
    assert HandedUp(fs, down) + [] == HandedUp(fs, down);
  }

  /** The same when the last frame released is handed up whatever its interface. */
  lemma SidesOfDirect(o: Outcome, frame: Frame, down: set<nat>)
    requires o.released != [] && o.released[|o.released| - 1].frame == frame && o.dropped == []
    ensures var fs := Frames(o.released[..|o.released| - 1]);
      && Split(Frames(o.released) + o.dropped, HandedUp(fs, down) + [frame], FreedOf(fs, down))
      && (down == {} ==> HandedUp(fs, down) + [frame] == Frames(o.released) && FreedOf(fs, down) == [])
  {
    hide Split;
    hide HandedUp;
    hide FreedOf;
    var fs := Frames(o.released[..|o.released| - 1]);
    SplitLeaving(fs, down);
    SplitOneWay([frame]);
    SplitAppend(fs, HandedUp(fs, down), FreedOf(fs, down), [frame], [frame], []);
    assert FreedOf(fs, down) + [] == FreedOf(fs, down);
    assert Frames(o.released) + o.dropped == fs + [frame];
    assert Frames(o.released) == fs + [frame];
  }

  /** What becomes of a frame with a number of the window. */
  function Placed(w: Window, u: int, f: Frame, now: Tick, size: nat): Outcome {
    if u in w.held then Outcome(w, [], [f])
    else if u == w.head && w.held == map[] then Outcome(Window(u + 1, map[]), [Release(u, f)], [])
    else ReleaseReady(Window(w.head, w.held[u := Entry(f, now)]), now, size)
  }

  lemma ReceiveIsPlaced(w: Window, f: Frame, now: Tick, size: nat)
    requires Unwrap(w.head, f.seqNum) >= w.head
    ensures var u := Unwrap(w.head, f.seqNum);
            var shifted := Advance(w, ShiftPoint(w, u, size));
            var out, o := Between(w.held, w.head, shifted.head), Placed(shifted, u, f, now, size);
      ReceiveMpdu(w, f, now, size) == Outcome(o.window, out + o.released, o.dropped)
  {
    hide Advance;
    hide Between;
    hide Unwrap;
  }

  /** `rx_ba_session_desc`, with the frames it has passed to the data handler and to the allocator. */
  class Session {
    var reorderBuf: array<Slot>
    var reorderTime: array<Tick>
    var headSeqNum: SeqNum
    var storedMpduNum: int
    var ssn: int
    var bufSize: nat
    var handedUp: seq<Frame>
    var freed: seq<Frame>

    /** The abstract window, over unwrapped numbers. */
    ghost var window: Window

    ghost predicate Valid()
      reads this, reorderBuf, reorderTime
    {
      && GoodSize(bufSize)
      && Represents(reorderBuf[..], reorderTime[..], ssn, bufSize, window)
      && WindowOk(window, bufSize)
      && headSeqNum == Wrap(window.head)
      && storedMpduNum == |SlotFrames(reorderBuf[..])|
    }

    /** Everything but the fields a release pass changes. */
    twostate predicate SameSetup()
      reads this
    {
      && reorderBuf == old(reorderBuf) && reorderTime == old(reorderTime)
      && ssn == old(ssn) && bufSize == old(bufSize)
    }

    /** These frames have left since the old state, in this order. */
    twostate predicate Left(fs: seq<Frame>, down: set<nat>)
      reads this
    {
      && handedUp == old(handedUp) + HandedUp(fs, down)
      && freed == old(freed) + FreedOf(fs, down)
    }

    /** `ieee80211_release_reorder_frame`, for an occupied or an empty slot. */
    method ReleaseReorderFrame(index: nat, down: set<nat>)
      requires index < reorderBuf.Length
      modifies this`headSeqNum, this`storedMpduNum, this`handedUp, this`freed, reorderBuf
      ensures reorderBuf[..] == old(reorderBuf[..])[index := Empty]
      ensures headSeqNum == SeqInc(old(headSeqNum))
      ensures var s := old(reorderBuf[index]);
        && storedMpduNum == old(storedMpduNum) - (if s.Stored? then 1 else 0)
        && handedUp == old(handedUp) + (if s.Stored? && s.frame.vif !in down then [s.frame] else [])
        && freed == old(freed) + (if s.Stored? && s.frame.vif in down then [s.frame] else [])
    {
      var slot := reorderBuf[index];
      if slot.Stored? {
        storedMpduNum := storedMpduNum - 1;
        reorderBuf[index] := Empty;
        if slot.frame.vif in down {
          freed := freed + [slot.frame];
        } else {
          handedUp := handedUp + [slot.frame];
        }
      }
      headSeqNum := SeqInc(headSeqNum);
    }

    /** Release slot `index` of number `pos` and count the `skipped` missing numbers before it:
        the body shared by the release loops. */
    method ReleaseNumber(index: nat, skipped: nat, down: set<nat>)
      requires Valid()
      requires skipped < bufSize
      requires index == SlotOf(window.head + skipped, ssn, bufSize)
      requires forall u | window.head <= u < window.head + skipped :: u !in window.held
      modifies this, reorderBuf
      ensures Valid() && SameSetup()
      ensures window == Advance(old(window), old(window).head + skipped + 1)
      ensures Left(Leaving(old(window).held, old(window).head, old(window).head + skipped + 1), down)
      ensures storedMpduNum ==
              old(storedMpduNum) - (if old(window).head + skipped in old(window).held then 1 else 0)
    {
      hide Represents;
      hide WindowOk;
      hide Divides4096;
      hide Leaving;
      hide Wrap;
      hide SlotOf;
      hide SlotFrames;
      ghost var w, ring, pos := window, reorderBuf[..], window.head + skipped;
      NumberReleased(ring, reorderTime[..], ssn, bufSize, w, pos, down);
      WrapSkip(w.head, skipped);
      ReleaseReorderFrame(index, down);
      headSeqNum := (headSeqNum + skipped) % MODULO;
      window := Advance(w, pos + 1);
    }

    /** `ieee80211_release_reorder_frames`: bring the head up to 12-bit number `to`. */
    method ReleaseReorderFrames(to: SeqNum, down: set<nat>)
      requires Valid()
      modifies this, reorderBuf
      ensures Valid() && SameSetup()
      ensures window == ReceiveBar(old(window), to).window
      ensures Left(Frames(ReceiveBar(old(window), to).released), down)
    {
      hide HandedUp;
      hide FreedOf;
      hide Between;
      hide Frames;
      hide SlotFrames;
      hide SlotOf;
      hide RingIndex;
      hide Represents;
      hide WindowOk;
      hide Wrap;
      hide SeqLess;
      hide BarDistance;
      hide Advance;
      hide Divides4096;
      ghost var w0, up, fr := window, [], [];
      ghost var stop := w0.head + BarDistance(w0, to);
      ProgressStart(w0, bufSize, down);
      BarProgress(w0, to, w0.head);
      while SeqLess(headSeqNum, to)
        invariant Valid() && SameSetup()
        invariant Progress(w0, window, up, fr, down)
        invariant handedUp == old(handedUp) + up && freed == old(freed) + fr
        invariant window.head <= stop && (SeqLess(headSeqNum, to) <==> window.head < stop)
        decreases stop - window.head
      {
        ghost var w := window;
        ghost var fs := Leaving(w.held, w.head, w.head + 1);
        RingIndexIsSlot(w.head, ssn, bufSize);
        var index := RingIndex(headSeqNum, ssn, bufSize);
        ReleaseNumber(index, 0, down);
        ProgressExtend(w0, w, up, fr, w.head + 1, down);
        up, fr := up + HandedUp(fs, down), fr + FreedOf(fs, down);
        BarProgress(w0, to, window.head);
      }
    }

    /** The timeout scan: from the slot after the empty head slot once around the ring.
        Returns whether it met a frame that is still allowed to wait. */
    method ReleaseTimedOut(index: nat, now: Tick, down: set<nat>) returns (stopped: bool)
      requires Valid()
      requires index == SlotOf(window.head, ssn, bufSize) && window.head !in window.held
      modifies this, reorderBuf
      ensures Valid() && SameSetup()
      ensures var w := old(window);
              var to := TimeoutEnd(w.held.Keys, Late(w.held, now), w.head, w.head, w.head + bufSize);
        && window == Advance(w, to)
        && Left(Leaving(w.held, w.head, to), down)
      ensures stopped <==> window.held != map[]
    {
      hide Represents;
      hide WindowOk;
      hide Wrap;
      hide Expired;
      hide Divides4096;
      hide SlotOf;
      hide HandedUp;
      hide FreedOf;
      hide Leaving;
      hide SlotFrames;
      ghost var w0, up, fr := window, [], [];
      ghost var keys, late, limit := w0.held.Keys, Late(w0.held, now), w0.head + bufSize;
      ghost var pos := w0.head + 1;
      ProgressStart(w0, bufSize, down);
      SlotNext(w0.head, ssn, bufSize);
      RingAround(w0.head, pos, ssn, bufSize);
      var skipped := 1;
      var j := (index + 1) % bufSize;
      while j != index
        invariant Valid() && SameSetup()
        invariant w0.head < pos <= limit && window.head + skipped == pos
        invariant j == SlotOf(pos, ssn, bufSize) && (j == index <==> pos == limit)
        invariant forall u | window.head <= u < pos :: u !in window.held
        invariant TimeoutEnd(keys, late, w0.head, w0.head, limit) ==
                  TimeoutEnd(keys, late, window.head, pos, limit)
        invariant Progress(w0, window, up, fr, down)
        invariant handedUp == old(handedUp) + up && freed == old(freed) + fr
        decreases limit - pos
      {
        ghost var w := window;
        RingAt(reorderBuf[..], reorderTime[..], ssn, bufSize, w, pos);
        SlotNext(pos, ssn, bufSize);
        RingAround(w0.head, pos + 1, ssn, bufSize);
        if reorderBuf[j].Empty? {
          skipped := skipped + 1;
        } else {
          if skipped != 0 && !Expired(now, reorderTime[j]) {
            assert pos in window.held;
            return true;
          }
          ghost var fs := Leaving(w.held, w.head, pos + 1);
          ReleaseNumber(j, skipped, down);
          ProgressExtend(w0, w, up, fr, pos + 1, down);
          up, fr := up + HandedUp(fs, down), fr + FreedOf(fs, down);
          skipped := 0;
        }
        pos := pos + 1;
        j := (j + 1) % bufSize;
      }
      NothingBeyond(w0, bufSize, window);
      stopped := false;
    }

    /** The in-order loop: release until the next missing number. */
    method ReleaseInOrder(down: set<nat>)
      requires Valid()
      modifies this, reorderBuf
      ensures Valid() && SameSetup()
      ensures var w := old(window);
              var to := RunEnd(w.held.Keys, w.head, w.head + bufSize);
        && window == Advance(w, to)
        && Left(Leaving(w.held, w.head, to), down)
    {
      hide Represents;
      hide Wrap;
      hide Divides4096;
      hide SlotOf;
      hide HandedUp;
      hide FreedOf;
      hide Leaving;
      hide SlotFrames;
      ghost var w0, up, fr := window, [], [];
      ghost var limit := w0.head + bufSize;
      ProgressStart(w0, bufSize, down);
      RingIndexIsSlot(w0.head, ssn, bufSize);
      RingAt(reorderBuf[..], reorderTime[..], ssn, bufSize, w0, w0.head);
      var index := RingIndex(headSeqNum, ssn, bufSize);
      while reorderBuf[index].Stored?
        invariant Valid() && SameSetup()
        invariant index == SlotOf(window.head, ssn, bufSize) && index < reorderBuf.Length
        invariant reorderBuf[index] == SlotFor(window, window.head)
        invariant RunEnd(w0.held.Keys, w0.head, limit) == RunEnd(w0.held.Keys, window.head, limit)
        invariant Progress(w0, window, up, fr, down)
        invariant handedUp == old(handedUp) + up && freed == old(freed) + fr
        decreases storedMpduNum
      {
        ghost var w := window;
        ghost var fs := Leaving(w.held, w.head, w.head + 1);
        ReleaseNumber(index, 0, down);
        ProgressExtend(w0, w, up, fr, w.head + 1, down);
        up, fr := up + HandedUp(fs, down), fr + FreedOf(fs, down);
        RingIndexIsSlot(window.head, ssn, bufSize);
        RingAt(reorderBuf[..], reorderTime[..], ssn, bufSize, window, window.head);
        index := RingIndex(headSeqNum, ssn, bufSize);
      }
    }

    /** The search for a frame still waiting. With the head in slot 0 the end mark
        (index - 1) % buf_size is -1 in C and never met: only an occupied slot stops the search. */
    method FindWaiting() returns (j: nat)
      requires Valid() && storedMpduNum != 0
      ensures j < bufSize
      ensures reorderBuf[j].Stored? || j + 1 == SlotOf(window.head, ssn, bufSize)
    {
      hide Represents;
      hide WindowOk;
      hide Wrap;
      hide Divides4096;
      hide SlotOf;
      hide RingIndex;
      RingIndexIsSlot(window.head, ssn, bufSize);
      var index := RingIndex(headSeqNum, ssn, bufSize);
      var endMark: int := index as int - 1;
      ghost var k := SomeOccupied(reorderBuf[..], reorderTime[..], ssn, bufSize, window);
      j := index;
      while j != endMark
        invariant j < bufSize
        invariant k < bufSize && reorderBuf[k].Stored?
        decreases if j <= k then k - j else k + bufSize - j
      {
        if reorderBuf[j].Stored? {
          break;
        }
        NextSlot(j, bufSize);
        j := (j + 1) % bufSize;
      }
    }

    /** `ieee80211_sta_reorder_release`. */
    method ReorderRelease(now: Tick, down: set<nat>)
      requires Valid()
      modifies this, reorderBuf
      ensures Valid() && SameSetup()
      ensures window == ReleaseReady(old(window), now, bufSize).window
      ensures Left(Frames(ReleaseReady(old(window), now, bufSize).released), down)
      ensures window.head !in window.held
    {
      hide Represents;
      hide WindowOk;
      hide Wrap;
      hide Divides4096;
      hide HandedUp;
      hide FreedOf;
      hide RunEnd;
      hide TimeoutEnd;
      hide Late;
      ghost var w := window;
      RingIndexIsSlot(w.head, ssn, bufSize);
      RingAt(reorderBuf[..], reorderTime[..], ssn, bufSize, w, w.head);
      RingEmptyIff(reorderBuf[..], reorderTime[..], ssn, bufSize, w);
      ReleaseReadyOk(w, now, bufSize);
      var index := RingIndex(headSeqNum, ssn, bufSize);
      if reorderBuf[index].Empty? && storedMpduNum != 0 {
        var stopped := ReleaseTimedOut(index, now, down);
        if stopped {
          return;
        }
      } else {
        ReleaseInOrder(down);
      }
      if storedMpduNum != 0 {
        var j := FindWaiting();
      }
    }

    /** `ieee80211_sta_manage_reorder_buf`. A frame that is not consumed is the caller's to hand up. */
    method ManageReorderBuf(frame: Frame, now: Tick, down: set<nat>) returns (consumed: bool)
      requires Valid()
      modifies this, reorderBuf, reorderTime
      ensures Valid() && SameSetup()
      ensures var o := ReceiveMpdu(old(window), frame, now, bufSize);
        && window == o.window
        && (consumed ==>
              && handedUp == old(handedUp) + HandedUp(Frames(o.released), down)
              && freed == old(freed) + FreedOf(Frames(o.released), down) + o.dropped)
        && (!consumed ==>
              && o.released != [] && o.released[|o.released| - 1].frame == frame && o.dropped == []
              && Left(Frames(o.released[..|o.released| - 1]), down))
    {
      hide Represents;
      hide WindowOk;
      hide Wrap;
      hide SeqLess;
      hide SeqSub;
      hide SeqInc;
      hide Divides4096;
      hide HandedUp;
      hide FreedOf;
      hide ReleaseReady;
      hide BarDistance;
      hide Unwrap;
      hide RingIndex;
      hide SlotOf;
      hide Between;
      hide Frames;
      hide SlotFrames;
      ghost var w, u := window, Unwrap(window.head, frame.seqNum);
      UnwrapIsNearest(w.head, frame.seqNum);
      AdvanceNone(w, bufSize);
      if SeqLess(frame.seqNum, headSeqNum) {
        freed := freed + [frame];
        NothingLeaves(w, down);
        return true;
      }
      ShiftLands(w, frame.seqNum, bufSize);
      ReceiveIsPlaced(w, frame, now, bufSize);
      hide ReceiveMpdu;
      hide Placed;
      NothingLeaves(w, down);
      if !SeqLess(frame.seqNum, headSeqNum + bufSize) {
        ReleaseReorderFrames(SeqInc(SeqSub(frame.seqNum, bufSize)), down);
      }
      ghost var out := Between(w.held, w.head, window.head);
      assert window == Advance(w, ShiftPoint(w, u, bufSize));
      ghost var ready := Placed(window, u, frame, now, bufSize);
      consumed := PlaceFrame(frame, now, down, u);
      FramesConcat(out, ready.released);
      LeavingConcat(Frames(out), Frames(ready.released), down);
    }

    /** The frame lies in the window: drop a duplicate, hand up a frame that is next with nothing else
        waiting, or store it and release what has become ready. */
    method PlaceFrame(frame: Frame, now: Tick, down: set<nat>, ghost u: int) returns (consumed: bool)
      requires Valid()
      requires window.head <= u < window.head + bufSize && frame.seqNum == Wrap(u)
      modifies this, reorderBuf, reorderTime
      ensures Valid() && SameSetup()
      ensures var o := Placed(old(window), u, frame, now, bufSize);
        && window == o.window
        && (consumed ==>
              && handedUp == old(handedUp) + HandedUp(Frames(o.released), down)
              && freed == old(freed) + FreedOf(Frames(o.released), down) + o.dropped)
        && (!consumed ==> o.released == [Release(u, frame)] && o.dropped == [] && Left([], down))
    {
      hide Represents;
      hide WindowOk;
      hide Wrap;
      hide SeqInc;
      hide Divides4096;
      hide HandedUp;
      hide FreedOf;
      hide ReleaseReady;
      hide RingIndex;
      hide SlotOf;
      hide Frames;
      hide SlotFrames;
      ghost var w1 := window;
      NothingLeaves(w1, down);
      RingIndexIsSlot(u, ssn, bufSize);
      RingAt(reorderBuf[..], reorderTime[..], ssn, bufSize, w1, u);
      RingEmptyIff(reorderBuf[..], reorderTime[..], ssn, bufSize, w1);
      var index := RingIndex(frame.seqNum, ssn, bufSize);
      if reorderBuf[index].Stored? {
        freed := freed + [frame];
        return true;
      }
      SameNumber(u, w1.head);
      if frame.seqNum == headSeqNum && storedMpduNum == 0 {
        WrapNext(w1.head);
        headSeqNum := SeqInc(headSeqNum);
        NextWindowEmpty(reorderBuf[..], reorderTime[..], ssn, bufSize, w1);
        window := Window(u + 1, map[]);
        return false;
      }
      TickDrops(Window(w1.head, w1.held[u := Entry(frame, now)]), now, bufSize);
      StoreAndRelease(frame, index, now, down, u);
      consumed := true;
    }

    /** Put the frame in its slot and release what has become ready. */
    method StoreAndRelease(frame: Frame, index: nat, now: Tick, down: set<nat>, ghost u: int)
      requires Valid()
      requires window.head <= u < window.head + bufSize && u !in window.held
      requires frame.seqNum == Wrap(u) && index == SlotOf(u, ssn, bufSize)
      modifies this, reorderBuf, reorderTime
      ensures Valid() && SameSetup()
      ensures var o := ReleaseReady(Window(old(window).head, old(window).held[u := Entry(frame, now)]), now, bufSize);
        && window == o.window
        && Left(Frames(o.released), down)
    {
      hide Represents;
      hide WindowOk;
      hide Wrap;
      hide Divides4096;
      hide HandedUp;
      hide FreedOf;
      hide ReleaseReady;
      hide SlotOf;
      hide SlotFrames;
      ghost var w, e := window, Entry(frame, now);
      RingAt(reorderBuf[..], reorderTime[..], ssn, bufSize, w, u);
      RingStore(reorderBuf[..], reorderTime[..], ssn, bufSize, w, u, e);
      StoreOk(w, u, e, bufSize);
      SlotFramesUpdate(reorderBuf[..], index, Stored(frame));
      reorderBuf[index] := Stored(frame);
      reorderTime[index] := now;
      storedMpduNum := storedMpduNum + 1;
      window := Window(w.head, w.held[u := e]);
      ReorderRelease(now, down);
    }

    /** The bookkeeping that also holds between sessions. */
    ghost predicate Sound()
      reads this, reorderBuf, reorderTime
    {
      && reorderBuf.Length == reorderTime.Length
      && storedMpduNum == |SlotFrames(reorderBuf[..])|
      && (bufSize == 0 || Valid())
    }

    constructor (slots: nat)
      ensures Sound() && bufSize == 0 && reorderBuf.Length == slots
      ensures fresh(reorderBuf) && fresh(reorderTime)
      ensures forall i | 0 <= i < slots :: reorderBuf[i].Empty?
      ensures handedUp == [] && freed == []
    {
      reorderBuf := new Slot[slots](_ => Empty);
      reorderTime := new Tick[slots](_ => 0);
      headSeqNum, storedMpduNum, ssn, bufSize := 0, 0, 0, 0;
      handedUp, freed := [], [];
      window := Window(0, map[]);
      new;
      AllEmpty(reorderBuf[..]);
    }

    /** `ieee80211_rx_reorder_ampdu`, for a QoS data frame of this session: frames are only
        reordered while the session is set up. */
    method RxReorderAmpdu(frame: Frame, now: Tick, down: set<nat>)
      requires Sound()
      modifies this, reorderBuf, reorderTime
      ensures Sound() && SameSetup()
      ensures bufSize == 0 ==>
        handedUp == old(handedUp) + [frame] && freed == old(freed) && window == old(window)
      ensures bufSize != 0 ==>
        var o := ReceiveMpdu(old(window), frame, now, bufSize);
        && window == o.window
        && (|| (handedUp == old(handedUp) + HandedUp(Frames(o.released), down) &&
                freed == old(freed) + FreedOf(Frames(o.released), down) + o.dropped)
            || (o.released != [] && o.released[|o.released| - 1].frame == frame && o.dropped == [] &&
                handedUp == old(handedUp) + HandedUp(Frames(o.released[..|o.released| - 1]), down) + [frame] &&
                freed == old(freed) + FreedOf(Frames(o.released[..|o.released| - 1]), down)))
    {
      hide GoodSize;
      hide Represents;
      hide HandedUp;
      hide FreedOf;
      hide ReceiveMpdu;
      hide Frames;
      if bufSize == 0 {
        handedUp := handedUp + [frame];
      } else {
        var consumed := ManageReorderBuf(frame, now, down);
        if !consumed {
          handedUp := handedUp + [frame];
        }
      }
    }

    /** The BlockAckReq branch of `_RxHdl_FrameProc`. */
    method RxBar(start: SeqNum, down: set<nat>)
      requires Sound()
      modifies this, reorderBuf
      ensures Sound() && SameSetup()
      ensures bufSize == 0 ==> window == old(window) && Left([], down)
      ensures bufSize != 0 ==>
        var o := Step(old(window), Bar(start), bufSize);
        window == o.window && Left(Frames(o.released), down)
    {
      if bufSize != 0 {
        ReleaseReorderFrames(start, down);
      }
    }

    /** `timer_sta_reorder_release`, for this session. */
    method TimerReorderRelease(now: Tick, down: set<nat>)
      requires Sound()
      modifies this, reorderBuf
      ensures Sound() && SameSetup()
      ensures bufSize == 0 ==> window == old(window) && Left([], down)
      ensures bufSize != 0 ==>
        var o := Step(old(window), TimerTick(now), bufSize);
        window == o.window && Left(Frames(o.released), down)
    {
      if bufSize != 0 {
        ReorderRelease(now, down);
      }
    }

    /** The flush loop of ADDBA and of session deletion: every slot once, in slot order. */
    method Flush(down: set<nat>)
      requires Sound()
      modifies this, reorderBuf
      ensures SameSetup() && storedMpduNum == 0
      ensures forall i | 0 <= i < reorderBuf.Length :: reorderBuf[i].Empty?
      ensures Left(SlotFrames(old(reorderBuf[..])), down)
    {
      hide Valid;
      hide HandedUp;
      hide FreedOf;
      hide SlotFrames;
      ghost var ring := reorderBuf[..];
      NothingFlushed(ring, down);
      for index := 0 to reorderBuf.Length
        invariant SameSetup()
        invariant storedMpduNum == |SlotFrames(reorderBuf[..])|
        invariant forall i | 0 <= i < index :: reorderBuf[i].Empty?
        invariant forall i | index <= i < reorderBuf.Length :: reorderBuf[i] == ring[i]
        invariant Left(SlotFrames(ring[..index]), down)
      {
        SlotFramesUpdate(reorderBuf[..], index, Empty);
        ReleaseReorderFrame(index, down);
        FlushStep(ring, index, down);
      }
      assert ring[..reorderBuf.Length] == ring;
      AllEmpty(reorderBuf[..]);
    }

    /** `ieee80211_delete_ampdu_rx`, for one session. */
    method DeleteAmpduRx(down: set<nat>)
      requires Sound()
      modifies this, reorderBuf, reorderTime
      ensures Sound() && bufSize == 0 && storedMpduNum == 0 && ssn == 0 && headSeqNum == 0
      ensures reorderBuf == old(reorderBuf) && reorderTime == old(reorderTime)
      ensures forall i | 0 <= i < reorderBuf.Length :: reorderBuf[i].Empty? && reorderTime[i] == 0
      ensures Left(SlotFrames(old(reorderBuf[..])), down)
    {
      Flush(down);
      forall i | 0 <= i < reorderTime.Length {
        reorderTime[i] := 0;
      }
      headSeqNum, storedMpduNum, ssn, bufSize := 0, 0, 0, 0;
      AllEmpty(reorderBuf[..]);
    }

    /** `ieee80211_addba_handler`, for one session. The handler takes any size and number; the session it
        opens is in order if the size is a good one (see GoodSizeExact) and there are slots for it. */
    method Addba(size: nat, start: SeqNum, down: set<nat>)
      requires Sound()
      modifies this, reorderBuf
      ensures reorderBuf == old(reorderBuf) && reorderTime == old(reorderTime)
      ensures bufSize == size && ssn == start && headSeqNum == start && storedMpduNum == 0
      ensures window == Opened(start)
      ensures forall i | 0 <= i < reorderBuf.Length :: reorderBuf[i].Empty?
      ensures Left(SlotFrames(old(reorderBuf[..])), down)
      ensures GoodSize(size) && size <= reorderBuf.Length ==> Valid()
    {
      Flush(down);
      bufSize := size;
      ssn := start;
      headSeqNum := start;
      window := Opened(start);
      WrapSmall(start);
      AllEmpty(reorderBuf[..]);
    }

    /** Whatever happens to an open session, one event at a time. */
    method Dispatch(e: Event, down: set<nat>) returns (ghost up: seq<Frame>, ghost fr: seq<Frame>)
      requires Sound() && bufSize != 0
      modifies this, reorderBuf, reorderTime
      ensures Sound() && SameSetup()
      ensures var o := Step(old(window), e, bufSize);
        && window == o.window
        && Split(Frames(o.released) + o.dropped, up, fr)
        && (down == {} ==> up == Frames(o.released) && fr == o.dropped)
      ensures handedUp == old(handedUp) + up && freed == old(freed) + fr
    {
      hide Sound;
      hide HandedUp;
      hide FreedOf;
      hide ReceiveMpdu;
      hide ReceiveBar;
      hide ReleaseReady;
      hide Split;
      hide SlotFrames;
      hide Wrap;
      hide Frames;
      ghost var o := Step(window, e, bufSize);
      SidesOf(o, down);
      up, fr := HandedUp(Frames(o.released), down), FreedOf(Frames(o.released), down) + o.dropped;
      match e {
        case Mpdu(f, now) =>
          RxReorderAmpdu(f, now, down);
          if handedUp != old(handedUp) + up || freed != old(freed) + fr {
            SidesOfDirect(o, f, down);
            up := HandedUp(Frames(o.released[..|o.released| - 1]), down) + [f];
            fr := FreedOf(Frames(o.released[..|o.released| - 1]), down);
          }
        case Bar(start) =>
          BarDrops(old(window), start);
          RxBar(start, down);
        case TimerTick(now) =>
          TickDrops(old(window), now, bufSize);
          TimerReorderRelease(now, down);
      }
    }

    /** A run of the driver's handlers is a run of the specification, whichever interfaces are down at each
        event. Every frame that leaves is handed up or freed, in the order of the specification; each frame
        that was waiting or entered is handed up, freed or still waiting, as often; and with all interfaces
        up, what the data handler sees is exactly the released frames, in the order of their numbers. */
    method Drive(events: seq<Event>, downs: seq<set<nat>>)
      requires Sound() && bufSize != 0 && |downs| == |events|
      modifies this, reorderBuf, reorderTime
      ensures Sound() && SameSetup()
      ensures var o := Run(old(window), events, bufSize);
        && window == o.window && GoodOutcome(old(window), o, bufSize)
        && ((forall i | 0 <= i < |downs| :: downs[i] == {}) ==>
              handedUp == old(handedUp) + Frames(o.released) && freed == old(freed) + o.dropped)
      ensures |old(handedUp)| <= |handedUp| && handedUp[..|old(handedUp)|] == old(handedUp)
      ensures |old(freed)| <= |freed| && freed[..|old(freed)|] == old(freed)
      ensures var up, fr := handedUp[|old(handedUp)|..], freed[|old(freed)|..];
        && Split(Departed(old(window), events, bufSize), up, fr)
        && Accounted(old(window), events, up, fr, window, bufSize)
    {
      hide Sound;
      hide Split;
      hide GoodOutcome;
      hide Accounted;
      hide Run;
      hide Departed;
      ghost var w := window;
      DriveWell(w, events);
      ghost var up, fr := DriveEach(events, downs);
      assert handedUp[|old(handedUp)|..] == up && freed[|old(freed)|..] == fr;
      SplitAccounts(w, events, up, fr, bufSize);
    }

    /** The events one by one. */
    method DriveEach(events: seq<Event>, downs: seq<set<nat>>) returns (ghost up: seq<Frame>, ghost fr: seq<Frame>)
      requires Sound() && bufSize != 0 && |downs| == |events|
      modifies this, reorderBuf, reorderTime
      ensures Sound() && SameSetup()
      ensures window == Run(old(window), events, bufSize).window
      ensures handedUp == old(handedUp) + up && freed == old(freed) + fr
      ensures Split(Departed(old(window), events, bufSize), up, fr)
      ensures (forall i | 0 <= i < |downs| :: downs[i] == {}) ==>
        var o := Run(old(window), events, bufSize); up == Frames(o.released) && fr == o.dropped
    {
      hide Sound;
      hide Split;
      hide Step;
      hide Run;
      hide Departed;
      hide Frames;
      ghost var w, size := window, bufSize;
      up, fr := [], [];
      RunStart(w, events, size);
      for i := 0 to |events|
        invariant Sound() && SameSetup() && bufSize == size
        invariant window == Run(w, events[..i], size).window
        invariant handedUp == old(handedUp) + up && freed == old(freed) + fr
        invariant Split(Departed(w, events[..i], size), up, fr)
        invariant (forall k | 0 <= k < |downs| :: downs[k] == {}) ==>
          up == Frames(Run(w, events[..i], size).released) && fr == Run(w, events[..i], size).dropped
      {
        RunExtends(w, events, i, size);
        ghost var o := Step(window, events[i], size);
        ghost var u, f := Dispatch(events[i], downs[i]);
        SplitAppend(Departed(w, events[..i], size), up, fr, Frames(o.released) + o.dropped, u, f);
        up, fr := up + u, fr + f;
      }
      assert events[..|events|] == events;
    }

    lemma DriveWell(w: Window, events: seq<Event>)
      requires Sound() && bufSize != 0 && w == window
      ensures GoodOutcome(w, Run(w, events, bufSize), bufSize) && WindowOk(w, bufSize)
    {
      hide Represents;
      hide GoodOutcome;
      InOrderDelivery(w, events, bufSize);
    }
  }

  lemma RunStart(w: Window, events: seq<Event>, size: nat)
    ensures Run(w, events[..0], size) == Outcome(w, [], []) && Departed(w, events[..0], size) == []
    ensures Frames([]) == [] && Split([], [], [])
  {
  }

  lemma RunExtends(w: Window, events: seq<Event>, i: nat, size: nat)
    requires i < |events|
    ensures var before, after := Run(w, events[..i], size), Run(w, events[..i + 1], size);
            var o := Step(before.window, events[i], size);
      && after.window == o.window
      && Frames(after.released) == Frames(before.released) + Frames(o.released)
      && after.dropped == before.dropped + o.dropped
      && Departed(w, events[..i + 1], size) == Departed(w, events[..i], size) + (Frames(o.released) + o.dropped)
  {
    hide Step;
    hide Frames;
    assert events[..i + 1][..i] == events[..i];
    FramesConcat(Run(w, events[..i], size).released, Step(Run(w, events[..i], size).window, events[i], size).released);
  }

  lemma BarDrops(w: Window, start: SeqNum)
    ensures ReceiveBar(w, start).dropped == []
  {
  }

  lemma TickDrops(w: Window, now: Tick, size: nat)
    ensures ReleaseReady(w, now, size).dropped == []
  {
  }
}
