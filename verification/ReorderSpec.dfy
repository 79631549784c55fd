/**
 The receive reordering buffer as section 9.21.7.6 of IEEE 802.11-2012 describes it: an unbounded
 window over unwrapped sequence numbers, with a head and a finite map of the frames held ahead of it.
 No ring, no slots, no 12-bit numbers other than those carried by the frames.
 */
module ReorderSpec {
  import opened Common
  import opened SequenceNumbers

  const REORDER_TIMEOUT := 10

  type Tick = t: int | 0 <= t < TICK_MODULO

  predicate Expired(now: Tick, stored: Tick) {
    TimeAfter(now, (stored + REORDER_TIMEOUT) % TICK_MODULO)
  }

  /** A received data frame: its 12-bit number, the interface it belongs to, and its identity. */
  datatype Frame = Frame(seqNum: SeqNum, vif: nat, id: nat)

  datatype Entry = Entry(frame: Frame, time: Tick)

  datatype Window = Window(head: int, held: map<int, Entry>)

  /** A frame leaving the buffer, with the number it leaves under. */
  datatype Release = Release(num: int, frame: Frame)

  datatype Outcome = Outcome(window: Window, released: seq<Release>, dropped: seq<Frame>)

  /** The ring sizes a Block Ack session can be run with. */
  predicate GoodSize(size: nat) {
    2 <= size <= MODULO / 2 && Divides4096(size)
  }

  ghost predicate WindowOk(w: Window, size: nat) {
    forall u <- w.held :: w.head <= u < w.head + size && w.held[u].frame.seqNum == Wrap(u)
  }

  /** The frames held under numbers in [lo, hi), in order. */
  function Between(held: map<int, Entry>, lo: int, hi: int): seq<Release>
    decreases hi - lo
  {
    if hi <= lo then []
    else Between(held, lo, hi - 1) + (if hi - 1 in held then [Release(hi - 1, held[hi - 1].frame)] else [])
  }

  function Frames(rs: seq<Release>): (fs: seq<Frame>)
    ensures |fs| == |rs|
    ensures forall i | 0 <= i < |rs| :: fs[i] == rs[i].frame
  {
    seq(|rs|, i requires 0 <= i < |rs| => rs[i].frame)
  }

  /** Move the head to `to`, forgetting everything held before it. */
  function Advance(w: Window, to: int): Window {
    Window(to, map u | u in w.held && to <= u :: w.held[u])
  }

  /** The first number from `u` on that is not held. */
  function RunEnd(held: set<int>, u: int, limit: int): int
    decreases limit - u
  {
    if u < limit && u in held then RunEnd(held, u + 1, limit) else u
  }

  /** The held numbers that have waited too long. */
  function Late(held: map<int, Entry>, now: Tick): set<int> {
    set u | u in held && Expired(now, held[u].time)
  }

  /** Where the head ends up when everything in [head, pos) is missing and the frames from `pos`
      on are examined for having waited too long. */
  function TimeoutEnd(held: set<int>, late: set<int>, head: int, pos: int, limit: int): int
    decreases limit - pos
  {
    if pos >= limit then head
    else if pos !in held then TimeoutEnd(held, late, head, pos + 1, limit)
    else if head < pos && pos !in late then head
    else TimeoutEnd(held, late, pos + 1, pos + 1, limit)
  }

  function ReleasePoint(w: Window, now: Tick, size: nat): int {
    if w.head in w.held || w.held == map[]
    then RunEnd(w.held.Keys, w.head, w.head + size)
    else TimeoutEnd(w.held.Keys, Late(w.held, now), w.head, w.head, w.head + size)
  }

  function ReleaseReady(w: Window, now: Tick, size: nat): Outcome {
    var to := ReleasePoint(w, now, size);
    Outcome(Advance(w, to), Between(w.held, w.head, to), [])
  }

  /** Shift the window so that number `u` fits in it. */
  function ShiftPoint(w: Window, u: int, size: nat): int {
    if u >= w.head + size then u - size + 1 else w.head
  }

  function ReceiveMpdu(w: Window, f: Frame, now: Tick, size: nat): Outcome {
    var u := Unwrap(w.head, f.seqNum);
    if u < w.head then
      Outcome(w, [], [f])
    else
      var shifted := Advance(w, ShiftPoint(w, u, size));
      var out := Between(w.held, w.head, shifted.head);
      if u in shifted.held then
        Outcome(shifted, out, [f])
      else if u == shifted.head && shifted.held == map[] then
        Outcome(Window(u + 1, map[]), out + [Release(u, f)], [])
      else
        var ready := ReleaseReady(Window(shifted.head, shifted.held[u := Entry(f, now)]), now, size);
        Outcome(ready.window, out + ready.released, [])
  }

  /** How far a BlockAckReq with starting number `start` moves the head. */
  function BarDistance(w: Window, start: SeqNum): nat {
    var d := (start - w.head) % MODULO;
    if d < MODULO / 2 then d else 0
  }

  function ReceiveBar(w: Window, start: SeqNum): Outcome {
    var to := w.head + BarDistance(w, start);
    Outcome(Advance(w, to), Between(w.held, w.head, to), [])
  }

  datatype Event =
    | Mpdu(frame: Frame, now: Tick)
    | Bar(start: SeqNum)
    | TimerTick(now: Tick)

  function Step(w: Window, e: Event, size: nat): Outcome {
    match e
    case Mpdu(f, now) => ReceiveMpdu(w, f, now, size)
    case Bar(start) => ReceiveBar(w, start)
    case TimerTick(now) => ReleaseReady(w, now, size)
  }

  /** A whole run of one Block Ack session. */
  function Run(w: Window, events: seq<Event>, size: nat): Outcome
    decreases |events|
  {
    if events == [] then Outcome(w, [], [])
    else
      var before := Run(w, events[..|events| - 1], size);
      var last := Step(before.window, events[|events| - 1], size);
      Outcome(last.window, before.released + last.released, before.dropped + last.dropped)
  }

  /** The window right after the ADDBA exchange. */
  function Opened(ssn: SeqNum): Window {
    Window(ssn, map[])
  }

  function Arriving(e: Event): seq<Frame> {
    match e
    case Mpdu(f, _) => [f]
    case _ => []
  }

  function Entered(events: seq<Event>): seq<Frame> {
    if events == [] then []
    else Entered(events[..|events| - 1]) + Arriving(events[|events| - 1])
  }
}
