/**
 The host command engine: a blocking command holds back the ones after it until its completion event
 arrives. Spec: what each atomic handler does to the engine and to a log; theorems over every
 interleaving; and the engine itself.
 */
module CommandEngine {
  import opened Common

  /** SCAN, JOIN and LEAVE block; other device commands do not; the two mode commands are carried out by
      the engine at once; beacon updates are carried out by it in turn; the rest is refused. */
  datatype Kind = Blocking | Device | Mode | Beacon | Unknown

  datatype Cmd = Cmd(kind: Kind, seqNo: int)

  /** A command with the position in which it arrived. */
  datatype Entry = Entry(index: nat, cmd: Cmd)

  datatype OpMode = Stop | Running | Exit

  /** What happened, in order. */
  datatype Action =
    | Left(entry: Entry)          // reached the transmit queue
    | Refused(entry: Entry)       // the transmit queue was full
    | Handled(entry: Entry)       // carried out or discarded by the engine itself
    | Lost(entry: Entry)          // no memory to hold it back
    | Flushed(entry: Entry)
    | Completed(seqNo: int)       // the completion of the command that blocks
    | Unblocked                   // a flush lifted the block

  datatype Engine = Engine(
    blocked: bool, pendingSeqNo: int, pending: seq<Entry>, mode: OpMode, arrivals: nat, log: seq<Action>)

  const START := Engine(false, 0, [], Stop, 0, [])

  // ---- Handlers ----

  /** `CmdEng_TxHdlCmd`. */
  function TxHdlCmd(e: Engine, c: Entry, txOk: bool): Engine {
    match c.cmd.kind
    case Blocking => e.(blocked := true, pendingSeqNo := c.cmd.seqNo,
                        log := e.log + [if txOk then Left(c) else Refused(c)])
    case Device => e.(log := e.log + [if txOk then Left(c) else Refused(c)])
    case _ => e.(log := e.log + [Handled(c)])
  }

  /** The command branch of `CmdEng_HandleQueue`. */
  function HandleCommand(e: Engine, cmd: Cmd, memory: bool, txOk: bool): Engine {
    var c := Entry(e.arrivals, cmd);
    var s := e.(arrivals := e.arrivals + 1);
    if e.blocked && cmd.kind != Mode then
      if memory then s.(pending := e.pending + [c]) else s.(log := e.log + [Lost(c)])
    else TxHdlCmd(s, c, txOk)
  }

  /** `CmdEng_RxHdlEvent`, as far as the block is concerned. */
  function HandleEvent(e: Engine, done: bool, seqNo: int): Engine {
    if e.blocked && done && seqNo == e.pendingSeqNo
    then e.(blocked := false, pendingSeqNo := 0, log := e.log + [Completed(seqNo)])
    else e
  }

  function FlushLog(pending: seq<Entry>): seq<Action> {
    if pending == [] then [] else FlushLog(pending[..|pending| - 1]) + [Flushed(pending[|pending| - 1])]
  }

  /** `CmdEng_FlushPendingCmds`. */
  function Flush(e: Engine): Engine {
    e.(blocked := false, pendingSeqNo := 0, pending := [], log := e.log + [Unblocked] + FlushLog(e.pending))
  }

  predicate ModeChangeOk(from: OpMode, to: OpMode) {
    (from == Stop && to != Stop) || (from == Running && to == Stop)
  }

  /** `CmdEng_SetOpMode`. */
  function SetMode(e: Engine, to: OpMode): Engine {
    if !ModeChangeOk(e.mode, to) then e
    else (if e.mode == Running then Flush(e) else e).(mode := to)
  }

  predicate Waiting(e: Engine) {
    e.blocked || e.pending == []
  }

  /** One turn of the task on the pending list. */
  function DrainOne(e: Engine, txOk: bool): Engine {
    if Waiting(e) then e
    else TxHdlCmd(e.(pending := e.pending[1..]), e.pending[0], txOk)
  }

  /** What can happen next: the task takes a turn on the pending list; while it is waiting, it takes a
      message; and at any moment another task may change the operation mode. */
  datatype Input =
    | Turn(txOk: bool)
    | Command(cmd: Cmd, memory: bool, txAccepts: bool)
    | Event(done: bool, seqNo: int)
    | ChangeMode(mode: OpMode)

  function Step(e: Engine, i: Input): Engine {
    match i
    case Turn(txOk) => DrainOne(e, txOk)
    case Command(c, memory, txOk) => if Waiting(e) then HandleCommand(e, c, memory, txOk) else e
    case Event(done, s) => if Waiting(e) then HandleEvent(e, done, s) else e
    case ChangeMode(m) => SetMode(e, m)
  }

  function Run(inputs: seq<Input>): Engine {
    if inputs == [] then START else Step(Run(inputs[..|inputs| - 1]), inputs[|inputs| - 1])
  }

  // ---- Reading the log ----

  predicate Blocks(a: Action) {
    (a.Left? || a.Refused?) && a.entry.cmd.kind == Blocking
  }

  /** The sequence number of the command whose completion is awaited after the actions of the log. */
  function Awaited(log: seq<Action>): Option<int> {
    if log == [] then None
    else
      var before, a := Awaited(log[..|log| - 1]), log[|log| - 1];
      if Blocks(a) then Some(a.entry.cmd.seqNo)
      else if a == Unblocked || (a.Completed? && before == Some(a.seqNo)) then None
      else before
  }

  /** One more than the position of the last command that left in turn. */
  function Frontier(log: seq<Action>): nat {
    if log == [] then 0
    else
      var before, a := Frontier(log[..|log| - 1]), log[|log| - 1];
      if a.Left? && a.entry.index >= before then a.entry.index + 1 else before
  }

  /** A command may only leave when none is awaited, and not before one that has left. */
  predicate LogOk(log: seq<Action>) {
    log == [] ||
    (LogOk(log[..|log| - 1]) &&
     var before, a := log[..|log| - 1], log[|log| - 1];
     && (a.Left? || a.Refused? ==> Awaited(before) == None)
     && (a.Left? ==> Frontier(before) <= a.entry.index))
  }

  /** How often the command that arrived in position `i` has been disposed of. */
  function Disposed(log: seq<Action>, i: nat): nat {
    if log == [] then 0
    else
      var a := log[|log| - 1];
      Disposed(log[..|log| - 1], i) + (if !a.Completed? && !a.Unblocked? && a.entry.index == i then 1 else 0)
  }

  function Held(pending: seq<Entry>, i: nat): nat {
    if pending == [] then 0
    else Held(pending[..|pending| - 1], i) + (if pending[|pending| - 1].index == i then 1 else 0)
  }

  lemma Snoc(log: seq<Action>, a: Action, i: nat)
    ensures LogOk(log + [a]) <==>
      && LogOk(log) && (a.Left? || a.Refused? ==> Awaited(log) == None)
      && (a.Left? ==> Frontier(log) <= a.entry.index)
    ensures Awaited(log + [a]) ==
      if Blocks(a) then Some(a.entry.cmd.seqNo)
      else if a == Unblocked || (a.Completed? && Awaited(log) == Some(a.seqNo)) then None
      else Awaited(log)
    ensures Frontier(log + [a]) ==
      if a.Left? && a.entry.index >= Frontier(log) then a.entry.index + 1 else Frontier(log)
    ensures Disposed(log + [a], i) ==
      Disposed(log, i) + (if !a.Completed? && !a.Unblocked? && a.entry.index == i then 1 else 0)
  {
    assert (log + [a])[..|log|] == log;
  }

  // ---- The invariant ----

  ghost predicate Ordered(e: Engine) {
    && (forall k | 0 <= k < |e.pending| :: Frontier(e.log) <= e.pending[k].index < e.arrivals)
    && (forall j, k | 0 <= j < k < |e.pending| :: e.pending[j].index < e.pending[k].index)
    && Frontier(e.log) <= e.arrivals
  }

  /** Every command that has arrived is held back or has been disposed of, once. */
  ghost predicate Accounted(e: Engine) {
    forall i: nat :: Disposed(e.log, i) + Held(e.pending, i) == if i < e.arrivals then 1 else 0
  }

  ghost predicate Good(e: Engine) {
    && LogOk(e.log)
    && Awaited(e.log) == (if e.blocked then Some(e.pendingSeqNo) else None)
    && Ordered(e)
    && Accounted(e)
  }

  lemma TxKeeps(s: Engine, c: Entry, txOk: bool)
    requires LogOk(s.log) && Awaited(s.log) == None && !s.blocked && Ordered(s)
    requires Frontier(s.log) <= c.index < s.arrivals
    requires forall k | 0 <= k < |s.pending| :: c.index < s.pending[k].index
    requires forall i: nat ::
      Disposed(s.log, i) + Held(s.pending, i) + (if i == c.index then 1 else 0) == if i < s.arrivals then 1 else 0
    ensures Good(TxHdlCmd(s, c, txOk))
  {
    hide LogOk;
    hide Awaited;
    hide Frontier;
    hide Disposed;
    hide Held;
    forall i: nat
      ensures Disposed(TxHdlCmd(s, c, txOk).log, i) == Disposed(s.log, i) + (if i == c.index then 1 else 0)
    {
      Snoc(s.log, Left(c), i);
      Snoc(s.log, Refused(c), i);
      Snoc(s.log, Handled(c), i);
    }
    Snoc(s.log, Left(c), 0);
    Snoc(s.log, Refused(c), 0);
    Snoc(s.log, Handled(c), 0);
  }

  lemma HeldSnoc(pending: seq<Entry>, c: Entry, i: nat)
    ensures Held(pending + [c], i) == Held(pending, i) + (if c.index == i then 1 else 0)
  {
    assert (pending + [c])[..|pending|] == pending;
  }

  lemma {:induction false} HeldHead(pending: seq<Entry>, i: nat)
    requires pending != []
    ensures Held(pending, i) == Held(pending[1..], i) + (if pending[0].index == i then 1 else 0)
    decreases |pending|
  {
    if |pending| > 1 {
      HeldHead(pending[..|pending| - 1], i);
      assert pending[..|pending| - 1][1..] == pending[1..][..|pending| - 2];
    }
  }

  /** An action that disposes of one command without sending it on. */
  lemma DisposeKeeps(e: Engine, s: Engine, a: Action)
    requires Good(e) && (a.Handled? || a.Lost?) && a.entry.index == e.arrivals
    requires s == e.(arrivals := e.arrivals + 1, log := e.log + [a])
    ensures Good(s)
  {
    hide LogOk;
    hide Awaited;
    hide Frontier;
    hide Disposed;
    hide Held;
    Snoc(e.log, a, 0);
    forall i: nat
      ensures Disposed(s.log, i) == Disposed(e.log, i) + (if i == e.arrivals then 1 else 0)
    {
      Snoc(e.log, a, i);
    }
  }

  lemma HoldKeeps(e: Engine, cmd: Cmd)
    requires Good(e)
    ensures Good(e.(arrivals := e.arrivals + 1, pending := e.pending + [Entry(e.arrivals, cmd)]))
  {
    hide LogOk;
    hide Awaited;
    hide Frontier;
    hide Disposed;
    hide Held;
    var c := Entry(e.arrivals, cmd);
    forall i: nat
      ensures Held(e.pending + [c], i) == Held(e.pending, i) + (if i == e.arrivals then 1 else 0)
    {
      HeldSnoc(e.pending, c, i);
    }
  }

  lemma CommandKeeps(e: Engine, cmd: Cmd, memory: bool, txOk: bool)
    requires Good(e) && Waiting(e)
    ensures Good(HandleCommand(e, cmd, memory, txOk))
  {
    hide LogOk;
    hide Awaited;
    hide Frontier;
    hide Disposed;
    hide Held;
    hide Good;
    var c := Entry(e.arrivals, cmd);
    var s := e.(arrivals := e.arrivals + 1);
    if e.blocked && cmd.kind != Mode {
      HoldKeeps(e, cmd);
      DisposeKeeps(e, s.(log := e.log + [Lost(c)]), Lost(c));
    } else if cmd.kind == Blocking || cmd.kind == Device {
      SendNow(e, c, txOk);
    } else {
      DisposeKeeps(e, s.(log := e.log + [Handled(c)]), Handled(c));
    }
  }

  lemma SendNow(e: Engine, c: Entry, txOk: bool)
    requires Good(e) && !e.blocked && e.pending == [] && c.index == e.arrivals
    ensures Good(TxHdlCmd(e.(arrivals := e.arrivals + 1), c, txOk))
  {
    hide LogOk;
    hide Awaited;
    hide Frontier;
    hide Disposed;
    hide Held;
    TxKeeps(e.(arrivals := e.arrivals + 1), c, txOk);
  }

  lemma EventKeeps(e: Engine, done: bool, seqNo: int)
    requires Good(e)
    ensures Good(HandleEvent(e, done, seqNo))
  {
    hide LogOk;
    hide Awaited;
    hide Frontier;
    hide Disposed;
    hide Held;
    Snoc(e.log, Completed(seqNo), 0);
    forall i: nat
      ensures Disposed(e.log + [Completed(seqNo)], i) == Disposed(e.log, i)
    {
      Snoc(e.log, Completed(seqNo), i);
    }
  }

  lemma {:induction false} FlushLogReads(log: seq<Action>, pending: seq<Entry>, i: nat)
    requires LogOk(log) && Awaited(log) == None
    ensures var l := log + FlushLog(pending);
      && LogOk(l) && Awaited(l) == None && Frontier(l) == Frontier(log)
      && Disposed(l, i) == Disposed(log, i) + Held(pending, i)
    decreases |pending|
  {
    if pending == [] {
      assert log + [] == log;
    } else {
      var front, a := pending[..|pending| - 1], Flushed(pending[|pending| - 1]);
      FlushLogReads(log, front, i);
      assert log + FlushLog(pending) == (log + FlushLog(front)) + [a];
      Snoc(log + FlushLog(front), a, i);
    }
  }

  lemma FlushKeeps(e: Engine)
    requires Good(e)
    ensures Good(Flush(e))
  {
    hide LogOk;
    hide Awaited;
    hide Frontier;
    hide Disposed;
    var l := e.log + [Unblocked];
    Snoc(e.log, Unblocked, 0);
    FlushLogReads(l, e.pending, 0);
    forall i: nat
      ensures Disposed(l + FlushLog(e.pending), i) == Disposed(e.log, i) + Held(e.pending, i)
    {
      Snoc(e.log, Unblocked, i);
      FlushLogReads(l, e.pending, i);
    }
  }

  lemma ModeKeeps(e: Engine, to: OpMode)
    requires Good(e)
    ensures Good(SetMode(e, to))
  {
    hide LogOk;
    hide Awaited;
    hide Frontier;
    hide Disposed;
    hide Held;
    hide Flush;
    FlushKeeps(e);
  }

  lemma DrainKeeps(e: Engine, txOk: bool)
    requires Good(e)
    ensures Good(DrainOne(e, txOk))
  {
    hide LogOk;
    hide Awaited;
    hide Frontier;
    hide Disposed;
    hide Held;
    if !Waiting(e) {
      var s := e.(pending := e.pending[1..]);
      forall i: nat
        ensures Held(e.pending, i) == Held(s.pending, i) + (if i == e.pending[0].index then 1 else 0)
      {
        HeldHead(e.pending, i);
      }
      TxKeeps(s, e.pending[0], txOk);
    }
  }

  lemma StepKeeps(e: Engine, i: Input)
    requires Good(e)
    ensures Good(Step(e, i))
  {
    hide Good;
    match i
    case Turn(txOk) => DrainKeeps(e, txOk);
    case Command(c, memory, txOk) =>
      if Waiting(e) {
        CommandKeeps(e, c, memory, txOk);
      }
    case Event(done, s) => EventKeeps(e, done, s);
    case ChangeMode(m) => ModeKeeps(e, m);
  }

  /** Whatever the interleaving of commands, events, task turns and mode changes. */
  lemma {:induction false} EveryRunIsGood(inputs: seq<Input>)
    ensures Good(Run(inputs))
    decreases |inputs|
  {
    hide Step;
    if inputs != [] {
      EveryRunIsGood(inputs[..|inputs| - 1]);
      StepKeeps(Run(inputs[..|inputs| - 1]), inputs[|inputs| - 1]);
    }
  }

  // ---- The theorems ----

  lemma {:induction false} LogOkPrefix(log: seq<Action>, n: nat)
    requires LogOk(log) && n < |log|
    ensures LogOk(log[..n])
    ensures log[n].Left? || log[n].Refused? ==> Awaited(log[..n]) == None
    ensures log[n].Left? ==> Frontier(log[..n]) <= log[n].entry.index
    decreases |log|
  {
    var front := log[..|log| - 1];
    if n < |front| {
      LogOkPrefix(front, n);
      assert front[..n] == log[..n];
    }
  }

  lemma {:induction false} FrontierPasses(log: seq<Action>, i: nat, n: nat)
    requires LogOk(log) && i < n <= |log| && log[i].Left?
    ensures log[i].entry.index < Frontier(log[..n])
    decreases n
  {
    assert log[..n][..n - 1] == log[..n - 1];
    if i < n - 1 {
      FrontierPasses(log, i, n - 1);
    } else {
      LogOkPrefix(log, i);
    }
  }

  /** Commands that reach the transmit queue do so in the order in which they arrived. */
  lemma CommandsLeaveInOrder(inputs: seq<Input>, i: nat, j: nat)
    requires i < j < |Run(inputs).log| && Run(inputs).log[i].Left? && Run(inputs).log[j].Left?
    ensures Run(inputs).log[i].entry.index < Run(inputs).log[j].entry.index
  {
    hide Run;
    EveryRunIsGood(inputs);
    var log := Run(inputs).log;
    FrontierPasses(log, i, j);
    LogOkPrefix(log, j);
  }

  lemma {:induction false} StillAwaited(log: seq<Action>, i: nat, n: nat)
    requires LogOk(log) && i < n <= |log| && Blocks(log[i])
    requires forall k | i < k < n :: log[k] != Unblocked && log[k] != Completed(log[i].entry.cmd.seqNo)
    ensures Awaited(log[..n]) == Some(log[i].entry.cmd.seqNo)
    decreases n
  {
    assert log[..n][..n - 1] == log[..n - 1];
    if i < n - 1 {
      StillAwaited(log, i, n - 1);
      LogOkPrefix(log, n - 1);
    }
  }

  /** Between a blocking command and any later command that reaches the transmit queue lies the completion
      of that very command, matched by its sequence number, or a flush. */
  lemma NothingPassesABlock(inputs: seq<Input>, i: nat, j: nat)
    requires i < j < |Run(inputs).log| && Blocks(Run(inputs).log[i]) && Run(inputs).log[j].Left?
    ensures var log := Run(inputs).log;
      exists k | i < k < j :: log[k] == Unblocked || log[k] == Completed(log[i].entry.cmd.seqNo)
  {
    hide Run;
    EveryRunIsGood(inputs);
    var log := Run(inputs).log;
    LogOkPrefix(log, j);
    if forall k | i < k < j :: log[k] != Unblocked && log[k] != Completed(log[i].entry.cmd.seqNo) {
      StillAwaited(log, i, j);
    }
  }

  /** Every command that arrives is, at any time, either held back or has been disposed of, exactly once. */
  lemma CommandsAccountedFor(inputs: seq<Input>, i: nat)
    ensures var e := Run(inputs);
      Disposed(e.log, i) + Held(e.pending, i) == if i < e.arrivals then 1 else 0
  {
    hide Run;
    EveryRunIsGood(inputs);
  }

  // ---- The engine ----

  /** All turns the task takes on the pending list before it waits for a message again. */
  function DrainAll(e: Engine, txOk: nat -> bool): Engine
    decreases |e.pending|
  {
    if Waiting(e) then e else DrainAll(DrainOne(e, txOk(|e.log|)), txOk)
  }

  lemma {:induction false} DrainAllWaits(e: Engine, txOk: nat -> bool)
    ensures Waiting(DrainAll(e, txOk))
    decreases |e.pending|
  {
    if !Waiting(e) {
      DrainAllWaits(DrainOne(e, txOk(|e.log|)), txOk);
    }
  }

  /** `HostCmdEngInfo`. */
  class CmdEng {
    var blockcmdInQ: bool
    var pendingCmdSeqno: int
    var pendingCmds: seq<Entry>
    var currMode: OpMode
    var arrivals: nat
    var log: seq<Action>

    ghost function View(): Engine
      reads this
    {
      Engine(blockcmdInQ, pendingCmdSeqno, pendingCmds, currMode, arrivals, log)
    }

    constructor ()
      ensures View() == START
    {
      blockcmdInQ, pendingCmdSeqno, pendingCmds, currMode := false, 0, [], Stop;
      arrivals, log := 0, [];
    }

    /** `CmdEng_TxHdlCmd`. */
    method TxHdl(c: Entry, txOk: bool)
      modifies this
      ensures View() == TxHdlCmd(old(View()), c, txOk)
    {
      if c.cmd.kind == Blocking || c.cmd.kind == Device {
        if c.cmd.kind == Blocking {
          pendingCmdSeqno := c.cmd.seqNo;
          blockcmdInQ := true;
        }
        log := log + [if txOk then Left(c) else Refused(c)];
        return;
      }
      log := log + [Handled(c)];
    }

    /** `CmdEng_HandleQueue` for a host command, which the task takes only while it waits: the log stays in
        order, every command stays accounted for, and while blocked nothing goes out. */
    method HandleQueueCommand(cmd: Cmd, memory: bool, txOk: bool)
      requires Good(View()) && Waiting(View())
      modifies this
      ensures Good(View()) && View() == HandleCommand(old(View()), cmd, memory, txOk)
      ensures arrivals == old(arrivals) + 1
      ensures old(blockcmdInQ) ==> blockcmdInQ && pendingCmdSeqno == old(pendingCmdSeqno)
      ensures old(blockcmdInQ) ==> forall k | |old(log)| <= k < |log| :: !log[k].Left? && !log[k].Refused?
      ensures old(blockcmdInQ) && cmd.kind != Mode && memory ==>
        pendingCmds == old(pendingCmds) + [Entry(old(arrivals), cmd)] && log == old(log)
      ensures old(blockcmdInQ) && cmd.kind != Mode && !memory ==>
        pendingCmds == old(pendingCmds) && log == old(log) + [Lost(Entry(old(arrivals), cmd))]
      ensures !old(blockcmdInQ) && (cmd.kind == Blocking || cmd.kind == Device) ==>
        && blockcmdInQ == (cmd.kind == Blocking)
        && log == old(log) + [if txOk then Left(Entry(old(arrivals), cmd)) else Refused(Entry(old(arrivals), cmd))]
    {
      hide Good;
      CommandKeeps(View(), cmd, memory, txOk);
      var c := Entry(arrivals, cmd);
      arrivals := arrivals + 1;
      if blockcmdInQ && cmd.kind != Mode {
        if memory {
          pendingCmds := pendingCmds + [c];
        } else {
          log := log + [Lost(c)];
        }
        return;
      }
      TxHdl(c, txOk);
    }

    /** `CmdEng_RxHdlEvent`: only the completion that is awaited lifts the block. */
    method RxHdlEvent(done: bool, seqNo: int)
      requires Good(View())
      modifies this
      ensures Good(View()) && View() == HandleEvent(old(View()), done, seqNo)
      ensures old(blockcmdInQ) && !blockcmdInQ <==> done && Awaited(old(log)) == Some(seqNo)
    {
      hide LogOk;
      hide Ordered;
      hide Accounted;
      EventKeeps(View(), done, seqNo);
      if blockcmdInQ && done && seqNo == pendingCmdSeqno {
        blockcmdInQ := false;
        pendingCmdSeqno := 0;
        log := log + [Completed(seqNo)];
      }
    }

    /** `CmdEng_FlushPendingCmds`. */
    method FlushPendingCmds()
      modifies this
      ensures View() == Flush(old(View()))
      ensures Good(old(View())) ==> Good(View())
    {
      hide Good;
      if Good(View()) { FlushKeeps(View()); }
      blockcmdInQ := false;
      pendingCmdSeqno := 0;
      log := log + [Unblocked];
      ghost var all, start := pendingCmds, log;
      ghost var n := 0;
      while |pendingCmds| > 0
        invariant 0 <= n <= |all| && pendingCmds == all[n..]
        invariant log == start + FlushLog(all[..n])
        invariant View() == old(View()).(blocked := false, pendingSeqNo := 0, pending := pendingCmds, log := log)
        decreases |pendingCmds|
      {
        assert all[..n + 1][..n] == all[..n];
        log := log + [Flushed(pendingCmds[0])];
        pendingCmds := pendingCmds[1..];
        n := n + 1;
      }
      assert all[..n] == all;
    }

    /** `CmdEng_SetOpMode`. */
    method SetOpMode(to: OpMode) returns (ok: bool)
      modifies this
      ensures View() == SetMode(old(View()), to)
      ensures Good(old(View())) ==> Good(View())
      ensures ok <==> (old(currMode) == Stop && (to == Running || to == Exit)) || (old(currMode) == Running && to == Stop)
      ensures currMode == if ok then to else old(currMode)
      ensures ok && old(currMode) == Running ==> pendingCmds == [] && !blockcmdInQ
    {
      hide FlushLog;
      hide Good;
      if Good(View()) { ModeKeeps(View(), to); }
      ok := false;
      match currMode {
        case Stop =>
          ok := to == Running || to == Exit;
        case Running =>
          if to == Stop {
            FlushPendingCmds();
            ok := true;
          }
        case Exit =>
      }
      if ok {
        currMode := to;
      }
    }

    /** One turn of `CmdEng_Task` on the pending list. */
    method TakeTurn(txOk: bool)
      requires Good(View())
      modifies this
      ensures Good(View()) && View() == DrainOne(old(View()), txOk)
      ensures !old(blockcmdInQ) && |old(pendingCmds)| > 0 ==>
        && pendingCmds == old(pendingCmds)[1..]
        && |log| == |old(log)| + 1 && log[|old(log)|].entry == old(pendingCmds)[0]
    {
      hide Good;
      DrainKeeps(View(), txOk);
      if !blockcmdInQ && |pendingCmds| > 0 {
        var c := pendingCmds[0];
        pendingCmds := pendingCmds[1..];
        TxHdl(c, txOk);
      }
    }

    /** The pending-list branch of `CmdEng_Task`, until the task waits for its next message: then it is
        blocked or nothing is pending. */
    method DrainPending(txOk: nat -> bool)
      requires Good(View())
      modifies this
      ensures Good(View()) && View() == DrainAll(old(View()), txOk)
      ensures blockcmdInQ || pendingCmds == []
    {
      hide Good;
      while !blockcmdInQ && |pendingCmds| > 0
        invariant Good(View()) && DrainAll(old(View()), txOk) == DrainAll(View(), txOk)
        decreases |pendingCmds|
      {
        TakeTurn(txOk(|log|));
      }
    }

    /** Whatever happens to the engine, one thing at a time. */
    method Dispatch(i: Input)
      requires Good(View())
      modifies this
      ensures Good(View()) && View() == Step(old(View()), i)
    {
      hide Good;
      StepKeeps(View(), i);
      match i {
        case Turn(txOk) => TakeTurn(txOk);
        case Command(c, memory, txOk) =>
          if blockcmdInQ || pendingCmds == [] {
            HandleQueueCommand(c, memory, txOk);
          }
        case Event(done, s) =>
          if blockcmdInQ || pendingCmds == [] {
            RxHdlEvent(done, s);
          }
        case ChangeMode(m) => var ok := SetOpMode(m);
      }
    }

    /** Any interleaving is a run of the specification: so commands leave in order, nothing passes a block,
        and every command is accounted for. */
    method Drive(inputs: seq<Input>)
      requires View() == START
      modifies this
      ensures Good(View()) && View() == Run(inputs)
    {
      hide Good;
      hide Step;
      EveryRunIsGood([]);
      assert inputs[..0] == [];
      for i := 0 to |inputs|
        invariant Good(View()) && View() == Run(inputs[..i])
      {
        Dispatch(inputs[i]);
        assert inputs[..i + 1][..i] == inputs[..i];
      }
      assert inputs[..|inputs|] == inputs;
    }
  }
}
