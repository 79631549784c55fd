/**
 What becomes of each command in every run of the command engine, and because of which input: commands are
 lost only where the engine cannot hold them back, and go to the transmit queue or are refused by it as
 the queue says.
 */
module CommandFates {
  import opened Common
  import opened CommandEngine

  predicate HasEntry(a: Action) {
    !a.Completed? && !a.Unblocked?
  }

  predicate ForDevice(c: Cmd) {
    c.kind == Blocking || c.kind == Device
  }

  // ---- The input behind an action ----

  /** Why action `a` is logged when input `i` reaches engine `e`. */
  predicate Caused(e: Engine, i: Input, a: Action) {
    match a
    case Left(c) => ForDevice(c.cmd) && Sends(e, i, c, true)
    case Refused(c) => ForDevice(c.cmd) && Sends(e, i, c, false)
    case Handled(c) => !ForDevice(c.cmd) && (Takes(e, i, c) || Drains(e, i, c))
    case Lost(c) => Takes(e, i, c) && e.blocked && c.cmd.kind != Mode && !i.memory
    case Flushed(c) => i == ChangeMode(Stop) && e.mode == Running && c in e.pending
    case Completed(s) => i == Event(true, s) && e.blocked && e.pendingSeqNo == s
    case Unblocked => i == ChangeMode(Stop) && e.mode == Running
  }

  /** The input is the arrival of command `c`. */
  predicate Takes(e: Engine, i: Input, c: Entry) {
    i.Command? && Waiting(e) && c == Entry(e.arrivals, i.cmd)
  }

  /** The input is a turn of the task, and `c` the first command held back. */
  predicate Drains(e: Engine, i: Input, c: Entry) {
    i.Turn? && !e.blocked && e.pending != [] && c == e.pending[0]
  }

  /** The input puts command `c` to the transmit queue, which answers `ok`. */
  predicate Sends(e: Engine, i: Input, c: Entry, ok: bool) {
    !e.blocked && ((Takes(e, i, c) && i.txAccepts == ok) || (Drains(e, i, c) && i.txOk == ok))
  }

  lemma {:induction false} FlushLogIs(pending: seq<Entry>)
    ensures |FlushLog(pending)| == |pending|
    ensures forall k | 0 <= k < |pending| :: FlushLog(pending)[k] == Flushed(pending[k])
    decreases |pending|
  {
    if pending != [] { FlushLogIs(pending[..|pending| - 1]); }
  }

  lemma StepCaused(e: Engine, i: Input, k: nat)
    ensures e.log <= Step(e, i).log
    ensures |e.log| <= k < |Step(e, i).log| ==> Caused(e, i, Step(e, i).log[k])
  {
    hide FlushLog;
    FlushLogIs(e.pending);
  }

  lemma {:induction false} RunGrows(inputs: seq<Input>, n: nat)
    requires n <= |inputs|
    ensures Run(inputs[..n]).log <= Run(inputs).log
    decreases |inputs|
  {
    hide Step;
    if n == |inputs| {
      assert inputs[..n] == inputs;
    } else {
      var m := |inputs| - 1;
      RunGrows(inputs[..m], n);
      assert inputs[..m][..n] == inputs[..n];
      StepCaused(Run(inputs[..m]), inputs[m], 0);
    }
  }

  /** In every run, each action was logged because of the input being handled just then. */
  lemma {:induction false} ActionCaused(inputs: seq<Input>, k: nat) returns (n: nat)
    requires k < |Run(inputs).log|
    ensures n < |inputs| && |Run(inputs[..n]).log| <= k < |Run(inputs[..n + 1]).log|
    ensures Caused(Run(inputs[..n]), inputs[n], Run(inputs).log[k])
    decreases |inputs|
  {
    hide Step;
    hide Caused;
    var m := |inputs| - 1;
    var front := inputs[..m];
    StepCaused(Run(front), inputs[m], k);
    assert inputs[..m + 1] == inputs;
    if k < |Run(front).log| {
      n := ActionCaused(front, k);
      assert front[..n] == inputs[..n] && front[..n + 1] == inputs[..n + 1];
    } else {
      n := m;
    }
  }

  // ---- Which command an entry stands for ----

  /** The commands that have arrived, in order. */
  function Arrived(inputs: seq<Input>): seq<Cmd> {
    if inputs == [] then []
    else
      var front, last := inputs[..|inputs| - 1], inputs[|inputs| - 1];
      Arrived(front) + (if last.Command? && Waiting(Run(front)) then [last.cmd] else [])
  }

  /** Entries carry the command that arrived in their position. */
  ghost predicate Named(e: Engine, cmds: seq<Cmd>) {
    && |cmds| == e.arrivals
    && (forall c <- e.pending :: c.index < |cmds| && c.cmd == cmds[c.index])
    && (forall a <- e.log :: HasEntry(a) ==> a.entry.index < |cmds| && a.entry.cmd == cmds[a.entry.index])
  }

  lemma StepNamed(e: Engine, i: Input, cmds: seq<Cmd>)
    requires Named(e, cmds)
    ensures Named(Step(e, i), cmds + if i.Command? && Waiting(e) then [i.cmd] else [])
  {
    hide FlushLog;
    var s, more := Step(e, i), cmds + if i.Command? && Waiting(e) then [i.cmd] else [];
    FlushLogIs(e.pending);
    forall k | 0 <= k < |s.log| && HasEntry(s.log[k])
      ensures s.log[k].entry.index < |more| && s.log[k].entry.cmd == more[s.log[k].entry.index]
    {
      StepCaused(e, i, k);
      if k < |e.log| { assert s.log[k] == e.log[k]; }
    }
  }

  lemma {:induction false} RunNamed(inputs: seq<Input>)
    ensures Named(Run(inputs), Arrived(inputs))
    decreases |inputs|
  {
    hide Step;
    if inputs != [] {
      var front, last := inputs[..|inputs| - 1], inputs[|inputs| - 1];
      RunNamed(front);
      StepNamed(Run(front), last, Arrived(front));
    }
  }

  lemma {:induction false} ArrivalInput(inputs: seq<Input>, i: nat) returns (n: nat)
    requires i < |Arrived(inputs)|
    ensures n < |inputs| && Takes(Run(inputs[..n]), inputs[n], Entry(i, Arrived(inputs)[i]))
    decreases |inputs|
  {
    hide Step;
    var m := |inputs| - 1;
    var front := inputs[..m];
    RunNamed(front);
    if i < |Arrived(front)| {
      n := ArrivalInput(front, i);
      assert front[..n] == inputs[..n];
    } else {
      n := m;
    }
  }

  lemma {:induction false} DisposedWhere(log: seq<Action>, i: nat) returns (k: nat)
    requires Disposed(log, i) > 0
    ensures k < |log| && HasEntry(log[k]) && log[k].entry.index == i
    decreases |log|
  {
    var a := log[|log| - 1];
    if HasEntry(a) && a.entry.index == i {
      k := |log| - 1;
    } else {
      k := DisposedWhere(log[..|log| - 1], i);
    }
  }

  lemma {:induction false} HeldWhere(pending: seq<Entry>, i: nat) returns (k: nat)
    requires Held(pending, i) > 0
    ensures k < |pending| && pending[k].index == i
    decreases |pending|
  {
    if pending[|pending| - 1].index == i {
      k := |pending| - 1;
    } else {
      k := HeldWhere(pending[..|pending| - 1], i);
    }
  }

  lemma {:induction false} DisposedTwice(log: seq<Action>, j: nat, k: nat, i: nat)
    requires j < k < |log| && HasEntry(log[j]) && HasEntry(log[k])
    requires log[j].entry.index == i && log[k].entry.index == i
    ensures Disposed(log, i) >= 2
    decreases |log|
  {
    if k == |log| - 1 {
      DisposedOnce(log[..k], j, i);
    } else {
      DisposedTwice(log[..|log| - 1], j, k, i);
    }
  }

  lemma {:induction false} DisposedOnce(log: seq<Action>, j: nat, i: nat)
    requires j < |log| && HasEntry(log[j]) && log[j].entry.index == i
    ensures Disposed(log, i) >= 1
    decreases |log|
  {
    if j < |log| - 1 { DisposedOnce(log[..|log| - 1], j, i); }
  }

  // ---- Fates ----

  /** Any two disposals of the same command are one. */
  lemma OneFate(inputs: seq<Input>, j: nat, k: nat)
    requires j < |Run(inputs).log| && k < |Run(inputs).log|
    requires HasEntry(Run(inputs).log[j]) && HasEntry(Run(inputs).log[k])
    requires Run(inputs).log[j].entry.index == Run(inputs).log[k].entry.index
    ensures j == k
  {
    hide Run;
    hide Disposed;
    var log := Run(inputs).log;
    var i := log[j].entry.index;
    CommandsAccountedFor(inputs, i);
    if j < k { DisposedTwice(log, j, k, i); }
    if k < j { DisposedTwice(log, k, j, i); }
  }

  /** In every run, command `i` arrived with some input `n`; it was lost if and only if it arrived while the
      engine was blocked, was no mode command, and there was no memory to hold it back; and if it was not
      lost or flushed, it is held back, or was put to the transmit queue if it is for the device, or was
      handled by the engine if it is not. */
  lemma CommandFate(inputs: seq<Input>, i: nat) returns (n: nat, c: Entry)
    requires i < Run(inputs).arrivals
    ensures n < |inputs| && Takes(Run(inputs[..n]), inputs[n], c) && c.index == i
    ensures Lost(c) in Run(inputs).log <==> Run(inputs[..n]).blocked && c.cmd.kind != Mode && !inputs[n].memory
    ensures var e := Run(inputs);
      || c in e.pending || Lost(c) in e.log || Flushed(c) in e.log
      || (if ForDevice(c.cmd) then Left(c) in e.log || Refused(c) in e.log else Handled(c) in e.log)
  {
    hide Run;
    hide Disposed;
    hide Held;
    hide Caused;
    hide Arrived;
    hide Step;
    var e := Run(inputs);
    RunNamed(inputs);
    n := ArrivalInput(inputs, i);
    c := Entry(i, Arrived(inputs)[i]);
    CommandsAccountedFor(inputs, i);
    if Held(e.pending, i) > 0 {
      var k := HeldWhere(e.pending, i);
      assert e.pending[k] == c;
    } else {
      var k := DisposedWhere(e.log, i);
      assert e.log[k].entry == c;
      var m := ActionCaused(inputs, k);
      FateByKind(Run(inputs[..m]), inputs[m], e.log[k]);
    }
    LostIff(inputs, n, c);
  }

  lemma FateByKind(e: Engine, i: Input, a: Action)
    requires Caused(e, i, a) && HasEntry(a)
    ensures a.Lost? || a.Flushed? || (if ForDevice(a.entry.cmd) then a.Left? || a.Refused? else a.Handled?)
  {
  }

  lemma LostIff(inputs: seq<Input>, n: nat, c: Entry)
    requires n < |inputs| && Takes(Run(inputs[..n]), inputs[n], c)
    ensures Lost(c) in Run(inputs).log <==> Run(inputs[..n]).blocked && c.cmd.kind != Mode && !inputs[n].memory
  {
    hide Run;
    var e, b := Run(inputs), Run(inputs[..n]);
    if b.blocked && c.cmd.kind != Mode && !inputs[n].memory {
      var s := Step(b, inputs[n]);
      RunOne(inputs, n);
      assert s.log[|b.log|] == Lost(c);
      RunGrows(inputs, n + 1);
      assert e.log[|b.log|] == Lost(c);
    }
    if Lost(c) in e.log {
      var k :| 0 <= k < |e.log| && e.log[k] == Lost(c);
      var m := ActionCaused(inputs, k);
      SameArrival(inputs, n, m);
    }
  }

  lemma RunOne(inputs: seq<Input>, n: nat)
    requires n < |inputs|
    ensures Run(inputs[..n + 1]) == Step(Run(inputs[..n]), inputs[n])
  {
    hide Step;
    assert inputs[..n + 1][..n] == inputs[..n];
  }

  lemma {:induction false} ArrivalsGrow(inputs: seq<Input>, n: nat, m: nat)
    requires n <= m <= |inputs|
    ensures Run(inputs[..n]).arrivals <= Run(inputs[..m]).arrivals
    decreases m
  {
    hide Run;
    hide Step;
    if n < m {
      ArrivalsGrow(inputs, n, m - 1);
      RunOne(inputs, m - 1);
      StepArrivals(Run(inputs[..m - 1]), inputs[m - 1]);
    }
  }

  lemma StepArrivals(e: Engine, i: Input)
    ensures Step(e, i).arrivals == e.arrivals + if i.Command? && Waiting(e) then 1 else 0
  {
  }

  /** No two inputs are the arrival of the same position. */
  lemma SameArrival(inputs: seq<Input>, n: nat, m: nat)
    requires n < |inputs| && m < |inputs|
    requires inputs[n].Command? && Waiting(Run(inputs[..n])) && inputs[m].Command? && Waiting(Run(inputs[..m]))
    requires Run(inputs[..n]).arrivals == Run(inputs[..m]).arrivals
    ensures n == m
  {
    hide Run;
    hide Step;
    RunOne(inputs, n);
    RunOne(inputs, m);
    StepArrivals(Run(inputs[..n]), inputs[n]);
    StepArrivals(Run(inputs[..m]), inputs[m]);
    if n < m { ArrivalsGrow(inputs, n + 1, m); }
    if m < n { ArrivalsGrow(inputs, m + 1, n); }
  }
}
