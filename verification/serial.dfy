/** The serial link of one device, as the codecs see it (btrd.go, Btdev.serport,
    OpenPort, ClosePort). The hardware is replaced by a script: each operation
    on an open port takes the next reply from the script, and the line keeps a
    log of what was done on it, in order. */
module Serial {
  import opened Wrappers

  /** How the far end answers one operation. */
  datatype Reply = WriteOk | WriteErr | ReadOk(b: Byte) | ReadErr | OpenOk | OpenErr

  /** Whether the device's serial handle is usable. */
  datatype Port = Open | Closed

  /** What happened on the line. The polling loop's two sleeps are logged here
      too, so that one sequence orders everything that happened to the device. */
  datatype Event =
    | Wrote(cmd: string)
    | ReadAttempt
    | PortOpened(ok: bool)
    | PortClosed
    | ErrPause
    | FaultPause

  /** The replies still to come and the events so far. */
  datatype Line = Line(script: seq<Reply>, events: seq<Event>)

  datatype Written = Written(ok: bool, line: Line)
  datatype Received = Received(b: Option<Byte>, line: Line)
  datatype Handle = Handle(port: Port, line: Line)

  /** `serport.Write`: fails on a closed port, on an exhausted script and on any
      reply other than `WriteOk`. A reply is consumed whenever the port is open
      and one is waiting. */
  function Write(port: Port, line: Line, cmd: string): (w: Written)
  {
    var events := line.events + [Wrote(cmd)];
    if port == Closed || |line.script| == 0 then Written(false, line.(events := events))
    else Written(line.script[0] == WriteOk, Line(line.script[1..], events))
  }

  /** `serport.Read` of a one-byte buffer: yields the byte of a `ReadOk` reply. */
  function Read(port: Port, line: Line): (r: Received)
  {
    var events := line.events + [ReadAttempt];
    if port == Closed || |line.script| == 0 then Received(None, line.(events := events))
    else
      var b := if line.script[0].ReadOk? then Some(line.script[0].b) else None;
      Received(b, Line(line.script[1..], events))
  }

  /** `Btdev.OpenPort`: `serport` is assigned only when opening succeeds, so a
      failed open leaves whatever handle the device had before. */
  function OpenPort(port: Port, line: Line): (h: Handle)
    ensures h.port == Open <==> port == Open || (|line.script| > 0 && line.script[0] == OpenOk)
    ensures h.line.events == line.events + [PortOpened(|line.script| > 0 && line.script[0] == OpenOk)]
  {
    var ok := |line.script| > 0 && line.script[0] == OpenOk;
    var rest := if |line.script| > 0 then line.script[1..] else line.script;
    Handle(if ok then Open else port, Line(rest, line.events + [PortOpened(ok)]))
  }

  /** `Btdev.ClosePort`. */
  function ClosePort(line: Line): (h: Handle)
    ensures h.port == Closed
    ensures h.line.script == line.script && h.line.events == line.events + [PortClosed]
  {
    Handle(Closed, line.(events := line.events + [PortClosed]))
  }

  // ---------------------------------------------------------------------------
  // A reference for the codecs: a list of operations performed in order,
  // stopping at the first one that fails.

  datatype Op = Send(cmd: string) | Receive

  /** The reply `r` lets `op` succeed. */
  predicate Answers(op: Op, r: Reply)
  {
    match op
    case Send(_) => r == WriteOk
    case Receive => r.ReadOk?
  }

  /** Every operation of `ops` succeeds against the waiting replies. */
  predicate AllAnswer(port: Port, ops: seq<Op>, script: seq<Reply>)
  {
    && |ops| <= |script|
    && (|ops| > 0 ==> port == Open)
    && forall i :: 0 <= i < |ops| ==> Answers(ops[i], script[i])
  }

  function EventOf(op: Op): Event
  {
    match op
    case Send(cmd) => Wrote(cmd)
    case Receive => ReadAttempt
  }

  function EventsOf(ops: seq<Op>): seq<Event>
    decreases |ops|
  {
    if |ops| == 0 then [] else [EventOf(ops[0])] + EventsOf(ops[1..])
  }

  /** How many operations of `ops` succeed before the first that does not. */
  function Answered(port: Port, ops: seq<Op>, script: seq<Reply>): (n: nat)
    ensures n <= |ops| && n <= |script|
    decreases |ops|
  {
    if |ops| == 0 || port.Closed? || |script| == 0 || !Answers(ops[0], script[0]) then 0
    else 1 + Answered(port, ops[1..], script[1..])
  }

  /** `Answered` counts exactly the leading operations that succeed: all of
      them succeed, and the next one, if any, does not. */
  lemma {:induction false} AnsweredIsFirstFailure(port: Port, ops: seq<Op>, script: seq<Reply>)
    ensures var n := Answered(port, ops, script);
            && (n > 0 ==> port.Open?)
            && (forall i :: 0 <= i < n ==> Answers(ops[i], script[i]))
            && (n < |ops| ==> port.Closed? || n == |script| || !Answers(ops[n], script[n]))
    decreases |ops|
  {
    if |ops| == 0 || port.Closed? || |script| == 0 || !Answers(ops[0], script[0]) {
    } else {
      AnsweredIsFirstFailure(port, ops[1..], script[1..]);
      var m := Answered(port, ops[1..], script[1..]);
      forall i | 0 <= i < m + 1
        ensures Answers(ops[i], script[i])
      {
        if i > 0 {
          assert ops[1..][i - 1] == ops[i] && script[1..][i - 1] == script[i];
        }
      }
      if m + 1 < |ops| && m + 1 < |script| {
        assert ops[1..][m] == ops[m + 1] && script[1..][m] == script[m + 1];
      }
    }
  }

  /** All operations succeed exactly when `Answered` counts all of them. */
  lemma AllAnswerIffAnswered(port: Port, ops: seq<Op>, script: seq<Reply>)
    ensures AllAnswer(port, ops, script) <==> Answered(port, ops, script) == |ops|
  {
    AnsweredIsFirstFailure(port, ops, script);
  }

  /** How many operations of `ops` a run performs: the successful ones and,
      when there is one, the first failing one. */
  function Performed(port: Port, ops: seq<Op>, script: seq<Reply>): (k: nat)
    ensures k == if Answered(port, ops, script) == |ops| then |ops| else Answered(port, ops, script) + 1
    decreases |ops|
  {
    if |ops| == 0 then 0
    else if port.Closed? || |script| == 0 || !Answers(ops[0], script[0]) then 1
    else 1 + Performed(port, ops[1..], script[1..])
  }

  function Min(a: int, b: int): int
  {
    if a <= b then a else b
  }

  /** How many replies a run of `ops` takes from the script: none on a closed
      port, otherwise one per operation performed, as far as the script goes. */
  function Consumed(port: Port, ops: seq<Op>, script: seq<Reply>): (n: nat)
    ensures n <= |script|
    ensures n == if port.Closed? then 0 else Min(Performed(port, ops, script), |script|)
    decreases |ops|
  {
    if |ops| == 0 || port.Closed? || |script| == 0 then 0
    else if !Answers(ops[0], script[0]) then 1
    else 1 + Consumed(port, ops[1..], script[1..])
  }

  /** The events a run of `ops` logs, operation by operation, up to and
      including the first that fails. */
  function Trace(port: Port, ops: seq<Op>, script: seq<Reply>): seq<Event>
    decreases |ops|
  {
    if |ops| == 0 then []
    else if port.Closed? || |script| == 0 || !Answers(ops[0], script[0]) then [EventOf(ops[0])]
    else [EventOf(ops[0])] + Trace(port, ops[1..], script[1..])
  }

  datatype Run = Run(ok: bool, line: Line)

  /** Performs one operation: on an open port with a reply waiting, the reply
      is consumed and decides success; otherwise the operation fails. Either
      way the operation is logged. */
  function Perform(port: Port, line: Line, op: Op): (r: Run)
  {
    var waiting := port.Open? && |line.script| > 0;
    var ok := waiting && Answers(op, line.script[0]);
    var script := if waiting then line.script[1..] else line.script;
    Run(ok, Line(script, line.events + [EventOf(op)]))
  }

  /** `Send` is `Write`. */
  lemma SendIsWrite(port: Port, line: Line, cmd: string)
    ensures var r := Perform(port, line, Send(cmd));
            r.ok == Write(port, line, cmd).ok && r.line == Write(port, line, cmd).line
  {
  }

  /** `Receive` is `Read` of one byte, and the byte read is the reply's. */
  lemma ReceiveIsRead(port: Port, line: Line)
    ensures var r := Perform(port, line, Receive);
            var g := Read(port, line);
            && r.ok == g.b.Some? && r.line == g.line
            && (r.ok ==> g.b.value == line.script[0].b)
  {
  }

  /** Performs `ops` in order and stops at the first failure: the operations
      that ran are exactly those up to and including the first failing one,
      and the replies consumed are theirs. */
  function RunOps(port: Port, line: Line, ops: seq<Op>): (r: Run)
    ensures r.ok <==> Answered(port, ops, line.script) == |ops|
    ensures r.line.script == line.script[Consumed(port, ops, line.script)..]
    ensures r.line.events == line.events + Trace(port, ops, line.script)
    decreases |ops|
  {
    if |ops| == 0 then
      assert line.script[0..] == line.script;
      Run(true, line)
    else
      var s := Perform(port, line, ops[0]);
      if !s.ok then
        RunOpsStop(port, line, ops);
        Run(false, s.line)
      else
        var rest := RunOps(port, s.line, ops[1..]);
        RunOpsStep(port, line, ops, rest);
        Run(rest.ok, rest.line)
  }

  /** `RunOps` when the first operation fails. */
  lemma RunOpsStop(port: Port, line: Line, ops: seq<Op>)
    requires |ops| > 0 && !Perform(port, line, ops[0]).ok
    ensures var s := Perform(port, line, ops[0]);
            && Answered(port, ops, line.script) != |ops|
            && s.line.script == line.script[Consumed(port, ops, line.script)..]
            && s.line.events == line.events + Trace(port, ops, line.script)
  {
  }

  /** `RunOps` when the first operation succeeds, from what the run of the
      remaining operations does. */
  lemma RunOpsStep(port: Port, line: Line, ops: seq<Op>, rest: Run)
    requires |ops| > 0 && Perform(port, line, ops[0]).ok
    requires var s := Perform(port, line, ops[0]);
             && (rest.ok <==> Answered(port, ops[1..], s.line.script) == |ops[1..]|)
             && rest.line.script == s.line.script[Consumed(port, ops[1..], s.line.script)..]
             && rest.line.events == s.line.events + Trace(port, ops[1..], s.line.script)
    ensures rest.ok <==> Answered(port, ops, line.script) == |ops|
    ensures rest.line.script == line.script[Consumed(port, ops, line.script)..]
    ensures rest.line.events == line.events + Trace(port, ops, line.script)
  {
    var s := Perform(port, line, ops[0]);
    assert s.line.script == line.script[1..];
    ConsumedCons(port, ops, line.script);
    assert line.events + [EventOf(ops[0])] + Trace(port, ops[1..], line.script[1..])
        == line.events + ([EventOf(ops[0])] + Trace(port, ops[1..], line.script[1..]));
  }

  lemma ConsumedCons(port: Port, ops: seq<Op>, script: seq<Reply>)
    requires |ops| > 0 && |script| > 0 && port.Open? && Answers(ops[0], script[0])
    ensures Answered(port, ops, script) == 1 + Answered(port, ops[1..], script[1..])
    ensures script[Consumed(port, ops, script)..] == script[1..][Consumed(port, ops[1..], script[1..])..]
  {
  }

  /** The run logs exactly the operations it performed, in order. */
  lemma RunOpsEvents(port: Port, line: Line, ops: seq<Op>)
    ensures RunOps(port, line, ops).line.events == line.events + EventsOf(ops[..Performed(port, ops, line.script)])
  {
    TraceIsPerformed(port, ops, line.script);
  }

  /** `Trace` lists the operations performed, in order. */
  lemma {:induction false} TraceIsPerformed(port: Port, ops: seq<Op>, script: seq<Reply>)
    ensures Trace(port, ops, script) == EventsOf(ops[..Performed(port, ops, script)])
    decreases |ops|
  {
    if |ops| == 0 {
      assert ops[..0] == [];
    } else if port.Closed? || |script| == 0 || !Answers(ops[0], script[0]) {
      assert ops[..1] == [ops[0]];
    } else {
      TraceIsPerformed(port, ops[1..], script[1..]);
      EventsOfCons(ops, Performed(port, ops[1..], script[1..]));
    }
  }

  lemma EventsOfCons(ops: seq<Op>, k: nat)
    requires k < |ops|
    ensures EventsOf(ops[..k + 1]) == [EventOf(ops[0])] + EventsOf(ops[1..][..k])
  {
    assert ops[..k + 1][1..] == ops[1..][..k];
  }
}
