/** The items of a remote device and their exchange codecs (btrd.go): an ADC
    read through an expression, a DS18B20 temperature read as two bytes, and a
    two-state switch that can be read, set and cleared. Each codec is a short
    fixed run of writes and reads on the device's line, a check of the reply,
    and a conditional write of the item's cached value. The locks around them
    (`sermux`, `valmux`) only serialise the calls and are not modelled. */
module Btrd {
  import opened Wrappers
  import opened Serial
  import opened Temperature

  /** The float64 cached for an ADC: a number, or NaN. */
  datatype AnalogValue = Num(x: real) | NaN

  /** The dynamically typed value an expression evaluates to (Go's `interface{}`). */
  datatype Dynamic = Float64(x: real) | Float32(x: real) | Int(i: int) | OtherType

  /** The expression library, uninterpreted: whether an expression text parses,
      and what it evaluates to for `adcval` and `vref` (None: an evaluation error). */
  datatype Evaluator = Evaluator(parses: string -> bool, evaluate: (string, real, real) -> Option<Dynamic>)

  /** An ADC item; `owner` is the back-reference to its device (by id), `value` the cache. */
  datatype Adc = Adc(id: string, vref: real, cmdget: string, expr: string, owner: Option<string>, value: AnalogValue)

  /** A DS18B20 item; its cache is in sixteenths of a degree. */
  datatype Tmpt = Tmpt(id: string, cmdlsb: string, cmdmsb: string, owner: Option<string>, value: int)

  /** A switch item; its cache holds the last state byte read (Go `int`). */
  datatype Swt = Swt(id: string, cmdget: string, cmdset: string, cmdclr: string, owner: Option<string>, value: int)

  /** A remote device (`Btdev`) with its port handle. */
  datatype Device = Device(
    id: string, devfile: string, baud: int,
    adcs: seq<Adc>, tmpts: seq<Tmpt>, swts: seq<Swt>,
    port: Port)

  /** The kinds of error the codecs return. */
  datatype Failure =
    | WriteFailed
    | ReadFailed
    | ExprParse
    | ExprEval
    | NotNumeric
    | BadSwitchValue(b: Byte)
    | NotAcknowledged(b: Byte)

  /** A codec call: its error result, the item afterwards, the line afterwards. */
  datatype Exchange<T> = Exchange(status: Outcome<Failure>, item: T, line: Line)

  /** The acknowledgement byte of a set or clear, ASCII 'K'. */
  const Ack: Byte := 0x4B

  // ---------------------------------------------------------------------------
  // getFloat

  /** The float64 of a numeric dynamic value. */
  function AsReal(u: Dynamic): real
    requires !u.OtherType?
  {
    match u
    case Float64(x) => x
    case Float32(x) => x
    case Int(i) => i as real
  }

  /** `getFloat`: numbers of the three numeric types convert, anything else
      yields NaN and an error. */
  function GetFloat(u: Dynamic): (r: (AnalogValue, Outcome<Failure>))
    ensures r.1.Pass? <==> !u.OtherType?
    ensures r.1.Pass? ==> r.0 == Num(AsReal(u))
    ensures r.1.Fail? ==> r.0 == NaN && r.1.error == NotNumeric
  {
    match u
    case Float64(x) => (Num(x), Pass)
    case Float32(x) => (Num(x), Pass)
    case Int(i) => (Num(i as real), Pass)
    case OtherType => (NaN, Fail(NotNumeric))
  }

  // ---------------------------------------------------------------------------
  // One write-and-read exchange, as every codec performs it.

  /** A write of `cmd` followed by a read runs exactly like the reference run of
      `[Send(cmd), Receive]` followed by `rest`. */
  lemma ExchangeThen(port: Port, line: Line, cmd: string, rest: seq<Op>)
    ensures var w := Write(port, line, cmd);
            var g := Read(port, w.line);
            var run := RunOps(port, line, [Send(cmd), Receive] + rest);
            && (!w.ok ==> !run.ok && run.line == w.line)
            && (w.ok && g.b.None? ==> !run.ok && run.line == g.line)
            && (w.ok && g.b.Some? ==>
                  && |line.script| >= 2 && line.script[1] == ReadOk(g.b.value)
                  && g.line.script == line.script[2..]
                  && run.ok == RunOps(port, g.line, rest).ok
                  && run.line == RunOps(port, g.line, rest).line)
  {
    var ops := [Send(cmd), Receive] + rest;
    SendIsWrite(port, line, cmd);
    ReceiveIsRead(port, Write(port, line, cmd).line);
    assert ops[1..] == [Receive] + rest;
    assert ops[1..][1..] == rest;
  }

  /** `AllAnswer` for a list that starts with one exchange. */
  lemma AllAnswerExchange(port: Port, cmd: string, rest: seq<Op>, script: seq<Reply>)
    ensures AllAnswer(port, [Send(cmd), Receive] + rest, script) <==>
            && port == Open && |script| >= 2 && script[0] == WriteOk && script[1].ReadOk?
            && AllAnswer(port, rest, script[2..])
  {
    var ops := [Send(cmd), Receive] + rest;
    if port == Open && |script| >= 2 && script[0] == WriteOk && script[1].ReadOk? && AllAnswer(port, rest, script[2..]) {
      forall i | 0 <= i < |ops|
        ensures Answers(ops[i], script[i])
      {
        if i >= 2 {
          assert ops[i] == rest[i - 2] && script[i] == script[2..][i - 2];
        }
      }
    }
    if AllAnswer(port, ops, script) {
      assert Answers(ops[0], script[0]) && Answers(ops[1], script[1]);
      forall i | 0 <= i < |rest|
        ensures Answers(rest[i], script[2..][i])
      {
        assert rest[i] == ops[i + 2];
      }
    }
  }

  /** The run of `ops` succeeds exactly when every operation is answered. */
  lemma RunOk(port: Port, line: Line, ops: seq<Op>)
    ensures RunOps(port, line, ops).ok <==> AllAnswer(port, ops, line.script)
  {
    AllAnswerIffAnswered(port, ops, line.script);
  }

  /** The outcome of one write-and-read: the byte read, or the first failure. */
  datatype Asked = Asked(reply: Result<Byte, Failure>, line: Line)

  /** Write `cmd`, and if that succeeds read one byte; the error path of every
      codec starts here. */
  function Ask(port: Port, line: Line, cmd: string): (a: Asked)
    ensures a.line == RunOps(port, line, [Send(cmd), Receive]).line
    ensures a.reply.Success? <==> AllAnswer(port, [Send(cmd), Receive], line.script)
    ensures a.reply.Success? ==>
              |line.script| >= 2 && line.script[1] == ReadOk(a.reply.value) && a.line.script == line.script[2..]
    ensures a.reply.Failure? ==> a.reply.error == WriteFailed || a.reply.error == ReadFailed
  {
    ExchangeThen(port, line, cmd, []);
    AllAnswerExchange(port, cmd, [], line.script);
    RunOk(port, line, [Send(cmd), Receive]);
    assert [Send(cmd), Receive] + [] == [Send(cmd), Receive];
    var w := Write(port, line, cmd);
    if !w.ok then Asked(Failure(WriteFailed), w.line)
    else
      var g := Read(port, w.line);
      if g.b.None? then Asked(Failure(ReadFailed), g.line)
      else Asked(Success(g.b.value), g.line)
  }

  /** A run that starts with one exchange stops where `Ask` fails, and
      otherwise continues from the line `Ask` leaves. */
  lemma AskThen(port: Port, line: Line, cmd: string, rest: seq<Op>)
    ensures var a := Ask(port, line, cmd);
            var run := RunOps(port, line, [Send(cmd), Receive] + rest);
            && (a.reply.Failure? ==> !run.ok && run.line == a.line)
            && (a.reply.Success? ==> run == RunOps(port, a.line, rest))
            && (AllAnswer(port, [Send(cmd), Receive] + rest, line.script) <==>
                  a.reply.Success? && AllAnswer(port, rest, a.line.script))
  {
    ExchangeThen(port, line, cmd, rest);
    AllAnswerExchange(port, cmd, rest, line.script);
    AllAnswerExchange(port, cmd, [], line.script);
    assert [Send(cmd), Receive] + [] == [Send(cmd), Receive];
  }

  // ---------------------------------------------------------------------------
  // ADC.ReadValue

  function AdcOps(a: Adc): seq<Op>
  {
    [Send(a.cmdget), Receive]
  }

  /** What the expression yields for the byte the ADC answers with, when the
      exchange succeeds and the expression parses. */
  function AdcResult(a: Adc, port: Port, script: seq<Reply>, ev: Evaluator): Option<Dynamic>
  {
    AllAnswerExchange(port, a.cmdget, [], script);
    if AllAnswer(port, AdcOps(a), script) && ev.parses(a.expr)
    then ev.evaluate(a.expr, script[1].b as real, a.vref)
    else None
  }

  /** `ADC.ReadValue`: write `Cmdget`, read the 8-bit level, evaluate the
      expression with `adcval` bound to the level and `vref` to `Vref`. */
  function AdcReadValue(a: Adc, port: Port, line: Line, ev: Evaluator): (r: Exchange<Adc>)
    ensures r.line == RunOps(port, line, AdcOps(a)).line
    ensures r.item == a.(value := r.item.value)
    ensures var res := AdcResult(a, port, line.script, ev);
            && (r.status.Pass? <==> res.Some? && !res.value.OtherType?)
            && (r.status.Pass? ==> r.item == a.(value := Num(AsReal(res.value))))
            && (r.status == Fail(NotNumeric) <==> res == Some(OtherType))
            && (r.status == Fail(NotNumeric) ==> r.item == a.(value := NaN))
    ensures r.status.Fail? && r.status != Fail(NotNumeric) ==> r.item == a
    ensures !AllAnswer(port, AdcOps(a), line.script) ==> r.status == Fail(WriteFailed) || r.status == Fail(ReadFailed)
    ensures AllAnswer(port, AdcOps(a), line.script) && !ev.parses(a.expr) ==> r.status == Fail(ExprParse)
  {
    var g := Ask(port, line, a.cmdget);
    if g.reply.Failure? then Exchange(Fail(g.reply.error), a, g.line)
    else if !ev.parses(a.expr) then Exchange(Fail(ExprParse), a, g.line)
    else
      match ev.evaluate(a.expr, g.reply.value as real, a.vref)
      case None => Exchange(Fail(ExprEval), a, g.line)
      case Some(result) =>
        var f := GetFloat(result);
        Exchange(f.1, a.(value := f.0), g.line)
  }

  // ---------------------------------------------------------------------------
  // Tmpt.ReadValue

  function TmptOps(t: Tmpt): seq<Op>
  {
    [Send(t.cmdlsb), Receive, Send(t.cmdmsb), Receive]
  }

  /** `Tmpt.ReadValue`: write `Cmdlsb`, read the LSB, write `Cmdmsb`, read the
      MSB, and only then cache the decoded temperature. */
  function TmptReadValue(t: Tmpt, port: Port, line: Line): (r: Exchange<Tmpt>)
    ensures r.line == RunOps(port, line, TmptOps(t)).line
    ensures r.item == t.(value := r.item.value)
    ensures r.status.Pass? <==> AllAnswer(port, TmptOps(t), line.script)
    ensures r.status.Pass? ==>
              && |line.script| >= 4 && line.script[1].ReadOk? && line.script[3].ReadOk?
              && r.item == t.(value := ConvertTemp(line.script[3].b, line.script[1].b))
    ensures r.status.Fail? ==> r.item == t
  {
    TmptChain(t, port, line);
    var lsb := Ask(port, line, t.cmdlsb);
    if lsb.reply.Failure? then Exchange(Fail(lsb.reply.error), t, lsb.line)
    else
      var msb := Ask(port, lsb.line, t.cmdmsb);
      if msb.reply.Failure? then Exchange(Fail(msb.reply.error), t, msb.line)
      else Exchange(Pass, t.(value := ConvertTemp(msb.reply.value, lsb.reply.value)), msb.line)
  }

  /** The four operations of a temperature read are two exchanges: the run
      stops where the first fails, and otherwise the second decides. */
  lemma TmptChain(t: Tmpt, port: Port, line: Line)
    ensures var lsb := Ask(port, line, t.cmdlsb);
            var run := RunOps(port, line, TmptOps(t));
            && (lsb.reply.Failure? ==> run.line == lsb.line && !AllAnswer(port, TmptOps(t), line.script))
            && (lsb.reply.Success? ==>
                  var msb := Ask(port, lsb.line, t.cmdmsb);
                  && run.line == msb.line
                  && (AllAnswer(port, TmptOps(t), line.script) <==> msb.reply.Success?)
                  && (msb.reply.Success? ==>
                        |line.script| >= 4 && line.script[1] == ReadOk(lsb.reply.value)
                        && line.script[3] == ReadOk(msb.reply.value)))
  {
    assert TmptOps(t) == [Send(t.cmdlsb), Receive] + [Send(t.cmdmsb), Receive];
    AskThen(port, line, t.cmdlsb, [Send(t.cmdmsb), Receive]);
    var lsb := Ask(port, line, t.cmdlsb);
    if lsb.reply.Success? {
      var msb := Ask(port, lsb.line, t.cmdmsb);
      if msb.reply.Success? {
        assert line.script[3] == line.script[2..][1];
      }
    }
  }

  // ---------------------------------------------------------------------------
  // Swt.ReadValue, SetBit, ClearBit

  function SwtGetOps(sw: Swt): seq<Op>
  {
    [Send(sw.cmdget), Receive]
  }

  /** `Swt.ReadValue`: write `Cmdget`, read one byte, accept only 0 or 1. */
  function SwtReadValue(sw: Swt, port: Port, line: Line): (r: Exchange<Swt>)
    ensures r.line == RunOps(port, line, SwtGetOps(sw)).line
    ensures r.item == sw.(value := r.item.value)
    ensures r.status.Pass? <==>
              AllAnswer(port, SwtGetOps(sw), line.script) && (line.script[1].b == 0 || line.script[1].b == 1)
    ensures r.status.Pass? ==> r.item == sw.(value := line.script[1].b as int)
    ensures r.status.Fail? ==> r.item == sw
  {
    var g := Ask(port, line, sw.cmdget);
    if g.reply.Failure? then Exchange(Fail(g.reply.error), sw, g.line)
    else if g.reply.value != 0 && g.reply.value != 1 then Exchange(Fail(BadSwitchValue(g.reply.value)), sw, g.line)
    else Exchange(Pass, sw.(value := g.reply.value as int), g.line)
  }

  /** The command-and-acknowledge exchange shared by `SetBit` and `ClearBit`. */
  function Command(sw: Swt, port: Port, line: Line, cmd: string): (r: Exchange<Swt>)
    ensures r.item == sw
    ensures r.line == RunOps(port, line, [Send(cmd), Receive]).line
    ensures r.status.Pass? <==> AllAnswer(port, [Send(cmd), Receive], line.script) && line.script[1].b == Ack
  {
    var g := Ask(port, line, cmd);
    if g.reply.Failure? then Exchange(Fail(g.reply.error), sw, g.line)
    else if g.reply.value != Ack then Exchange(Fail(NotAcknowledged(g.reply.value)), sw, g.line)
    else Exchange(Pass, sw, g.line)
  }

  /** `Swt.SetBit`: send `Cmdset` and expect 'K'. The cache is left alone. */
  function SetBit(sw: Swt, port: Port, line: Line): (r: Exchange<Swt>)
    ensures r.item == sw
    ensures r.line == RunOps(port, line, [Send(sw.cmdset), Receive]).line
    ensures r.status.Pass? <==> AllAnswer(port, [Send(sw.cmdset), Receive], line.script) && line.script[1].b == Ack
  {
    Command(sw, port, line, sw.cmdset)
  }

  /** `Swt.ClearBit`: send `Cmdclr` and expect 'K'. The cache is left alone. */
  function ClearBit(sw: Swt, port: Port, line: Line): (r: Exchange<Swt>)
    ensures r.item == sw
    ensures r.line == RunOps(port, line, [Send(sw.cmdclr), Receive]).line
    ensures r.status.Pass? <==> AllAnswer(port, [Send(sw.cmdclr), Receive], line.script) && line.script[1].b == Ack
  {
    Command(sw, port, line, sw.cmdclr)
  }

  // ---------------------------------------------------------------------------
  // The switch cache

  /** Every switch cache of the device holds 0 or 1. */
  predicate SwitchesBinary(d: Device)
  {
    forall i :: 0 <= i < |d.swts| ==> d.swts[i].value == 0 || d.swts[i].value == 1
  }

  /** `Swt.ReadValue` is the only writer of a switch cache and writes only 0 or
      1, so a cache that starts at Go's zero value stays in {0, 1}. */
  lemma SwitchReadKeepsBinary(sw: Swt, port: Port, line: Line)
    ensures sw.value == 0 || sw.value == 1 ==>
      var v := SwtReadValue(sw, port, line).item.value; v == 0 || v == 1
  {
  }
}
