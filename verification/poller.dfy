/** The per-device polling goroutine of restapi/restapi.go (`main`): an
    endless loop of cycles. A cycle exchanges with every ADC, then every
    temperature sensor, then every switch, in slice order; a success resets
    the consecutive-error counter and a failure increments it and sleeps
    `errpause`. At the end of a cycle a counter above `maxerrors` closes the
    port, sleeps `failtimeout`, reopens it and resets the counter, whether or
    not the reopening worked. Sleeps appear as events on the line. */
module Poller {
  import opened Serial
  import opened Btrd

  /** `maxerrors`. */
  const MaxErrors: int := 3
  /** `errpause` in seconds: the sleep logged as `ErrPause`. */
  const ErrPauseSeconds: nat := 4
  /** `failtimeout` in seconds: the sleep logged as `FaultPause`. */
  const FailTimeoutSeconds: nat := 30

  /** An item of the polled device, by kind and position. */
  datatype ItemRef = AdcAt(i: nat) | TmptAt(i: nat) | SwtAt(i: nat)

  /** One exchange of a cycle: which item, and whether `ReadValue` returned nil. */
  datatype Visit = Visit(item: ItemRef, ok: bool)

  /** The goroutine's state: the device (its items' caches and its port), the
      error counter and the line. */
  datatype State = State(dev: Device, counter: int, line: Line)

  /** A state together with the exchanges that led to it. */
  datatype Sweep = Sweep(state: State, visits: seq<Visit>)

  predicate ValidRef(d: Device, x: ItemRef)
  {
    match x
    case AdcAt(i) => i < |d.adcs|
    case TmptAt(i) => i < |d.tmpts|
    case SwtAt(i) => i < |d.swts|
  }

  function ItemCount(d: Device): nat
  {
    |d.adcs| + |d.tmpts| + |d.swts|
  }

  /** The order of one cycle: all ADCs, then all temperature sensors, then all
      switches, each group in slice order. */
  function Schedule(d: Device): seq<ItemRef>
  {
    seq(|d.adcs|, i requires 0 <= i < |d.adcs| => AdcAt(i))
    + seq(|d.tmpts|, i requires 0 <= i < |d.tmpts| => TmptAt(i))
    + seq(|d.swts|, i requires 0 <= i < |d.swts| => SwtAt(i))
  }

  /** `b` differs from `a` at most in the cached values of its items. */
  predicate CachesOnly(a: Device, b: Device)
  {
    && a.(adcs := [], tmpts := [], swts := []) == b.(adcs := [], tmpts := [], swts := [])
    && |a.adcs| == |b.adcs| && |a.tmpts| == |b.tmpts| && |a.swts| == |b.swts|
    && (forall i :: 0 <= i < |a.adcs| ==> b.adcs[i] == a.adcs[i].(value := b.adcs[i].value))
    && (forall i :: 0 <= i < |a.tmpts| ==> b.tmpts[i] == a.tmpts[i].(value := b.tmpts[i].value))
    && (forall i :: 0 <= i < |a.swts| ==> b.swts[i] == a.swts[i].(value := b.swts[i].value))
  }

  // ---------------------------------------------------------------------------
  // The consecutive-error counter

  /** `i` is the last success of `oks`. */
  predicate LastSuccess(oks: seq<bool>, i: int)
  {
    0 <= i < |oks| && oks[i] && forall j :: i < j < |oks| ==> !oks[j]
  }

  /** The counter after a run of outcomes in visit order, starting from `c`:
      a success sets it to 0 and a failure adds one. It is never reset between
      cycles, so it equals the number of failures after the last success, or
      `c` plus every outcome when none succeeded. */
  function CounterAfter(c: int, oks: seq<bool>): (n: int)
    ensures (forall j :: 0 <= j < |oks| ==> !oks[j]) ==> n == c + |oks|
    ensures forall i :: LastSuccess(oks, i) ==> n == |oks| - 1 - i
    ensures c >= 0 ==> n >= 0
    decreases |oks|
  {
    if |oks| == 0 then c
    else
      LastSuccessInit(oks);
      if oks[|oks| - 1] then 0 else CounterAfter(c, oks[..|oks| - 1]) + 1
  }

  /** How `LastSuccess` and "no success" look without the last outcome. */
  lemma LastSuccessInit(oks: seq<bool>)
    requires |oks| > 0
    ensures forall i :: LastSuccess(oks, i) && i < |oks| - 1 ==> LastSuccess(oks[..|oks| - 1], i)
  {
  }

  function Oks(vs: seq<Visit>): seq<bool>
  {
    seq(|vs|, j requires 0 <= j < |vs| => vs[j].ok)
  }

  /** How many `ErrPause` sleeps the events contain. */
  function Pauses(es: seq<Event>): nat
    decreases |es|
  {
    if |es| == 0 then 0
    else Pauses(es[..|es| - 1]) + (if es[|es| - 1] == ErrPause then 1 else 0)
  }

  /** How many outcomes are failures. */
  function Failures(oks: seq<bool>): nat
    decreases |oks|
  {
    if |oks| == 0 then 0
    else Failures(oks[..|oks| - 1]) + (if oks[|oks| - 1] then 0 else 1)
  }

  lemma {:induction false} PausesAppend(a: seq<Event>, b: seq<Event>)
    ensures Pauses(a + b) == Pauses(a) + Pauses(b)
    decreases |b|
  {
    if |b| == 0 {
      assert a + b == a;
    } else {
      var ab := a + b;
      assert ab[..|ab| - 1] == a + b[..|b| - 1];
      assert ab[|ab| - 1] == b[|b| - 1];
      PausesAppend(a, b[..|b| - 1]);
    }
  }

  /** A codec logs only writes and reads, never a pause. */
  lemma {:induction false} NoPausesInExchange(ops: seq<Op>)
    ensures Pauses(EventsOf(ops)) == 0
    decreases |ops|
  {
    if |ops| > 0 {
      NoPausesInExchange(ops[1..]);
      PausesAppend([EventOf(ops[0])], EventsOf(ops[1..]));
    }
  }

  // ---------------------------------------------------------------------------
  // One exchange and the bookkeeping after it

  /** The line after the counting: a failure sleeps `errpause`. */
  function AfterCount(line: Line, ok: bool): (r: Line)
    ensures r.script == line.script
    ensures Pauses(r.events) == Pauses(line.events) + (if ok then 0 else 1)
  {
    if ok then line
    else
      PausesAppend(line.events, [ErrPause]);
      assert Pauses([ErrPause]) == 1;
      line.(events := line.events + [ErrPause])
  }

  /** Counting after one exchange with `x`, which left the device `dev` and
      the line `line`: a success resets the counter; a failure increments it
      and sleeps `errpause`. */
  function Tally(s: State, dev: Device, x: ItemRef, ok: bool, line: Line): Sweep
  {
    Sweep(State(dev, if ok then 0 else s.counter + 1, AfterCount(line, ok)), [Visit(x, ok)])
  }

  /** What one `ReadValue` call leaves: the device with the item's new cache,
      whether it returned nil, and the line. */
  datatype Exchanged = Exchanged(dev: Device, ok: bool, line: Line)

  /** `ReadValue` of the item `x` on the device's port and the current line:
      the item is replaced by the one its codec returns. */
  function Exchange(s: State, ev: Evaluator, x: ItemRef): Exchanged
    requires ValidRef(s.dev, x)
  {
    var d := s.dev;
    match x
    case AdcAt(i) =>
      var e := AdcReadValue(d.adcs[i], d.port, s.line, ev);
      Exchanged(d.(adcs := d.adcs[i := e.item]), e.status.Pass?, e.line)
    case TmptAt(i) =>
      var e := TmptReadValue(d.tmpts[i], d.port, s.line);
      Exchanged(d.(tmpts := d.tmpts[i := e.item]), e.status.Pass?, e.line)
    case SwtAt(i) =>
      var e := SwtReadValue(d.swts[i], d.port, s.line);
      Exchanged(d.(swts := d.swts[i := e.item]), e.status.Pass?, e.line)
  }

  /** The reference for one exchange of a cycle: `ReadValue` of the item `x`,
      then the counting. */
  function Step(s: State, ev: Evaluator, x: ItemRef): Sweep
    requires ValidRef(s.dev, x)
  {
    var o := Exchange(s, ev, x);
    Tally(s, o.dev, x, o.ok, o.line)
  }

  /** A run of `ops` adds no pause to the line's events. */
  lemma RunAddsNoPause(port: Port, line: Line, ops: seq<Op>)
    ensures Pauses(RunOps(port, line, ops).line.events) == Pauses(line.events)
  {
    RunOpsEvents(port, line, ops);
    var k := Performed(port, ops, line.script);
    NoPausesInExchange(ops[..k]);
    PausesAppend(line.events, EventsOf(ops[..k]));
  }

  /** On a closed port every `ReadValue` fails without consuming a reply. */
  lemma ClosedAdc(a: Adc, line: Line, ev: Evaluator)
    ensures var e := AdcReadValue(a, Closed, line, ev); e.status.Fail? && e.line.script == line.script
  {
    assert !AllAnswer(Closed, AdcOps(a), line.script);
  }

  lemma ClosedTmpt(t: Tmpt, line: Line)
    ensures var e := TmptReadValue(t, Closed, line); e.status.Fail? && e.line.script == line.script
  {
    assert !AllAnswer(Closed, TmptOps(t), line.script);
  }

  lemma ClosedSwt(sw: Swt, line: Line)
    ensures var e := SwtReadValue(sw, Closed, line); e.status.Fail? && e.line.script == line.script
  {
    assert !AllAnswer(Closed, SwtGetOps(sw), line.script);
  }

  lemma AdcCacheOnly(d: Device, i: nat, a: Adc)
    requires i < |d.adcs| && a == d.adcs[i].(value := a.value)
    ensures CachesOnly(d, d.(adcs := d.adcs[i := a]))
  {
  }

  lemma TmptCacheOnly(d: Device, i: nat, t: Tmpt)
    requires i < |d.tmpts| && t == d.tmpts[i].(value := t.value)
    ensures CachesOnly(d, d.(tmpts := d.tmpts[i := t]))
  {
  }

  lemma SwtCacheOnly(d: Device, i: nat, sw: Swt)
    requires i < |d.swts| && sw == d.swts[i].(value := sw.value)
    ensures CachesOnly(d, d.(swts := d.swts[i := sw]))
    ensures SwitchesBinary(d) && (sw.value == 0 || sw.value == 1) ==> SwitchesBinary(d.(swts := d.swts[i := sw]))
  {
  }

  /** Adds one outcome to the bookkeeping of a sweep. */
  lemma Extend(c: int, vs: seq<Visit>, v: Visit)
    ensures Oks(vs + [v]) == Oks(vs) + [v.ok]
    ensures CounterAfter(c, Oks(vs + [v])) == if v.ok then 0 else CounterAfter(c, Oks(vs)) + 1
    ensures Failures(Oks(vs + [v])) == Failures(Oks(vs)) + (if v.ok then 0 else 1)
  {
    var oks := Oks(vs + [v]);
    assert oks == Oks(vs) + [v.ok];
    assert oks[..|oks| - 1] == Oks(vs);
  }

  /** What `ADC.ReadValue` on the `i`-th ADC does to the device and the line. */
  lemma AdcFacts(d: Device, i: nat, line: Line, ev: Evaluator)
    requires i < |d.adcs|
    ensures var e := AdcReadValue(d.adcs[i], d.port, line, ev);
            && CachesOnly(d, d.(adcs := d.adcs[i := e.item]))
            && Pauses(e.line.events) == Pauses(line.events)
            && (d.port == Closed ==> e.status.Fail? && e.line.script == line.script)
  {
    var e := AdcReadValue(d.adcs[i], d.port, line, ev);
    RunAddsNoPause(d.port, line, AdcOps(d.adcs[i]));
    assert e.line == RunOps(d.port, line, AdcOps(d.adcs[i])).line;
    AdcCacheOnly(d, i, e.item);
    if d.port == Closed { ClosedAdc(d.adcs[i], line, ev); }
  }

  /** What `Tmpt.ReadValue` on the `i`-th temperature sensor does to the device and the line. */
  lemma TmptFacts(d: Device, i: nat, line: Line)
    requires i < |d.tmpts|
    ensures var e := TmptReadValue(d.tmpts[i], d.port, line);
            && CachesOnly(d, d.(tmpts := d.tmpts[i := e.item]))
            && Pauses(e.line.events) == Pauses(line.events)
            && (d.port == Closed ==> e.status.Fail? && e.line.script == line.script)
  {
    var e := TmptReadValue(d.tmpts[i], d.port, line);
    RunAddsNoPause(d.port, line, TmptOps(d.tmpts[i]));
    assert e.line == RunOps(d.port, line, TmptOps(d.tmpts[i])).line;
    TmptCacheOnly(d, i, e.item);
    if d.port == Closed { ClosedTmpt(d.tmpts[i], line); }
  }

  /** What `Swt.ReadValue` on the `i`-th switch does to the device and the line. */
  lemma SwtFacts(d: Device, i: nat, line: Line)
    requires i < |d.swts|
    ensures var e := SwtReadValue(d.swts[i], d.port, line);
            && CachesOnly(d, d.(swts := d.swts[i := e.item]))
            && Pauses(e.line.events) == Pauses(line.events)
            && (d.port == Closed ==> e.status.Fail? && e.line.script == line.script)
            && (SwitchesBinary(d) ==> SwitchesBinary(d.(swts := d.swts[i := e.item])))
  {
    var e := SwtReadValue(d.swts[i], d.port, line);
    RunAddsNoPause(d.port, line, SwtGetOps(d.swts[i]));
    assert e.line == RunOps(d.port, line, SwtGetOps(d.swts[i])).line;
    SwtCacheOnly(d, i, e.item);
    SwitchReadKeepsBinary(d.swts[i], d.port, line);
    if d.port == Closed { ClosedSwt(d.swts[i], line); }
  }

  /** One `ReadValue` changes only the cache of its item, sleeps nowhere, fails
      without consuming a reply on a closed port and keeps switch caches in {0, 1}. */
  lemma ExchangeFacts(s: State, ev: Evaluator, x: ItemRef)
    requires ValidRef(s.dev, x)
    ensures var o := Exchange(s, ev, x);
            && CachesOnly(s.dev, o.dev)
            && Pauses(o.line.events) == Pauses(s.line.events)
            && (s.dev.port == Closed ==> !o.ok && o.line.script == s.line.script)
            && (SwitchesBinary(s.dev) ==> SwitchesBinary(o.dev))
  {
    match x {
      case AdcAt(i) => AdcFacts(s.dev, i, s.line, ev);
      case TmptAt(i) => TmptFacts(s.dev, i, s.line);
      case SwtAt(i) => SwtFacts(s.dev, i, s.line);
    }
  }

  /** One exchange of the cycle changes only the cache of its item, records
      one visit to it, counts a failure and sleeps `errpause` after it, keeps
      switch caches in {0, 1}, and fails without consuming a reply on a closed
      port. */
  lemma StepFacts(s: State, ev: Evaluator, x: ItemRef)
    requires ValidRef(s.dev, x)
    ensures Polled(s, x, Step(s, ev, x))
  {
    var o := Exchange(s, ev, x);
    ExchangeFacts(s, ev, x);
    TallyFacts(s, o.dev, x, o.ok, o.line);
  }

  /** What one exchange with `x` from `s` did, leaving `r`. */
  predicate Polled(s: State, x: ItemRef, r: Sweep)
  {
    && CachesOnly(s.dev, r.state.dev)
    && |r.visits| == 1 && r.visits[0].item == x
    && r.state.counter == (if r.visits[0].ok then 0 else s.counter + 1)
    && Pauses(r.state.line.events) == Pauses(s.line.events) + (if r.visits[0].ok then 0 else 1)
    && (SwitchesBinary(s.dev) ==> SwitchesBinary(r.state.dev))
    && (s.dev.port == Closed ==> !r.visits[0].ok && r.state.line.script == s.line.script)
  }

  /** One exchange of the cycle, spelled out per kind of item: the visit's
      outcome is whether the item's `ReadValue` returned nil, the item is
      replaced by the one `ReadValue` returned, the counter is reset or
      incremented, and the line is the codec's, with an `errpause` sleep
      after a failure. */
  lemma StepReadsItem(s: State, ev: Evaluator, x: ItemRef)
    requires ValidRef(s.dev, x)
    ensures var r := Step(s, ev, x);
            var d := s.dev;
            match x
            case AdcAt(i) =>
              var e := AdcReadValue(d.adcs[i], d.port, s.line, ev);
              Counted(s, r, x, e.status.Pass?, e.line) && r.state.dev == d.(adcs := d.adcs[i := e.item])
            case TmptAt(i) =>
              var e := TmptReadValue(d.tmpts[i], d.port, s.line);
              Counted(s, r, x, e.status.Pass?, e.line) && r.state.dev == d.(tmpts := d.tmpts[i := e.item])
            case SwtAt(i) =>
              var e := SwtReadValue(d.swts[i], d.port, s.line);
              Counted(s, r, x, e.status.Pass?, e.line) && r.state.dev == d.(swts := d.swts[i := e.item])
  {
  }

  /** `r` records one visit to `x` with outcome `ok`, after which the line was
      `line`: a success resets the counter, a failure increments it and
      sleeps `errpause`. */
  predicate Counted(s: State, r: Sweep, x: ItemRef, ok: bool, line: Line)
  {
    && r.visits == [Visit(x, ok)]
    && r.state.counter == (if ok then 0 else s.counter + 1)
    && r.state.line == (if ok then line else line.(events := line.events + [ErrPause]))
  }

  /** The counting after an exchange that changed only caches and slept nowhere. */
  lemma TallyFacts(s: State, dev: Device, x: ItemRef, ok: bool, line: Line)
    requires CachesOnly(s.dev, dev)
    requires Pauses(line.events) == Pauses(s.line.events)
    requires s.dev.port == Closed ==> !ok && line.script == s.line.script
    requires SwitchesBinary(s.dev) ==> SwitchesBinary(dev)
    ensures Tally(s, dev, x, ok, line).visits == [Visit(x, ok)]
    ensures Polled(s, x, Tally(s, dev, x, ok, line))
  {
  }

  /** One `ReadValue` call of the cycle, on the item `x`, and the counting
      after it. */
  method PollItem(s: State, ev: Evaluator, x: ItemRef) returns (r: Sweep)
    requires ValidRef(s.dev, x)
    ensures r == Step(s, ev, x)
    ensures CachesOnly(s.dev, r.state.dev)
    ensures |r.visits| == 1 && r.visits[0].item == x
    ensures r.state.counter == if r.visits[0].ok then 0 else s.counter + 1
    ensures Pauses(r.state.line.events) == Pauses(s.line.events) + (if r.visits[0].ok then 0 else 1)
    ensures SwitchesBinary(s.dev) ==> SwitchesBinary(r.state.dev)
    ensures s.dev.port == Closed ==> !r.visits[0].ok && r.state.line.script == s.line.script
  {
    var o := Exchange(s, ev, x);
    r := Tally(s, o.dev, x, o.ok, o.line);
    StepFacts(s, ev, x);
  }

  /** How many ADCs, temperature sensors and switches the device has. */
  function ItemCounts(d: Device): (nat, nat, nat)
  {
    (|d.adcs|, |d.tmpts|, |d.swts|)
  }

  predicate RefsValid(d: Device, xs: seq<ItemRef>)
  {
    forall j :: 0 <= j < |xs| ==> ValidRef(d, xs[j])
  }

  /** Item references stay valid while the number of items of each kind stays. */
  lemma RefsStayValid(a: Device, b: Device, xs: seq<ItemRef>)
    requires ItemCounts(a) == ItemCounts(b)
    requires RefsValid(a, xs)
    ensures RefsValid(b, xs)
  {
  }

  /** `CachesOnly` composes. */
  lemma CachesOnlyTrans(a: Device, b: Device, c: Device)
    requires CachesOnly(a, b) && CachesOnly(b, c)
    ensures CachesOnly(a, c)
  {
  }

  /** What the first `k` exchanges of a sweep over `xs` from `s` have done. */
  predicate SweptSoFar(s: State, xs: seq<ItemRef>, k: nat, r: Sweep)
  {
    && k <= |xs|
    && CachesOnly(s.dev, r.state.dev)
    && |r.visits| == k
    && (forall j :: 0 <= j < k ==> r.visits[j].item == xs[j])
    && r.state.counter == CounterAfter(s.counter, Oks(r.visits))
    && Pauses(r.state.line.events) == Pauses(s.line.events) + Failures(Oks(r.visits))
    && (SwitchesBinary(s.dev) ==> SwitchesBinary(r.state.dev))
    && (s.dev.port == Closed ==>
          (forall j :: 0 <= j < k ==> !r.visits[j].ok) && r.state.line.script == s.line.script)
  }

  /** One more exchange, with the item `xs[k]`, extends a sweep. */
  lemma SweepStep(s: State, xs: seq<ItemRef>, k: nat, r: Sweep, step: Sweep)
    requires SweptSoFar(s, xs, k, r) && k < |xs|
    requires Polled(r.state, xs[k], step)
    ensures SweptSoFar(s, xs, k + 1, Sweep(step.state, r.visits + step.visits))
  {
    CachesOnlyTrans(s.dev, r.state.dev, step.state.dev);
    Extend(s.counter, r.visits, step.visits[0]);
    assert step.visits == [step.visits[0]];
  }

  /** What a sweep did over a prefix of `xs` it did over `xs` so far. */
  lemma SweptPrefix(s: State, xs: seq<ItemRef>, k: nat, r: Sweep)
    requires k <= |xs| && SweptSoFar(s, xs[..k], k, r)
    ensures SweptSoFar(s, xs, k, r)
  {
  }

  /** The reference for a sweep over `xs`: the items exchanged with in order,
      each exchange starting from the state the one before it left. */
  function SweepOf(s: State, ev: Evaluator, xs: seq<ItemRef>): (r: Sweep)
    requires RefsValid(s.dev, xs)
    ensures ItemCounts(r.state.dev) == ItemCounts(s.dev)
    decreases |xs|
  {
    if |xs| == 0 then Sweep(s, [])
    else
      var n := |xs| - 1;
      var p := SweepOf(s, ev, xs[..n]);
      RefsStayValid(s.dev, p.state.dev, xs);
      StepFacts(p.state, ev, xs[n]);
      var q := Step(p.state, ev, xs[n]);
      Sweep(q.state, p.visits + q.visits)
  }

  /** The reference sweep does what a sweep does. */
  lemma {:induction false} SweepOfFacts(s: State, ev: Evaluator, xs: seq<ItemRef>)
    requires RefsValid(s.dev, xs)
    ensures SweptSoFar(s, xs, |xs|, SweepOf(s, ev, xs))
    decreases |xs|
  {
    if |xs| > 0 {
      var n := |xs| - 1;
      var p := SweepOf(s, ev, xs[..n]);
      SweepOfFacts(s, ev, xs[..n]);
      SweepOfLast(s, ev, xs);
      StepFacts(p.state, ev, xs[n]);
      SweptLast(s, xs, p, Step(p.state, ev, xs[n]), SweepOf(s, ev, xs));
    }
  }

  /** A sweep over all but the last item of `xs`, then one exchange with
      that item, is a sweep over `xs`. */
  lemma SweptLast(s: State, xs: seq<ItemRef>, p: Sweep, q: Sweep, w: Sweep)
    requires |xs| > 0 && SweptSoFar(s, xs[..|xs| - 1], |xs| - 1, p)
    requires Polled(p.state, xs[|xs| - 1], q) && w == Sweep(q.state, p.visits + q.visits)
    ensures SweptSoFar(s, xs, |xs|, w)
  {
    SweptPrefix(s, xs, |xs| - 1, p);
    SweepStep(s, xs, |xs| - 1, p, q);
  }

  /** The reference sweep over one more item is one more `Step`. */
  lemma SweepOfNext(s: State, ev: Evaluator, xs: seq<ItemRef>, k: nat, r: Sweep, step: Sweep)
    requires RefsValid(s.dev, xs) && k < |xs|
    requires r == SweepOf(s, ev, xs[..k])
    requires RefsValid(r.state.dev, xs) && step == Step(r.state, ev, xs[k])
    ensures Sweep(step.state, r.visits + step.visits) == SweepOf(s, ev, xs[..k + 1])
  {
    PrefixLast(xs, k);
    SweepOfLast(s, ev, xs[..k + 1]);
  }

  lemma PrefixLast(xs: seq<ItemRef>, k: nat)
    requires k < |xs|
    ensures xs[..k + 1][..k] == xs[..k] && xs[..k + 1][k] == xs[k]
  {
  }

  /** The reference sweep over `ys` is the one over all but its last item,
      then the exchange with that item. */
  lemma SweepOfLast(s: State, ev: Evaluator, ys: seq<ItemRef>)
    requires RefsValid(s.dev, ys) && |ys| > 0
    ensures var p := SweepOf(s, ev, ys[..|ys| - 1]);
            && RefsValid(p.state.dev, ys)
            && SweepOf(s, ev, ys) == Sweep(Step(p.state, ev, ys[|ys| - 1]).state,
                                           p.visits + Step(p.state, ev, ys[|ys| - 1]).visits)
  {
    var p := SweepOf(s, ev, ys[..|ys| - 1]);
    RefsStayValid(s.dev, p.state.dev, ys);
  }

  /** One iteration of the item loops: the exchange with `xs[k]` after the
      first `k`. */
  method SweepNext(s: State, ev: Evaluator, xs: seq<ItemRef>, k: nat, r: Sweep) returns (r': Sweep)
    requires RefsValid(s.dev, xs) && k < |xs|
    requires r == SweepOf(s, ev, xs[..k])
    ensures r' == SweepOf(s, ev, xs[..k + 1])
  {
    RefsStayValid(s.dev, r.state.dev, xs);
    var step := PollItem(r.state, ev, xs[k]);
    SweepOfNext(s, ev, xs, k, r, step);
    r' := Sweep(step.state, r.visits + step.visits);
  }

  /** The three `range` loops of one cycle, over the items `xs` in order. */
  method PollAll(s: State, ev: Evaluator, xs: seq<ItemRef>) returns (r: Sweep)
    requires RefsValid(s.dev, xs)
    ensures CachesOnly(s.dev, r.state.dev)
    ensures |r.visits| == |xs|
    ensures forall j :: 0 <= j < |xs| ==> r.visits[j].item == xs[j]
    ensures r.state.counter == CounterAfter(s.counter, Oks(r.visits))
    ensures Pauses(r.state.line.events) == Pauses(s.line.events) + Failures(Oks(r.visits))
    ensures SwitchesBinary(s.dev) ==> SwitchesBinary(r.state.dev)
    ensures s.dev.port == Closed ==>
              (forall j :: 0 <= j < |xs| ==> !r.visits[j].ok) && r.state.line.script == s.line.script
    ensures r == SweepOf(s, ev, xs)
  {
    r := Sweep(s, []);
    var k := 0;
    assert xs[..0] == [];
    while k < |xs|
      invariant k <= |xs| && r == SweepOf(s, ev, xs[..k])
    {
      r := SweepNext(s, ev, xs, k, r);
      k := k + 1;
    }
    assert xs[..k] == xs;
    SweepOfFacts(s, ev, xs);
  }

  // ---------------------------------------------------------------------------
  // The end of a cycle, a whole cycle and the endless loop

  /** The check after the three loops: a counter above `maxerrors` closes the
      port, sleeps `failtimeout`, reopens the port and resets the counter,
      whatever the reopening returned. */
  function Recover(s: State): (r: State)
    ensures s.counter <= MaxErrors ==> r == s
    ensures s.counter > MaxErrors ==>
              && r.counter == 0
              && r.dev == s.dev.(port := r.dev.port)
              && (r.dev.port == Open <==> |s.line.script| > 0 && s.line.script[0] == OpenOk)
              && r.line.events == s.line.events + [PortClosed, FaultPause, PortOpened(r.dev.port == Open)]
  {
    if s.counter > MaxErrors then
      var closed := ClosePort(s.line);
      var h := OpenPort(closed.port, closed.line.(events := closed.line.events + [FaultPause]));
      State(s.dev.(port := h.port), 0, h.line)
    else s
  }

  /** Every position of the cycle order names an item of the device. */
  lemma ScheduleValid(d: Device)
    ensures |Schedule(d)| == ItemCount(d)
    ensures forall j :: 0 <= j < |Schedule(d)| ==> ValidRef(d, Schedule(d)[j])
  {
  }

  /** The reference for one turn of the `for` loop: the sweep over the cycle
      order, then the check; the flag tells whether the check closed and
      reopened the port. */
  function Turn(s: State, ev: Evaluator): (Sweep, bool)
  {
    ScheduleValid(s.dev);
    var p := SweepOf(s, ev, Schedule(s.dev));
    (Sweep(Recover(p.state), p.visits), p.state.counter > MaxErrors)
  }

  /** A turn is the check after the reference sweep over the cycle order. */
  lemma TurnOf(s: State, ev: Evaluator, p: Sweep)
    requires RefsValid(s.dev, Schedule(s.dev)) && p == SweepOf(s, ev, Schedule(s.dev))
    ensures Turn(s, ev) == (Sweep(Recover(p.state), p.visits), p.state.counter > MaxErrors)
  {
  }

  /** What the check does after any sweep `p` over the cycle order. */
  lemma CheckFacts(s: State, p: Sweep, r: Sweep, reopened: bool)
    requires SweptSoFar(s, Schedule(s.dev), ItemCount(s.dev), p)
    requires r == Sweep(Recover(p.state), p.visits) && reopened == (p.state.counter > MaxErrors)
    ensures |r.visits| == ItemCount(s.dev)
    ensures forall j :: 0 <= j < |r.visits| ==> r.visits[j].item == Schedule(s.dev)[j]
    ensures reopened <==> CounterAfter(s.counter, Oks(r.visits)) > MaxErrors
    ensures !reopened ==> r.state.counter == CounterAfter(s.counter, Oks(r.visits)) && r.state.dev.port == s.dev.port
    ensures reopened ==> r.state.counter == 0 && LastEvents(r.state.line.events) == [PortClosed, FaultPause, PortOpened(r.state.dev.port == Open)]
    ensures s.counter >= 0 ==> 0 <= r.state.counter <= MaxErrors
    ensures CachesOnly(s.dev, r.state.dev.(port := s.dev.port))
    ensures SwitchesBinary(s.dev) ==> SwitchesBinary(r.state.dev)
    ensures s.dev.port == Closed ==>
              && (forall j :: 0 <= j < |r.visits| ==> !r.visits[j].ok)
              && (reopened <==> s.counter + ItemCount(s.dev) > MaxErrors)
              && (!reopened ==> r.state.line.script == s.line.script)
  {
    ScheduleValid(s.dev);
  }

  /** One turn of the `for` loop: the three item loops, then the check.
      `reopened` tells whether the port was closed and reopened. */
  method Cycle(s: State, ev: Evaluator) returns (r: Sweep, reopened: bool)
    ensures (r, reopened) == Turn(s, ev)
    ensures |r.visits| == ItemCount(s.dev)
    ensures forall j :: 0 <= j < |r.visits| ==> r.visits[j].item == Schedule(s.dev)[j]
    ensures reopened <==> CounterAfter(s.counter, Oks(r.visits)) > MaxErrors
    ensures !reopened ==> r.state.counter == CounterAfter(s.counter, Oks(r.visits)) && r.state.dev.port == s.dev.port
    ensures reopened ==> r.state.counter == 0 && LastEvents(r.state.line.events) == [PortClosed, FaultPause, PortOpened(r.state.dev.port == Open)]
    ensures s.counter >= 0 ==> 0 <= r.state.counter <= MaxErrors
    ensures CachesOnly(s.dev, r.state.dev.(port := s.dev.port))
    ensures SwitchesBinary(s.dev) ==> SwitchesBinary(r.state.dev)
    ensures s.dev.port == Closed ==>
              && (forall j :: 0 <= j < |r.visits| ==> !r.visits[j].ok)
              && (reopened <==> s.counter + ItemCount(s.dev) > MaxErrors)
              && (!reopened ==> r.state.line.script == s.line.script)
  {
    ScheduleValid(s.dev);
    var swept := PollAll(s, ev, Schedule(s.dev));
    reopened := swept.state.counter > MaxErrors;
    r := Sweep(Recover(swept.state), swept.visits);
    CheckFacts(s, swept, r, reopened);
    TurnOf(s, ev, swept);
  }

  /** The last three events of a log that has at least three. */
  function LastEvents(es: seq<Event>): seq<Event>
  {
    if |es| < 3 then es else es[|es| - 3..]
  }

  /** How many cycles pass, on a port that stays closed, until the check
      closes and reopens it, from counter `c` with `k` items per cycle. */
  function CyclesToReopen(c: int, k: nat): (n: nat)
    requires 0 <= c && k > 0
    ensures 1 <= n
    ensures c <= MaxErrors ==> n <= MaxErrors + 1 - c
    ensures c + k > MaxErrors <==> n == 1
    decreases MaxErrors + 1 - c
  {
    if c + k > MaxErrors then 1 else 1 + CyclesToReopen(c + k, k)
  }

  /** The reference for `n` turns of the `for` loop from `s`: the state they
      leave and how many of them closed and reopened the port. */
  function Cycles(s: State, ev: Evaluator, n: nat): (State, nat)
    decreases n
  {
    if n == 0 then (s, 0)
    else
      var before := Cycles(s, ev, n - 1);
      var t := Turn(before.0, ev);
      (t.0.state, before.1 + if t.1 then 1 else 0)
  }

  /** One more turn extends the reference run. */
  lemma CyclesNext(s: State, ev: Evaluator, t: nat, r: State, attempts: nat, step: Sweep, reopened: bool)
    requires (r, attempts) == Cycles(s, ev, t) && (step, reopened) == Turn(r, ev)
    ensures (step.state, if reopened then attempts + 1 else attempts) == Cycles(s, ev, t + 1)
  {
  }

  /** The endless `for` loop, cut off after `n` cycles: the counter stays
      within `0..maxerrors` between cycles, and a device whose port is closed
      is reopened within `CyclesToReopen` cycles. */
  method Supervise(s: State, ev: Evaluator, n: nat) returns (r: State, attempts: nat)
    requires 0 <= s.counter <= MaxErrors
    ensures 0 <= r.counter <= MaxErrors
    ensures CachesOnly(s.dev, r.dev.(port := s.dev.port))
    ensures SwitchesBinary(s.dev) ==> SwitchesBinary(r.dev)
    ensures attempts == 0 ==> r.dev.port == s.dev.port
    ensures s.dev.port == Closed && ItemCount(s.dev) > 0 && n >= CyclesToReopen(s.counter, ItemCount(s.dev)) ==>
              attempts > 0
    ensures (r, attempts) == Cycles(s, ev, n)
  {
    r := s;
    attempts := 0;
    var t := 0;
    while t < n
      invariant t <= n
      invariant SupervisedSoFar(s, t, r, attempts)
      invariant (r, attempts) == Cycles(s, ev, t)
    {
      r, attempts := SuperviseNext(s, ev, t, r, attempts);
      t := t + 1;
    }
  }

  /** What `t` cycles from `s` have done, `attempts` of them closing and
      reopening the port. */
  predicate SupervisedSoFar(s: State, t: nat, r: State, attempts: nat)
  {
    && 0 <= r.counter <= MaxErrors
    && CachesOnly(s.dev, r.dev.(port := s.dev.port))
    && (SwitchesBinary(s.dev) ==> SwitchesBinary(r.dev))
    && (attempts == 0 ==> r.dev.port == s.dev.port)
    && (attempts == 0 && s.dev.port == Closed && ItemCount(s.dev) > 0 && 0 <= s.counter ==>
          CyclesToReopen(r.counter, ItemCount(s.dev)) + t == CyclesToReopen(s.counter, ItemCount(s.dev)))
  }

  /** One turn of the `for` loop after `t` of them. */
  method SuperviseNext(s: State, ev: Evaluator, t: nat, r: State, attempts: nat) returns (r': State, attempts': nat)
    requires SupervisedSoFar(s, t, r, attempts) && (r, attempts) == Cycles(s, ev, t)
    ensures SupervisedSoFar(s, t + 1, r', attempts') && (r', attempts') == Cycles(s, ev, t + 1)
  {
    var step, reopened := Cycle(r, ev);
    SuperviseStep(s, t, r, attempts, step, reopened);
    CyclesNext(s, ev, t, r, attempts, step, reopened);
    r' := step.state;
    attempts' := if reopened then attempts + 1 else attempts;
  }

  /** One more cycle extends a supervision run. */
  lemma SuperviseStep(s: State, t: nat, r: State, attempts: nat, step: Sweep, reopened: bool)
    requires SupervisedSoFar(s, t, r, attempts)
    requires |step.visits| == ItemCount(r.dev)
    requires reopened <==> CounterAfter(r.counter, Oks(step.visits)) > MaxErrors
    requires !reopened ==> step.state.counter == CounterAfter(r.counter, Oks(step.visits)) && step.state.dev.port == r.dev.port
    requires r.counter >= 0 ==> 0 <= step.state.counter <= MaxErrors
    requires CachesOnly(r.dev, step.state.dev.(port := r.dev.port))
    requires SwitchesBinary(r.dev) ==> SwitchesBinary(step.state.dev)
    requires r.dev.port == Closed ==> forall j :: 0 <= j < |step.visits| ==> !step.visits[j].ok
    ensures SupervisedSoFar(s, t + 1, step.state, if reopened then attempts + 1 else attempts)
  {
    CachesOnlyPort(s.dev, r.dev, step.state.dev);
    if r.dev.port == Closed && !reopened {
      var oks := Oks(step.visits);
      assert forall j :: 0 <= j < |oks| ==> !oks[j];
    }
  }

  /** Cache-only changes compose when ports are ignored. */
  lemma CachesOnlyPort(a: Device, b: Device, c: Device)
    requires CachesOnly(a, b.(port := a.port))
    requires CachesOnly(b, c.(port := b.port))
    ensures CachesOnly(a, c.(port := a.port))
  {
  }
}
