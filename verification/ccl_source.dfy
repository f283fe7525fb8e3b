// What a CCL source program (lisp/ccl.el) means, said without its code.

module CclSource {
  import opened Bytes
  import opened CclMachine
  import opened CclArithmetic

  datatype Operator =
    | Clear | Pop | Dup | Exch | Read | Restart | End
    | Unary(u: UnOp)
    | Binary(b: BinOp)
    | Load(r: nat)
    | Store(r: nat)

  /** A command; a list that is nil is empty. */
  datatype Command =
    | Const(n: nat)
    | Text(s: seq<nat>)
    | Do(op: Operator)
    | If(yes: seq<Command>, no: seq<Command>)
    | Branch(ways: seq<Block>)

  datatype Block = Block(cs: seq<Command>)

  /** Initial registers, what is done for every byte, and what is done at the end of input. */
  datatype Source = Source(regs: seq<nat>, body: seq<Command>, tail: seq<Command>)

  datatype State = State(stack: seq<int>, regs: seq<int>, inp: seq<nat>, out: seq<nat>)
  {
    predicate Ok() {
      && |stack| <= DEPTH && |regs| == REGCOUNT && AreBytes(inp)
      && (forall i :: 0 <= i < |stack| ==> Int32(stack[i])) && (forall i :: 0 <= i < |regs| ==> Int32(regs[i]))
    }
  }

  /** So many values fit on the stack. */
  const DEPTH: nat := STACK_SIZE - STACKHEAD

  /** A command that starts over, that ends the program, or that reads when there is no more input. */
  datatype Stop = AtRestart | AtEnd | AtRead

  datatype Fate = Normal(s: State) | Met(stop: Stop, s: State) | Undefined

  function Push(s: State, v: int): Fate {
    if |s.stack| < DEPTH then Normal(s.(stack := s.stack + [v])) else Undefined
  }

  /** The stack without its top n values. */
  function Below(s: State, n: nat): seq<int>
    requires n <= |s.stack|
  {
    s.stack[..|s.stack| - n]
  }

  /** The value that has n others above it. */
  function Top(s: State, n: nat): int
    requires n < |s.stack|
  {
    s.stack[|s.stack| - 1 - n]
  }

  ghost function Operate(op: Operator, s: State): Fate
    requires s.Ok()
  {
    var n := |s.stack|;
    match op
    case Clear => Normal(s.(stack := []))
    case Pop => if n > 0 then Normal(s.(stack := Below(s, 1))) else Undefined
    case Dup => if n > 0 then Push(s, Top(s, 0)) else Undefined
    case Exch => if n > 1 then Normal(s.(stack := Below(s, 2) + [Top(s, 0), Top(s, 1)])) else Undefined
    case Read => if s.inp == [] then Met(AtRead, s) else Push(s.(inp := s.inp[1..]), s.inp[0])
    case Restart => Met(AtRestart, s)
    case End => Met(AtEnd, s)
    case Unary(u) => if n > 0 then Normal(s.(stack := Below(s, 1) + [Value1(u, Top(s, 0))])) else Undefined
    case Binary(b) =>
      if n > 1 then
        var v := Value(b, Top(s, 1), Top(s, 0));
        if v.Some? then Normal(s.(stack := Below(s, 2) + [v.value])) else Undefined
      else Undefined
    case Load(r) => if r < REGCOUNT then Push(s, s.regs[r]) else Undefined
    case Store(r) =>
      if r < REGCOUNT && n > 0 then Normal(s.(stack := Below(s, 1), regs := s.regs[r := Top(s, 0)])) else Undefined
  }

  /** What every operation keeps. */
  ghost predicate Fine(f: Fate, s: State) {
    (!f.Undefined? ==> f.s.Ok() && |f.s.inp| <= |s.inp|) && (f.Met? && f.stop.AtRead? ==> f.s.inp == [])
  }

  lemma OperateOk(op: Operator, s: State)
    requires s.Ok()
    ensures Fine(Operate(op, s), s)
  {
    hide Value, Value1;
    if op.Unary? && |s.stack| > 0 { Value1Is(op.u, Top(s, 0)); }
    if op.Binary? && |s.stack| > 1 { ValueIs(op.b, Top(s, 1), Top(s, 0)); }
  }

  /** Which of n branches the value selects. */
  function Chosen(i: int, n: nat): (k: nat)
    requires n > 0
    ensures k < n
  {
    if 0 <= i < n then i else n - 1
  }

  ghost function Eval(c: Command, s: State): (f: Fate)
    requires s.Ok()
    ensures Fine(f, s)
    decreases c
  {
    match c
    case Const(n) => if n < 0x1_0000 then Push(s, n) else Undefined
    case Text(t) => Normal(s.(out := s.out + t))
    case Do(op) => OperateOk(op, s); Operate(op, s)
    case If(yes, no) =>
      if |s.stack| == 0 then Undefined
      else
        var t := s.(stack := Below(s, 1));
        if Top(s, 0) != 0 then EvalAll(yes, t) else EvalAll(no, t)
    case Branch(ways) =>
      if |s.stack| == 0 || |ways| == 0 then Undefined
      else EvalAll(ways[Chosen(Top(s, 0), |ways|)].cs, s.(stack := Below(s, 1)))
  }

  ghost function EvalAll(cs: seq<Command>, s: State): (f: Fate)
    requires s.Ok()
    ensures Fine(f, s)
    decreases cs
  {
    if cs == [] then Normal(s)
    else
      var f := Eval(cs[0], s);
      if f.Normal? then EvalAll(cs[1..], f.s) else f
  }

  /** The stack goes to the output, as bytes. */
  function Flush(s: State): State {
    s.(stack := [], out := s.out + seq(|s.stack|, i requires 0 <= i < |s.stack| => s.stack[i] % 256))
  }

  /** The end of input: what is done then, once. */
  ghost function Finish(p: Source, s: State): Option<seq<nat>>
    requires s.Ok()
  {
    var f := EvalAll(p.tail, s);
    if f.Normal? || (f.Met? && f.stop.AtEnd?) then Some(Flush(f.s).out) else None
  }

  /** The body, over and over: each time with the next byte on the stack. */
  ghost function Loop(p: Source, s0: State): Option<seq<nat>>
    requires s0.Ok()
    decreases |s0.inp|
  {
    var s := Flush(s0);
    if s.inp == [] then Finish(p, s)
    else
      var f := EvalAll(p.body, s.(stack := [s.inp[0]], inp := s.inp[1..]));
      if f.Undefined? then None
      else if f.Met? && f.stop.AtRead? then Finish(p, f.s)
      else if f.Met? && f.stop.AtEnd? then Some(Flush(f.s).out)
      else Loop(p, f.s)
  }

  /** All registers, those not given being 0. */
  function AllRegs(regs: seq<nat>): seq<int>
    requires |regs| <= REGCOUNT
  {
    seq(REGCOUNT, i requires 0 <= i < REGCOUNT => if i < |regs| then regs[i] else 0)
  }

  /** Numbers and registers have to fit the code. */
  predicate SourceOk(p: Source) {
    && |p.regs| <= REGCOUNT && (forall i :: 0 <= i < |p.regs| ==> p.regs[i] < 0x1_0000)
    && AllOk(p.body) && AllOk(p.tail)
  }

  predicate CommandOk(c: Command)
    decreases c
  {
    match c
    case Const(n) => n < 0x1_0000
    case Text(s) => 0 < |s| <= 256 && AreBytes(s)
    case Do(op) => (op.Load? ==> op.r < REGCOUNT) && (op.Store? ==> op.r < REGCOUNT)
    case If(yes, no) => AllOk(yes) && AllOk(no)
    case Branch(ways) => 0 < |ways| <= 256 && !AllNil(ways) && forall i :: 0 <= i < |ways| ==> AllOk(ways[i].cs)
  }

  predicate AllOk(cs: seq<Command>)
    decreases cs
  {
    forall i :: 0 <= i < |cs| ==> CommandOk(cs[i])
  }

  predicate AllNil(bs: seq<Block>) { forall i :: 0 <= i < |bs| ==> bs[i].cs == [] }

  /** What a program makes of its whole input.  None where an operation is undefined, the stack overflows, or the
      commands for the end of input read or start over. */
  ghost function Meaning(p: Source, inp: seq<nat>): Option<seq<nat>>
    requires SourceOk(p) && AreBytes(inp)
  {
    Loop(p, State([], AllRegs(p.regs), inp, []))
  }
}
