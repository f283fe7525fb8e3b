// The compiler of lisp/ccl.el.

module CclCompile {
  import opened CclMachine
  import opened CclArithmetic
  import opened CclSource

  // ---- the compiler ----

  /** ccl-get-code. */
  function Code(op: Operator): nat {
    match op
    case Clear => CLEAR
    case Pop => POP
    case Dup => DUP
    case Exch => EXCH
    case Read => READ
    case Restart => RESTART
    case End => END
    case Unary(u) => UnCode(u)
    case Binary(b) => BinCode(b)
    case Load(r) => R0 + r
    case Store(r) => S0 + r
  }

  function Two(d: nat): seq<nat> { [d / 256, d % 256] }

  /** A jump over d bytes from its operand on, taken if the value on the stack is 0. */
  function Falling(d: nat): seq<nat> { if d < 256 then [SFJUMP, d, 0] else [FJUMP] + Two(d) }

  /** One that is always taken. */
  function Leap(d: nat): seq<nat> { if d < 256 then [SJUMP, d, 0] else [JUMP] + Two(d) }

  /** The number of instructions: higher numbers stand for themselves. */
  const OPERATORS: nat := 55

  function Number(n: nat): seq<nat> {
    if n < 256 then (if n > OPERATORS then [n] else [BYTE1, n]) else [BYTE2] + Two(n)
  }

  /** What ends a command that is the last one of the body. */
  function Ending(end: bool): seq<nat> { if end then [RESTART] else [] }

  /** ccl-compile-2. */
  function Compiled(c: Command, end: bool): seq<nat>
    decreases c
  {
    match c
    case Const(n) => Number(n) + Ending(end)
    case Text(s) => [WSTR, if |s| > 0 then |s| - 1 else 0] + s + Ending(end)
    case Do(op) => [Code(op)] + Ending(end)
    case If(yes, no) =>
      var t := Part(yes, end);
      if end then Falling(2 + |t|) + t + Part(no, end)
      else if no == [] then Falling(2 + |t|) + t
      else
        var e := Part(no, end);
        Falling(5 + |t|) + t + Leap(2 + |e|) + e
    case Branch(ways) => [TJUMP, if |ways| > 0 then |ways| - 1 else 0] + Table(ways, end, |ways|) + Bodies(ways, end)
  }

  /** ccl-compile-1. */
  function CompiledAll(cs: seq<Command>, end: bool): seq<nat>
    decreases cs, 0
  {
    if cs == [] then []
    else Compiled(cs[0], end && |cs| == 1) + CompiledAll(cs[1..], end)
  }

  /** A part that may be missing. */
  function Part(cs: seq<Command>, end: bool): seq<nat>
    decreases cs, 1
  {
    if cs == [] then Ending(end) else CompiledAll(cs, end)
  }

  /** The branches; all that are there but the last one are followed by a jump to the end. */
  function Bodies(bs: seq<Block>, end: bool): seq<nat>
    decreases bs, 0
  {
    if bs == [] then []
    else if bs[0].cs == [] then Bodies(bs[1..], end)
    else if AllNil(bs[1..]) then CompiledAll(bs[0].cs, end)
    else
      var rest := Bodies(bs[1..], end);
      CompiledAll(bs[0].cs, end) + (if end then [] else Leap(2 + |rest|)) + rest
  }

  /** The addresses of the first n branches, counted from the table.  For a branch that is missing it is the address of
      what follows, or of the last RESTART. */
  function Table(bs: seq<Block>, end: bool, n: nat): seq<nat>
    requires n <= |bs|
    decreases bs, 3, n
  {
    if n == 0 then [] else Table(bs, end, n - 1) + Two(Offset(bs, end, n - 1))
  }

  /** How far into the branches the k-th begins. */
  function Before(bs: seq<Block>, end: bool, k: nat): nat
    requires k < |bs|
    decreases bs, 1
  {
    var all, rest := |Bodies(bs, end)|, |Bodies(bs[k..], end)|;
    if rest <= all then all - rest else 0
  }

  function Offset(bs: seq<Block>, end: bool, k: nat): nat
    requires k < |bs|
    decreases bs, 2
  {
    var all := |Bodies(bs, end)|;
    2 * |bs| + (if bs[k].cs != [] then Before(bs, end, k) else if end && all > 0 then all - 1 else all)
  }

  // ---- whole programs ----

  /** The initial registers from the i-th on. */
  function RegisterBytes(regs: seq<nat>, i: nat): seq<nat>
    requires i <= REGCOUNT
    decreases REGCOUNT - i
  {
    if i == REGCOUNT then [] else Two(if i < |regs| then regs[i] else 0) + RegisterBytes(regs, i + 1)
  }

  function LoopCode(p: Source): seq<nat> { [RESTART] + Part(p.body, true) }

  function TailCode(p: Source): seq<nat> { CompiledAll(p.tail, false) + [END] }

  function TailStart(p: Source): nat { START + |LoopCode(p)| }

  /** ccl-compile. */
  function ProgramCode(p: Source): seq<nat> {
    Two(START) + Two(TailStart(p)) + RegisterBytes(p.regs, 0) + LoopCode(p) + TailCode(p)
  }

  /** None where the compiler reports an error. */
  function Compile(p: Source): Option<seq<nat>> {
    if SourceOk(p) && |ProgramCode(p)| < 0x1_0000 then Some(ProgramCode(p)) else None
  }
}
