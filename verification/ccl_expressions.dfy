// Expressions in postfix order.

module CclExpressions {
  import opened CclMachine
  import opened CclArithmetic
  import opened CclSource
  import opened CclCompile
  import opened CclSimulation

  datatype Expr = Num(n: nat) | Reg(r: nat) | Un(u: UnOp, e: Expr) | Bin(b: BinOp, x: Expr, y: Expr)

  /** An expression in the order its operators are executed. */
  function Postfix(e: Expr): seq<Command> {
    match e
    case Num(n) => [Const(n)]
    case Reg(r) => [Do(Load(r))]
    case Un(u, x) => Postfix(x) + [Do(Unary(u))]
    case Bin(b, x, y) => Postfix(x) + Postfix(y) + [Do(Operator.Binary(b))]
  }

  /** How many values it needs at a time. */
  function Depth(e: Expr): nat {
    match e
    case Num(n) => 1
    case Reg(r) => 1
    case Un(u, x) => Depth(x)
    case Bin(b, x, y) => if Depth(x) > Depth(y) + 1 then Depth(x) else Depth(y) + 1
  }

  ghost function ExprValue(e: Expr, regs: seq<int>): (v: Option<int>)
    requires |regs| == REGCOUNT && forall i :: 0 <= i < |regs| ==> Int32(regs[i])
    ensures v.Some? ==> Int32(v.value)
  {
    match e
    case Num(n) => if n < 0x1_0000 then Some(n) else None
    case Reg(r) => if r < REGCOUNT then Some(regs[r]) else None
    case Un(u, x) =>
      var v := ExprValue(x, regs);
      if v.Some? then (Value1Is(u, v.value); Some(Value1(u, v.value))) else None
    case Bin(b, x, y) =>
      var v, w := ExprValue(x, regs), ExprValue(y, regs);
      if v.Some? && w.Some? then (ValueIs(b, v.value, w.value); Value(b, v.value, w.value)) else None
  }

  lemma {:induction false} EvalBoth(x: seq<Command>, y: seq<Command>, s: State)
    requires s.Ok()
    ensures EvalAll(x + y, s) == if EvalAll(x, s).Normal? then EvalAll(y, EvalAll(x, s).s) else EvalAll(x, s)
  {
    hide Eval;
    if x == [] {
      assert x + y == y;
    } else {
      assert (x + y)[1..] == x[1..] + y;
      if Eval(x[0], s).Normal? { EvalBoth(x[1..], y, Eval(x[0], s).s); }
    }
  }

  lemma EvalLast(x: seq<Command>, c: Command, s: State, t: State)
    requires s.Ok() && EvalAll(x, s) == Normal(t)
    ensures t.Ok() && EvalAll(x + [c], s) == Eval(c, t)
  {
    EvalBoth(x, [c], s);
    hide Eval;
    assert [c][1..] == [];
    var f := Eval(c, t);
    assert EvalAll([c], t) == if f.Normal? then EvalAll([c][1..], f.s) else f;
  }

  /** The commands of an expression leave its value on the stack and change nothing else. */
  lemma {:induction false} LeavesValue(e: Expr, s: State)
    requires s.Ok() && |s.stack| + Depth(e) <= DEPTH && ExprValue(e, s.regs).Some?
    ensures EvalAll(Postfix(e), s) == Normal(s.(stack := s.stack + [ExprValue(e, s.regs).value]))
    decreases e, 1
  {
    match e {
      case Num(n) => EvalLast([], Const(n), s, s);
      case Reg(r) => EvalLast([], Do(Load(r)), s, s);
      case Un(u, x) =>
        LeavesValue(x, s);
        var t := s.(stack := s.stack + [ExprValue(x, s.regs).value]);
        hide EvalAll, ExprValue;
        EvalLast(Postfix(x), Do(Unary(u)), s, t);
        assert Below(t, 1) == s.stack;
      case Bin(b, x, y) => LeavesBinary(b, x, y, s);
    }
  }

  lemma {:induction false} LeavesBinary(b: BinOp, x: Expr, y: Expr, s: State)
    requires s.Ok() && |s.stack| + Depth(Bin(b, x, y)) <= DEPTH && ExprValue(Bin(b, x, y), s.regs).Some?
    ensures EvalAll(Postfix(Bin(b, x, y)), s) == Normal(s.(stack := s.stack + [ExprValue(Bin(b, x, y), s.regs).value]))
    decreases Bin(b, x, y), 0
  {
    LeavesValue(x, s);
    var v, w := ExprValue(x, s.regs).value, ExprValue(y, s.regs).value;
    var t := s.(stack := s.stack + [v]);
    LeavesValue(y, t);
    var u := t.(stack := t.stack + [w]);
    assert ExprValue(Bin(b, x, y), s.regs) == Value(b, v, w);
    BinaryEval(b, u, s.stack);
    hide EvalAll, Eval, ExprValue, Value, Below, Top;
    EvalBoth(Postfix(x), Postfix(y), s);
    EvalLast(Postfix(x) + Postfix(y), Do(Operator.Binary(b)), s, u);
  }

  lemma BinaryEval(b: BinOp, u: State, rest: seq<int>)
    requires u.Ok() && |u.stack| == |rest| + 2 && u.stack[..|rest|] == rest
    ensures var v := Value(b, u.stack[|rest|], u.stack[|rest| + 1]);
      v.Some? ==> Eval(Do(Operator.Binary(b)), u) == Normal(u.(stack := rest + [v.value]))
  {
    hide Value;
  }

  lemma {:induction false} ExprOk(e: Expr, regs: seq<int>)
    requires |regs| == REGCOUNT && (forall i :: 0 <= i < |regs| ==> Int32(regs[i])) && ExprValue(e, regs).Some?
    ensures AllOk(Postfix(e))
  {
    match e {
      case Num(n) =>
      case Reg(r) =>
      case Un(u, x) => ExprOk(x, regs);
      case Bin(b, x, y) =>
        ExprOk(x, regs);
        ExprOk(y, regs);
    }
  }

  /** So does their code: the machine comes to its end with the value on top of the stack, and nothing else is
      different. */
  lemma ExprRuns(prog: seq<nat>, e: Expr, a: Conf, s: State, ip: nat) returns (b: Conf, k: nat)
    requires Program(prog) && s.Ok() && Stands(a, s, ip) && AtCode(prog, ip, CompiledAll(Postfix(e), false))
    requires |s.stack| + Depth(e) <= DEPTH && ExprValue(e, s.regs).Some?
    ensures Reach(prog, a, b, k)
    ensures Stands(b, s.(stack := s.stack + [ExprValue(e, s.regs).value]), ip + |CompiledAll(Postfix(e), false)|)
  {
    LeavesValue(e, s);
    ExprOk(e, s.regs);
    b, k := RunsAll(prog, Postfix(e), false, a, s, ip);
    hide Reach, Stands, EvalAll, ExprValue;
  }
}
