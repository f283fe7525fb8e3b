// The machine runs compiled commands as their meaning says.

module CclSimulation {
  import opened CclMachine
  import opened CclArithmetic
  import opened CclSource
  import opened CclCompile

  /** The machine, the input it has left, and the output so far. */
  datatype Conf = Conf(m: Machine, src: seq<nat>, out: seq<nat>)

  /** k instructions, none of which waits or ends the program, lead from a to b.  The input is all there is. */
  ghost predicate Reach(prog: seq<nat>, a: Conf, b: Conf, k: nat)
    requires Program(prog)
    decreases k
  {
    && a.m.Ok()
    && if k == 0 then a == b
       else
         var r := Step(prog, a.m, a.src, true);
         r.Act? && r.kind == Goes && Reach(prog, Conf(r.m, a.src[r.used..], a.out + r.out), b, k - 1)
  }

  lemma {:induction false} ReachOn(prog: seq<nat>, a: Conf, b: Conf, c: Conf, k: nat, j: nat)
    requires Program(prog) && Reach(prog, a, b, k) && Reach(prog, b, c, j)
    ensures Reach(prog, a, c, k + j)
    decreases k
  {
    hide Step;
    if k > 0 {
      var r := Step(prog, a.m, a.src, true);
      ReachOn(prog, Conf(r.m, a.src[r.used..], a.out + r.out), b, c, k - 1, j);
    }
  }

  /** What a run gives from b on, it gives from a on. */
  lemma {:induction false} ReachExec(prog: seq<nat>, a: Conf, b: Conf, k: nat, j: nat)
    requires Program(prog) && Reach(prog, a, b, k)
    ensures b.m.Ok()
    ensures After(a.out, Exec(prog, a.m, a.src, true, NoLimit, k + j))
      == After(b.out, Exec(prog, b.m, b.src, true, NoLimit, j))
    decreases k
  {
    hide Step;
    if k > 0 {
      var r := Step(prog, a.m, a.src, true);
      ReachExec(prog, Conf(r.m, a.src[r.used..], a.out + r.out), b, k - 1, j);
      Unfold(prog, a.m, a.src, true, k + j);
      AfterAfter(a.out, r.out, Exec(prog, r.m, a.src[r.used..], true, NoLimit, k - 1 + j));
    }
  }

  // ---- states ----

  /** The machine stands at ip, in the state s. */
  ghost predicate Stands(c: Conf, s: State, ip: nat) {
    && c.m.Ok() && s.Ok() && c.m.ip == ip && c.m.sp == STACKHEAD + |s.stack|
    && c.m.stack[STACKHEAD..c.m.sp] == s.stack && c.m.regs == s.regs && c.src == s.inp && c.out == s.out
  }

  ghost predicate AtCode(prog: seq<nat>, ip: nat, code: seq<nat>) {
    ip + |code| <= |prog| && forall i :: 0 <= i < |code| ==> prog[ip + i] == code[i]
  }

  function StopCode(stop: Stop): nat { if stop.AtRestart? then RESTART else if stop.AtEnd? then END else READ }

  /** Where the machine is when commands have had this fate: behind their code, or, if they are the end of the body,
      at a RESTART. */
  ghost predicate Ends(prog: seq<nat>, b: Conf, f: Fate, end: bool, ip1: nat) {
    match f
    case Undefined => true
    case Normal(t) => if end then StopsAt(prog, b, AtRestart, t) else Stands(b, t, ip1)
    case Met(stop, t) => StopsAt(prog, b, stop, t)
  }

  /** Commands with this fate, run from a, end in b. */
  ghost predicate Done(prog: seq<nat>, a: Conf, b: Conf, k: nat, f: Fate, end: bool, ip1: nat)
    requires Program(prog)
  {
    Reach(prog, a, b, k) && Ends(prog, b, f, end, ip1)
  }

  ghost predicate StopsAt(prog: seq<nat>, b: Conf, stop: Stop, t: State) {
    b.m.ip < |prog| && prog[b.m.ip] == StopCode(stop) && Stands(b, t, b.m.ip)
  }

  // ---- single instructions ----

  /** The machine after r, which has put nothing out. */
  ghost predicate Steps(prog: seq<nat>, a: Conf, b: Conf)
    requires Program(prog)
  {
    && a.m.Ok() && |b.src| <= |a.src| && Step(prog, a.m, a.src, true) == Act(Goes, b.m, |a.src| - |b.src|, [])
    && b.src == a.src[|a.src| - |b.src|..] && b.out == a.out
  }

  lemma OneStep(prog: seq<nat>, a: Conf, b: Conf)
    requires Program(prog) && Steps(prog, a, b)
    ensures Reach(prog, a, b, 1)
  {
    hide Step;
    assert a.out + [] == a.out;
    var r := Step(prog, a.m, a.src, true);
    assert Conf(r.m, a.src[r.used..], a.out + r.out) == b;
    assert Reach(prog, b, b, 0);
  }

  /** An instruction that neither reads nor writes. */
  lemma SimpleStep(prog: seq<nat>, a: Conf, b: Conf)
    requires Program(prog) && a.m.Ok() && a.m.ip < |prog| && prog[a.m.ip] !in {RESTART, READ, WSTR, END}
    requires Simple(prog, a.m, prog[a.m.ip]) == Some(b.m) && b == a.(m := b.m)
    ensures Reach(prog, a, b, 1)
  {
    hide Simple;
    assert a.src[0..] == a.src;
    OneStep(prog, a, b);
  }

  lemma Pushes(m: Machine, v: int, s: State)
    requires m.Ok() && |s.stack| < DEPTH && m.sp == STACKHEAD + |s.stack| && m.stack[STACKHEAD..m.sp] == s.stack
    ensures Pushed(m, v).Some?
    ensures var m1 := Pushed(m, v).value;
      && m1.sp == STACKHEAD + |s.stack| + 1 && m1.stack[STACKHEAD..m1.sp] == s.stack + [v]
      && m1.regs == m.regs && m1.ip == m.ip
  {
  }

  lemma StackAt(m: Machine, s: State, n: nat)
    requires m.Ok() && m.sp == STACKHEAD + |s.stack| && m.stack[STACKHEAD..m.sp] == s.stack && n < |s.stack|
    ensures m.stack[m.sp - 1 - n] == Top(s, n)
  {
  }

  lemma Popped(m: Machine, s: State)
    requires m.Ok() && m.sp == STACKHEAD + |s.stack| && m.stack[STACKHEAD..m.sp] == s.stack && |s.stack| > 0
    ensures m.stack[STACKHEAD..m.sp - 1] == Below(s, 1)
  {
    assert m.stack[STACKHEAD..m.sp][..|s.stack| - 1] == m.stack[STACKHEAD..m.sp - 1];
  }

  lemma OperatorStep(prog: seq<nat>, op: Operator, a: Conf, s: State, ip: nat) returns (b: Conf)
    requires Program(prog) && Stands(a, s, ip) && ip < |prog| && prog[ip] == Code(op)
    requires Operate(op, s).Normal? && !op.Read?
    ensures Reach(prog, a, b, 1) && Stands(b, Operate(op, s).s, ip + 1)
  {
    var m1 := OperatorMachine(prog, op, a, s, ip);
    b := Conf(m1, a.src, a.out);
    OperateOk(op, s);
    SimpleStep(prog, a, b);
  }

  /** The machine after an operator. */
  lemma OperatorMachine(prog: seq<nat>, op: Operator, a: Conf, s: State, ip: nat) returns (m1: Machine)
    requires Program(prog) && Stands(a, s, ip) && ip < |prog| && prog[ip] == Code(op)
    requires Operate(op, s).Normal? && !op.Read?
    ensures Simple(prog, a.m, Code(op)) == Some(m1) && Code(op) !in {RESTART, READ, WSTR, END}
    ensures var t := Operate(op, s).s;
      && m1.Ok() && m1.ip == ip + 1 && m1.sp == STACKHEAD + |t.stack| && m1.stack[STACKHEAD..m1.sp] == t.stack
      && m1.regs == t.regs && t.inp == s.inp && t.out == s.out
  {
    m1 := a.m;
    if op.Unary? {
      m1 := UnaryMachine(prog, op.u, a, s, ip);
    } else if op.Binary? {
      m1 := BinaryMachine(prog, op.b, a, s, ip);
    } else {
      var n := |s.stack|;
      if n > 0 { StackAt(a.m, s, 0); }
      if n > 1 { StackAt(a.m, s, 1); }
      if op.Dup? { Pushes(a.m, Top(s, 0), s); }
      if op.Load? { Pushes(a.m, s.regs[op.r], s); }
      m1 := Simple(prog, a.m, Code(op)).value;
    }
  }

  lemma UnaryMachine(prog: seq<nat>, u: UnOp, a: Conf, s: State, ip: nat) returns (m1: Machine)
    requires Program(prog) && Stands(a, s, ip) && |s.stack| > 0
    ensures Simple(prog, a.m, UnCode(u)) == Some(m1) && m1.Ok() && m1.ip == ip + 1 && m1.sp == a.m.sp
    ensures m1.stack[STACKHEAD..m1.sp] == Below(s, 1) + [Value1(u, Top(s, 0))] && m1.regs == s.regs
  {
    StackAt(a.m, s, 0);
    Value1Is(u, Top(s, 0));
    hide Value1, CclMachine.Unary;
    m1 := Simple(prog, a.m, UnCode(u)).value;
  }

  lemma BinaryMachine(prog: seq<nat>, op: BinOp, a: Conf, s: State, ip: nat) returns (m1: Machine)
    requires Program(prog) && Stands(a, s, ip) && |s.stack| > 1 && Value(op, Top(s, 1), Top(s, 0)).Some?
    ensures Simple(prog, a.m, BinCode(op)) == Some(m1) && m1.Ok() && m1.ip == ip + 1 && m1.sp == a.m.sp - 1
    ensures m1.stack[STACKHEAD..m1.sp] == Below(s, 2) + [Value(op, Top(s, 1), Top(s, 0)).value] && m1.regs == s.regs
  {
    StackAt(a.m, s, 0);
    StackAt(a.m, s, 1);
    ValueIs(op, Top(s, 1), Top(s, 0));
    var v := Value(op, Top(s, 1), Top(s, 0)).value;
    Replaced(a.m.stack, a.m.sp, v, s);
    hide Value, CclMachine.Binary, Top, Below;
    var m := a.m;
    m1 := m.(ip := m.ip + 1, stack := m.stack[m.sp - 2 := v], sp := m.sp - 1);
    assert BinaryP(BinCode(op)) && !UnaryP(BinCode(op));
  }

  lemma Replaced(stack: seq<int>, sp: nat, v: int, s: State)
    requires |s.stack| > 1 && sp == STACKHEAD + |s.stack| <= |stack| && stack[STACKHEAD..sp] == s.stack
    ensures stack[sp - 2 := v][STACKHEAD..sp - 1] == Below(s, 2) + [v]
  {
  }

  lemma ReadStep(prog: seq<nat>, a: Conf, s: State, ip: nat) returns (b: Conf)
    requires Program(prog) && Stands(a, s, ip) && ip < |prog| && prog[ip] == READ
    requires Operate(Read, s).Normal?
    ensures Reach(prog, a, b, 1) && Stands(b, Operate(Read, s).s, ip + 1)
  {
    OperateOk(Read, s);
    Pushes(a.m, s.inp[0], s);
    b := Conf(Pushed(a.m.(ip := ip + 1), s.inp[0]).value, a.src[1..], a.out);
    hide Simple;
    OneStep(prog, a, b);
  }

  lemma NumberStep(prog: seq<nat>, n: nat, a: Conf, s: State, ip: nat) returns (b: Conf)
    requires Program(prog) && Stands(a, s, ip) && AtCode(prog, ip, Number(n)) && n < 0x1_0000 && |s.stack| < DEPTH
    ensures Reach(prog, a, b, 1) && Stands(b, s.(stack := s.stack + [n]), ip + |Number(n)|)
  {
    var code := Number(n);
    assert prog[ip] == code[0] && (|code| > 1 ==> prog[ip + 1] == code[1]) && (|code| > 2 ==> prog[ip + 2] == code[2]);
    Pushes(a.m, n, s);
    hide CclMachine.Unary, CclMachine.Binary;
    b := Conf(Simple(prog, a.m, prog[ip]).value, a.src, a.out);
    SimpleStep(prog, a, b);
  }

  lemma TextStep(prog: seq<nat>, t: seq<nat>, a: Conf, s: State, ip: nat) returns (b: Conf)
    requires Program(prog) && Stands(a, s, ip) && 0 < |t| && AtCode(prog, ip, [WSTR, |t| - 1] + t)
    ensures Reach(prog, a, b, 1) && Stands(b, s.(out := s.out + t), ip + 2 + |t|)
  {
    var code := [WSTR, |t| - 1] + t;
    assert prog[ip] == code[0] && prog[ip + 1] == code[1];
    forall j | 0 <= j < |t| ensures prog[ip + 2 + j] == t[j] { assert prog[ip + (2 + j)] == code[2 + j]; }
    assert prog[ip + 2..ip + 2 + |t|] == t;
    b := Conf(a.m.(ip := ip + 2 + |t|), a.src, a.out + t);
    hide Simple;
    var r := Step(prog, a.m, a.src, true);
    assert r == Act(Goes, b.m, 0, t);
    assert a.src[0..] == a.src;
    hide Step;
    assert Reach(prog, b, b, 0);
  }

  // ---- jumps ----

  lemma LeapStep(prog: seq<nat>, d: nat, a: Conf, s: State, ip: nat) returns (b: Conf)
    requires Program(prog) && Stands(a, s, ip) && AtCode(prog, ip, Leap(d))
    ensures Reach(prog, a, b, 1) && Stands(b, s, ip + 1 + d)
  {
    var code := Leap(d);
    assert prog[ip] == code[0] && prog[ip + 1] == code[1] && prog[ip + 2] == code[2];
    b := Conf(a.m.(ip := ip + 1 + d), a.src, a.out);
    SimpleStep(prog, a, b);
  }

  lemma FallingStep(prog: seq<nat>, d: nat, a: Conf, s: State, ip: nat) returns (b: Conf)
    requires Program(prog) && Stands(a, s, ip) && AtCode(prog, ip, Falling(d)) && |s.stack| > 0
    ensures Reach(prog, a, b, 1)
    ensures Stands(b, s.(stack := Below(s, 1)), if Top(s, 0) != 0 then ip + 3 else ip + 1 + d)
  {
    var code := Falling(d);
    assert prog[ip] == code[0] && prog[ip + 1] == code[1] && prog[ip + 2] == code[2];
    StackAt(a.m, s, 0);
    Popped(a.m, s);
    b := Conf(a.m.(ip := if Top(s, 0) != 0 then ip + 3 else ip + 1 + d, sp := a.m.sp - 1), a.src, a.out);
    SimpleStep(prog, a, b);
  }

  lemma BranchStep(prog: seq<nat>, n: nat, d: nat, a: Conf, s: State, ip: nat) returns (b: Conf)
    requires Program(prog) && Stands(a, s, ip) && |s.stack| > 0 && 0 < n && ip + 2 + 2 * n <= |prog|
    requires prog[ip] == TJUMP && prog[ip + 1] == n - 1 && Word(prog, ip + 2 + 2 * Chosen(Top(s, 0), n)) == d
    ensures Reach(prog, a, b, 1) && Stands(b, s.(stack := Below(s, 1)), ip + 2 + d)
  {
    StackAt(a.m, s, 0);
    Popped(a.m, s);
    b := Conf(a.m.(ip := ip + 2 + d, sp := a.m.sp - 1), a.src, a.out);
    SimpleStep(prog, a, b);
  }

  // ---- code in parts ----

  lemma AtParts(prog: seq<nat>, ip: nat, x: seq<nat>, y: seq<nat>)
    requires AtCode(prog, ip, x + y)
    ensures AtCode(prog, ip, x) && AtCode(prog, ip + |x|, y)
  {
    var z := x + y;
    forall i | 0 <= i < |x| ensures prog[ip + i] == x[i] { assert prog[ip + i] == z[i]; }
    forall i | 0 <= i < |y| ensures prog[ip + |x| + i] == y[i] { assert prog[ip + (|x| + i)] == z[|x| + i]; }
  }

  /** Behind a command that ends the body there is a RESTART. */
  lemma ThenRestart(prog: seq<nat>, b: Conf, t: State, end: bool, ip1: nat)
    requires Stands(b, t, ip1) && AtCode(prog, ip1, Ending(end))
    ensures Ends(prog, b, Normal(t), end, ip1 + |Ending(end)|)
  {
    if end { assert prog[ip1] == Ending(end)[0]; }
  }

  lemma NilBodies(bs: seq<Block>, end: bool)
    requires AllNil(bs)
    ensures Bodies(bs, end) == []
  {
    if bs != [] { NilBodies(bs[1..], end); }
  }

  /** What is put out for the branches from k on is the end of what is put out for all of them. */
  lemma {:induction false} BodiesFrom(bs: seq<Block>, end: bool, k: nat)
    requires k <= |bs|
    ensures var all, rest := Bodies(bs, end), Bodies(bs[k..], end);
      |rest| <= |all| && all[|all| - |rest|..] == rest
    decreases k
  {
    hide CompiledAll, Leap;
    var all := Bodies(bs, end);
    if k == 0 {
      assert bs[0..] == bs;
    } else {
      BodiesFrom(bs[1..], end, k - 1);
      assert bs[1..][k - 1..] == bs[k..];
      if AllNil(bs[1..]) { NilBodies(bs[1..], end); }
      var rest1 := Bodies(bs[1..], end);
      var rest := Bodies(bs[k..], end);
      assert |rest1| <= |all| && all[|all| - |rest1|..] == rest1;
      assert all[|all| - |rest|..] == all[|all| - |rest1|..][|rest1| - |rest|..];
    }
  }

  lemma {:induction false} TableIs(bs: seq<Block>, end: bool, n: nat, k: nat)
    requires k < n <= |bs|
    ensures |Table(bs, end, n)| == 2 * n
    ensures Table(bs, end, n)[2 * k] == Offset(bs, end, k) / 256
      && Table(bs, end, n)[2 * k + 1] == Offset(bs, end, k) % 256
    decreases n
  {
    hide Offset;
    if k < n - 1 {
      TableIs(bs, end, n - 1, k);
    } else if n > 1 {
      TableIs(bs, end, n - 1, 0);
    }
  }

  lemma {:induction false} LastOfCommand(c: Command)
    requires CommandOk(c)
    ensures var code := Compiled(c, true); |code| > 0 && code[|code| - 1] == RESTART
    decreases c
  {
    match c {
      case If(yes, no) => LastOfPart(no);
      case Branch(ways) => LastOfBodies(ways);
      case _ =>
    }
  }

  lemma {:induction false} LastOfAll(cs: seq<Command>)
    requires AllOk(cs) && cs != []
    ensures var code := CompiledAll(cs, true); |code| > 0 && code[|code| - 1] == RESTART
    decreases cs, 0
  {
    hide Compiled;
    if |cs| == 1 {
      LastOfCommand(cs[0]);
      assert CompiledAll(cs[1..], true) == [];
    } else {
      LastOfAll(cs[1..]);
    }
  }

  lemma {:induction false} LastOfPart(cs: seq<Command>)
    requires AllOk(cs)
    ensures var code := Part(cs, true); |code| > 0 && code[|code| - 1] == RESTART
    decreases cs, 1
  {
    if cs != [] { LastOfAll(cs); }
  }

  lemma {:induction false} LastOfBodies(bs: seq<Block>)
    requires !AllNil(bs) && forall i :: 0 <= i < |bs| ==> AllOk(bs[i].cs)
    ensures var code := Bodies(bs, true); |code| > 0 && code[|code| - 1] == RESTART
    decreases bs
  {
    hide CompiledAll, CommandOk, AllOk;
    if AllNil(bs[1..]) {
      assert bs[0].cs != [];
      LastOfAll(bs[0].cs);
    } else {
      assert forall i :: 0 <= i < |bs[1..]| ==> bs[1..][i] == bs[i + 1];
      LastOfBodies(bs[1..]);
    }
  }

  // ---- commands ----

  lemma {:induction false} Runs(prog: seq<nat>, c: Command, end: bool, a: Conf, s: State, ip: nat)
    returns (b: Conf, k: nat)
    requires Program(prog) && CommandOk(c) && s.Ok() && Stands(a, s, ip) && AtCode(prog, ip, Compiled(c, end))
    ensures Done(prog, a, b, k, Eval(c, s), end, ip + |Compiled(c, end)|)
    decreases c, 2
  {
    hide Done, Reach, Stands, AtCode, Number, State.Ok, Leap, Falling;
    if Eval(c, s).Undefined? {
      b, k := a, 0;
      Nothing(prog, a, s, ip, end, ip + |Compiled(c, end)|);
    } else if c.If? {
      hide Compiled;
      b, k := RunsIf(prog, c.yes, c.no, end, a, s, ip);
    } else if c.Branch? {
      hide Compiled;
      b, k := RunsBranch(prog, c.ways, end, a, s, ip);
    } else {
      b, k := RunsPlain(prog, c, end, a, s, ip);
    }
  }

  lemma Nothing(prog: seq<nat>, a: Conf, s: State, ip: nat, end: bool, ip1: nat)
    requires Program(prog) && Stands(a, s, ip)
    ensures Done(prog, a, a, 0, Undefined, end, ip1)
  {
  }

  /** A number, a string or an operator. */
  lemma RunsPlain(prog: seq<nat>, c: Command, end: bool, a: Conf, s: State, ip: nat) returns (b: Conf, k: nat)
    requires Program(prog) && CommandOk(c) && s.Ok() && Stands(a, s, ip) && AtCode(prog, ip, Compiled(c, end))
    requires !c.If? && !c.Branch? && !Eval(c, s).Undefined?
    ensures Done(prog, a, b, k, Eval(c, s), end, ip + |Compiled(c, end)|)
  {
    hide Done, Reach, Stands, AtCode, Number, State.Ok, Leap, Falling, Code;
    match c {
      case Const(n) => b, k := RunsNumber(prog, n, end, a, s, ip);
      case Text(t) => b, k := RunsText(prog, t, end, a, s, ip);
      case Do(op) => b, k := RunsOperator(prog, op, end, a, s, ip);
    }
  }

  lemma RunsNumber(prog: seq<nat>, n: nat, end: bool, a: Conf, s: State, ip: nat) returns (b: Conf, k: nat)
    requires Program(prog) && n < 0x1_0000 && |s.stack| < DEPTH && Stands(a, s, ip)
    requires AtCode(prog, ip, Number(n) + Ending(end))
    ensures Done(prog, a, b, k, Push(s, n), end, ip + |Number(n) + Ending(end)|)
  {
    hide Number, Reach, Stands, AtCode;
    AtParts(prog, ip, Number(n), Ending(end));
    b := NumberStep(prog, n, a, s, ip);
    k := 1;
    ThenRestart(prog, b, s.(stack := s.stack + [n]), end, ip + |Number(n)|);
  }

  lemma RunsText(prog: seq<nat>, t: seq<nat>, end: bool, a: Conf, s: State, ip: nat) returns (b: Conf, k: nat)
    requires Program(prog) && 0 < |t| && Stands(a, s, ip) && AtCode(prog, ip, [WSTR, |t| - 1] + t + Ending(end))
    ensures Done(prog, a, b, k, Normal(s.(out := s.out + t)), end, ip + |[WSTR, |t| - 1] + t + Ending(end)|)
  {
    hide Reach, Stands, AtCode;
    AtParts(prog, ip, [WSTR, |t| - 1] + t, Ending(end));
    b := TextStep(prog, t, a, s, ip);
    k := 1;
    ThenRestart(prog, b, s.(out := s.out + t), end, ip + 2 + |t|);
  }

  lemma RunsOperator(prog: seq<nat>, op: Operator, end: bool, a: Conf, s: State, ip: nat) returns (b: Conf, k: nat)
    requires Program(prog) && Stands(a, s, ip) && AtCode(prog, ip, [Code(op)] + Ending(end))
      && !Operate(op, s).Undefined?
    ensures Done(prog, a, b, k, Operate(op, s), end, ip + 1 + |Ending(end)|)
  {
    AtParts(prog, ip, [Code(op)], Ending(end));
    assert prog[ip] == [Code(op)][0];
    b, k := a, 0;
    var f := Operate(op, s);
    if f.Normal? {
      if op.Read? { b := ReadStep(prog, a, s, ip); } else { b := OperatorStep(prog, op, a, s, ip); }
      k := 1;
      ThenRestart(prog, b, f.s, end, ip + 1);
    }
  }

  lemma LeapLength(d: nat)
    ensures |Leap(d)| == |Falling(d)| == 3
  {
  }

  lemma IfCode(prog: seq<nat>, ip: nat, d: nat, t: seq<nat>, more: seq<nat>)
    requires AtCode(prog, ip, Falling(d) + (t + more))
    ensures AtCode(prog, ip, Falling(d)) && AtCode(prog, ip + 3, t) && AtCode(prog, ip + 3 + |t|, more)
  {
    LeapLength(d);
    hide Falling, AtCode;
    AtParts(prog, ip, Falling(d), t + more);
    AtParts(prog, ip + 3, t, more);
  }

  lemma ElseCode(prog: seq<nat>, ip: nat, d: nat, t: seq<nat>, l: nat, e: seq<nat>)
    requires AtCode(prog, ip, Falling(d) + t + Leap(l) + e)
    ensures AtCode(prog, ip, Falling(d)) && AtCode(prog, ip + 3, t)
    ensures AtCode(prog, ip + 3 + |t|, Leap(l)) && AtCode(prog, ip + 6 + |t|, e)
  {
    LeapLength(l);
    assert Falling(d) + t + Leap(l) + e == Falling(d) + (t + (Leap(l) + e));
    hide AtCode, Leap;
    IfCode(prog, ip, d, t, Leap(l) + e);
    AtParts(prog, ip + 3 + |t|, Leap(l), e);
  }

  lemma EvalIf(yes: seq<Command>, no: seq<Command>, s: State)
    requires s.Ok() && |s.stack| > 0
    ensures s.(stack := Below(s, 1)).Ok()
    ensures Eval(If(yes, no), s) == EvalAll(if Top(s, 0) != 0 then yes else no, s.(stack := Below(s, 1)))
  {
  }

  /** Having got to b1, the rest of the way. */
  lemma Then(prog: seq<nat>, a: Conf, b1: Conf, b: Conf, j: nat, k: nat, f: Fate, end: bool, ip1: nat)
    requires Program(prog) && Reach(prog, a, b1, j) && Done(prog, b1, b, k, f, end, ip1)
    ensures Done(prog, a, b, j + k, f, end, ip1)
  {
    hide Reach, Ends;
    ReachOn(prog, a, b1, b, j, k);
  }

  /** A jump behind commands that are not the end of the body. */
  lemma LeapAfter(prog: seq<nat>, d: nat, a: Conf, b: Conf, k: nat, f: Fate, ip1: nat) returns (b1: Conf, k1: nat)
    requires Program(prog) && Done(prog, a, b, k, f, false, ip1) && AtCode(prog, ip1, Leap(d))
    ensures Done(prog, a, b1, k1, f, false, ip1 + 1 + d)
  {
    b1, k1 := b, k;
    if f.Normal? {
      b1 := LeapStep(prog, d, b, f.s, ip1);
      hide Reach, Stands;
      ReachOn(prog, a, b, b1, k, 1);
      k1 := k + 1;
    }
  }

  lemma {:induction false} RunsIf(prog: seq<nat>, yes: seq<Command>, no: seq<Command>, end: bool, a: Conf, s: State,
                                  ip: nat)
    returns (b: Conf, k: nat)
    requires Program(prog) && CommandOk(If(yes, no)) && Stands(a, s, ip) && AtCode(prog, ip, Compiled(If(yes, no), end))
    requires |s.stack| > 0
    ensures Done(prog, a, b, k, Eval(If(yes, no), s), end, ip + |Compiled(If(yes, no), end)|)
    decreases If(yes, no), 1
  {
    hide *;
    StandsOk(a, s, ip);
    EvalIf(yes, no, s);
    PartsOk(yes, no);
    if !end && no != [] {
      b, k := RunsIfElse(prog, yes, no, a, s, ip);
    } else {
      CompiledIf(yes, no, end);
      b, k := RunsIfOnly(prog, yes, no, end, a, s, ip);
    }
  }

  lemma PartsOk(yes: seq<Command>, no: seq<Command>)
    requires CommandOk(If(yes, no))
    ensures AllOk(yes) && AllOk(no)
  {
  }

  lemma CompiledIf(yes: seq<Command>, no: seq<Command>, end: bool)
    requires end || no == []
    ensures var t, e := Part(yes, end), if end then Part(no, end) else [];
      Compiled(If(yes, no), end) == Falling(2 + |t|) + (t + e) && |Compiled(If(yes, no), end)| == 3 + |t| + |e|
  {
    var t, e := Part(yes, end), if end then Part(no, end) else [];
    LeapLength(2 + |t|);
    hide Falling, Part;
    assert Falling(2 + |t|) + t + e == Falling(2 + |t|) + (t + e);
    if !end { assert t + [] == t; }
  }

  /** There is an other part, with a jump around it. */
  lemma {:induction false} RunsIfElse(prog: seq<nat>, yes: seq<Command>, no: seq<Command>, a: Conf, s: State, ip: nat)
    returns (b: Conf, k: nat)
    requires Program(prog) && AllOk(yes) && AllOk(no) && Stands(a, s, ip) && s.Ok() && |s.stack| > 0 && no != []
    requires AtCode(prog, ip, Compiled(If(yes, no), false))
    ensures s.(stack := Below(s, 1)).Ok()
    ensures Done(prog, a, b, k, EvalAll(if Top(s, 0) != 0 then yes else no, s.(stack := Below(s, 1))), false,
                 ip + |Compiled(If(yes, no), false)|)
    decreases If(yes, no), 0
  {
    hide *;
    EvalIf(yes, no, s);
    var t, e := Part(yes, false), Part(no, false);
    var u := s.(stack := Below(s, 1));
    CompiledElse(yes, no);
    ElseCode(prog, ip, 5 + |t|, t, 2 + |e|, e);
    var b1 := FallingStep(prog, 5 + |t|, a, s, ip);
    if Top(s, 0) != 0 {
      b, k := RunsPart(prog, yes, false, b1, u, ip + 3);
      Then(prog, a, b1, b, 1, k, EvalAll(yes, u), false, ip + 3 + |t|);
      b, k := LeapAfter(prog, 2 + |e|, a, b, 1 + k, EvalAll(yes, u), ip + 3 + |t|);
    } else {
      b, k := RunsPart(prog, no, false, b1, u, ip + 6 + |t|);
      Then(prog, a, b1, b, 1, k, EvalAll(no, u), false, ip + 6 + |t| + |e|);
      k := 1 + k;
    }
  }

  lemma CompiledElse(yes: seq<Command>, no: seq<Command>)
    requires no != []
    ensures var t, e := Part(yes, false), Part(no, false);
      && Compiled(If(yes, no), false) == Falling(5 + |t|) + t + Leap(2 + |e|) + e
      && |Compiled(If(yes, no), false)| == 6 + |t| + |e|
  {
    LeapLength(5 + |Part(yes, false)|);
    LeapLength(2 + |Part(no, false)|);
    hide Falling, Leap, Part;
  }

  lemma {:induction false} RunsIfOnly(prog: seq<nat>, yes: seq<Command>, no: seq<Command>, end: bool, a: Conf, s: State,
                                      ip: nat)
    returns (b: Conf, k: nat)
    requires Program(prog) && AllOk(yes) && AllOk(no) && Stands(a, s, ip) && s.Ok() && |s.stack| > 0
      && (end || no == [])
    requires var t := Part(yes, end); AtCode(prog, ip, Falling(2 + |t|) + (t + if end then Part(no, end) else []))
    ensures s.(stack := Below(s, 1)).Ok()
    ensures var t := Part(yes, end);
      Done(prog, a, b, k, EvalAll(if Top(s, 0) != 0 then yes else no, s.(stack := Below(s, 1))), end,
           ip + 3 + |t| + |if end then Part(no, end) else []|)
    decreases If(yes, no), 0
  {
    hide *;
    if !end { NilPart(); }
    EvalIf(yes, no, s);
    var t := Part(yes, end);
    var e := if end then Part(no, end) else [];
    var u := s.(stack := Below(s, 1));
    IfCode(prog, ip, 2 + |t|, t, e);
    var b1 := FallingStep(prog, 2 + |t|, a, s, ip);
    if Top(s, 0) != 0 {
      b, k := RunsPart(prog, yes, end, b1, u, ip + 3);
      AnyEnd(prog, b1, b, k, EvalAll(yes, u), end, ip + 3 + |t|, ip + 3 + |t| + |e|);
      Then(prog, a, b1, b, 1, k, EvalAll(yes, u), end, ip + 3 + |t| + |e|);
    } else {
      b, k := RunsPart(prog, no, end, b1, u, ip + 3 + |t|);
      Then(prog, a, b1, b, 1, k, EvalAll(no, u), end, ip + 3 + |t| + |e|);
    }
    k := 1 + k;
  }

  lemma NilPart()
    ensures Part([], false) == []
  {
  }

  /** At the end of the body it does not matter where the code ends. */
  lemma AnyEnd(prog: seq<nat>, a: Conf, b: Conf, k: nat, f: Fate, end: bool, ip1: nat, ip2: nat)
    requires Program(prog) && Done(prog, a, b, k, f, end, ip1) && (!end ==> ip1 == ip2)
    ensures Done(prog, a, b, k, f, end, ip2)
  {
  }

  lemma {:induction false} RunsPart(prog: seq<nat>, cs: seq<Command>, end: bool, a: Conf, s: State, ip: nat)
    returns (b: Conf, k: nat)
    requires Program(prog) && AllOk(cs) && Stands(a, s, ip) && AtCode(prog, ip, Part(cs, end))
    ensures Done(prog, a, b, k, EvalAll(cs, s), end, ip + |Part(cs, end)|)
    decreases cs, 1
  {
    if cs == [] {
      b, k := a, 0;
      ThenRestart(prog, b, s, end, ip);
    } else {
      b, k := RunsAll(prog, cs, end, a, s, ip);
    }
  }

  lemma {:induction false} RunsAll(prog: seq<nat>, cs: seq<Command>, end: bool, a: Conf, s: State, ip: nat)
    returns (b: Conf, k: nat)
    requires Program(prog) && AllOk(cs) && Stands(a, s, ip) && AtCode(prog, ip, CompiledAll(cs, end))
      && (end ==> cs != [])
    ensures Done(prog, a, b, k, EvalAll(cs, s), end, ip + |CompiledAll(cs, end)|)
    decreases cs, 0
  {
    hide Compiled, Eval, Reach, Stands;
    if cs == [] {
      b, k := a, 0;
      ReachNothing(prog, a, s, ip);
    } else {
      var last := end && |cs| == 1;
      var x, y := Compiled(cs[0], last), CompiledAll(cs[1..], end);
      AtParts(prog, ip, x, y);
      StandsOk(a, s, ip);
      b, k := Runs(prog, cs[0], last, a, s, ip);
      var f := Eval(cs[0], s);
      if f.Normal? {
        if |cs| == 1 {
          assert y == [] && EvalAll(cs[1..], f.s) == Normal(f.s);
        } else {
          var b1, k1 := RunsAll(prog, cs[1..], end, b, f.s, ip + |x|);
          Then(prog, a, b, b1, k, k1, EvalAll(cs[1..], f.s), end, ip + |x| + |y|);
          b, k := b1, k + k1;
        }
      }
    }
  }

  lemma ReachNothing(prog: seq<nat>, a: Conf, s: State, ip: nat)
    requires Program(prog) && Stands(a, s, ip)
    ensures Reach(prog, a, a, 0)
  {
  }

  lemma StandsOk(a: Conf, s: State, ip: nat)
    requires Stands(a, s, ip)
    ensures s.Ok()
  {
  }

  lemma EvalBranch(ways: seq<Block>, s: State)
    requires s.Ok() && |s.stack| > 0 && |ways| > 0
    ensures s.(stack := Below(s, 1)).Ok()
    ensures Eval(Branch(ways), s) == EvalAll(ways[Chosen(Top(s, 0), |ways|)].cs, s.(stack := Below(s, 1)))
  {
  }

  lemma {:induction false} RunsBranch(prog: seq<nat>, ways: seq<Block>, end: bool, a: Conf, s: State, ip: nat)
    returns (b: Conf, k: nat)
    requires Program(prog) && CommandOk(Branch(ways)) && Stands(a, s, ip)
      && AtCode(prog, ip, Compiled(Branch(ways), end))
    requires |s.stack| > 0
    ensures Done(prog, a, b, k, Eval(Branch(ways), s), end, ip + |Compiled(Branch(ways), end)|)
    decreases Branch(ways), 1
  {
    hide *;
    StandsOk(a, s, ip);
    WaysOk(ways);
    EvalBranch(ways, s);
    var i := Chosen(Top(s, 0), |ways|);
    AtBranches(prog, ip, ways, end, i);
    var b1 := BranchStep(prog, |ways|, Offset(ways, end, i), a, s, ip);
    var u := s.(stack := Below(s, 1));
    OffsetIs(ways, end, i);
    if ways[i].cs == [] {
      b, k := b1, 1;
      NoWay(prog, ways, end, a, b, u, ip + 2 + 2 * |ways|, i);
    } else {
      var k1;
      b, k1 := RunsWay(prog, ways, i, end, b1, u, ip + 2 + 2 * |ways|);
      Then(prog, a, b1, b, 1, k1, EvalAll(ways[i].cs, u), end, ip + 2 + 2 * |ways| + |Bodies(ways, end)|);
      k := 1 + k1;
    }
  }

  lemma WaysOk(ways: seq<Block>)
    requires CommandOk(Branch(ways))
    ensures 0 < |ways| <= 256 && !AllNil(ways) && forall i :: 0 <= i < |ways| ==> AllOk(ways[i].cs)
  {
  }

  lemma OffsetIs(ways: seq<Block>, end: bool, i: nat)
    requires i < |ways|
    ensures ways[i].cs != [] ==> Offset(ways, end, i) == 2 * |ways| + Before(ways, end, i)
    ensures ways[i].cs == [] ==> var all := |Bodies(ways, end)|;
      Offset(ways, end, i) == 2 * |ways| + (if end && all > 0 then all - 1 else all)
  {
  }

  /** The branch that is chosen is missing. */
  lemma NoWay(prog: seq<nat>, ways: seq<Block>, end: bool, a: Conf, b: Conf, s: State, ip0: nat, i: nat)
    requires Program(prog) && s.Ok() && CommandOk(Branch(ways)) && AtCode(prog, ip0, Bodies(ways, end)) && i < |ways|
    requires var all := |Bodies(ways, end)|; Stands(b, s, ip0 + (if end && all > 0 then all - 1 else all))
    requires Reach(prog, a, b, 1) && ways[i].cs == []
    ensures Done(prog, a, b, 1, EvalAll(ways[i].cs, s), end, ip0 + |Bodies(ways, end)|)
  {
    if end { MissingBranch(prog, ip0, ways); }
    hide Reach, Stands, Bodies, CommandOk, AtCode;
  }

  lemma {:induction false} RunsWay(prog: seq<nat>, ways: seq<Block>, i: nat, end: bool, a: Conf, s: State, ip0: nat)
    returns (b: Conf, k: nat)
    requires Program(prog) && s.Ok() && i < |ways| && ways[i].cs != [] && AllOk(ways[i].cs)
    requires AtCode(prog, ip0, Bodies(ways, end)) && Stands(a, s, ip0 + Before(ways, end, i))
    ensures Done(prog, a, b, k, EvalAll(ways[i].cs, s), end, ip0 + |Bodies(ways, end)|)
    decreases Branch(ways), 0
  {
    hide *;
    BodyCode(prog, ip0, ways, i, end);
    b, k := RunsBody(prog, ways[i..], end, a, s, ip0 + Before(ways, end, i));
  }

  lemma MissingBranch(prog: seq<nat>, ip0: nat, ways: seq<Block>)
    requires CommandOk(Branch(ways)) && AtCode(prog, ip0, Bodies(ways, true))
    ensures |Bodies(ways, true)| > 0 && ip0 + |Bodies(ways, true)| <= |prog|
    ensures prog[ip0 + |Bodies(ways, true)| - 1] == RESTART
  {
    LastOfBodies(ways);
    var bodies := Bodies(ways, true);
    assert prog[ip0 + (|bodies| - 1)] == bodies[|bodies| - 1];
  }

  lemma AtBranches(prog: seq<nat>, ip: nat, ways: seq<Block>, end: bool, i: nat)
    requires Program(prog) && i < |ways| && AtCode(prog, ip, Compiled(Branch(ways), end))
    ensures var ip0 := ip + 2 + 2 * |ways|;
      && ip0 <= |prog| && prog[ip] == TJUMP && prog[ip + 1] == |ways| - 1
      && Word(prog, ip + 2 + 2 * i) == Offset(ways, end, i) && AtCode(prog, ip0, Bodies(ways, end))
      && |Compiled(Branch(ways), end)| == 2 + 2 * |ways| + |Bodies(ways, end)|
  {
    var head, table, bodies := [TJUMP, |ways| - 1], Table(ways, end, |ways|), Bodies(ways, end);
    TableIs(ways, end, |ways|, i);
    assert Compiled(Branch(ways), end) == head + table + bodies;
    hide Bodies, Table, Offset;
    AtParts(prog, ip, head + table, bodies);
    AtParts(prog, ip, head, table);
    assert prog[ip] == head[0] && prog[ip + 1] == head[1];
    assert prog[ip + 2 + 2 * i] == table[2 * i] && prog[ip + 2 + (2 * i + 1)] == table[2 * i + 1];
  }

  lemma BodyCode(prog: seq<nat>, ip0: nat, ways: seq<Block>, i: nat, end: bool)
    requires i < |ways| && AtCode(prog, ip0, Bodies(ways, end))
    ensures AtCode(prog, ip0 + Before(ways, end, i), Bodies(ways[i..], end))
    ensures Before(ways, end, i) + |Bodies(ways[i..], end)| == |Bodies(ways, end)|
  {
    hide *;
    BodiesFrom(ways, end, i);
    BeforeIs(ways, end, i);
    AtEnd(prog, ip0, Bodies(ways, end), Before(ways, end, i));
  }

  lemma BeforeIs(ways: seq<Block>, end: bool, i: nat)
    requires i < |ways|
    ensures var all, rest := |Bodies(ways, end)|, |Bodies(ways[i..], end)|;
      rest <= all ==> Before(ways, end, i) == all - rest
  {
    hide Bodies;
  }

  lemma AtEnd(prog: seq<nat>, ip: nat, code: seq<nat>, n: nat)
    requires AtCode(prog, ip, code) && n <= |code|
    ensures AtCode(prog, ip + n, code[n..])
  {
    forall i | 0 <= i < |code[n..]|
      ensures prog[ip + n + i] == code[n..][i]
    {
      assert prog[ip + (n + i)] == code[n + i];
    }
  }

  lemma FirstBody(bs: seq<Block>, end: bool)
    requires bs != [] && bs[0].cs != []
    ensures var code, rest := CompiledAll(bs[0].cs, end), Bodies(bs[1..], end);
      Bodies(bs, end) == if AllNil(bs[1..]) then code else code + ((if end then [] else Leap(2 + |rest|)) + rest)
  {
    hide CompiledAll, Leap;
    var code, rest := CompiledAll(bs[0].cs, end), Bodies(bs[1..], end);
    var leap := if end then [] else Leap(2 + |rest|);
    assert code + leap + rest == code + (leap + rest);
  }

  lemma BodyParts(prog: seq<nat>, ip: nat, code: seq<nat>, leap: seq<nat>, rest: seq<nat>)
    requires AtCode(prog, ip, code + (leap + rest))
    ensures AtCode(prog, ip, code) && AtCode(prog, ip + |code|, leap)
  {
    hide AtCode;
    AtParts(prog, ip, code, leap + rest);
    AtParts(prog, ip + |code|, leap, rest);
  }

  /** The first branch, if it is there. */
  lemma {:induction false} RunsBody(prog: seq<nat>, bs: seq<Block>, end: bool, a: Conf, s: State, ip: nat)
    returns (b: Conf, k: nat)
    requires Program(prog) && s.Ok() && bs != [] && bs[0].cs != [] && AllOk(bs[0].cs)
    requires AtCode(prog, ip, Bodies(bs, end)) && Stands(a, s, ip)
    ensures Done(prog, a, b, k, EvalAll(bs[0].cs, s), end, ip + |Bodies(bs, end)|)
    decreases bs, 0
  {
    hide *;
    FirstBody(bs, end);
    var code, rest := CompiledAll(bs[0].cs, end), Bodies(bs[1..], end);
    LeapLength(2 + |rest|);
    if !AllNil(bs[1..]) { BodyParts(prog, ip, code, if end then [] else Leap(2 + |rest|), rest); }
    b, k := RunsAll(prog, bs[0].cs, end, a, s, ip);
    if !AllNil(bs[1..]) {
      if end {
        AnyEnd(prog, a, b, k, EvalAll(bs[0].cs, s), end, ip + |code|, ip + |Bodies(bs, end)|);
      } else {
        b, k := LeapAfter(prog, 2 + |rest|, a, b, k, EvalAll(bs[0].cs, s), ip + |code|);
      }
    }
  }
}
