// Compiled programs convert as the source says, however the input is cut into pieces.

module CclCorrect {
  import opened Bytes
  import opened CclMachine
  import opened CclSource
  import opened CclCompile
  import opened CclSimulation
  import opened CclPieces
  import opened Ccl

  // ---- the code is a program ----

  lemma BothBytes(x: seq<nat>, y: seq<nat>)
    ensures AreBytes(x + y) <==> AreBytes(x) && AreBytes(y)
  {
    if AreBytes(x + y) {
      forall i | 0 <= i < |x| ensures x[i] < 256 { assert (x + y)[i] == x[i]; }
      forall i | 0 <= i < |y| ensures y[i] < 256 { assert (x + y)[|x| + i] == y[i]; }
    }
  }

  lemma OperatorByte(op: Operator)
    requires CommandOk(Do(op))
    ensures Code(op) < 256
  {
  }

  lemma {:induction false} CommandBytes(c: Command, end: bool)
    requires CommandOk(c) && |Compiled(c, end)| < 0x1_0000
    ensures AreBytes(Compiled(c, end))
    decreases c, 1
  {
    match c {
      case Const(n) =>
      case Text(s) => BothBytes([WSTR, |s| - 1] + s, Ending(end));
      case Do(op) => OperatorByte(op);
      case If(yes, no) => IfBytes(yes, no, end);
      case Branch(ways) => BranchBytes(ways, end);
    }
  }

  lemma {:induction false} IfBytes(yes: seq<Command>, no: seq<Command>, end: bool)
    requires CommandOk(If(yes, no)) && |Compiled(If(yes, no), end)| < 0x1_0000
    ensures AreBytes(Compiled(If(yes, no), end))
    decreases If(yes, no), 0
  {
    var t, e := Part(yes, end), Part(no, end);
    PartsOk(yes, no);
    if end || no == [] {
      CompiledIf(yes, no, end);
      hide *;
      PartBytes(yes, end);
      if end { PartBytes(no, end); }
      var more := if end then e else [];
      BothBytes(t, more);
      JumpBytes(2 + |t|);
      BothBytes(Falling(2 + |t|), t + more);
    } else {
      CompiledElse(yes, no);
      hide *;
      PartBytes(yes, end);
      PartBytes(no, end);
      JumpBytes(5 + |t|);
      JumpBytes(2 + |e|);
      BothBytes(Falling(5 + |t|), t);
      BothBytes(Falling(5 + |t|) + t, Leap(2 + |e|));
      BothBytes(Falling(5 + |t|) + t + Leap(2 + |e|), e);
    }
  }

  lemma JumpBytes(d: nat)
    requires d < 0x1_0000
    ensures AreBytes(Falling(d)) && AreBytes(Leap(d))
  {
  }

  lemma {:induction false} PartBytes(cs: seq<Command>, end: bool)
    requires AllOk(cs) && |Part(cs, end)| < 0x1_0000
    ensures AreBytes(Part(cs, end))
    decreases cs, 1
  {
    if cs != [] { AllBytes(cs, end); }
  }

  lemma {:induction false} AllBytes(cs: seq<Command>, end: bool)
    requires AllOk(cs) && |CompiledAll(cs, end)| < 0x1_0000
    ensures AreBytes(CompiledAll(cs, end))
    decreases cs, 0
  {
    hide Compiled;
    if cs != [] {
      CommandBytes(cs[0], end && |cs| == 1);
      AllBytes(cs[1..], end);
    }
  }

  lemma {:induction false} BranchBytes(ways: seq<Block>, end: bool)
    requires CommandOk(Branch(ways)) && |Compiled(Branch(ways), end)| < 0x1_0000
    ensures AreBytes(Compiled(Branch(ways), end))
    decreases Branch(ways), 0
  {
    WaysOk(ways);
    TableIs(ways, end, |ways|, 0);
    var head, table, bodies := [TJUMP, |ways| - 1], Table(ways, end, |ways|), Bodies(ways, end);
    assert Compiled(Branch(ways), end) == head + table + bodies;
    hide Table, Bodies, Compiled, CommandOk, AllOk, AllNil;
    TableBytes(ways, end, |ways|);
    BodiesBytes(ways, end);
    BothBytes(head, table);
    BothBytes(head + table, bodies);
  }

  lemma {:induction false} TableBytes(ways: seq<Block>, end: bool, n: nat)
    requires n <= |ways| && 2 * |ways| + |Bodies(ways, end)| < 0x1_0000
    ensures AreBytes(Table(ways, end, n))
  {
    if n > 0 {
      TableBytes(ways, end, n - 1);
      OffsetBound(ways, end, n - 1);
      hide Offset;
    }
  }

  lemma OffsetBound(ways: seq<Block>, end: bool, k: nat)
    requires k < |ways|
    ensures Offset(ways, end, k) <= 2 * |ways| + |Bodies(ways, end)|
  {
    hide Bodies;
  }

  lemma {:induction false} BodiesBytes(bs: seq<Block>, end: bool)
    requires |Bodies(bs, end)| < 0x1_0000 && forall i :: 0 <= i < |bs| ==> AllOk(bs[i].cs)
    ensures AreBytes(Bodies(bs, end))
    decreases bs, 0
  {
    hide CompiledAll, AllOk;
    if bs != [] {
      var rest := Bodies(bs[1..], end);
      LeapLength(2 + |rest|);
      assert forall i :: 0 <= i < |bs[1..]| ==> bs[1..][i] == bs[i + 1];
      if bs[0].cs == [] {
        BodiesBytes(bs[1..], end);
      } else {
        FirstBody(bs, end);
        AllBytes(bs[0].cs, end);
        if !AllNil(bs[1..]) {
          BodiesBytes(bs[1..], end);
          BothBytes(if end then [] else Leap(2 + |rest|), rest);
          BothBytes(CompiledAll(bs[0].cs, end), (if end then [] else Leap(2 + |rest|)) + rest);
        }
      }
    }
  }

  lemma {:induction false} Registers(regs: seq<nat>, i: nat, k: nat)
    requires i <= REGCOUNT && |regs| <= REGCOUNT && forall j :: 0 <= j < |regs| ==> regs[j] < 0x1_0000
    ensures |RegisterBytes(regs, i)| == 2 * (REGCOUNT - i) && AreBytes(RegisterBytes(regs, i))
    ensures i <= k < REGCOUNT ==> Word(RegisterBytes(regs, i), 2 * (k - i)) == AllRegs(regs)[k]
    decreases REGCOUNT - i
  {
    if i < REGCOUNT {
      Registers(regs, i + 1, k);
      var rest := RegisterBytes(regs, i + 1);
      if i < k < REGCOUNT { assert RegisterBytes(regs, i)[2 * (k - i)] == rest[2 * (k - i - 1)]; }
    }
  }

  lemma WholeAt(prog: seq<nat>)
    ensures AtCode(prog, 0, prog)
  {
  }

  lemma Layout(prog: seq<nat>, a: seq<nat>, b: seq<nat>, c: seq<nat>, d: seq<nat>, e: seq<nat>)
    requires prog == a + b + c + d + e
    ensures AtCode(prog, 0, a) && AtCode(prog, |a|, b) && AtCode(prog, |a| + |b|, c)
    ensures AtCode(prog, |a| + |b| + |c|, d) && AtCode(prog, |a| + |b| + |c| + |d|, e)
  {
    hide *;
    WholeAt(prog);
    AtParts(prog, 0, a + b + c + d, e);
    AtParts(prog, 0, a + b + c, d);
    AtParts(prog, 0, a + b, c);
    AtParts(prog, 0, a, b);
  }

  /** Where everything is in the code of a program. */
  lemma ProgramLayout(p: Source)
    requires Compile(p).Some?
    ensures var prog := ProgramCode(p);
      && Program(prog) && prog[START] == RESTART && EofStart(prog) == TailStart(p)
      && FirstRegisters(prog) == AllRegs(p.regs)
      && AtCode(prog, START + 1, Part(p.body, true)) && AtCode(prog, TailStart(p), TailCode(p))
  {
    var prog, regs := ProgramCode(p), RegisterBytes(p.regs, 0);
    Registers(p.regs, 0, 0);
    Layout(prog, Two(START), Two(TailStart(p)), regs, LoopCode(p), TailCode(p));
    ProgramBytes(p);
    assert SourceOk(p) && LoopCode(p) == [RESTART] + Part(p.body, true) && TailStart(p) == START + |LoopCode(p)|;
    hide ProgramCode, RegisterBytes, TailCode, Part, AtCode, TailStart, LoopCode, FirstRegisters, AllRegs, Compile;
    AtParts(prog, START, [RESTART], Part(p.body, true));
    FirstAt(prog, START, RESTART);
    EofIs(prog, TailStart(p));
    RegistersAt(prog, p.regs);
  }

  lemma FirstAt(prog: seq<nat>, ip: nat, c: nat)
    requires AtCode(prog, ip, [c])
    ensures ip < |prog| && prog[ip] == c
  {
    assert prog[ip + 0] == [c][0];
  }

  lemma RegistersAt(prog: seq<nat>, regs: seq<nat>)
    requires Program(prog) && |regs| <= REGCOUNT && AtCode(prog, 4, RegisterBytes(regs, 0))
    requires forall j :: 0 <= j < |regs| ==> regs[j] < 0x1_0000
    ensures FirstRegisters(prog) == AllRegs(regs)
  {
    hide RegisterBytes, AtCode, Word, Program;
    forall k | 0 <= k < REGCOUNT ensures FirstRegisters(prog)[k] == AllRegs(regs)[k] {
      Registers(regs, 0, k);
      WordAt(prog, RegisterBytes(regs, 0), k);
      assert 2 * (k - 0) == 2 * k;
    }
  }

  lemma WordAt(prog: seq<nat>, code: seq<nat>, k: nat)
    requires AtCode(prog, 4, code) && 2 * k + 1 < |code|
    ensures k * 2 + 5 < |prog| && Word(prog, k * 2 + 4) == Word(code, 2 * k)
  {
    assert prog[4 + (2 * k)] == code[2 * k] && prog[4 + (2 * k + 1)] == code[2 * k + 1];
  }

  lemma EofIs(prog: seq<nat>, d: nat)
    requires Program(prog) && AtCode(prog, 2, Two(d))
    ensures EofStart(prog) == d
  {
    assert prog[2 + 0] == Two(d)[0] && prog[2 + 1] == Two(d)[1];
  }

  lemma ProgramBytes(p: Source)
    requires Compile(p).Some?
    ensures AreBytes(ProgramCode(p)) && Program(ProgramCode(p))
  {
    Registers(p.regs, 0, 0);
    PartBytes(p.body, true);
    AllBytes(p.tail, false);
    hide RegisterBytes, Part, CompiledAll;
    var a, b, c := Two(START), Two(TailStart(p)), RegisterBytes(p.regs, 0);
    BothBytes([RESTART], Part(p.body, true));
    BothBytes(CompiledAll(p.tail, false), [END]);
    BothBytes(a, b);
    BothBytes(a + b, c);
    BothBytes(a + b + c, LoopCode(p));
    BothBytes(a + b + c + LoopCode(p), TailCode(p));
  }

  // ---- starting over, and the end of input ----

  lemma FlushedIs(c: Conf, s: State)
    requires Stands(c, s, c.m.ip)
    ensures c.out + Flushed(c.m) == Flush(s).out && Emptied(c.m).sp == STACKHEAD && Flush(s).Ok()
  {
    forall i | 0 <= i < |s.stack| ensures c.m.stack[STACKHEAD + i] == s.stack[i] {
      assert c.m.stack[STACKHEAD..c.m.sp][i] == s.stack[i];
    }
    if c.m.sp > STACKHEAD {
      assert Flushed(c.m) == seq(|s.stack|, i requires 0 <= i < |s.stack| => s.stack[i] % 256);
    } else {
      assert seq(|s.stack|, i requires 0 <= i < |s.stack| => s.stack[i] % 256) == [];
    }
  }

  /** A RESTART with input left. */
  lemma NextByte(prog: seq<nat>, a: Conf, s: State) returns (b: Conf)
    requires Program(prog) && StopsAt(prog, a, AtRestart, s) && s.inp != []
    ensures Reach(prog, a, b, 1) && Stands(b, Flush(s).(stack := [s.inp[0]], inp := s.inp[1..]), START + 1)
  {
    FlushedIs(a, s);
    hide Flushed, Simple, Flush;
    FlushKeeps(s);
    var m1 := Emptied(a.m).(ip := START + 1);
    Pushes(m1, s.inp[0], s.(stack := []));
    b := Conf(Pushed(m1, s.inp[0]).value, a.src[1..], a.out + Flushed(a.m));
    assert Step(prog, a.m, a.src, true) == Act(Goes, b.m, 1, Flushed(a.m));
    assert Reach(prog, b, b, 0);
    hide Step;
    assert Reach(prog, a, b, 1);
    assert AreBytes(s.inp[1..]);
  }

  lemma FlushKeeps(s: State)
    ensures Flush(s).stack == [] && Flush(s).regs == s.regs && Flush(s).inp == s.inp
  {
  }

  /** A RESTART without input, or a READ. */
  lemma ToTail(prog: seq<nat>, a: Conf, stop: Stop, s: State) returns (b: Conf)
    requires Program(prog) && StopsAt(prog, a, stop, s) && s.inp == [] && !stop.AtEnd?
    ensures Reach(prog, a, b, 1) && Stands(b, if stop.AtRestart? then Flush(s) else s, EofStart(prog))
  {
    FlushedIs(a, s);
    hide Flushed, Simple, Flush;
    FlushKeeps(s);
    var r := Step(prog, a.m, a.src, true);
    b := Conf(r.m, a.src, a.out + r.out);
    assert a.src[0..] == a.src && a.out + [] == a.out;
    assert Reach(prog, b, b, 0);
    hide Step;
    assert Reach(prog, a, b, 1);
  }

  /** At END the call is over. */
  lemma AtTheEnd(prog: seq<nat>, a: Conf, s: State)
    requires Program(prog) && StopsAt(prog, a, AtEnd, s)
    ensures EndsWith(prog, a, 1, Flush(s).out)
  {
    FlushedIs(a, s);
    hide Flushed, Simple, Flush;
    assert Exec(prog, a.m, a.src, true, NoLimit, 1) == Ended(Emptied(a.m).(ip := a.m.ip + 1), Flushed(a.m));
  }

  /** Within k instructions the call ends, and this is all that has been put out then. */
  ghost predicate EndsWith(prog: seq<nat>, a: Conf, k: nat, out: seq<nat>)
    requires Program(prog)
  {
    a.m.Ok() && var r := After(a.out, Exec(prog, a.m, a.src, true, NoLimit, k)); r.Ended? && r.out == out
  }

  lemma EndsLater(prog: seq<nat>, a: Conf, b: Conf, j: nat, k: nat, out: seq<nat>)
    requires Program(prog) && Reach(prog, a, b, j) && EndsWith(prog, b, k, out)
    ensures EndsWith(prog, a, j + k, out)
  {
    ReachExec(prog, a, b, j, k);
    hide Exec, Step;
  }

  lemma FinishFate(p: Source, s: State)
    requires s.Ok() && Finish(p, s).Some?
    ensures var f := EvalAll(p.tail, s);
      (f.Normal? || (f.Met? && f.stop.AtEnd?)) && f.s.Ok() && Finish(p, s) == Some(Flush(f.s).out)
  {
  }

  lemma EndedAt(prog: seq<nat>, a: Conf, b: Conf, k: nat, f: Fate, ip1: nat)
    requires Program(prog) && Done(prog, a, b, k, f, false, ip1) && AtCode(prog, ip1, [END])
    requires f.Normal? || (f.Met? && f.stop.AtEnd?)
    ensures Reach(prog, a, b, k) && StopsAt(prog, b, AtEnd, f.s)
  {
    assert prog[ip1 + 0] == [END][0];
    hide Reach;
  }

  /** At the end of input. */
  lemma FinishRuns(p: Source, a: Conf, s: State) returns (k: nat)
    requires Compile(p).Some? && Program(ProgramCode(p)) && Stands(a, s, TailStart(p)) && s.Ok() && Finish(p, s).Some?
    ensures EndsWith(ProgramCode(p), a, k, Finish(p, s).value)
  {
    hide *;
    var prog, ip1 := ProgramCode(p), TailStart(p) + |CompiledAll(p.tail, false)|;
    TailLayout(p);
    FinishFate(p, s);
    var b, j := RunsAll(prog, p.tail, false, a, s, TailStart(p));
    var f := EvalAll(p.tail, s);
    EndedAt(prog, a, b, j, f, ip1);
    AtTheEnd(prog, b, f.s);
    EndsLater(prog, a, b, j, 1, Flush(f.s).out);
    k := j + 1;
  }

  lemma TailLayout(p: Source)
    requires Compile(p).Some?
    ensures var prog := ProgramCode(p);
      && AllOk(p.tail) && AtCode(prog, TailStart(p), CompiledAll(p.tail, false))
      && AtCode(prog, TailStart(p) + |CompiledAll(p.tail, false)|, [END])
  {
    ProgramLayout(p);
    hide ProgramCode, AtCode, CompiledAll;
    AtParts(ProgramCode(p), TailStart(p), CompiledAll(p.tail, false), [END]);
  }

  lemma LoopLayout(p: Source)
    requires Compile(p).Some?
    ensures var prog := ProgramCode(p);
      && AllOk(p.body) && Program(prog) && EofStart(prog) == TailStart(p)
      && AtCode(prog, START + 1, Part(p.body, true))
  {
    ProgramLayout(p);
  }

  /** What is to come when there is no more input, and else. */
  lemma LoopIs(p: Source, s: State)
    requires s.Ok()
    ensures Flush(s).Ok()
    ensures s.inp == [] ==> Loop(p, s) == Finish(p, Flush(s))
    ensures s.inp != [] ==>
      var u := Flush(s).(stack := [s.inp[0]], inp := s.inp[1..]);
      && u.Ok() && var f := EvalAll(p.body, u);
      && Loop(p, s) == AfterRound(p, f) && (f.Normal? || f.Met? ==> f.s.Ok() && |f.s.inp| < |s.inp|)
      && (f.Met? && f.stop.AtRead? ==> f.s.inp == [])
  {
    FlushKeeps(s);
    assert s.inp != [] ==> AreBytes(s.inp[1..]);
    hide Eval, EvalAll, Finish;
  }

  /** How a round of the body goes on. */
  ghost function AfterRound(p: Source, f: Fate): Option<seq<nat>>
    requires !f.Undefined? ==> f.s.Ok()
  {
    if f.Undefined? then None
    else if f.Met? && f.stop.AtRead? then Finish(p, f.s)
    else if f.Met? && f.stop.AtEnd? then Some(Flush(f.s).out)
    else Loop(p, f.s)
  }

  lemma AfterRoundIs(p: Source, f: Fate)
    requires !f.Undefined? ==> f.s.Ok()
    ensures f.Undefined? ==> AfterRound(p, f).None?
    ensures f.Met? && f.stop.AtRead? ==> AfterRound(p, f) == Finish(p, f.s)
    ensures f.Met? && f.stop.AtEnd? ==> AfterRound(p, f) == Some(Flush(f.s).out)
    ensures f.Normal? || (f.Met? && f.stop.AtRestart?) ==> AfterRound(p, f) == Loop(p, f.s)
  {
    hide Loop, Finish;
  }

  lemma DoneRound(prog: seq<nat>, a: Conf, b: Conf, k: nat, f: Fate, ip1: nat)
    requires Program(prog) && Done(prog, a, b, k, f, true, ip1)
    ensures Reach(prog, a, b, k)
    ensures f.Normal? ==> StopsAt(prog, b, AtRestart, f.s)
    ensures f.Met? ==> StopsAt(prog, b, f.stop, f.s)
  {
    hide Reach, StopsAt;
  }

  /** From a RESTART on the machine does what the source says. */
  lemma {:induction false} LoopRuns(p: Source, a: Conf, s: State) returns (k: nat)
    requires Compile(p).Some? && Program(ProgramCode(p)) && s.Ok() && StopsAt(ProgramCode(p), a, AtRestart, s)
    requires Loop(p, s).Some?
    ensures EndsWith(ProgramCode(p), a, k, Loop(p, s).value)
    decreases |s.inp|, 1
  {
    hide *;
    var prog := ProgramCode(p);
    LoopLayout(p);
    LoopIs(p, s);
    if s.inp == [] {
      var b := ToTail(prog, a, AtRestart, s);
      var j := FinishRuns(p, b, Flush(s));
      EndsLater(prog, a, b, 1, j, Finish(p, Flush(s)).value);
      k := 1 + j;
    } else {
      var b := NextByte(prog, a, s);
      var u := Flush(s).(stack := [s.inp[0]], inp := s.inp[1..]);
      var c, i := RunsPart(prog, p.body, true, b, u, START + 1);
      var f := EvalAll(p.body, u);
      DoneRound(prog, b, c, i, f, START + 1 + |Part(p.body, true)|);
      AfterRoundIs(p, f);
      var j := GoesOn(p, c, f, |s.inp|);
      EndsLater(prog, b, c, i, j, Loop(p, s).value);
      EndsLater(prog, a, b, 1, i + j, Loop(p, s).value);
      k := 1 + (i + j);
    }
  }

  /** After a round of the body. */
  lemma {:induction false} GoesOn(p: Source, c: Conf, f: Fate, n: nat) returns (k: nat)
    requires Compile(p).Some? && Program(ProgramCode(p)) && !f.Undefined? && f.s.Ok() && |f.s.inp| < n
    requires f.Met? && f.stop.AtRead? ==> f.s.inp == []
    requires f.Normal? ==> StopsAt(ProgramCode(p), c, AtRestart, f.s)
    requires f.Met? ==> StopsAt(ProgramCode(p), c, f.stop, f.s)
    requires AfterRound(p, f).Some?
    ensures EndsWith(ProgramCode(p), c, k, AfterRound(p, f).value)
    decreases n, 0
  {
    hide *;
    var prog := ProgramCode(p);
    LoopLayout(p);
    AfterRoundIs(p, f);
    if f.Met? && f.stop.AtRead? {
      var d := ToTail(prog, c, AtRead, f.s);
      k := FinishRuns(p, d, f.s);
      EndsLater(prog, c, d, 1, k, Finish(p, f.s).value);
      k := 1 + k;
    } else if f.Met? && f.stop.AtEnd? {
      AtTheEnd(prog, c, f.s);
      k := 1;
    } else {
      k := LoopRuns(p, c, f.s);
    }
  }

  // ---- the theorem ----

  /** The state of a call that begins. */
  lemma FirstState(p: Source, inp: seq<nat>, m: Machine)
    requires Compile(p).Some? && AreBytes(inp) && m.Ok()
    ensures var prog, s := ProgramCode(p), State([], AllRegs(p.regs), inp, []);
      Program(prog) && s.Ok() && StopsAt(prog, Conf(Reentered(prog, m, 0), inp, []), AtRestart, s)
  {
    ProgramLayout(p);
    hide ProgramCode, AtCode, Part;
  }

  /** A call with all the input puts out what the source program means, with any buffer that does not fill up. */
  lemma ConvertsAll(p: Source, inp: seq<nat>, m: Machine, room: Room, r: Result)
    requires Compile(p).Some? && Program(Compile(p).value) && AreBytes(inp) && m.Ok() && Meaning(p, inp).Some?
    requires Gives(Compile(p).value, Reentered(Compile(p).value, m, 0), inp, true, room, r) && !r.Full?
    ensures r.Ended? && r.out == Meaning(p, inp).value
  {
    var prog := ProgramCode(p);
    var m0 := Reentered(prog, m, 0);
    var k := WholeCall(p, inp, m);
    GivesAnywhere(prog, m0, inp, true, room, r);
    var e := Exec(prog, m0, inp, true, NoLimit, k);
    assert Gives(prog, m0, inp, true, NoLimit, e);
    GivesOne(prog, m0, inp, true, NoLimit, r, e);
  }

  /** And such a call ends. */
  lemma WholeCall(p: Source, inp: seq<nat>, m: Machine) returns (k: nat)
    requires Compile(p).Some? && Program(Compile(p).value) && AreBytes(inp) && m.Ok() && Meaning(p, inp).Some?
    ensures var prog := Compile(p).value;
      var r := Exec(prog, Reentered(prog, m, 0), inp, true, NoLimit, k);
      r.Ended? && r.out == Meaning(p, inp).value
  {
    var prog, s := ProgramCode(p), State([], AllRegs(p.regs), inp, []);
    FirstState(p, inp, m);
    var a := Conf(Reentered(prog, m, 0), inp, []);
    k := LoopRuns(p, a, s);
    hide Exec, Loop, ProgramCode;
    AfterNothing(Exec(prog, a.m, inp, true, NoLimit, k));
  }

  /** Calls with one piece after the other put out together what the source program means, if only the last one ends
      the program and no buffer fills up. */
  lemma ConvertsPieces(p: Source, pieces: seq<seq<nat>>, rooms: seq<Room>, m: Machine, r: Result)
    requires Compile(p).Some? && Program(Compile(p).value) && m.Ok() && AreBytes(Concat(pieces))
    requires 0 < |pieces| == |rooms| && forall i :: 0 <= i < |pieces| ==> pieces[i] != []
    requires Session(Compile(p).value, Reentered(Compile(p).value, m, 0), pieces, rooms, r) && !r.Full?
    requires Meaning(p, Concat(pieces)).Some?
    ensures r.Ended? && r.out == Meaning(p, Concat(pieces)).value
  {
    var prog := ProgramCode(p);
    ProgramLayout(p);
    hide ProgramCode, Session, Gives, Meaning;
    PiecesAgree(prog, Reentered(prog, m, 0), pieces, rooms, r);
    ConvertsAll(p, Concat(pieces), m, NoLimit, r);
  }
}
