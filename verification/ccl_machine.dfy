// The code conversion language: a stack machine whose programs can be stopped when the input runs out and
// resumed when more of it comes.

module CclMachine {
  import opened Arithmetic

  datatype Option<T> = None | Some(value: T)

  const RESTART: nat := 0
  const JUMP: nat := 1
  const SJUMP: nat := 2
  const TJUMP: nat := 3
  const FJUMP: nat := 4
  const SFJUMP: nat := 5
  const CLEAR: nat := 6
  const POP: nat := 7
  const DUP: nat := 8
  const EXCH: nat := 9
  const READ: nat := 10
  const WSTR: nat := 11
  const END: nat := 12
  const INC: nat := 13
  const HALF: nat := 16
  const ADD: nat := 17
  const RSHIFT: nat := 25
  const NOT: nat := 26
  const LT: nat := 27
  const NE: nat := 32
  const R0: nat := 33
  const S0: nat := 43
  const BYTE1: nat := 53
  const BYTE2: nat := 54

  const STACKHEAD: nat := 4
  const STACK_SIZE: nat := 256
  const REGCOUNT: nat := 10
  const CONV_BUF_EXTRA: nat := 256

  /** Where the code that reads the first byte begins; the byte before it should be a RESTART. */
  const START: nat := 24

  /** What is kept between calls: the place in the program, the stack, of which `sp` elements are in use, and
      the registers.  Values are 32-bit. */
  datatype Machine = Machine(ip: nat, sp: nat, stack: seq<int>, regs: seq<int>)
  {
    predicate Ok() { sp <= STACK_SIZE == |stack| && |regs| == REGCOUNT }
  }

  predicate Program(prog: seq<nat>) { |prog| > START && forall i :: 0 <= i < |prog| ==> prog[i] < 256 }

  // ---- arithmetic ----

  function Unsigned(x: int): (u: nat)
    ensures u < 0x1_0000_0000
  {
    x % 0x1_0000_0000
  }

  /** Wrap-around to 32 bits. */
  function Wrap(x: int): (r: int)
    ensures -0x8000_0000 <= r < 0x8000_0000 && (r - x) % 0x1_0000_0000 == 0
  {
    var u := Unsigned(x);
    if u < 0x8000_0000 then u else u - 0x1_0000_0000
  }

  /** The quotient of C, rounded towards zero. */
  function Quotient(a: int, b: int): int
    requires b != 0
  {
    if a >= 0 then (if b > 0 then a / b else -(a / -b)) else (if b > 0 then -(-a / b) else -a / -b)
  }

  function Truth(b: bool): int { if b then 1 else 0 }

  /** The quotient fits the word. */
  predicate Divides(a: int, b: int) { b != 0 && !(a == -0x8000_0000 && b == -1) }

  /** The operators that take two values; the value on top of the stack is b.  Dividing by zero, a quotient that
      does not fit, and shifting by an amount outside the word have no defined result. */
  function Binary(c: nat, a: int, b: int): Option<int>
  {
    if c == ADD then Some(Wrap(a + b))
    else if c == ADD + 1 then Some(Wrap(a - b))
    else if c == ADD + 2 then Some(Wrap(a * b))
    else if c == ADD + 3 then (if Divides(a, b) then Some(Wrap(Quotient(a, b))) else None)
    else if c == ADD + 4 then (if Divides(a, b) then Some(Wrap(a - b * Quotient(a, b))) else None)
    else if c == ADD + 5 then Some(Wrap(BitAnd(Unsigned(a), Unsigned(b))))
    else if c == ADD + 6 then Some(Wrap(BitOr(Unsigned(a), Unsigned(b))))
    else if c == ADD + 7 then (if 0 <= b < 32 then Some(Wrap(Unsigned(a) * Pow2(b))) else None)
    else if c == RSHIFT then (if 0 <= b < 32 then Some(Wrap(Unsigned(a) / Pow2(b))) else None)
    else if c == LT then Some(Truth(a < b))
    else if c == LT + 1 then Some(Truth(a > b))
    else if c == LT + 2 then Some(Truth(a == b))
    else if c == LT + 3 then Some(Truth(a <= b))
    else if c == LT + 4 then Some(Truth(a >= b))
    else Some(Truth(a != b))
  }

  predicate BinaryP(c: nat) { ADD <= c <= RSHIFT || LT <= c <= NE }

  function Unary(c: nat, a: int): int {
    if c == INC then Wrap(a + 1)
    else if c == INC + 1 then Wrap(a - 1)
    else if c == INC + 2 then Wrap(a * 2)
    else if c == HALF then Quotient(a, 2)
    else Truth(a == 0)
  }

  predicate UnaryP(c: nat) { INC <= c <= HALF || c == NOT }

  // ---- one instruction ----

  function Word(prog: seq<nat>, a: nat): nat
    requires a + 1 < |prog|
  {
    prog[a] * 256 + prog[a + 1]
  }

  function Pushed(m: Machine, v: int): Option<Machine>
    requires m.Ok()
  {
    if m.sp < STACK_SIZE then Some(m.(stack := m.stack[m.sp := v], sp := m.sp + 1)) else None
  }

  /** The jumps.  All of them go forward.  `a` is where the operands are. */
  function Jumped(prog: seq<nat>, m: Machine, c: nat, a: nat): Option<nat>
    requires m.Ok() && (c != JUMP && c != SJUMP ==> m.sp > 0)
  {
    if c == JUMP then (if a + 1 < |prog| then Some(a + Word(prog, a)) else None)
    else if c == SJUMP then (if a < |prog| then Some(a + prog[a]) else None)
    else if c == TJUMP then
      if a >= |prog| then None
      else
        var i, last := m.stack[m.sp - 1], prog[a];
        var k: nat := if i < 0 || i >= last + 1 then last else i;
        if a + 2 + 2 * k < |prog| then Some(a + 1 + Word(prog, a + 1 + 2 * k)) else None
    else if m.stack[m.sp - 1] != 0 then Some(a + 2)
    else if c == FJUMP then (if a + 1 < |prog| then Some(a + Word(prog, a)) else None)
    else if a < |prog| then Some(a + prog[a]) else None
  }

  /** The instructions that neither read nor write.  None when the program reaches outside itself, its stack
      or the arithmetic that is defined. */
  function Simple(prog: seq<nat>, m: Machine, c: nat): (r: Option<Machine>)
    requires m.Ok()
    ensures r.Some? ==> r.value.Ok()
  {
    var a := m.ip + 1;
    if c == JUMP || c == SJUMP then
      var dest := Jumped(prog, m, c, a);
      if dest.Some? then Some(m.(ip := dest.value)) else None
    else if c == TJUMP || c == FJUMP || c == SFJUMP then
      if m.sp == 0 then None
      else
        var dest := Jumped(prog, m, c, a);
        if dest.Some? then Some(m.(ip := dest.value, sp := m.sp - 1)) else None
    else if c == CLEAR then Some(m.(ip := a, sp := STACKHEAD))
    else if c == POP then (if m.sp > 0 then Some(m.(ip := a, sp := m.sp - 1)) else None)
    else if c == DUP then (if m.sp > 0 then Pushed(m.(ip := a), m.stack[m.sp - 1]) else None)
    else if c == EXCH then
      if m.sp > 1 then
        Some(m.(ip := a, stack := m.stack[m.sp - 1 := m.stack[m.sp - 2]][m.sp - 2 := m.stack[m.sp - 1]]))
      else None
    else if UnaryP(c) then
      if m.sp > 0 then Some(m.(ip := a, stack := m.stack[m.sp - 1 := Unary(c, m.stack[m.sp - 1])])) else None
    else if BinaryP(c) then
      if m.sp > 1 then
        var v := Binary(c, m.stack[m.sp - 2], m.stack[m.sp - 1]);
        if v.Some? then Some(m.(ip := a, stack := m.stack[m.sp - 2 := v.value], sp := m.sp - 1)) else None
      else None
    else if R0 <= c < R0 + REGCOUNT then Pushed(m.(ip := a), m.regs[c - R0])
    else if S0 <= c < S0 + REGCOUNT then
      if m.sp > 0 then Some(m.(ip := a, regs := m.regs[c - S0 := m.stack[m.sp - 1]], sp := m.sp - 1)) else None
    else if c == BYTE1 then (if a < |prog| then Pushed(m.(ip := a + 1), prog[a]) else None)
    else if c == BYTE2 then (if a + 1 < |prog| then Pushed(m.(ip := a + 2), Word(prog, a)) else None)
    else Pushed(m.(ip := a), c)
  }

  /** The stack, as the bytes it is put out as. */
  function Flushed(m: Machine): seq<nat>
    requires m.Ok()
  {
    if m.sp > STACKHEAD then
      seq(m.sp - STACKHEAD, i requires 0 <= i < m.sp - STACKHEAD => m.stack[STACKHEAD + i] % 256)
    else []
  }

  function Emptied(m: Machine): Machine { m.(sp := if m.sp > STACKHEAD then STACKHEAD else m.sp) }

  /** The code for the end of input. */
  function EofStart(prog: seq<nat>): nat
    requires Program(prog)
  {
    Word(prog, 2)
  }

  /** What an instruction does: it goes on, waits for input, or ends the program. */
  datatype Kind = Goes | Waits | Ends

  datatype Action = Bad | Act(kind: Kind, m: Machine, used: nat, out: seq<nat>)

  function Step(prog: seq<nat>, m: Machine, src: seq<nat>, end: bool): (r: Action)
    requires Program(prog) && m.Ok()
    ensures r.Act? ==> r.m.Ok() && r.used <= |src| && m.ip < |prog|
  {
    if m.ip >= |prog| then Bad
    else
      var c := prog[m.ip];
      if c == RESTART then
        var m1 := Emptied(m);
        if src != [] then Go(Pushed(m1.(ip := START + 1), src[0]), 1, Flushed(m))
        else if !end then Act(Waits, m1.(ip := START), 0, Flushed(m))
        else Act(Goes, m1.(ip := EofStart(prog)), 0, Flushed(m))
      else if c == READ then
        if src != [] then Go(Pushed(m.(ip := m.ip + 1), src[0]), 1, [])
        else if !end then Act(Waits, m, 0, [])
        else Act(Goes, m.(ip := EofStart(prog)), 0, [])
      else if c == WSTR then
        var a := m.ip + 1;
        if a < |prog| && a + 1 + (prog[a] + 1) <= |prog| then
          Act(Goes, m.(ip := a + 1 + (prog[a] + 1)), 0, prog[a + 1..a + 1 + (prog[a] + 1)])
        else Bad
      else if c == END then Act(Ends, Emptied(m).(ip := m.ip + 1), 0, Flushed(m))
      else Go(Simple(prog, m, c), 0, [])
  }

  function Go(m: Option<Machine>, used: nat, out: seq<nat>): Action {
    if m.Some? then Act(Goes, m.value, used, out) else Bad
  }

  // ---- runs ----

  /** The room left in the buffer, the extra bytes at its end not counted; NoLimit where a buffer of any size
      will do. */
  datatype Room = NoLimit | Upto(left: nat)

  /** A string must leave a byte of room, the stack may use all of it. */
  predicate Overfull(prog: seq<nat>, m: Machine, out: seq<nat>, room: Room)
    requires m.ip < |prog|
  {
    room.Upto? && out != [] && (if prog[m.ip] == WSTR then |out| >= room.left else |out| > room.left)
  }

  function Less(room: Room, n: nat): Room { if room.Upto? && n <= room.left then Upto(room.left - n) else room }

  /** How a call ends: the input has run out, the program has ended, or the buffer is full.  Running when it
      has not ended yet, Fault when it does what the interpreter does not define. */
  datatype Result =
    | Running
    | Fault
    | Waiting(m: Machine, out: seq<nat>)
    | Ended(m: Machine, out: seq<nat>)
    | Full(m: Machine, out: seq<nat>)
  {
    /** The call has ended, with this machine and output, and with the buffer full or not. */
    predicate Outcome(m1: Machine, out1: seq<nat>, full: bool) {
      !Running? && !Fault? && m == m1 && out == out1 && full == Full?
    }
  }

  function After(out: seq<nat>, r: Result): Result {
    match r
    case Running => Running
    case Fault => Fault
    case Waiting(m, more) => Waiting(m, out + more)
    case Ended(m, more) => Ended(m, out + more)
    case Full(m, more) => Full(m, out + more)
  }

  /** The machine when the buffer is full: the instruction has been fetched, a string's length too. */
  function Stuck(prog: seq<nat>, m: Machine): Machine
    requires m.ip < |prog|
  {
    m.(ip := m.ip + (if prog[m.ip] == WSTR then 2 else 1))
  }

  /** At most k instructions. */
  function Exec(prog: seq<nat>, m: Machine, src: seq<nat>, end: bool, room: Room, k: nat): Result
    requires Program(prog) && m.Ok()
    decreases k
  {
    if k == 0 then Running
    else
      var r := Step(prog, m, src, end);
      if r.Bad? then Fault
      else if Overfull(prog, m, r.out, room) then Full(Stuck(prog, m), [])
      else if r.kind == Waits then Waiting(r.m, r.out)
      else if r.kind == Ends then Ended(r.m, r.out)
      else After(r.out, Exec(prog, r.m, src[r.used..], end, Less(room, |r.out|), k - 1))
  }

  lemma AfterAfter(a: seq<nat>, b: seq<nat>, r: Result)
    ensures After(a, After(b, r)) == After(a + b, r)
  {
    if !r.Running? && !r.Fault? {
      assert a + (b + r.out) == (a + b) + r.out;
    }
  }

  lemma AfterNothing(r: Result)
    ensures After([], r) == r
  {
    if !r.Running? && !r.Fault? {
      assert [] + r.out == r.out;
    }
  }

  /** Once a call has ended, more steps make no difference. */
  lemma {:induction false} Steady(prog: seq<nat>, m: Machine, src: seq<nat>, end: bool, room: Room, k: nat, j: nat)
    requires Program(prog) && m.Ok() && !Exec(prog, m, src, end, room, k).Running? && j >= k
    ensures Exec(prog, m, src, end, room, j) == Exec(prog, m, src, end, room, k)
    decreases k
  {
    hide Step, Overfull;
    var r := Step(prog, m, src, end);
    if r.Act? && r.kind == Goes && !Overfull(prog, m, r.out, room) {
      Steady(prog, r.m, src[r.used..], end, Less(room, |r.out|), k - 1, j - 1);
    }
  }

  /** A call that does not fill its buffer does what it would do with any buffer. */
  lemma {:induction false} NotFull(prog: seq<nat>, m: Machine, src: seq<nat>, end: bool, room: Room, k: nat)
    requires Program(prog) && m.Ok() && !Exec(prog, m, src, end, room, k).Full?
    ensures Exec(prog, m, src, end, NoLimit, k) == Exec(prog, m, src, end, room, k)
    decreases k
  {
    hide Step;
    if k > 0 {
      var r := Step(prog, m, src, end);
      if r.Act? && r.kind == Goes && !Overfull(prog, m, r.out, room) {
        NotFull(prog, r.m, src[r.used..], end, Less(room, |r.out|), k - 1);
      }
    }
  }

  // ---- resuming ----

  lemma StepMore(prog: seq<nat>, m: Machine, x: seq<nat>, y: seq<nat>, end: bool)
    requires Program(prog) && m.Ok()
    requires var r := Step(prog, m, x, false); r.Act? ==> r.kind != Waits
    ensures Step(prog, m, x + y, end) == Step(prog, m, x, false)
  {
    hide Simple, Flushed;
    if x != [] { assert (x + y)[0] == x[0]; }
  }

  /** A step that waits, taken again with input, does what it would have done at once. */
  lemma StepResumed(prog: seq<nat>, m: Machine, x: seq<nat>, y: seq<nat>, end: bool)
    requires Program(prog) && m.Ok() && prog[START] == RESTART && y != []
    requires Step(prog, m, x, false).Act? && Step(prog, m, x, false).kind == Waits
    ensures x == []
    ensures var w := Step(prog, m, x, false);
      var r := Step(prog, w.m, y, end);
      Step(prog, m, y, end) == (if r.Act? then r.(out := w.out + r.out) else r) && (r.Act? ==> r.kind == Goes)
  {
    hide Simple;
    var w := Step(prog, m, x, false);
    assert w.out + [] == w.out;
    if prog[m.ip] == RESTART {
      assert Flushed(w.m) == [];
      assert Emptied(w.m) == w.m;
    }
  }

  /** One instruction and the rest, where there is no limit. */
  function Rest(prog: seq<nat>, r: Action, src: seq<nat>, end: bool, k: nat): Result
    requires Program(prog) && (r.Act? ==> r.m.Ok() && r.used <= |src|)
  {
    if r.Bad? then Fault
    else if r.kind == Waits then Waiting(r.m, r.out)
    else if r.kind == Ends then Ended(r.m, r.out)
    else After(r.out, Exec(prog, r.m, src[r.used..], end, NoLimit, k))
  }

  lemma Unfold(prog: seq<nat>, m: Machine, src: seq<nat>, end: bool, k: nat)
    requires Program(prog) && m.Ok()
    ensures Exec(prog, m, src, end, NoLimit, 0) == Running
    ensures k > 0 ==> Exec(prog, m, src, end, NoLimit, k) == Rest(prog, Step(prog, m, src, end), src, end, k - 1)
  {
    hide Step;
  }

  /** The first piece leaves the program waiting; going on with the second gives what the two together give. */
  lemma {:induction false} Resume(prog: seq<nat>, m: Machine, x: seq<nat>, y: seq<nat>, end: bool, k: nat, j: nat)
    requires Program(prog) && m.Ok() && prog[START] == RESTART && y != []
    requires Exec(prog, m, x, false, NoLimit, k).Waiting?
    ensures Exec(prog, m, x, false, NoLimit, k).m.Ok()
    ensures Resumed(prog, m, x + y, end, k, j, Exec(prog, m, x, false, NoLimit, k), y)
    decreases k
  {
    hide Exec, Step, After;
    Unfold(prog, m, x, false, k);
    var r := Step(prog, m, x, false);
    var w := Exec(prog, m, x, false, NoLimit, k);
    if r.Act? && r.kind == Waits {
      ResumeWaiting(prog, m, x, y, end, k, j);
    } else if r.Act? && r.kind == Goes {
      StepMore(prog, m, x, y, end);
      WaitingAfter(r.out, Exec(prog, r.m, x[r.used..], false, NoLimit, k - 1));
      Resume(prog, r.m, x[r.used..], y, end, k - 1, j);
      assert (x + y)[r.used..] == x[r.used..] + y;
      var w1 := Exec(prog, r.m, x[r.used..], false, NoLimit, k - 1);
      Unfold(prog, m, x + y, end, k + j);
      Unfold(prog, m, x + y, end, j + 1);
      AfterAfter(r.out, w1.out, Exec(prog, w.m, y, end, NoLimit, j));
      StillRunning(r.out, Exec(prog, r.m, x[r.used..] + y, end, NoLimit, j));
      if !Exec(prog, m, x + y, end, NoLimit, j).Running? {
        Steady(prog, m, x + y, end, NoLimit, j, j + 1);
      }
    }
  }

  /** What going on from w with y has to do with the whole. */
  ghost predicate Resumed(prog: seq<nat>, m: Machine, xy: seq<nat>, end: bool, k: nat, j: nat, w: Result, y: seq<nat>)
    requires Program(prog) && m.Ok() && w.Waiting? && w.m.Ok()
  {
    && (!Exec(prog, w.m, y, end, NoLimit, j).Running? ==>
          Exec(prog, m, xy, end, NoLimit, k + j) == After(w.out, Exec(prog, w.m, y, end, NoLimit, j)))
    && (!Exec(prog, m, xy, end, NoLimit, j).Running? ==> !Exec(prog, w.m, y, end, NoLimit, j).Running?)
  }

  lemma WaitingAfter(out: seq<nat>, r: Result)
    ensures After(out, r).Waiting? ==> r.Waiting? && After(out, r) == Waiting(r.m, out + r.out)
  {
  }

  lemma StillRunning(out: seq<nat>, r: Result)
    ensures After(out, r).Running? <==> r.Running?
  {
  }

  lemma ResumeWaiting(prog: seq<nat>, m: Machine, x: seq<nat>, y: seq<nat>, end: bool, k: nat, j: nat)
    requires Program(prog) && m.Ok() && prog[START] == RESTART && y != [] && k > 0
    requires Step(prog, m, x, false).Act? && Step(prog, m, x, false).kind == Waits
    ensures var w := Step(prog, m, x, false); Resumed(prog, m, x + y, end, k, j, Waiting(w.m, w.out), y)
  {
    StepResumed(prog, m, x, y, end);
    assert x + y == y;
    var w := Step(prog, m, x, false);
    hide Exec, Step, After;
    Unfold(prog, w.m, y, end, j);
    Unfold(prog, m, y, end, j);
    if j > 0 { RestAfter(prog, Step(prog, w.m, y, end), w.out, y, end, j - 1); }
    StillRunning(w.out, Exec(prog, w.m, y, end, NoLimit, j));
    if !Exec(prog, m, y, end, NoLimit, j).Running? {
      Steady(prog, m, y, end, NoLimit, j, k + j);
    }
  }

  lemma RestAfter(prog: seq<nat>, r: Action, out: seq<nat>, src: seq<nat>, end: bool, k: nat)
    requires Program(prog) && (r.Act? ==> r.m.Ok() && r.used <= |src|)
    ensures Rest(prog, if r.Act? then r.(out := out + r.out) else r, src, end, k)
      == After(out, Rest(prog, r, src, end, k))
  {
    hide Exec;
    if r.Act? && r.kind == Goes {
      AfterAfter(out, r.out, Exec(prog, r.m, src[r.used..], end, NoLimit, k));
    }
  }
}
