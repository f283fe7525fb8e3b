// The CCL interpreter, with the stack and registers all conversions share.

module Ccl {
  import opened Bytes
  import opened CclMachine
  import opened CclPieces

  /** How a round of the loop leaves the program. */
  datatype Status = More | Stopped(kind: Kind) | Filled

  /** ccl_stack, stack_idx and ccl_reg. */
  class Interpreter {
    const stack: array<int>
    const reg: array<int>
    var sp: nat

    constructor ()
      ensures Valid() && fresh(stack) && fresh(reg)
    {
      stack := new int[STACK_SIZE];
      reg := new int[REGCOUNT];
      sp := STACKHEAD;
    }

    ghost predicate Valid()
      reads this
    {
      stack.Length == STACK_SIZE && reg.Length == REGCOUNT && sp <= STACK_SIZE && stack != reg
    }

    ghost function View(ip: nat): (m: Machine)
      requires Valid()
      reads this, stack, reg
      ensures m.Ok() && m.ip == ip
    {
      Machine(ip, sp, stack[..], reg[..])
    }

    method Push(v: int) returns (ok: bool)
      requires Valid()
      modifies this`sp, stack
      ensures Valid() && ok == (old(sp) < STACK_SIZE)
      ensures ok ==> sp == old(sp) + 1 && stack[..] == old(stack[..])[old(sp) := v]
    {
      ok := sp < STACK_SIZE;
      if ok { stack[sp], sp := v, sp + 1; }
    }

    method Jump(prog: seq<nat>, ip: nat, c: nat) returns (ok: bool, ip1: nat)
      requires Valid() && Program(prog) && JUMP <= c <= SFJUMP
      modifies this`sp
      ensures Valid() && ok == Simple(prog, old(View(ip)), c).Some?
      ensures ok ==> View(ip1) == Simple(prog, old(View(ip)), c).value
    {
      var cmd := ip + 1;
      ip1 := cmd;
      if c == JUMP {
        ok := cmd + 1 < |prog|;
        if ok { ip1 := cmd + Word(prog, cmd); }
      } else if c == SJUMP {
        ok := cmd < |prog|;
        if ok { ip1 := cmd + prog[cmd]; }
      } else if sp == 0 {
        ok := false;
      } else {
        var i := stack[sp - 1];
        if c == TJUMP {
          ok := cmd < |prog|;
          if ok {
            var j := prog[cmd];
            if i < 0 || i >= j + 1 { i := j; }
            ok := cmd + 2 + 2 * i < |prog|;
            if ok { ip1 := cmd + 1 + Word(prog, cmd + 1 + 2 * i); }
          }
        } else if i != 0 {
          ok, ip1 := true, cmd + 2;
        } else if c == FJUMP {
          ok := cmd + 1 < |prog|;
          if ok { ip1 := cmd + Word(prog, cmd); }
        } else {
          ok := cmd < |prog|;
          if ok { ip1 := cmd + prog[cmd]; }
        }
        if ok { sp := sp - 1; }
      }
    }

    /** One instruction that neither reads nor writes. */
    method Operate(prog: seq<nat>, ip: nat, c: nat) returns (ok: bool, ip1: nat)
      requires Valid() && Program(prog) && c < 256
      modifies this`sp, stack, reg
      ensures Valid() && ok == Simple(prog, old(View(ip)), c).Some?
      ensures ok ==> View(ip1) == Simple(prog, old(View(ip)), c).value
    {
      hide Binary, Unary;
      ghost var m := View(ip);
      ip1 := ip + 1;
      if JUMP <= c <= SFJUMP {
        ok, ip1 := Jump(prog, ip, c);
      } else if c == CLEAR {
        ok, sp := true, STACKHEAD;
      } else if c == POP {
        ok := sp > 0;
        if ok { sp := sp - 1; }
      } else if c == DUP {
        ok := sp > 0;
        if ok { ok := Push(stack[sp - 1]); }
      } else if c == EXCH {
        ok := sp > 1;
        if ok { stack[sp - 1], stack[sp - 2] := stack[sp - 2], stack[sp - 1]; }
      } else if UnaryP(c) {
        ok := sp > 0;
        if ok { stack[sp - 1] := Unary(c, stack[sp - 1]); }
      } else if BinaryP(c) {
        ok := sp > 1;
        if ok {
          var v := Binary(c, stack[sp - 2], stack[sp - 1]);
          ok := v.Some?;
          if ok { stack[sp - 2], sp := v.value, sp - 1; }
        }
      } else if R0 <= c < R0 + REGCOUNT {
        ok := Push(reg[c - R0]);
      } else if S0 <= c < S0 + REGCOUNT {
        ok := sp > 0;
        if ok { reg[c - S0], sp := stack[sp - 1], sp - 1; }
      } else if c == BYTE1 {
        ok := ip1 < |prog|;
        if ok { ok := Push(prog[ip1]); ip1 := ip1 + 1; }
      } else if c == BYTE2 {
        ok := ip1 + 1 < |prog|;
        if ok { ok := Push(Word(prog, ip1)); ip1 := ip1 + 2; }
      } else {
        ok := Push(c);
      }
    }

    /** The whole stack goes to the output, which is counted only if it leaves the extra bytes alone. */
    method Flush(dst: array<nat>, d: nat) returns (d1: nat, ok: bool)
      requires Valid() && d + CONV_BUF_EXTRA <= dst.Length
      modifies this`sp, dst
      ensures Valid()
      ensures ok == (Flushed(old(View(0))) == [] || d + |Flushed(old(View(0)))| + CONV_BUF_EXTRA <= dst.Length)
      ensures ok ==> View(0) == Emptied(old(View(0))) && d1 == d + |Flushed(old(View(0)))|
      ensures ok ==> d1 <= dst.Length && dst[..d1] == old(dst[..d]) + Flushed(old(View(0)))
      ensures !ok ==> View(0) == old(View(0)) && d1 == d && dst[..d] == old(dst[..d])
    {
      d1, ok := d, true;
      if sp > STACKHEAD {
        ghost var out := Flushed(View(0));
        var p := STACKHEAD;
        while p < sp
          invariant STACKHEAD <= p <= sp && d1 == d + (p - STACKHEAD)
            && dst[..d1] == old(dst[..d]) + out[..p - STACKHEAD]
          modifies dst
        {
          dst[d1] := stack[p] % 256;
          p, d1 := p + 1, d1 + 1;
        }
        assert out[..p - STACKHEAD] == out;
        if d1 + CONV_BUF_EXTRA > dst.Length {
          d1, ok := d, false;
        } else {
          sp := STACKHEAD;
        }
      } else {
        assert dst[..d] + [] == dst[..d];
      }
    }

    /** The stack goes out (RESTART and END), or a string (WSTR). */
    method Write(prog: seq<nat>, ip: nat, src: seq<nat>, end: bool, dst: array<nat>, d: nat) returns (d1: nat, ok: bool)
      requires Valid() && Program(prog) && ip < |prog| && prog[ip] in {RESTART, WSTR, END}
      requires d + CONV_BUF_EXTRA <= dst.Length && dst.Length > 0 && Step(prog, View(ip), src, end).Act?
      modifies this`sp, dst
      ensures Valid() && d1 <= dst.Length
      ensures var r := Step(prog, old(View(ip)), src, end);
        && ok == !Overfull(prog, old(View(ip)), r.out, Upto(dst.Length - CONV_BUF_EXTRA - d))
        && (if ok then dst[..d1] == old(dst[..d]) + r.out && d1 == d + |r.out| && d1 + CONV_BUF_EXTRA <= dst.Length
            else dst[..d1] == old(dst[..d]) && d1 == d)
        && View(ip) == (if ok && prog[ip] != WSTR then Emptied(old(View(ip))) else old(View(ip)))
    {
      hide Simple;
      if prog[ip] == WSTR {
        var i := prog[ip + 1] + 1;
        ghost var out := prog[ip + 2..ip + 2 + i];
        d1, ok := d, d + i + CONV_BUF_EXTRA < dst.Length;
        if ok {
          var j := 0;
          while j < i
            invariant 0 <= j <= i && d1 == d + j && dst[..d1] == old(dst[..d]) + out[..j]
            modifies dst
          {
            dst[d1] := prog[ip + 2 + j];
            d1, j := d1 + 1, j + 1;
          }
          assert out[..j] == out;
        }
      } else {
        assert Flushed(View(0)) == Flushed(View(ip));
        d1, ok := Flush(dst, d);
      }
    }

    /** One round of the interpreter's loop. */
    method Round(prog: seq<nat>, ip: nat, src: seq<nat>, s: nat, end: bool, dst: array<nat>, d: nat)
      returns (status: Status, ip1: nat, s1: nat, d1: nat)
      requires Valid() && Program(prog) && s <= |src|
      requires d + CONV_BUF_EXTRA <= dst.Length && AreBytes(src) && Step(prog, View(ip), src[s..], end).Act?
      modifies this`sp, stack, reg, dst
      ensures Valid() && s <= s1 <= |src| && d1 + CONV_BUF_EXTRA <= dst.Length
      ensures Next(prog, old(View(ip)), src[s..], end, old(dst[..d]), dst.Length - CONV_BUF_EXTRA - d,
                   status, View(ip1), s1 - s, dst[..d1])
    {
      hide Simple;
      var c := prog[ip];
      status, s1, d1 := More, s, d;
      if c == RESTART || c == WSTR || c == END {
        ghost var m := View(ip);
        var ok;
        d1, ok := Write(prog, ip, src[s..], end, dst, d);
        if !ok {
          status, ip1 := Filled, if c == WSTR then ip + 2 else ip + 1;
        } else if c == WSTR {
          ip1 := ip + 2 + (prog[ip + 1] + 1);
        } else if c == END {
          status, ip1 := Stopped(Ends), ip + 1;
        } else if s < |src| {
          var _ := Push(src[s]);
          ip1, s1 := START + 1, s + 1;
        } else if !end {
          status, ip1 := Stopped(Waits), START;
        } else {
          ip1 := EofStart(prog);
        }
      } else if c == READ {
        assert dst[..d] + [] == dst[..d];
        if s < |src| {
          var _ := Push(src[s]);
          ip1, s1 := ip + 1, s + 1;
        } else if !end {
          status, ip1 := Stopped(Waits), ip;
        } else {
          ip1 := EofStart(prog);
        }
      } else {
        assert dst[..d] + [] == dst[..d];
        var ok;
        ok, ip1 := Operate(prog, ip, c);
      }
    }

    /** ccl_interpreter.  `k` bounds the instructions of the call: a program may run for ever once the input has
        ended, and then there is nothing to state. */
    method Interpret(prog: seq<nat>, ip0: nat, src: seq<nat>, end: bool, dst: array<nat>, ghost k: nat)
      returns (ip: nat, n: nat, full: bool)
      requires Valid() && Program(prog) && AreBytes(src) && dst.Length >= CONV_BUF_EXTRA
      requires src != [] ==> Stops(Exec(prog, View(ip0), src, end, Upto(dst.Length - CONV_BUF_EXTRA), k))
      modifies this`sp, stack, reg, dst
      ensures Valid() && n + CONV_BUF_EXTRA <= dst.Length
      ensures src == [] ==> View(ip) == old(View(ip0)) && n == 0 && !full
      ensures src != [] ==>
        Exec(prog, old(View(ip0)), src, end, Upto(dst.Length - CONV_BUF_EXTRA), k).Outcome(View(ip), dst[..n], full)
    {
      hide Exec, Step;
      ip, n, full := ip0, 0, false;
      if src != [] {
        ghost var left := k;
        ghost var r0 := Exec(prog, View(ip0), src, end, Upto(dst.Length - CONV_BUF_EXTRA), k);
        AfterNothing(r0);
        var s, status := 0, More;
        while status.More?
          invariant Valid() && s <= |src| && n + CONV_BUF_EXTRA <= dst.Length
          invariant status.More? ==>
            r0 == After(dst[..n], Exec(prog, View(ip), src[s..], end, Upto(dst.Length - CONV_BUF_EXTRA - n), left))
          invariant !status.More? ==> r0.Outcome(View(ip), dst[..n], status.Filled?)
          decreases status.More?, left
        {
          RoundIs(prog, View(ip), src, s, end, dst[..n], dst.Length - CONV_BUF_EXTRA - n, left, r0);
          ghost var m, d0 := View(ip), dst[..n];
          ghost var left0: nat := dst.Length - CONV_BUF_EXTRA - n;
          var s1;
          status, ip, s1, n := Round(prog, ip, src, s, end, dst, n);
          RoundGives(prog, m, src, s, end, d0, left0, left, r0, status, View(ip), s1 - s, dst[..n]);
          s, left := s1, left - 1;
        }
        full := status.Filled?;
      }
    }

    /** ccl_driver: from the place saved by the call before, or from the beginning.  The message that the buffer is
        too short goes behind the output. */
    method Drive(prog: seq<nat>, saved: nat, src: seq<nat>, end: bool, dst: array<nat>, ghost k: nat)
      returns (saved1: nat, n: nat, full: bool, ghost ip: nat)
      requires Valid() && Program(prog) && AreBytes(src) && dst.Length >= CONV_BUF_EXTRA
      requires src != [] ==>
        Stops(Exec(prog, Reentered(prog, View(0), saved), src, end, Upto(dst.Length - CONV_BUF_EXTRA), k))
      modifies this`sp, stack, reg, dst
      ensures Valid() && n <= dst.Length && saved1 == ip % 0x1_0000
      ensures src == [] ==> View(ip) == Reentered(prog, old(View(0)), saved) && n == 0
      ensures src != [] ==> full ==> |MESSAGE| <= n && dst[n - |MESSAGE|..n] == MESSAGE
      ensures src != [] ==>
        Exec(prog, Reentered(prog, old(View(0)), saved), src, end, Upto(dst.Length - CONV_BUF_EXTRA), k)
          .Outcome(View(ip), dst[..if full then n - |MESSAGE| else n], full)
    {
      hide Exec;
      var ip0 := saved;
      if saved == 0 {
        InitRegisters(prog);
        sp, ip0 := STACKHEAD, START;
      }
      assert View(ip0) == Reentered(prog, old(View(0)), saved);
      var ip1;
      ip1, n, full := Interpret(prog, ip0, src, end, dst, k);
      ip, saved1 := ip1, ip1 % 0x1_0000;
      if full {
        ghost var out := dst[..n];
        forall i | 0 <= i < |MESSAGE| { dst[n + i] := MESSAGE[i]; }
        assert dst[..n] == out && dst[n..n + |MESSAGE|] == MESSAGE;
        n := n + |MESSAGE|;
      }
    }

    method InitRegisters(prog: seq<nat>)
      requires Valid() && Program(prog)
      modifies reg
      ensures reg[..] == FirstRegisters(prog)
    {
      var i := 0;
      while i < REGCOUNT
        invariant 0 <= i <= REGCOUNT
        invariant forall j :: 0 <= j < i ==> reg[j] == Word(prog, j * 2 + 4)
        modifies reg
      {
        reg[i] := Word(prog, i * 2 + 4);
        i := i + 1;
      }
    }
  }

  const MESSAGE: seq<nat> := [67, 67, 76, 58, 32, 67, 111, 110, 118, 101, 114, 115, 105, 111, 110, 32, 98, 117, 102,
                              102, 101, 114, 32, 116, 111, 111, 32, 115, 104, 111, 114, 116, 46, 10]

  function FirstRegisters(prog: seq<nat>): (r: seq<int>)
    requires Program(prog)
    ensures |r| == REGCOUNT
  {
    seq(REGCOUNT, i requires 0 <= i < REGCOUNT => Word(prog, i * 2 + 4))
  }

  /** The machine a call starts from. */
  function Reentered(prog: seq<nat>, m: Machine, saved: nat): (r: Machine)
    requires Program(prog) && m.Ok()
    ensures r.Ok()
  {
    if saved == 0 then m.(ip := START, sp := STACKHEAD, regs := FirstRegisters(prog)) else m.(ip := saved)
  }

  /** The call ends and stays within what is defined. */
  predicate Stops(r: Result) { !r.Running? && !r.Fault? }

  /** A call that is not the last, or whose code for the end of input neither reads nor starts over, ends after k
      instructions: it stops unless it faults. */
  lemma CallEnds(prog: seq<nat>, m: Machine, src: seq<nat>, end: bool, room: Room) returns (k: nat)
    requires Program(prog) && m.Ok() && (end ==> EofCodePlain(prog))
    ensures var r := Exec(prog, m, src, end, room, k); Stops(r) <==> !r.Fault?
  {
    if end {
      EndsAtEof(prog, m, src, room);
      k := EnoughAtEnd(prog, m, src);
    } else {
      EndsWithoutEof(prog, m, src, room);
      k := Enough(prog, m, src);
    }
  }

  /** A round does what the step function says, unless the buffer is full. */
  ghost predicate Next(prog: seq<nat>, m: Machine, src: seq<nat>, end: bool, out: seq<nat>, left: nat,
                       status: Status, m1: Machine, used: nat, out1: seq<nat>)
    requires Program(prog) && m.Ok() && Step(prog, m, src, end).Act?
  {
    var r := Step(prog, m, src, end);
    if Overfull(prog, m, r.out, Upto(left)) then status == Filled && m1 == Stuck(prog, m) && out1 == out && used == 0
    else
      && m1 == r.m && used == r.used && out1 == out + r.out
      && status == (if r.kind == Goes then More else Stopped(r.kind))
  }

  lemma RoundIs(prog: seq<nat>, m: Machine, src: seq<nat>, s: nat, end: bool, out: seq<nat>, left: nat, k: nat,
                r0: Result)
    requires Program(prog) && m.Ok() && s <= |src| && Stops(r0)
    requires r0 == After(out, Exec(prog, m, src[s..], end, Upto(left), k))
    ensures k > 0 && Step(prog, m, src[s..], end).Act?
  {
    hide Step;
  }

  lemma RoundGives(prog: seq<nat>, m: Machine, src: seq<nat>, s: nat, end: bool, out: seq<nat>, left: nat, k: nat,
                   r0: Result,
                   status: Status, m1: Machine, used: nat, out1: seq<nat>)
    requires Program(prog) && m.Ok() && s + used <= |src| && Stops(r0) && k > 0 && m1.Ok()
    requires r0 == After(out, Exec(prog, m, src[s..], end, Upto(left), k))
    requires Step(prog, m, src[s..], end).Act? && Next(prog, m, src[s..], end, out, left, status, m1, used, out1)
    ensures status.More? ==> |out| <= |out1| <= |out| + left
    ensures status.More? ==>
      r0 == After(out1, Exec(prog, m1, src[s + used..], end, Upto(left - (|out1| - |out|)), k - 1))
    ensures !status.More? ==> r0.Outcome(m1, out1, status.Filled?)
  {
    hide Step;
    var r := Step(prog, m, src[s..], end);
    assert src[s..][used..] == src[s + used..];
    if status.More? {
      AfterAfter(out, r.out, Exec(prog, m1, src[s + used..], end, Less(Upto(left), |r.out|), k - 1));
    } else if status.Filled? {
      assert out + [] == out;
    }
  }

  /** For programs that fit 16-bit addresses the place that is saved is the place where the program waits: the
      next call goes on from there, with the stack and registers as they are. */
  lemma SavedPlace(prog: seq<nat>, m: Machine, saved: nat, src: seq<nat>, room: Room, k: nat)
    requires Program(prog) && m.Ok() && |prog| <= 0x1_0000 && (saved == 0 || START <= saved)
    requires Exec(prog, Reentered(prog, m, saved), src, false, room, k).Waiting?
    ensures var w := Exec(prog, Reentered(prog, m, saved), src, false, room, k).m;
      w.Ok() && START <= w.ip % 0x1_0000 && Reentered(prog, w, w.ip % 0x1_0000) == w
  {
    hide Exec;
    WaitsAt(prog, Reentered(prog, m, saved), src, room, k);
  }

  // ---- several calls ----

  function Rooms(sizes: seq<nat>): (rooms: seq<Room>)
    requires forall i :: 0 <= i < |sizes| ==> sizes[i] >= CONV_BUF_EXTRA
    ensures |rooms| == |sizes|
  {
    seq(|sizes|, i requires 0 <= i < |sizes| => Upto(sizes[i] - CONV_BUF_EXTRA))
  }

  /** The calls that are still to come, and the output they will add. */
  ghost predicate ToCome(prog: seq<nat>, m: Machine, pieces: seq<seq<nat>>, rooms: seq<Room>, i: nat, out: seq<nat>,
                         r: Result)
    requires Program(prog) && m.Ok() && |pieces| == |rooms|
  {
    i < |pieces| && exists rest: Result :: Session(prog, m, pieces[i..], rooms[i..], rest) && r == After(out, rest)
  }

  /** One more piece has been dealt with, and it was not the last. */
  lemma NextPiece(prog: seq<nat>, m: Machine, pieces: seq<seq<nat>>, rooms: seq<Room>, i: nat, out: seq<nat>, r: Result)
    returns (w: Result, k: nat)
    requires Program(prog) && m.Ok() && |pieces| == |rooms| && i + 1 < |pieces|
      && ToCome(prog, m, pieces, rooms, i, out, r)
    ensures w.Waiting? && w.m.Ok() && Exec(prog, m, pieces[i], false, rooms[i], k) == w
    ensures ToCome(prog, w.m, pieces, rooms, i + 1, out + w.out, r)
  {
    hide Exec;
    var rest: Result :| Session(prog, m, pieces[i..], rooms[i..], rest) && r == After(out, rest);
    var more: Result;
    w, more :|
      && Gives(prog, m, pieces[i..][0], false, rooms[i..][0], w) && w.Waiting? && w.m.Ok()
      && Session(prog, w.m, pieces[i..][1..], rooms[i..][1..], more) && rest == After(w.out, more);
    k :| Exec(prog, m, pieces[i..][0], false, rooms[i..][0], k) == w;
    assert pieces[i..][1..] == pieces[i + 1..] && rooms[i..][1..] == rooms[i + 1..];
    AfterAfter(out, w.out, more);
  }

  /** The last piece. */
  lemma LastPiece(prog: seq<nat>, m: Machine, pieces: seq<seq<nat>>, rooms: seq<Room>, i: nat, out: seq<nat>, r: Result)
    returns (k: nat)
    requires Program(prog) && m.Ok() && |pieces| == |rooms| && i + 1 == |pieces|
      && ToCome(prog, m, pieces, rooms, i, out, r)
    ensures !Exec(prog, m, pieces[i], true, rooms[i], k).Running?
      && r == After(out, Exec(prog, m, pieces[i], true, rooms[i], k))
  {
    hide Exec;
    var rest: Result :| Session(prog, m, pieces[i..], rooms[i..], rest) && r == After(out, rest);
    k :| Exec(prog, m, pieces[i..][0], true, rooms[i..][0], k) == rest;
  }

  /** The driver is called with one piece after the other, each time with a buffer of its own.  If every call but
      the last leaves the program waiting and no buffer fills up, the outputs together are the output of a single
      call with all of the input. */
  method DriveAll(io: Interpreter, prog: seq<nat>, pieces: seq<seq<nat>>, sizes: seq<nat>, ghost r: Result)
    returns (out: seq<nat>)
    requires io.Valid() && Program(prog) && prog[START] == RESTART && |prog| <= 0x1_0000
    requires 0 < |pieces| == |sizes| && forall i :: 0 <= i < |pieces| ==> pieces[i] != [] && AreBytes(pieces[i])
    requires forall i :: 0 <= i < |sizes| ==> sizes[i] >= CONV_BUF_EXTRA
    requires Session(prog, Reentered(prog, io.View(0), 0), pieces, Rooms(sizes), r) && Stops(r) && !r.Full?
    modifies io`sp, io.stack, io.reg
    ensures io.Valid() && out == r.out
    ensures Gives(prog, Reentered(prog, old(io.View(0)), 0), Concat(pieces), true, NoLimit, r)
  {
    hide Exec, Session, ToCome, Gives;
    ghost var first, rooms := Reentered(prog, io.View(0), 0), Rooms(sizes);
    PiecesAgree(prog, first, pieces, rooms, r);
    AllToCome(prog, first, pieces, rooms, r);
    out := [];
    var saved: nat, i: nat := 0, 0;
    while i + 1 < |pieces|
      invariant i + 1 <= |pieces| && io.Valid() && (saved == 0 || START <= saved)
      invariant ToCome(prog, Reentered(prog, io.View(0), saved), pieces, rooms, i, out, r)
    {
      ghost var m := Reentered(prog, io.View(0), saved);
      ghost var w, k := NextPiece(prog, m, pieces, rooms, i, out, r);
      SavedPlace(prog, io.View(0), saved, pieces[i], rooms[i], k);
      var dst := new nat[sizes[i]];
      var n, full; ghost var ip;
      saved, n, full, ip := io.Drive(prog, saved, pieces[i], false, dst, k);
      out, i := out + dst[..n], i + 1;
    }
    ghost var k := LastPiece(prog, Reentered(prog, io.View(0), saved), pieces, rooms, i, out, r);
    StopsAfter(out, Exec(prog, Reentered(prog, io.View(0), saved), pieces[i], true, rooms[i], k));
    var dst := new nat[sizes[i]];
    var n, full; ghost var ip;
    saved, n, full, ip := io.Drive(prog, saved, pieces[i], true, dst, k);
    out := out + dst[..n];
  }

  lemma AllToCome(prog: seq<nat>, m: Machine, pieces: seq<seq<nat>>, rooms: seq<Room>, r: Result)
    requires Program(prog) && m.Ok() && 0 < |pieces| == |rooms| && Session(prog, m, pieces, rooms, r)
    ensures ToCome(prog, m, pieces, rooms, 0, [], r)
  {
    assert pieces[0..] == pieces && rooms[0..] == rooms;
    AfterNothing(r);
  }

  lemma StopsAfter(out: seq<nat>, r: Result)
    ensures Stops(After(out, r)) <==> Stops(r)
    ensures After(out, r).Full? <==> r.Full?
    ensures Stops(r) ==> After(out, r).out == out + r.out
  {
  }
}
