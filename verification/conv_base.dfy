// What the converters of src/codeconv.c have in common: bytes go through a loop that updates a state,
// which is kept in a coding_type between calls.

module Conversion {
  import opened Bytes

  const CR: nat := 13
  const LF: nat := 10
  const ESC: nat := 0x1B
  const SO: nat := 0x0E
  const SI: nat := 0x0F
  const SS2: nat := 0x8E
  const SS3: nat := 0x8F
  const DEL: nat := 0x7F

  const LCASCII: nat := 0
  const LCCMP: nat := 0x80
  const LCKANA: nat := 0x89
  const LCROMAN: nat := 0x8A
  const LCJPOLD: nat := 0x90
  const LCCN: nat := 0x91
  const LCJP: nat := 0x92
  const LCBIG5_1: nat := 0x98
  const LCBIG5_2: nat := 0x99
  const LCPRV11: nat := 0x9A
  const LCPRV12: nat := 0x9B
  const LCPRV21: nat := 0x9C
  const LCPRV22: nat := 0x9D
  const LCPRV3: nat := 0x9E
  const LCINV: nat := 0x9F

  /** A byte that begins a multi-byte character in a buffer. */
  predicate LcP(c: nat) { 0x80 <= c < 0x9F }

  predicate AsciiP(c: nat) { c < 0x80 }

  /** CONV_BUF_SIZE for text that is read into a buffer. */
  function ConvBufSize(n: nat): nat { 3 * n + 256 }

  /** Storing into an unsigned char keeps the low 8 bits. */
  function Low8(x: int): nat { x % 256 }

  datatype Eol = EolAuto | EolLf | EolCrLf | EolCr | EolNoConv

  /** The bits of coding_type.form.  `low` is the lowest bit: CODE_USE_OLDJIS, or CODE_BIG5_ETEN for Big5. */
  datatype Form = Form(eol: Eol, nodir: bool, short: bool, asciiEol: bool, asciiCntl: bool, seven: bool,
                       lockShift: bool, useRoman: bool, low: bool)

  /** The bits of coding_type.cntl.  The two directions give some of the bits different meanings; a coding_type
      serves one direction, so here they are separate: cr .. ss3 for text coming in, graphic, shift and
      comp for text going out, `esc` for the upper half that says how far an escape sequence has been read. */
  datatype Cntl = Cntl(selective: bool, r2l: bool, end: bool,
                       cr: bool, escape: bool, cmp: bool, so: bool, ss2: bool, ss3: bool, esc: nat,
                       graphic: nat, shift: bool, comp: nat)

  const NO_CNTL := Cntl(false, false, false, false, false, false, false, false, false, 0, 0, false, 0)

  /** coding_type, without what only other converters use. */
  class CodingType {
    var form: Form
    var cntl: Cntl
    var ch: nat
    var lcg: seq<nat>          // lcg0 .. lcg3
    var olcg: seq<nat>         // olcg0 .. olcg3
    var ilcg: seq<bool>        // ilcg0 .. ilcg3

    constructor (form: Form, lcg: seq<nat>, ilcg: seq<bool>)
      ensures this.form == form && cntl == NO_CNTL && ch == 0 && this.lcg == olcg == lcg && this.ilcg == ilcg
    {
      this.form, cntl, ch, this.lcg, olcg, this.ilcg := form, NO_CNTL, 0, lcg, lcg, ilcg;
    }
  }

  // ---- byte-stream transducers ----

  /** Bytes fed through `step` one by one: the state reached, and everything put out. */
  function Run<S>(step: (S, nat) -> (S, seq<nat>), st: S, s: seq<nat>): (S, seq<nat>) {
    if s == [] then (st, [])
    else
      var (st1, out) := Run(step, st, s[..|s| - 1]);
      var (st2, more) := step(st1, s[|s| - 1]);
      (st2, out + more)
  }

  lemma RunSnoc<S>(step: (S, nat) -> (S, seq<nat>), st: S, s: seq<nat>, i: nat)
    requires i < |s|
    ensures var (st1, out) := Run(step, st, s[..i]);
      var (st2, more) := step(st1, s[i]);
      Run(step, st, s[..i + 1]) == (st2, out + more)
  {
    assert s[..i + 1][..i] == s[..i];
  }

  lemma {:induction false} RunAppend<S>(step: (S, nat) -> (S, seq<nat>), st: S, x: seq<nat>, y: seq<nat>)
    ensures var (st1, out1) := Run(step, st, x);
      var (st2, out2) := Run(step, st1, y);
      Run(step, st, x + y) == (st2, out1 + out2)
  {
    if y == [] {
      assert x + y == x;
      assert Run(step, st, x).1 + [] == Run(step, st, x).1;
    } else {
      var n := |y| - 1;
      RunAppend(step, st, x, y[..n]);
      assert (x + y)[..|x + y| - 1] == x + y[..n];
      var (st1, out1) := Run(step, st, x);
      var (st2, out2) := Run(step, st1, y[..n]);
      var (st3, more) := step(st2, y[n]);
      assert (out1 + out2) + more == out1 + (out2 + more);
    }
  }

  lemma RunOne<S>(step: (S, nat) -> (S, seq<nat>), st: S, c: nat)
    ensures Run(step, st, [c]) == step(st, c)
  {
    assert [c][..0] == [];
    assert Run(step, st, [c][..0]) == (st, []);
    var (st2, more) := step(st, c);
    assert [] + more == more;
  }

  lemma RunCons<S>(step: (S, nat) -> (S, seq<nat>), st: S, c: nat, s: seq<nat>)
    ensures var (st1, out1) := step(st, c);
      var (st2, out2) := Run(step, st1, s);
      Run(step, st, [c] + s) == (st2, out1 + out2)
  {
    RunOne(step, st, c);
    RunAppend(step, st, [c], s);
  }

  lemma RunSnocs<S>(step: (S, nat) -> (S, seq<nat>), st: S, s: seq<nat>, c: nat)
    ensures var (st1, out) := Run(step, st, s); var (st2, more) := step(st1, c);
      Run(step, st, s + [c]) == (st2, out + more)
  {
    RunAppend(step, st, s, [c]);
    RunOne(step, Run(step, st, s).0, c);
  }

  /** One call of a converter: its output, with what is left over put out if this is the last piece. */
  function Output<S>(step: (S, nat) -> (S, seq<nat>), flush: S -> seq<nat>, st: S, s: seq<nat>, end: bool): seq<nat> {
    Run(step, st, s).1 + (if end then flush(Run(step, st, s).0) else [])
  }

  /** Converting in two pieces, the state carried over, gives what converting all at once gives. */
  lemma ChunksAgree<S>(step: (S, nat) -> (S, seq<nat>), flush: S -> seq<nat>, st: S, x: seq<nat>, y: seq<nat>,
                       end: bool)
    ensures Output(step, flush, st, x, false) + Output(step, flush, Run(step, st, x).0, y, end)
      == Output(step, flush, st, x + y, end)
    ensures Run(step, Run(step, st, x).0, y).0 == Run(step, st, x + y).0
  {
    RunAppend(step, st, x, y);
  }

  /** Any number of pieces, the last one marked. */
  function InPieces<S>(step: (S, nat) -> (S, seq<nat>), flush: S -> seq<nat>, st: S, pieces: seq<seq<nat>>): seq<nat>
    decreases |pieces|
  {
    if pieces == [] then []
    else
      Output(step, flush, st, pieces[0], |pieces| == 1)
      + InPieces(step, flush, Run(step, st, pieces[0]).0, pieces[1..])
  }

  /** However a text is cut into pieces, the output is the same. */
  lemma {:induction false} PiecesAgree<S>(step: (S, nat) -> (S, seq<nat>), flush: S -> seq<nat>, st: S,
                                          pieces: seq<seq<nat>>)
    requires pieces != []
    ensures InPieces(step, flush, st, pieces) == Output(step, flush, st, Concat(pieces), true)
    decreases |pieces|
  {
    var st1 := Run(step, st, pieces[0]).0;
    if |pieces| == 1 {
      assert pieces[1..] == [];
      assert Concat(pieces) == pieces[0];
      assert InPieces(step, flush, st1, pieces[1..]) == [];
    } else {
      PiecesAgree(step, flush, st1, pieces[1..]);
      ChunksAgree(step, flush, st, pieces[0], Concat(pieces[1..]), true);
    }
  }

  lemma RunNothing<S>(step: (S, nat) -> (S, seq<nat>), st: S, s: seq<nat>)
    ensures Run(step, st, s[..0]) == (st, [])
  {
  }

  /** A converter that puts nothing out at the end of input. */
  function NoFlush<S(!new)>(): S -> seq<nat> { _ => [] }

  // ---- two-byte codes ----

  /** What s2g and b2g carry over: a CR held back, and the first byte of a pair (0 for none). */
  datatype Pend = Pend(cr: bool, ch: nat)

  function Flush(): Pend -> seq<nat> { (st: Pend) => if st.ch != 0 then [st.ch] else if st.cr then [CR] else [] }

  /** At the end of input, what is left over is put out. */
  method PutRest(cr: bool, ch: nat, dst: array<nat>, dp0: nat) returns (dp: nat)
    requires dp0 < dst.Length
    modifies dst
    ensures dp0 <= dp <= dp0 + 1 && dst[..dp] == old(dst[..dp0]) + Flush()(Pend(cr, ch))
  {
    dp := dp0;
    if ch != 0 {
      dst[dp] := ch;
      dp := dp + 1;
    } else if cr {
      dst[dp] := CR;
      dp := dp + 1;
    }
  }

  /** The end of a call: what is left over is put out, or kept for the next call. */
  method Finish(code: CodingType, cr: bool, ch: nat, dst: array<nat>, dp: nat) returns (len: nat)
    requires dp < dst.Length
    modifies dst, code`cntl, code`ch
    ensures dp <= len <= dp + 1
    ensures dst[..len] == old(dst[..dp]) + (if code.cntl.end then Flush()(Pend(cr, ch)) else [])
    ensures !code.cntl.end ==> code.cntl.cr == cr && code.ch == ch
    ensures code.cntl == old(code.cntl).(cr := code.cntl.cr)
  {
    len := dp;
    if code.cntl.end {
      len := PutRest(cr, ch, dst, dp);
    } else {
      code.cntl, code.ch := code.cntl.(cr := cr), ch;
    }
  }

  /** The line ends have been settled. */
  predicate Fixed(eol: Eol) { eol.EolLf? || eol.EolCrLf? || eol.EolCr? }

  lemma Regroup(out: seq<nat>, held': seq<nat>, held: seq<nat>, u: seq<nat>, rest: seq<nat>)
    requires out + held' == held + u
    ensures out + (held' + rest) == held + (u + rest)
  {
    assert out + (held' + rest) == (out + held') + rest;
    assert (held + u) + rest == held + (u + rest);
  }
}
