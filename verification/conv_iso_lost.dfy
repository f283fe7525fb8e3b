// What i2g loses: bytes held back when the input ends, and the last byte of an LCPRV3 character.

module Iso2022Lost {
  import opened Bytes
  import opened Conversion
  import opened Iso2022In

  /** Nothing is held back but bytes of a character. */
  predicate NothingHeld(st: InState) { !st.cr && !st.escape && !st.ss2 && !st.ss3 }

  lemma ControlOut(eol: Eol, st: InState)
    requires Ok(st) && !st.escape
    ensures ControlStep(eol, st, 0).1 == FlushCh()(st) + [0] <==> NothingHeld(st)
  {
    hide Drain;
    var held: seq<nat> := if st.ss2 then [SS2 % 128] else if st.ss3 then [SS3 % 128] else if st.cr then [CR] else [];
    assert ControlStep(eol, st, 0).1 == Drain(st.ch) + held + [0];
    assert held == [] ==> Drain(st.ch) + held + [0] == Drain(st.ch) + [0];
    if held != [] { assert |Drain(st.ch) + held + [0]| == |Drain(st.ch) + [0]| + |held|; }
  }

  /** What the final flush puts out is all that another byte would have brought out if and only if no CR, no
      escape sequence and no single shift is held back. */
  lemma FlushIsAll(t: Tables, eol: Eol, st: InState)
    requires t.Ok() && Ok(st)
    ensures Step(t, eol, st, 0).1 == FlushCh()(st) + [0] <==> NothingHeld(st)
  {
    OkMeans(st);
    if !st.escape {
      ControlOut(eol, st);
      hide ControlStep;
    } else {
      EscapeOut(t, st);
      hide EscapeStep, ControlStep;
    }
  }

  /** Within an escape sequence the flush puts nothing out, and another byte never brings out just itself. */
  lemma EscapeOut(t: Tables, st: InState)
    requires t.Ok() && Ok(st) && st.escape
    ensures FlushCh()(st) + [0] == [0]
    ensures var (st1, out1, used) := EscapeStep(t, st, 0);
      if used then out1 == [] || out1 == [LCCMP] else |out1| > 0 && out1[0] == ESC
  {
    OkMeans(st);
    hide Lookup;
  }

  /** A CR that ends the input is lost under CR LF. */
  lemma LastCrLost(t: Tables, st: InState, s: seq<nat>)
    requires t.Ok() && Ok(st) && AreBytes(s) && NothingHeld(Run(In(t, EolCrLf), st, s).0)
    ensures Output(In(t, EolCrLf), FlushCh(), st, s + [CR], true) == Output(In(t, EolCrLf), FlushCh(), st, s, true)
  {
    RunPays(t, EolCrLf, st, s);
    LastByte(t, EolCrLf, st, s, CR);
  }

  /** So is an ESC, under any line ends. */
  lemma LastEscLost(t: Tables, eol: Eol, st: InState, s: seq<nat>)
    requires t.Ok() && Ok(st) && AreBytes(s) && NothingHeld(Run(In(t, eol), st, s).0)
    ensures Output(In(t, eol), FlushCh(), st, s + [ESC], true) == Output(In(t, eol), FlushCh(), st, s, true)
  {
    RunPays(t, eol, st, s);
    LastByte(t, eol, st, s, ESC);
  }

  lemma LastByte(t: Tables, eol: Eol, st: InState, s: seq<nat>, c: nat)
    requires t.Ok() && Ok(st) && AreBytes(s) && Ok(Run(In(t, eol), st, s).0) && NothingHeld(Run(In(t, eol), st, s).0)
    requires c == ESC || (c == CR && eol.EolCrLf?)
    ensures Output(In(t, eol), FlushCh(), st, s + [c], true) == Output(In(t, eol), FlushCh(), st, s, true)
  {
    hide Run;
    var (st1, out) := Run(In(t, eol), st, s);
    RunAppend(In(t, eol), st, s, [c]);
    RunOne(In(t, eol), st1, c);
    assert Drain(0) == [];
    hide Drain;
    var (st2, more) := In(t, eol)(st1, c);
    assert st2.ch == 0 && more == Drain(st1.ch) + [];
    assert out + (Drain(st1.ch) + []) + [] == out + Drain(st1.ch);
  }

  /** The third payload byte of an LCPRV3 character makes no difference; the other two are kept. */
  lemma LastOfPrivateLost(t: Tables, cmp: bool, a: nat, b: nat, c: nat)
    requires t.Ok() && t.bytes[LCPRV3] == 4 && a < 256 && 0 < b < 256
    ensures CharOut(t, cmp, LCPRV3, a, b) == if a == 0 then (b, []) else (a + 256 * b, [])
    ensures CharOut(t, cmp, LCPRV3, a + 256 * b, c)
      == (0, [if cmp then LCPRV3 + 0x20 else LCPRV3, Low8(a + 0x40), b, 0xFF])
  {
    DrainIs(a);
    DrainIs(a + 256 * b);
    assert (a + 256 * b) % 256 == a && (a + 256 * b) / 256 == b;
    var text: seq<nat> := [if cmp then LCPRV3 + 0x20 else LCPRV3, Low8(a + 0x40), b, 0xFF];
    assert [] + text == text;
    hide Drain, DrainAbove;
  }
}
