// Line ends in ISO 2022 text: whatever they are, i2g does with them what a2g does.

module Iso2022LinesIn {
  import opened Bytes
  import opened Conversion
  import opened Iso2022In
  import opened TextFiles
  import E = EolConversion
  import RT = Iso2022RoundTrip

  // ---- i2g ----

  /** No set is named by a CR or an LF. */
  predicate FinalsInside(t: Tables)
    requires t.Ok()
  {
    forall k :: 0 <= k < 4 ==> t.lcTable[k * 128 + CR] == LCINV == t.lcTable[k * 128 + LF]
  }

  /** Only where a line ends in CR LF is a CR held back, and only while nothing else is. */
  predicate Ready(eol: Eol, st: InState) {
    Ok(st) && (st.cr ==> eol.EolCrLf? && !st.escape && !st.ss2 && !st.ss3 && st.ch == 0)
  }

  /** What a control character finds: everything begun has been given up, */
  function Settled(st: InState): InState { Locked(st).(ch := 0) }

  /** and put out. */
  function GivenUp(st: InState): seq<nat> {
    if st.escape then EscBytes(st.esc)
    else Drain(st.ch) + (if st.ss2 then [SS2 % 128] else if st.ss3 then [SS3 % 128] else [])
  }

  lemma NoFinal(t: Tables, st: InState, c: nat)
    requires t.Ok() && FinalsInside(t) && Ok(st) && st.escape && (c == CR || c == LF)
    ensures st.esc < 0x1F && BytesOk(st) && Lookup(t, st, c) == (CC_ESC_INVALID, st)
  {
  }

  /** A CR that is held back. */
  lemma CrHeld(t: Tables, st: InState)
    requires t.Ok() && FinalsInside(t) && Ok(st) && !st.cr
    ensures In(t, EolCrLf)(st, CR) == (Settled(st).(cr := true), GivenUp(st))
  {
    if st.escape {
      NoFinal(t, st, CR);
      hide Lookup, EscBytes;
      assert Drain(0) + [] == [];
      assert GivenUp(st) + [] == GivenUp(st);
    } else {
      hide EscapeStep, GraphicStep;
    }
  }

  /** A CR or LF that comes through, or a CR that stands for an LF. */
  lemma EndRead(t: Tables, eol: Eol, st: InState, c: nat)
    requires t.Ok() && FinalsInside(t) && Ok(st) && !st.cr && (c == LF || (c == CR && !eol.EolCrLf?))
    ensures In(t, eol)(st, c) == (Settled(st), GivenUp(st) + [if eol.EolCr? then LF else c])
  {
    var d := if eol.EolCr? then LF else c;
    if st.escape {
      NoFinal(t, st, c);
      hide Lookup, EscBytes;
      assert ControlStep(eol, Settled(st), c) == (Settled(st), [d]) by {
        assert Drain(0) + [] == [] && [] + [d] == [d];
      }
    } else {
      hide EscapeStep, GraphicStep;
    }
  }

  /** No other byte is treated differently under another line end. */
  lemma OtherByte(t: Tables, eol: Eol, st: InState, c: nat)
    requires t.Ok() && Ok(st) && !st.cr && c != CR && c < 256
    ensures In(t, eol)(st, c) == In(t, EolLf)(st, c) && Ok(In(t, eol)(st, c).0) && !In(t, eol)(st, c).0.cr
  {
    StepPays(t, eol, st, c);
    OkMeans(st);
    NeverHeld(t, eol, st, c);
    hide EscapeStep, GraphicStep, ControlStep, Ok;
    MicroSame(t, eol, st, c);
    if st.escape {
      MicroPays(t, eol, st, c);
      var (st1, out, used) := Micro(t, eol, st, c);
      if !used {
        EscapeKeeps(t, st, c);
        MicroSame(t, eol, st1, c);
        NeverHeld(t, eol, st1, c);
      } else {
        EscapeKeeps(t, st, c);
      }
    }
  }

  lemma MicroSame(t: Tables, eol: Eol, st: InState, c: nat)
    requires t.Ok() && st.esc < 0x1F && BytesOk(st) && !st.cr && c != CR && c < 256
    ensures Micro(t, eol, st, c) == Micro(t, EolLf, st, c)
  {
    hide EscapeStep, GraphicStep;
  }

  lemma EscapeKeeps(t: Tables, st: InState, c: nat)
    requires t.Ok() && st.esc < 0x1F && c < 256 && Ok(st) && !st.cr && st.escape
    ensures !EscapeStep(t, st, c).0.cr
  {
    LookupOk(t, st, c);
    hide Lookup, EscBytes;
  }

  lemma NeverHeld(t: Tables, eol: Eol, st: InState, c: nat)
    requires t.Ok() && st.esc < 0x1F && BytesOk(st) && !st.cr && c != CR && c < 256
    ensures !st.escape ==> !Micro(t, eol, st, c).0.cr
  {
    hide EscapeStep, CharOut, CharSet;
  }

  /** A byte behind a CR that is held back. */
  lemma AfterCr(t: Tables, d: InState, c: nat)
    requires t.Ok() && Ok(d) && Settled(d) == d && c < 256
    ensures c == LF ==> In(t, EolCrLf)(d.(cr := true), c) == (d, [LF])
    ensures c == CR ==> In(t, EolCrLf)(d.(cr := true), c) == (d.(cr := true), [CR])
    ensures c != CR && c != LF ==>
      In(t, EolCrLf)(d.(cr := true), c) == (In(t, EolCrLf)(d, c).0, [CR] + In(t, EolCrLf)(d, c).1)
  {
    var a := d.(cr := true);
    assert Drain(0) == [];
    if ControlP(c) {
      hide EscapeStep, GraphicStep, Drain;
      var none: seq<nat> := [];
      assert none + none == none && none + [c] == [c] && [CR] + none == [CR] == none + [CR];
    } else {
      assert CharSet(t, a, c) == CharSet(t, d, c);
      hide EscapeStep, ControlStep, CharSet, CharOut;
      var out := CharOut(t, d.cmp, CharSet(t, d, c), 0, c).1;
      assert [] + out == out;
    }
  }

  // ---- the two converters side by side ----

  /** The left one ends its lines as the form says, the right one in LF; it gets what a2g makes of the same text.  A CR
      that a2g holds back has been taken in on the left only. */
  predicate Same(held: bool, a: InState, b: InState) {
    Ok(b) && !b.cr && a == if held then Settled(b).(cr := true) else b
  }

  /** So far the left one has put out more. */
  function Ahead(held: bool, b: InState): seq<nat> { if held then GivenUp(b) else [] }

  lemma SettledAgain(st: InState)
    requires Ok(st)
    ensures Ok(Settled(st)) && Settled(Settled(st)) == Settled(st) && GivenUp(Settled(st)) == []
    ensures !Settled(st).cr
  {
    assert Drain(0) + [] == [];
  }

  /** What a2g does with the byte. */
  lemma EolStepIs(eol: Eol, held: bool, c: nat)
    requires Fixed(eol) && (held ==> eol.EolCrLf?)
    ensures E.In(eol)(held, c)
      == if c == CR && eol.EolCrLf? then (true, if held then [CR] else [])
         else (false, if c == CR && eol.EolCr? then [LF] else if held && c != LF then [CR, c] else [c])
  {
  }

  lemma FreeStep(t: Tables, eol: Eol, b: InState, c: nat)
    requires t.Ok() && FinalsInside(t) && Fixed(eol) && Same(false, b, b) && c < 256 && !(c == CR && eol.EolCrLf?)
    ensures var (a1, more) := In(t, eol)(b, c);
      var (b1, out) := In(t, EolLf)(b, if c == CR && eol.EolCr? then LF else c);
      Same(false, a1, b1) && more == out
  {
    hide In, Settled, GivenUp;
    if c == CR {
      EndRead(t, eol, b, CR);
      EndRead(t, EolLf, b, if eol.EolCr? then LF else CR);
      SettledAgain(b);
    } else {
      OtherByte(t, eol, b, c);
    }
  }

  lemma HeldStep(t: Tables, b: InState, c: nat)
    requires t.Ok() && FinalsInside(t) && Ok(b) && !b.cr && c < 256
    ensures var (a1, more) := In(t, EolCrLf)(Settled(b).(cr := true), c); var d := Settled(b);
      && Ok(d) && !d.cr && In(t, EolLf)(b, CR) == (d, GivenUp(b) + [CR])
      && (c == CR ==> a1 == d.(cr := true) && more == [CR] && Same(true, a1, d) && Ahead(true, d) == [])
      && (c == LF ==> a1 == d && more == [LF] && In(t, EolLf)(b, LF) == (d, GivenUp(b) + [LF]))
      && (c != CR && c != LF ==> var (b1, out) := In(t, EolLf)(d, c); Same(false, a1, b1) && more == [CR] + out)
  {
    var d := Settled(b);
    SettledAgain(b);
    hide In, Settled, GivenUp;
    EndRead(t, EolLf, b, CR);
    EndRead(t, EolLf, b, LF);
    AfterCr(t, d, c);
    if c != CR && c != LF { OtherByte(t, EolCrLf, d, c); }
  }

  lemma StepSame(t: Tables, eol: Eol, held: bool, a: InState, b: InState, c: nat)
    requires t.Ok() && FinalsInside(t) && Fixed(eol) && Same(held, a, b) && (held ==> eol.EolCrLf?) && c < 256
    ensures var (held1, u) := E.In(eol)(held, c); var (a1, more) := In(t, eol)(a, c);
      var (b1, out) := Run(In(t, EolLf), b, u);
      && Same(held1, a1, b1) && (held1 ==> eol.EolCrLf?) && Ahead(held, b) + more == out + Ahead(held1, b1)
  {
    hide In, E.In, Settled, GivenUp, Run, Ok;
    EolStepIs(eol, held, c);
    var c1 := if c == CR && eol.EolCr? then LF else c;
    RunOne(In(t, EolLf), b, c1);
    RunNothing(In(t, EolLf), b, []);
    if held {
      HeldStep(t, b, c);
      RunOne(In(t, EolLf), b, CR);
      RT.RunTwo(In(t, EolLf), b, CR, c);
      var out := In(t, EolLf)(Settled(b), c).1;
      assert GivenUp(b) + ([CR] + out) == (GivenUp(b) + [CR] + out) + [];
    } else if c == CR && eol.EolCrLf? {
      CrHeld(t, b);
    } else {
      FreeStep(t, eol, b, c);
      assert [] + In(t, EolLf)(b, c1).1 == In(t, EolLf)(b, c1).1 + [];
    }
  }

  lemma {:induction false} RunSame(t: Tables, eol: Eol, held: bool, a: InState, b: InState, s: seq<nat>)
    requires t.Ok() && FinalsInside(t) && Fixed(eol) && Same(held, a, b) && (held ==> eol.EolCrLf?) && AreBytes(s)
    ensures var (held1, u) := Run(E.In(eol), held, s); var (a1, more) := Run(In(t, eol), a, s);
      var (b1, out) := Run(In(t, EolLf), b, u);
      && Same(held1, a1, b1) && (held1 ==> eol.EolCrLf?) && Ahead(held, b) + more == out + Ahead(held1, b1)
  {
    if s == [] {
      RunNothing(In(t, EolLf), b, []);
      assert Ahead(held, b) + [] == [] + Ahead(held, b);
    } else {
      var n, c := |s| - 1, s[|s| - 1];
      assert AreBytes(s[..n]) && c < 256 && s[..n + 1] == s;
      hide *;
      RunSame(t, eol, held, a, b, s[..n]);
      var (held1, u) := Run(E.In(eol), held, s[..n]);
      var (a1, more) := Run(In(t, eol), a, s[..n]);
      var (b1, out) := Run(In(t, EolLf), b, u);
      StepSame(t, eol, held1, a1, b1, c);
      RunSnoc(E.In(eol), held, s, n);
      RunSnoc(In(t, eol), a, s, n);
      var (held2, u2) := E.In(eol)(held1, c);
      var (b2, out2) := Run(In(t, EolLf), b1, u2);
      RunAppend(In(t, EolLf), b, u, u2);
      Linked(Ahead(held, b), more, In(t, eol)(a1, c).1, out, out2, Ahead(held1, b1), Ahead(held2, b2));
    }
  }

  lemma Linked(h: seq<nat>, more: seq<nat>, more2: seq<nat>, out: seq<nat>, out2: seq<nat>, mid: seq<nat>,
               left: seq<nat>)
    requires h + more == out + mid && mid + more2 == out2 + left
    ensures h + (more + more2) == (out + out2) + left
  {
    assert h + (more + more2) == (out + mid) + more2;
    assert (out + mid) + more2 == out + (mid + more2);
    assert out + (out2 + left) == (out + out2) + left;
  }

  lemma ReadyMeans(eol: Eol, st: InState)
    requires Ready(eol, st)
    ensures Same(st.cr, st, st.(cr := false)) && Ahead(st.cr, st.(cr := false)) == [] && (st.cr ==> eol.EolCrLf?)
  {
    assert Drain(0) + [] == [];
  }

  lemma HeldFlush(t: Tables, b: InState)
    requires t.Ok() && FinalsInside(t) && Ok(b) && !b.cr
    ensures FlushCh()(Settled(b).(cr := true)) == [] == FlushCh()(Settled(b))
    ensures In(t, EolLf)(b, CR) == (Settled(b), GivenUp(b) + [CR])
  {
    EndRead(t, EolLf, b, CR);
  }

  /** Under any line ends i2g puts out what it would put out with LF for the text a2g makes of its input; only a CR held
      back at the very end is lost, as it is by a2g. */
  lemma Decoded(t: Tables, eol: Eol, st: InState, s: seq<nat>, end: bool)
    requires t.Ok() && FinalsInside(t) && Fixed(eol) && Ready(eol, st) && AreBytes(s)
    ensures var (held, u) := Run(E.In(eol), st.cr, s); var b := st.(cr := false);
      if held then
        Output(In(t, eol), FlushCh(), st, s, end) + [CR] == Output(In(t, EolLf), FlushCh(), b, u + [CR], end)
      else Output(In(t, eol), FlushCh(), st, s, end) == Output(In(t, EolLf), FlushCh(), b, u, end)
  {
    var b := st.(cr := false);
    ReadyMeans(eol, st);
    RunSame(t, eol, st.cr, st, b, s);
    var (held, u) := Run(E.In(eol), st.cr, s);
    var (a1, more) := Run(In(t, eol), st, s);
    var (b1, out) := Run(In(t, EolLf), b, u);
    assert Ok(b1) && !b1.cr;
    hide Run, Settled, GivenUp, FlushCh, In, E.In, Ok;
    assert [] + more == more;
    if held {
      HeldFlush(t, b1);
      RunSnocs(In(t, EolLf), b, u, CR);
      assert (out + GivenUp(b1)) + [CR] == out + (GivenUp(b1) + [CR]);
      assert more + [] == more && (more + [CR]) + [] == more + [CR];
    } else {
      assert out + [] == out;
    }
  }

  /** ASCII is in use, and nothing has been begun. */
  predicate ReadsAscii(t: Tables, st: InState)
    requires t.Ok()
  {
    && RT.Quiet(st.(cr := false)) && st.g0 == LCASCII && !st.so && !st.r2l && !st.cmp
    && t.bytes[LCASCII] == 1 && !t.r2l[LCASCII]
  }

  lemma {:induction false} AsciiRead(t: Tables, d: InState, s: seq<nat>)
    requires t.Ok() && ReadsAscii(t, d) && !d.cr && forall i :: 0 <= i < |s| ==> RT.PlainAscii(s[i])
    ensures Run(In(t, EolLf), d, s) == (d, s)
  {
    if s != [] {
      var n := |s| - 1;
      assert s == s[..n] + [s[n]] && RT.PlainAscii(s[n]);
      AsciiRead(t, d, s[..n]);
      AsciiByte(t, d, s[n]);
    }
  }

  lemma AsciiByte(t: Tables, d: InState, c: nat)
    requires t.Ok() && ReadsAscii(t, d) && !d.cr && RT.PlainAscii(c)
    ensures In(t, EolLf)(d, c) == (d, [c])
  {
    var none: seq<nat> := [];
    assert Drain(0) == [] && none + none == none && none + [c] == [c] && Ok(d);
    if c >= 0x20 {
      assert CharSet(t, d, c) == LCASCII;
      assert CharOut(t, false, LCASCII, 0, c) == (0, [c]);
      hide CharSet, CharOut;
    } else {
      hide GraphicStep, EscapeStep;
    }
  }

  /** A line end, or an ASCII character other than ESC, SO and SI. */
  predicate AsciiItem(eol: Eol, item: Item) { E.ItemOk(eol, item) && (item.Plain? ==> RT.PlainAscii(item.c)) }

  lemma {:induction false} PlainText(eol: Eol, items: seq<Item>)
    requires forall i :: 0 <= i < |items| ==> AsciiItem(eol, items[i])
    ensures forall i :: 0 <= i < |BufferText(items)| ==> RT.PlainAscii(BufferText(items)[i])
    ensures AreBytes(FileText(eol, items))
  {
    if items != [] {
      PlainText(eol, items[1..]);
      assert AsciiItem(eol, items[0]);
    }
  }

  /** Whether the file ends in a CR that ends no line. */
  predicate EndsHeld(eol: Eol, items: seq<Item>) { items != [] && HeldAfter(eol, items[|items| - 1]) }

  lemma AsciiOutput(t: Tables, d: InState, s: seq<nat>, end: bool)
    requires t.Ok() && ReadsAscii(t, d) && !d.cr && forall i :: 0 <= i < |s| ==> RT.PlainAscii(s[i])
    ensures Output(In(t, EolLf), FlushCh(), d, s, end) == s
  {
    AsciiRead(t, d, s);
    hide Run, In;
    assert s + [] == s;
  }

  lemma LinesReady(t: Tables, eol: Eol, st: InState, items: seq<Item>)
    requires t.Ok() && ReadsAscii(t, st) && !st.cr && forall i :: 0 <= i < |items| ==> AsciiItem(eol, items[i])
    ensures Ready(eol, st) && st.(cr := false) == st && forall i :: 0 <= i < |items| ==> E.ItemOk(eol, items[i])
    ensures EndsHeld(eol, items) == if items == [] then false else HeldAfter(eol, items[|items| - 1])
  {
  }

  lemma HeldIs(u: seq<nat>)
    ensures u + Held(false) == u == Held(false) + u && u + Held(true) == u + [CR]
  {
  }

  /** A file of lines is read as those lines, each ending in LF.  A CR that ends no line stays, unless it is the very
      last byte. */
  lemma LinesRead(t: Tables, eol: Eol, st: InState, items: seq<Item>, end: bool)
    requires t.Ok() && FinalsInside(t) && Fixed(eol) && ReadsAscii(t, st) && !st.cr
    requires forall i :: 0 <= i < |items| ==> AsciiItem(eol, items[i])
    ensures Output(In(t, eol), FlushCh(), st, FileText(eol, items), end) + Held(EndsHeld(eol, items))
      == BufferText(items)
  {
    hide *;
    var file, text := FileText(eol, items), BufferText(items);
    LinesReady(t, eol, st, items);
    PlainText(eol, items);
    E.Lines(eol, false, items);
    Decoded(t, eol, st, file, end);
    AsciiOutput(t, st, text, end);
    HeldIs(text);
    HeldIs(Run(E.In(eol), false, file).1);
    HeldIs(Output(In(t, eol), FlushCh(), st, file, end));
  }

  /** Into however many pieces it is cut. */
  lemma PiecesRead(t: Tables, eol: Eol, st: InState, items: seq<Item>, pieces: seq<seq<nat>>)
    requires t.Ok() && FinalsInside(t) && Fixed(eol) && ReadsAscii(t, st) && !st.cr
    requires forall i :: 0 <= i < |items| ==> AsciiItem(eol, items[i])
    requires pieces != [] && Concat(pieces) == FileText(eol, items)
    ensures InPieces(In(t, eol), FlushCh(), st, pieces) + Held(EndsHeld(eol, items)) == BufferText(items)
  {
    PiecesAgree(In(t, eol), FlushCh(), st, pieces);
    LinesRead(t, eol, st, items, true);
  }
}
