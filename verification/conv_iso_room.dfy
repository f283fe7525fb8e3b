// How much room g2i needs: CONV_BUF_SIZE gives it five bytes for each byte of text, and 256 more.

module Iso2022Room {
  import opened Bytes
  import opened Conversion
  import opened Iso2022In
  import O = Iso2022Out
  import RT = Iso2022RoundTrip

  /** CONV_BUF_SIZE for ISO 2022. */
  function Room(n: nat): nat { 5 * n + 256 }

  /** ASCII and its stand-in are designated by three bytes, and control characters belong to ASCII. */
  predicate Usual(conf: O.Conf) {
    && conf.Ok() && conf.form.asciiCntl && !conf.selective
    && conf.t.kind[LCASCII] == TYPE94 && (conf.form.useRoman ==> conf.t.kind[LCROMAN] == TYPE94)
  }

  /** A set of one or two bytes; a set of one byte is designated by three bytes. */
  predicate Plain(conf: O.Conf, lc: nat)
    requires conf.Ok()
  {
    && 0x81 <= lc < LCPRV11 && 2 <= conf.t.bytes[lc] <= 3
    && (conf.t.bytes[lc] == 2 ==> conf.t.kind[lc] <= TYPE96 && lc != LCJP)
  }

  /** One character. */
  predicate Char(conf: O.Conf, u: seq<nat>)
    requires conf.Ok()
  {
    if |u| == 1 then u[0] < 0x80
    else |u| > 1 && Plain(conf, u[0]) && |u| == conf.t.bytes[u[0]] && forall i :: 1 <= i < |u| ==> 0xA0 <= u[i] <= 0xFF
  }

  predicate Text(conf: O.Conf, chars: seq<seq<nat>>)
    requires conf.Ok()
  {
    forall i :: 0 <= i < |chars| ==> Char(conf, chars[i])
  }

  /** One escape sequence stands for both sets. */
  predicate SameSequence(conf: O.Conf, lc1: nat, lc2: nat)
    requires conf.t.Ok() && lc1 < 256 && lc2 < 256
  {
    conf.t.kind[lc1] == conf.t.kind[lc2] && conf.t.final[lc1] == conf.t.final[lc2]
  }

  /** Going back to the initial designation of G0 at the end of a line costs nothing. */
  predicate CheapLines(conf: O.Conf)
    requires conf.Ok()
  {
    conf.form.asciiEol ==> conf.o0 == LCINV || SameSequence(conf, conf.o0, LCASCII)
  }

  /** Whether a character of this set begins right-to-left text. */
  predicate Enters(conf: O.Conf, r2l: bool, lc: nat)
    requires conf.Ok() && lc < 256
  {
    !AsciiP(lc) && !conf.form.nodir && !r2l && conf.t.r2l[lc]
  }

  /** The direction after a character of this set. */
  predicate Leftwards(conf: O.Conf, r2l: bool, lc: nat)
    requires conf.Ok() && lc < 256
  {
    !AsciiP(lc) && conf.t.r2l[lc] && (r2l || !conf.form.nodir)
  }

  /** How often a text begins to run from right to left. */
  function Entries(conf: O.Conf, chars: seq<seq<nat>>, r2l: bool): nat
    requires conf.Ok() && Text(conf, chars)
  {
    if chars == [] then 0
    else
      assert Char(conf, chars[0]);
      (if Enters(conf, r2l, chars[0][0]) then 1 else 0) + Entries(conf, chars[1..], Leftwards(conf, r2l, chars[0][0]))
  }

  predicate Between(e: O.OutState) { O.GsOk(e) && e.ch == 0 && e.comp == O.CMP_NONE }

  /** Bytes that may have to be put out at the next end of a line for one set, and for all of them. */
  function Owed(conf: O.Conf, e: O.OutState, g: nat): (n: nat)
    ensures n <= 4
  {
    if conf.form.asciiEol && O.Initial(conf, g) != LCINV && O.Current(e, g) != O.Initial(conf, g) then 4 else 0
  }

  function Debt(conf: O.Conf, e: O.OutState): nat {
    (if e.r2l then 4 else 0) + (if e.shift then 1 else 0) + Owed(conf, e, 1) + Owed(conf, e, 2) + Owed(conf, e, 3)
  }

  lemma ChangeFits(conf: O.Conf, current: nat, lc: nat, g: nat)
    requires conf.Ok() && current < 256 && lc < 256
    ensures |O.Change(conf, current, lc, g)| <= 4 && (current == lc ==> O.Change(conf, current, lc, g) == [])
    ensures conf.t.kind[O.Named(conf.form, lc)] <= TYPE96 ==> |O.Change(conf, current, lc, g)| <= 3
  {
  }

  /** What is owed apart from slot g. */
  function Besides(conf: O.Conf, e: O.OutState, g: nat): nat {
    (if e.r2l then 4 else 0) + (if e.shift then 1 else 0) + (if g == 1 then 0 else Owed(conf, e, 1))
    + (if g == 2 then 0 else Owed(conf, e, 2)) + (if g == 3 then 0 else Owed(conf, e, 3))
  }

  /** What a leading byte may cost: the designation, the shift, and what is owed afterwards. */
  predicate Pays(conf: O.Conf, before: nat, r: (O.OutState, seq<nat>), lc: nat)
    requires conf.Ok() && lc < 256
  {
    |r.1| + Debt(conf, r.0) <= before + (if conf.t.bytes[lc] == 2 then 9 else 10)
  }

  lemma ShiftsPay(conf: O.Conf, e: O.OutState, lc: nat)
    requires conf.Ok() && O.GsOk(e) && Plain(conf, lc)
    ensures Pays(conf, Besides(conf, e, 0), O.Designation0(conf, e, lc), lc)
    ensures Pays(conf, Besides(conf, e, 1), O.Designation1(conf, e, lc), lc)
    ensures Pays(conf, Besides(conf, e, 1), O.LockingShift(conf, e, lc), lc)
    ensures Pays(conf, Besides(conf, e, 2), O.SingleShift2(conf, e, lc), lc)
    ensures Pays(conf, Besides(conf, e, 3), O.SingleShift3(conf, e, lc), lc)
  {
    ChangeFits(conf, e.g0, lc, 0);
    ChangeFits(conf, e.g1, lc, 1);
    ChangeFits(conf, e.g2, lc, 2);
    ChangeFits(conf, e.g3, lc, 3);
    hide O.Change;
  }

  lemma BesidesFits(conf: O.Conf, e: O.OutState)
    ensures Besides(conf, e, 0) == Besides(conf, e.(g0 := LCINV, i0 := false), 0) <= Debt(conf, e)
    ensures Besides(conf, e, 1) == Besides(conf, e.(g1 := LCINV, i1 := false), 1) <= Debt(conf, e)
    ensures Besides(conf, e, 2) == Besides(conf, e.(g2 := LCINV, i2 := false), 2) <= Debt(conf, e)
    ensures Besides(conf, e, 3) == Besides(conf, e.(g3 := LCINV, i3 := false), 3) <= Debt(conf, e)
  {
  }

  lemma PlacePays(conf: O.Conf, e: O.OutState, lc: nat)
    requires conf.Ok() && O.GsOk(e) && Plain(conf, lc)
    ensures Pays(conf, Debt(conf, e), O.Place(conf, e, lc), lc)
  {
    BesidesFits(conf, e);
    ShiftsPay(conf, e, lc);
    assert lc < 256 && conf.t.Ok();
    hide O.Designation0, O.Designation1, O.LockingShift, O.SingleShift2, O.SingleShift3, Debt, Besides, Plain;
    if lc == e.g0 || lc == conf.o0 {
      if e.i0 { ShiftsPay(conf, e.(g0 := LCINV, i0 := false), lc); }
    } else if lc == e.g1 || lc == conf.o1 {
      if e.i1 { ShiftsPay(conf, e.(g1 := LCINV, i1 := false), lc); }
    } else if lc == e.g2 || lc == conf.o2 {
      if e.i2 { ShiftsPay(conf, e.(g2 := LCINV, i2 := false), lc); }
    } else if lc == e.g3 || lc == conf.o3 {
      if e.i3 { ShiftsPay(conf, e.(g3 := LCINV, i3 := false), lc); }
    }
  }

  lemma ShiftsAim(conf: O.Conf, e: O.OutState, lc: nat)
    requires conf.Ok() && O.GsOk(e) && lc < 256
    ensures O.InUse(O.Designation0(conf, e, lc).0) == lc && O.InUse(O.Designation1(conf, e, lc).0) == lc
    ensures O.InUse(O.LockingShift(conf, e, lc).0) == lc
    ensures O.InUse(O.SingleShift2(conf, e, lc).0) == lc && O.InUse(O.SingleShift3(conf, e, lc).0) == lc
  {
    hide O.Change, O.ShiftIn;
  }

  lemma PlaceAims(conf: O.Conf, e: O.OutState, lc: nat)
    requires conf.Ok() && O.GsOk(e) && lc < 256
    ensures O.InUse(O.Place(conf, e, lc).0) == lc
  {
    hide O.Designation0, O.Designation1, O.LockingShift, O.SingleShift2, O.SingleShift3, O.InUse;
    ShiftsAim(conf, e, lc);
    ShiftsAim(conf, e.(g0 := LCINV, i0 := false), lc);
    ShiftsAim(conf, e.(g1 := LCINV, i1 := false), lc);
    ShiftsAim(conf, e.(g2 := LCINV, i2 := false), lc);
    ShiftsAim(conf, e.(g3 := LCINV, i3 := false), lc);
  }

  /** What is put out when the direction changes before a leading byte. */
  function Turn(conf: O.Conf, e: O.OutState, lc: nat): seq<nat>
    requires conf.Ok() && lc < 256
  {
    if e.r2l && !conf.t.r2l[lc] then O.RevertDirection(conf.form)
    else if Enters(conf, e.r2l, lc) then O.StartRightToLeft(conf.form)
    else []
  }

  lemma LeadIsStep(conf: O.Conf, e: O.OutState, lc: nat)
    requires Usual(conf) && Between(e) && Plain(conf, lc)
    ensures O.Out(conf)(e, lc) == O.LeadStep(conf, e, lc)
  {
    hide O.LeadStep, O.AsciiStep, O.NonAsciiStep;
  }

  lemma LeadOut(conf: O.Conf, e: O.OutState, lc: nat)
    requires Usual(conf) && Between(e) && Plain(conf, lc)
    ensures var e0 := e.(boundary := false, r2l := Leftwards(conf, e.r2l, lc));
      O.Out(conf)(e, lc) == (O.Place(conf, e0, lc).0, Turn(conf, e, lc) + O.Place(conf, e0, lc).1)
  {
    LeadIsStep(conf, e, lc);
    hide O.Place, O.RevertDirection, O.StartRightToLeft, O.Out;
    var e0 := e.(boundary := false, r2l := Leftwards(conf, e.r2l, lc));
    assert e0 == e.(ch := 0, boundary := false).(r2l := e0.r2l);
    RT.PlaceKeeps(conf, e0, lc);
    var (e1, out) := O.Place(conf, e0, lc);
    assert e1.(comp := O.CMP_NONE) == e1;
  }

  lemma TurnPays(conf: O.Conf, e: O.OutState, lc: nat)
    requires conf.Ok() && 0x80 <= lc < 256
    ensures |Turn(conf, e, lc)| + Debt(conf, e.(boundary := false, r2l := Leftwards(conf, e.r2l, lc)))
      <= Debt(conf, e) + (if Enters(conf, e.r2l, lc) then 8 else 0)
  {
  }

  lemma LeadPays(conf: O.Conf, e: O.OutState, lc: nat)
    requires Usual(conf) && Between(e) && Plain(conf, lc)
    ensures var r := O.Out(conf)(e, lc);
      && Pays(conf, Debt(conf, e) + (if Enters(conf, e.r2l, lc) then 8 else 0), r, lc)
      && Between(r.0) && O.InUse(r.0) == lc && r.0.r2l == Leftwards(conf, e.r2l, lc)
  {
    LeadOut(conf, e, lc);
    TurnPays(conf, e, lc);
    var e0 := e.(boundary := false, r2l := Leftwards(conf, e.r2l, lc));
    PlacePays(conf, e0, lc);
    RT.PlaceKeeps(conf, e0, lc);
    PlaceAims(conf, e0, lc);
    O.PlaceOk(conf, e0, lc);
    hide O.Place, O.Out, Debt, O.InUse, Enters, Leftwards, Turn;
  }

  lemma SameDebt(conf: O.Conf, e: O.OutState, ch: nat, boundary: bool)
    ensures Debt(conf, e.(ch := ch, boundary := boundary)) == Debt(conf, e)
    ensures O.InUse(e.(ch := ch, boundary := boundary)) == O.InUse(e)
  {
  }

  lemma PayloadPays(conf: O.Conf, e: O.OutState, lc: nat, p: seq<nat>)
    requires Usual(conf) && Between(e) && Plain(conf, lc) && O.InUse(e) == lc
    requires |p| == conf.t.bytes[lc] - 1 && forall i :: 0 <= i < |p| ==> 0xA0 <= p[i] <= 0xFF
    ensures var (e1, out) := Run(O.Out(conf), e, p);
      |out| == |p| && Debt(conf, e1) == Debt(conf, e) && Between(e1) && e1.r2l == e.r2l
  {
    hide O.Out, Run, Debt, O.InUse;
    RT.PayloadOut(conf, e, lc, p[0]);
    SameDebt(conf, e, e.ch, true);
    if |p| == 1 {
      assert p == [p[0]];
      RunOne(O.Out(conf), e, p[0]);
      assert e.(ch := e.ch, boundary := true) == e.(boundary := true);
    } else {
      assert p == [p[0], p[1]];
      SameDebt(conf, e, p[0], false);
      var e1 := e.(ch := p[0], boundary := false);
      RT.PayloadOut(conf, e1, lc, p[1]);
      RT.RunTwo(O.Out(conf), e, p[0], p[1]);
      assert e1.(ch := 0, boundary := true) == e.(boundary := true);
      assert e.(ch := e.ch, boundary := true) == e.(boundary := true);
    }
  }

  // ---- ASCII ----

  lemma ToAsciiPays(conf: O.Conf, e: O.OutState, c: nat)
    requires Usual(conf) && Between(e) && c < 0x80
    ensures var (e1, out) := O.ToAscii(conf, e, c);
      |out| + Debt(conf, e1) <= Debt(conf, e) + 3 && Between(e1) && e1.g0 == LCASCII && !e1.shift && e1.r2l == e.r2l
  {
    ChangeFits(conf, e.g0, LCASCII, 0);
    hide O.Change;
  }

  lemma Assigned(e: O.OutState, g: nat, lc: nat, h: nat)
    requires g <= 3 && h <= 3
    ensures O.Current(O.Assign(e, g, lc), h) == if g == h then lc else O.Current(e, h)
    ensures O.Assign(e, g, lc).shift == e.shift
  {
  }

  lemma Settles(conf: O.Conf, e: O.OutState, g: nat)
    requires g <= 3
    ensures var e1 := O.Assign(e, g, O.Initial(conf, g));
      && Owed(conf, e1, g) == 0 && e1.shift == e.shift && (g != 0 ==> e1.g0 == e.g0)
      && forall h | 1 <= h <= 3 && h != g :: Owed(conf, e1, h) == Owed(conf, e, h)
  {
    Assigned(e, g, O.Initial(conf, g), 0);
    Assigned(e, g, O.Initial(conf, g), 1);
    Assigned(e, g, O.Initial(conf, g), 2);
    Assigned(e, g, O.Initial(conf, g), 3);
    hide O.Assign, O.Initial;
  }

  lemma RestoreOnePays(conf: O.Conf, e: O.OutState, g: nat)
    requires conf.Ok() && O.GsOk(e) && g <= 3 && conf.form.asciiEol
      && (g == 0 ==> conf.o0 == LCINV || SameSequence(conf, e.g0, conf.o0))
    ensures var (e1, out) := O.RestoreOne(conf, e, g); |out| + Debt(conf, e1) <= Debt(conf, e)
  {
    Settles(conf, e, g);
    var now, first := O.Current(e, g), O.Initial(conf, g);
    ChangeFits(conf, now, first, g);
    assert g != 0 && first != LCINV ==> |O.Change(conf, now, first, g)| <= Owed(conf, e, g);
    assert g == 0 && first != LCINV ==> O.Change(conf, now, first, g) == [];
    hide O.Change, Owed, O.Assign, O.GsOk, O.Conf.Ok;
  }

  lemma RestorePays(conf: O.Conf, e: O.OutState)
    requires conf.Ok() && O.GsOk(e) && conf.form.asciiEol && (conf.o0 == LCINV || SameSequence(conf, e.g0, conf.o0))
    ensures var (e1, out) := O.Restore(conf, e); |out| + Debt(conf, e1) <= Debt(conf, e)
  {
    hide O.RestoreOne, Debt;
    var e0 := O.RestoreOne(conf, e, 0).0;
    RestoreOnePays(conf, e, 0);
    O.RestoreOneOk(conf, e, 0);
    var e1 := O.RestoreOne(conf, e0, 1).0;
    RestoreOnePays(conf, e0, 1);
    O.RestoreOneOk(conf, e0, 1);
    var e2 := O.RestoreOne(conf, e1, 2).0;
    RestoreOnePays(conf, e1, 2);
    O.RestoreOneOk(conf, e1, 2);
    RestoreOnePays(conf, e2, 3);
  }

  lemma AtLineEndPays(conf: O.Conf, e: O.OutState, c: nat)
    requires Usual(conf) && CheapLines(conf) && Between(e) && e.g0 == LCASCII && !e.shift && !e.r2l
    ensures var (e1, out) := O.AtLineEnd(conf, e, c); |out| + Debt(conf, e1) <= Debt(conf, e) && Between(e1) && !e1.r2l
  {
    if c == LF && conf.form.asciiEol {
      RestorePays(conf, e);
      var (e1, out) := O.Restore(conf, e);
      assert [] + ([] + out) == out;
      assert e1.(r2l := false, comp := O.CMP_NONE, shift := false) == e1;
      hide O.Restore, Debt;
    }
  }

  lemma AsciiOut(conf: O.Conf, e: O.OutState, c: nat)
    requires Usual(conf) && Between(e) && c < 0x80
    requires O.GsOk(O.ToAscii(conf, e.(r2l := false), c).0)
    requires O.AtLineEnd(conf, O.ToAscii(conf, e.(r2l := false), c).0, c).0.comp == O.CMP_NONE
    ensures var (e2, out2) := O.ToAscii(conf, e.(r2l := false), c); var (e3, out3) := O.AtLineEnd(conf, e2, c);
      var revert := if e.r2l then O.RevertDirection(conf.form) else [];
      O.Out(conf)(e, c) == (e3.(graphic := 0, boundary := true), revert + (out2 + (out3 + O.LineEnd(conf.form.eol, c))))
  {
    hide O.ToAscii, O.AtLineEnd, O.LineEnd, O.RevertDirection;
    assert e.(ch := 0, r2l := false) == e.(r2l := false);
    var (e2, out2) := O.ToAscii(conf, e.(r2l := false), c);
    var (e3, out3) := O.AtLineEnd(conf, e2, c);
    assert e3.(graphic := 0, boundary := true, comp := O.CMP_NONE) == e3.(graphic := 0, boundary := true);
    assert O.Out(conf)(e, c) == O.AsciiStep(conf, e, c);
  }

  lemma AsciiPays(conf: O.Conf, e: O.OutState, c: nat)
    requires Usual(conf) && CheapLines(conf) && Between(e) && c < 0x80
    ensures var (e1, out) := O.Out(conf)(e, c); |out| + Debt(conf, e1) <= Debt(conf, e) + 5 && Between(e1) && !e1.r2l
  {
    var e0 := e.(r2l := false);
    assert Debt(conf, e0) == Debt(conf, e) - if e.r2l then 4 else 0;
    assert |O.RevertDirection(conf.form)| <= 4;
    assert 1 <= |O.LineEnd(conf.form.eol, c)| <= 2;
    ToAsciiPays(conf, e0, c);
    var e2 := O.ToAscii(conf, e0, c).0;
    AtLineEndPays(conf, e2, c);
    DebtMarks(conf, O.AtLineEnd(conf, e2, c).0);
    AsciiOut(conf, e, c);
    hide O.ToAscii, O.AtLineEnd, O.LineEnd, O.RevertDirection, O.Out, Debt;
  }

  lemma DebtMarks(conf: O.Conf, e: O.OutState)
    ensures Debt(conf, e.(graphic := 0, boundary := true)) == Debt(conf, e)
  {
  }

  // ---- texts ----

  lemma CharPays(conf: O.Conf, e: O.OutState, u: seq<nat>)
    requires Usual(conf) && CheapLines(conf) && Between(e) && Char(conf, u)
    ensures var (e1, out) := Run(O.Out(conf), e, u);
      && |out| + Debt(conf, e1) <= Debt(conf, e) + 5 * |u| + (if Enters(conf, e.r2l, u[0]) then 8 else 0)
      && Between(e1) && e1.r2l == Leftwards(conf, e.r2l, u[0])
  {
    hide Run, O.Out, Debt, O.InUse;
    if |u| == 1 {
      AsciiPays(conf, e, u[0]);
      RunOne(O.Out(conf), e, u[0]);
      assert u == [u[0]];
    } else {
      LeadPays(conf, e, u[0]);
      var e1 := O.Out(conf)(e, u[0]).0;
      PayloadPays(conf, e1, u[0], u[1..]);
      RunCons(O.Out(conf), e, u[0], u[1..]);
      assert u == [u[0]] + u[1..];
    }
  }

  lemma {:induction false} TextPays(conf: O.Conf, e: O.OutState, chars: seq<seq<nat>>)
    requires Usual(conf) && CheapLines(conf) && Between(e) && Text(conf, chars)
    ensures var (e1, out) := Run(O.Out(conf), e, Concat(chars));
      |out| + Debt(conf, e1) <= Debt(conf, e) + 5 * |Concat(chars)| + 8 * Entries(conf, chars, e.r2l) && Between(e1)
    decreases |chars|
  {
    hide Run, O.Out, Debt, Between, Enters, Leftwards;
    if chars == [] {
      RunNothing(O.Out(conf), e, []);
    } else {
      assert Char(conf, chars[0]);
      CharPays(conf, e, chars[0]);
      var e1 := Run(O.Out(conf), e, chars[0]).0;
      TextPays(conf, e1, chars[1..]);
      RunAppend(O.Out(conf), e, chars[0], Concat(chars[1..]));
    }
  }

  lemma FinalFits(conf: O.Conf, e: O.OutState)
    requires conf.Ok() && Between(e)
    ensures |O.FinalOut(conf, e).1| <= 16 + Debt(conf, e)
  {
    if e.boundary {
      var e0 := e.(r2l := false, graphic := 0, shift := false, comp := O.CMP_NONE);
      RestoreFits(conf, e0);
      hide O.Restore;
    }
  }

  lemma RestoreFits(conf: O.Conf, e: O.OutState)
    requires conf.Ok() && O.GsOk(e)
    ensures |O.Restore(conf, e).1| <= 16
  {
    hide O.RestoreOne;
    var e0 := O.RestoreOne(conf, e, 0).0;
    RestoreOneFits(conf, e, 0);
    var e1 := O.RestoreOne(conf, e0, 1).0;
    RestoreOneFits(conf, e0, 1);
    var e2 := O.RestoreOne(conf, e1, 2).0;
    RestoreOneFits(conf, e1, 2);
    RestoreOneFits(conf, e2, 3);
  }

  lemma RestoreOneFits(conf: O.Conf, e: O.OutState, g: nat)
    requires conf.Ok() && O.GsOk(e)
    ensures O.GsOk(O.RestoreOne(conf, e, g).0) && |O.RestoreOne(conf, e, g).1| <= 4
  {
    ChangeFits(conf, O.Current(e, g), O.Initial(conf, g), g);
    O.RestoreOneOk(conf, e, g);
    hide O.Change, O.Assign, O.SameBesides;
  }

  lemma TextBytes(conf: O.Conf, chars: seq<seq<nat>>)
    requires conf.Ok() && Text(conf, chars)
    ensures AreBytes(Concat(chars))
  {
    if chars != [] {
      TextBytes(conf, chars[1..]);
      assert Char(conf, chars[0]);
    }
  }

  /** What g2i writes for a text, from the start of a conversion. */
  function Written(conf: O.Conf, i0: bool, i1: bool, i2: bool, i3: bool, boundary: bool, chars: seq<seq<nat>>,
                   end: bool): seq<nat>
    requires conf.Ok() && Text(conf, chars)
  {
    TextBytes(conf, chars);
    O.Encoded(conf, RT.FirstOut(conf, i0, i1, i2, i3, boundary), Concat(chars), end).1
  }

  /** Five bytes for each byte, sixteen for the end, and eight for every stretch of right-to-left text, if G0 need not
      be designated anew at the end of every line. */
  lemma OutputFits(conf: O.Conf, i0: bool, i1: bool, i2: bool, i3: bool, boundary: bool, chars: seq<seq<nat>>,
                   end: bool)
    requires Usual(conf) && CheapLines(conf) && Text(conf, chars)
    ensures |Written(conf, i0, i1, i2, i3, boundary, chars, end)|
      <= 5 * |Concat(chars)| + 16 + 8 * Entries(conf, chars, false)
  {
    var e := RT.FirstOut(conf, i0, i1, i2, i3, boundary);
    TextBytes(conf, chars);
    assert Between(e) && Debt(conf, e) == 0;
    TextPays(conf, e, chars);
    var e1 := Run(O.Out(conf), e, Concat(chars)).0;
    FinalFits(conf, e1);
    hide Run, O.Out, O.FinalOut, Debt, Between;
  }

  // ---- where the room does not suffice ----

  function Lines(n: nat): seq<seq<nat>> { if n == 0 then [] else [[LF]] + Lines(n - 1) }

  lemma {:induction false} LinesText(conf: O.Conf, n: nat)
    requires conf.Ok()
    ensures Text(conf, Lines(n)) && |Concat(Lines(n))| == n
  {
    if n > 0 {
      LinesText(conf, n - 1);
      assert Lines(n)[1..] == Lines(n - 1);
    }
  }

  lemma LineCost(conf: O.Conf, e: O.OutState)
    requires Usual(conf) && !CheapLines(conf) && Between(e) && e.g0 == conf.o0 && !e.shift && !e.r2l
    ensures var (e1, out) := O.Out(conf)(e, LF);
      |out| >= 6 && Between(e1) && e1.g0 == conf.o0 && !e1.shift && !e1.r2l
  {
    var e2 := e.(g0 := LCASCII, shift := false);
    assert O.ToAscii(conf, e, LF) == (e2, [] + O.Change(conf, conf.o0, LCASCII, 0));
    SequencesLong(conf);
    RestoreLong(conf, e2);
    var (e3, out3) := O.Restore(conf, e2);
    assert e.(r2l := false) == e;
    assert O.AtLineEnd(conf, e2, LF) == (e3.(r2l := false, comp := O.CMP_NONE, shift := false), [] + ([] + out3));
    assert |O.LineEnd(conf.form.eol, LF)| >= 1;
    AsciiOut(conf, e, LF);
    hide O.ToAscii, O.AtLineEnd, O.Restore, O.Change, O.LineEnd, O.Out;
  }

  lemma SequencesLong(conf: O.Conf)
    requires Usual(conf) && !CheapLines(conf)
    ensures |O.Change(conf, conf.o0, LCASCII, 0)| == 3 && |O.Change(conf, LCASCII, conf.o0, 0)| >= 2
  {
  }

  lemma RestoreLong(conf: O.Conf, e: O.OutState)
    requires conf.Ok() && O.GsOk(e) && conf.o0 != LCINV
    ensures var (e1, out) := O.Restore(conf, e); |out| >= |O.Change(conf, e.g0, conf.o0, 0)| && e1.g0 == conf.o0
  {
    hide O.Change, O.SameBesides;
    O.RestoreOneOk(conf, e, 0);
    var e0 := O.RestoreOne(conf, e, 0).0;
    RestoreOther(conf, e0, 1);
    var e1 := O.RestoreOne(conf, e0, 1).0;
    RestoreOther(conf, e1, 2);
    var e2 := O.RestoreOne(conf, e1, 2).0;
    RestoreOther(conf, e2, 3);
    assert O.RestoreOne(conf, e, 0).1 == O.Change(conf, e.g0, conf.o0, 0) && e0.g0 == conf.o0;
    hide O.RestoreOne;
  }

  lemma RestoreOther(conf: O.Conf, e: O.OutState, g: nat)
    requires conf.Ok() && O.GsOk(e) && g > 0
    ensures var e1 := O.RestoreOne(conf, e, g).0; O.GsOk(e1) && e1.g0 == e.g0
  {
    hide O.Change;
    O.RestoreOneOk(conf, e, g);
  }

  lemma {:induction false} LinesCost(conf: O.Conf, e: O.OutState, n: nat)
    requires Usual(conf) && !CheapLines(conf) && Between(e) && e.g0 == conf.o0 && !e.shift && !e.r2l
    ensures |Run(O.Out(conf), e, Concat(Lines(n))).1| >= 6 * n
    decreases n
  {
    hide Run, O.Out, Between, CheapLines;
    if n > 0 {
      LineCost(conf, e);
      LinesCost(conf, O.Out(conf)(e, LF).0, n - 1);
      RunCons(O.Out(conf), e, LF, Concat(Lines(n - 1)));
      assert Lines(n)[1..] == Lines(n - 1);
    }
  }

  /** No set is written from right to left. */
  predicate NoTurns(conf: O.Conf)
    requires conf.Ok()
  {
    conf.form.nodir || forall lc :: 0x80 <= lc < 256 ==> !conf.t.r2l[lc]
  }

  lemma {:induction false} NoEntries(conf: O.Conf, chars: seq<seq<nat>>)
    requires conf.Ok() && NoTurns(conf) && Text(conf, chars)
    ensures Entries(conf, chars, false) == 0
  {
    if chars != [] {
      assert Char(conf, chars[0]);
      NoEntries(conf, chars[1..]);
    }
  }

  /** Every text fits into the buffer of a conversion. */
  ghost predicate RoomSuffices(conf: O.Conf, i0: bool, i1: bool, i2: bool, i3: bool, boundary: bool, end: bool)
    requires conf.Ok()
  {
    forall chars | Text(conf, chars) :: |Written(conf, i0, i1, i2, i3, boundary, chars, end)| <= Room(|Concat(chars)|)
  }

  /** Without right-to-left text the buffer is large enough for all texts if and only if G0 need not be designated
      anew at the end of every line. */
  lemma RoomSufficesWhen(conf: O.Conf, i0: bool, i1: bool, i2: bool, i3: bool, boundary: bool, end: bool)
    requires Usual(conf) && NoTurns(conf)
    ensures RoomSuffices(conf, i0, i1, i2, i3, boundary, end) <==> CheapLines(conf)
  {
    if CheapLines(conf) {
      hide Written, CheapLines;
      forall chars | Text(conf, chars)
        ensures |Written(conf, i0, i1, i2, i3, boundary, chars, end)| <= Room(|Concat(chars)|)
      {
        OutputFits(conf, i0, i1, i2, i3, boundary, chars, end);
        NoEntries(conf, chars);
      }
    } else {
      LinesText(conf, 257);
      var e := RT.FirstOut(conf, i0, i1, i2, i3, boundary);
      LinesCost(conf, e, 257);
      TextBytes(conf, Lines(257));
      O.RunFits(conf, e, Concat(Lines(257)), end);
      assert |Written(conf, i0, i1, i2, i3, boundary, Lines(257), end)| > Room(|Concat(Lines(257))|);
    }
  }

  /** A right-to-left character and an ASCII character by turns. */
  function Turns(lc: nat, c: nat,
                 n: nat): seq<seq<nat>> { if n == 0 then [] else [[lc, c], ['A' as nat]] + Turns(lc, c, n - 1) }

  /** A seven-bit code that uses G0 only, and a right-to-left set of one byte that is not designated in it. */
  predicate Crowded(conf: O.Conf, lc: nat, c: nat) {
    && Usual(conf) && conf.form.seven && !conf.form.nodir && conf.o0 == LCASCII
    && conf.o1 == conf.o2 == conf.o3 == LCINV
    && Plain(conf, lc) && conf.t.bytes[lc] == 2 && conf.t.r2l[lc] && !SameSequence(conf, lc, LCASCII)
    && 0xA0 <= c <= 0xFF
  }

  predicate OnlyAscii(e: O.OutState) {
    Between(e) && e.g0 == LCASCII && e.g1 == e.g2 == e.g3 == LCINV && !e.shift && !e.r2l
  }

  lemma {:induction false} TurnsText(conf: O.Conf, lc: nat, c: nat, n: nat)
    requires Crowded(conf, lc, c)
    ensures Text(conf, Turns(lc, c, n)) && |Concat(Turns(lc, c, n))| == 3 * n
    decreases n
  {
    if n > 0 {
      TurnsText(conf, lc, c, n - 1);
      TurnBytes(lc, c, n);
    }
  }

  lemma TurnBytes(lc: nat, c: nat, n: nat)
    requires n > 0
    ensures Concat(Turns(lc, c, n)) == [lc] + ([c] + (['A' as nat] + Concat(Turns(lc, c, n - 1))))
  {
    var rest := Turns(lc, c, n - 1);
    assert Turns(lc, c, n)[1..] == [['A' as nat]] + rest;
    assert ([['A' as nat]] + rest)[1..] == rest;
  }

  lemma RightCost(conf: O.Conf, e: O.OutState, lc: nat, c: nat)
    requires Crowded(conf, lc, c) && OnlyAscii(e)
    ensures var (e1, out) := O.Out(conf)(e, lc);
      |out| == 7 && e1 == e.(boundary := false, r2l := true, g0 := lc, graphic := 0)
  {
    LeadOut(conf, e, lc);
    assert |Turn(conf, e, lc)| == 4;
    var e0 := e.(boundary := false, r2l := true);
    assert |O.Change(conf, LCASCII, lc, 0)| == 3;
    assert O.Place(conf, e0, lc) == (e0.(shift := false, g0 := lc, graphic := 0), [] + O.Change(conf, LCASCII, lc, 0));
    hide O.Change, O.Out, Turn;
  }

  lemma LeftCost(conf: O.Conf, e: O.OutState, lc: nat, c: nat)
    requires Crowded(conf, lc, c) && OnlyAscii(e.(g0 := LCASCII, r2l := false)) && e.g0 == lc && e.r2l
    ensures var (e1, out) := O.Out(conf)(e, 'A' as nat); |out| == 8 && OnlyAscii(e1)
  {
    var e0 := e.(r2l := false);
    assert |O.Change(conf, lc, LCASCII, 0)| == 3;
    var e2 := e0.(g0 := LCASCII, shift := false);
    assert O.ToAscii(conf, e0, 'A' as nat) == (e2, [] + O.Change(conf, lc, LCASCII, 0));
    assert O.AtLineEnd(conf, e2, 'A' as nat) == (e2, []);
    assert |O.RevertDirection(conf.form)| == 4;
    AsciiOut(conf, e, 'A' as nat);
    hide O.ToAscii, O.AtLineEnd, O.Change, O.Out, O.RevertDirection;
  }

  lemma TurnCost(conf: O.Conf, e: O.OutState, lc: nat, c: nat, rest: seq<nat>) returns (e3: O.OutState)
    requires Crowded(conf, lc, c) && OnlyAscii(e)
    ensures OnlyAscii(e3)
    ensures |Run(O.Out(conf), e, [lc] + ([c] + (['A' as nat] + rest))).1| == 16 + |Run(O.Out(conf), e3, rest).1|
  {
    hide Run, O.Out;
    RightCost(conf, e, lc, c);
    var e1 := O.Out(conf)(e, lc).0;
    assert O.InUse(e1) == lc;
    RT.PayloadOut(conf, e1, lc, c);
    var e2 := e1.(boundary := true);
    assert e2.(g0 := LCASCII, r2l := false) == e.(boundary := true, graphic := 0);
    LeftCost(conf, e2, lc, c);
    e3 := O.Out(conf)(e2, 'A' as nat).0;
    hide OnlyAscii, Crowded;
    RunCons(O.Out(conf), e, lc, [c] + (['A' as nat] + rest));
    RunCons(O.Out(conf), e1, c, ['A' as nat] + rest);
    RunCons(O.Out(conf), e2, 'A' as nat, rest);
  }

  lemma {:induction false} TurnsCost(conf: O.Conf, e: O.OutState, lc: nat, c: nat, n: nat)
    requires Crowded(conf, lc, c) && OnlyAscii(e)
    ensures |Run(O.Out(conf), e, Concat(Turns(lc, c, n))).1| >= 16 * n
    decreases n
  {
    hide Run, O.Out, OnlyAscii, Crowded;
    if n > 0 {
      var rest := Concat(Turns(lc, c, n - 1));
      TurnBytes(lc, c, n);
      var e1 := TurnCost(conf, e, lc, c, rest);
      TurnsCost(conf, e1, lc, c, n - 1);
    }
  }

  /** With right-to-left text in G0 of a seven-bit code the buffer is too small: three bytes become sixteen. */
  lemma TurnsOverflow(conf: O.Conf, i0: bool, i1: bool, i2: bool, i3: bool, boundary: bool, lc: nat, c: nat, n: nat,
                      end: bool)
    requires Crowded(conf, lc, c) && n > 256
    ensures var chars := Turns(lc, c, n);
      && Text(conf, chars) && CheapLines(conf) && Entries(conf, chars, false) == n
      && |Written(conf, i0, i1, i2, i3, boundary, chars, end)| >= 16 * n > Room(|Concat(chars)|)
  {
    var chars := Turns(lc, c, n);
    TurnsText(conf, lc, c, n);
    TurnsEnter(conf, lc, c, n);
    TextBytes(conf, chars);
    var e := RT.FirstOut(conf, i0, i1, i2, i3, boundary);
    TurnsCost(conf, e, lc, c, n);
    O.RunFits(conf, e, Concat(chars), end);
    hide Run, O.Out, O.Finished, Concat, Turns;
  }

  lemma {:induction false} TurnsEnter(conf: O.Conf, lc: nat, c: nat, n: nat)
    requires Crowded(conf, lc, c) && Text(conf, Turns(lc, c, n))
    ensures Entries(conf, Turns(lc, c, n), false) == n
    decreases n
  {
    if n > 0 {
      TurnsText(conf, lc, c, n - 1);
      var rest := Turns(lc, c, n - 1);
      TurnsEnter(conf, lc, c, n - 1);
      assert Turns(lc, c, n)[1..] == [['A' as nat]] + rest;
      assert ([['A' as nat]] + rest)[1..] == rest;
    }
  }
}
