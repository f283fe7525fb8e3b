// Line ends in ISO 2022 text: whatever they are, g2i does with them what g2a does.

module Iso2022LinesOut {
  import opened Bytes
  import opened Conversion
  import opened Iso2022In
  import E = EolConversion
  import O = Iso2022Out
  import RT = Iso2022RoundTrip

  /** The same coding system, but every line ends in LF. */
  function WithLf(conf: O.Conf): O.Conf { conf.(form := conf.form.(eol := EolLf), selective := false) }

  /** The line end a byte stands for where CR may stand for one. */
  function Selected(selective: bool, c: nat): nat { if selective && c == CR then LF else c }

  /** The text with an LF at the end of each line. */
  function LfText(selective: bool, s: seq<nat>): (t: seq<nat>)
    ensures |t| == |s| && (AreBytes(s) ==> AreBytes(t))
    ensures !selective ==> t == s
  {
    if s == [] then [] else LfText(selective, s[..|s| - 1]) + [Selected(selective, s[|s| - 1])]
  }

  /** No set has an LF for its final byte. */
  predicate FinalsOutside(t: Tables)
    requires t.Ok()
  {
    forall lc :: 0 <= lc < 256 ==> t.final[lc] != LF
  }

  /** A character in progress: its first bytes, or the first of its leading bytes. */
  predicate Begun(ch: nat) { ch == 0 || (0x9A <= ch % 256 && (ch > 0xFF ==> 0x9A <= ch / 256 <= 0xFF)) }

  /** No line ends in these bytes. */
  predicate WithinLine(s: seq<nat>) { forall i :: 0 <= i < |s| ==> s[i] < 256 && s[i] != LF }

  lemma WithinBoth(a: seq<nat>, b: seq<nat>)
    requires WithinLine(a) && WithinLine(b)
    ensures WithinLine(a + b)
  {
  }

  /** Both coding systems take the step alike, and no line ends in it. */
  ghost predicate Alike(a: (O.OutState, seq<nat>), b: (O.OutState, seq<nat>)) { a == b && WithinLine(a.1) }

  lemma SequenceWithin(conf: O.Conf, lc: nat, g: nat)
    requires conf.t.Ok() && FinalsOutside(conf.t) && lc < 256 && g <= 3
    ensures O.Sequence(conf, lc, g) == O.Sequence(WithLf(conf), lc, g) && WithinLine(O.Sequence(conf, lc, g))
  {
    assert conf.t.final[lc] < 256;
  }

  lemma ChangeAlike(conf: O.Conf, current: nat, lc: nat, g: nat)
    requires conf.t.Ok() && FinalsOutside(conf.t) && current < 256 && lc < 256 && g <= 3
    ensures O.Change(conf, current, lc, g) == O.Change(WithLf(conf), current, lc, g)
    ensures WithinLine(O.Change(conf, current, lc, g))
  {
    hide O.Sequence, FinalsOutside;
    SequenceWithin(conf, lc, g);
    if lc == LCASCII { SequenceWithin(conf, LCROMAN, g); }
    if lc == LCJP { SequenceWithin(conf, LCJPOLD, g); }
  }

  lemma ShiftsAlike(conf: O.Conf, st: O.OutState, lc: nat)
    requires conf.t.Ok() && FinalsOutside(conf.t) && O.GsOk(st) && lc < 256
    ensures Alike(O.Designation0(conf, st, lc), O.Designation0(WithLf(conf), st, lc))
    ensures Alike(O.Designation1(conf, st, lc), O.Designation1(WithLf(conf), st, lc))
    ensures Alike(O.LockingShift(conf, st, lc), O.LockingShift(WithLf(conf), st, lc))
    ensures Alike(O.SingleShift2(conf, st, lc), O.SingleShift2(WithLf(conf), st, lc))
    ensures Alike(O.SingleShift3(conf, st, lc), O.SingleShift3(WithLf(conf), st, lc))
  {
    hide O.Change, FinalsOutside;
    ChangeAlike(conf, st.g0, lc, 0);
    ChangeAlike(conf, st.g1, lc, 1);
    ChangeAlike(conf, st.g2, lc, 2);
    ChangeAlike(conf, st.g3, lc, 3);
  }

  lemma PlaceAlike(conf: O.Conf, st: O.OutState, lc: nat)
    requires conf.t.Ok() && FinalsOutside(conf.t) && O.GsOk(st) && lc < 256
    ensures Alike(O.Place(conf, st, lc), O.Place(WithLf(conf), st, lc))
  {
    hide O.Designation0, O.Designation1, O.LockingShift, O.SingleShift2, O.SingleShift3, FinalsOutside, Alike;
    if lc == st.g0 || lc == conf.o0 {
      ShiftsAlike(conf, if st.i0 then st.(g0 := LCINV, i0 := false) else st, lc);
    } else if lc == st.g1 || lc == conf.o1 {
      ShiftsAlike(conf, if st.i1 then st.(g1 := LCINV, i1 := false) else st, lc);
    } else if lc == st.g2 || lc == conf.o2 {
      ShiftsAlike(conf, if st.i2 then st.(g2 := LCINV, i2 := false) else st, lc);
    } else if lc == st.g3 || lc == conf.o3 {
      ShiftsAlike(conf, if st.i3 then st.(g3 := LCINV, i3 := false) else st, lc);
    } else {
      ShiftsAlike(conf, st, lc);
    }
  }

  lemma RestoreOneAlike(conf: O.Conf, st: O.OutState, g: nat)
    requires conf.Ok() && FinalsOutside(conf.t) && O.GsOk(st) && g <= 3
    ensures Alike(O.RestoreOne(conf, st, g), O.RestoreOne(WithLf(conf), st, g)) && O.GsOk(O.RestoreOne(conf, st, g).0)
  {
    hide O.Change, FinalsOutside;
    if O.Initial(conf, g) != LCINV { ChangeAlike(conf, O.Current(st, g), O.Initial(conf, g), g); }
  }

  lemma RestoreAlike(conf: O.Conf, st: O.OutState)
    requires conf.Ok() && FinalsOutside(conf.t) && O.GsOk(st)
    ensures Alike(O.Restore(conf, st), O.Restore(WithLf(conf), st))
  {
    hide O.RestoreOne, FinalsOutside, O.GsOk;
    RestoreOneAlike(conf, st, 0);
    var st0 := O.RestoreOne(conf, st, 0).0;
    RestoreOneAlike(conf, st0, 1);
    var st1 := O.RestoreOne(conf, st0, 1).0;
    RestoreOneAlike(conf, st1, 2);
    var st2 := O.RestoreOne(conf, st1, 2).0;
    RestoreOneAlike(conf, st2, 3);
  }

  lemma SignsAlike(conf: O.Conf, st: O.OutState)
    ensures O.RevertDirection(conf.form) == O.RevertDirection(WithLf(conf).form)
      && WithinLine(O.RevertDirection(conf.form))
    ensures O.StartRightToLeft(conf.form) == O.StartRightToLeft(WithLf(conf).form)
      && WithinLine(O.StartRightToLeft(conf.form))
    ensures WithinLine(O.EndComposite(st)) && WithinLine(O.ShiftIn(st))
  {
  }

  lemma ToAsciiAlike(conf: O.Conf, st: O.OutState, c: nat)
    requires conf.Ok() && FinalsOutside(conf.t) && O.GsOk(st)
    ensures Alike(O.ToAscii(conf, st, c), O.ToAscii(WithLf(conf), st, c)) && O.GsOk(O.ToAscii(conf, st, c).0)
  {
    hide O.Change, FinalsOutside;
    ChangeAlike(conf, st.g0, LCASCII, 0);
  }

  lemma AtLineEndAlike(conf: O.Conf, st: O.OutState, c: nat)
    requires conf.Ok() && FinalsOutside(conf.t) && O.GsOk(st)
    ensures Alike(O.AtLineEnd(conf, st, c), O.AtLineEnd(WithLf(conf), st, c))
  {
    hide FinalsOutside, O.Restore, O.GsOk, O.EndComposite, O.ShiftIn;
    RestoreAlike(conf, st);
    SignsAlike(conf, st);
  }

  lemma FinalAlike(conf: O.Conf, st: O.OutState)
    requires conf.Ok() && FinalsOutside(conf.t) && O.GsOk(st)
    ensures Alike(O.FinalOut(conf, st), O.FinalOut(WithLf(conf), st))
  {
    hide FinalsOutside, O.Restore, O.EndComposite, O.ShiftIn, O.RevertDirection;
    RestoreAlike(conf, st.(r2l := false, graphic := 0, shift := false, comp := O.CMP_NONE));
    SignsAlike(conf, st);
  }

  /** Both coding systems take the step alike, but for the line ends. */
  ghost predicate AlikeBut(eol: Eol, a: (O.OutState, seq<nat>), b: (O.OutState, seq<nat>)) {
    a.0 == b.0 && a.1 == E.OutAll(eol, false, b.1) && AreBytes(b.1)
  }

  lemma {:induction false} NoLineEnds(eol: Eol, s: seq<nat>)
    requires WithinLine(s)
    ensures E.OutAll(eol, false, s) == s
  {
    if s != [] {
      NoLineEnds(eol, s[..|s| - 1]);
      assert s == s[..|s| - 1] + [s[|s| - 1]];
    }
  }

  lemma AlikeAnyway(eol: Eol, a: (O.OutState, seq<nat>), b: (O.OutState, seq<nat>))
    requires Alike(a, b)
    ensures AlikeBut(eol, a, b)
  {
    NoLineEnds(eol, a.1);
  }

  lemma LineEndIs(eol: Eol, c: nat)
    requires Fixed(eol)
    ensures O.LineEnd(eol, c) == E.OutAll(eol, false, O.LineEnd(EolLf, c))
  {
    E.OutOne(eol, c);
    var none: seq<nat> := [];
    assert none + [c] == [c] && [CR] + [LF] == [CR, LF] && [CR] + none == [CR];
  }

  /** What an ASCII character is written as, without the line end it may be. */
  function BeforeAscii(conf: O.Conf, st: O.OutState, c: nat): (r: (O.OutState, seq<nat>))
    requires conf.Ok() && O.GsOk(st)
  {
    var (st2, out2) := O.ToAscii(conf, st.(ch := 0, r2l := false), c);
    var (st3, out3) := O.AtLineEnd(conf, st2, c);
    (st3, (if st.r2l then O.RevertDirection(conf.form) else []) + (out2 + out3))
  }

  lemma BeforeAlike(conf: O.Conf, st: O.OutState, c: nat)
    requires conf.Ok() && FinalsOutside(conf.t) && O.GsOk(st)
    ensures Alike(BeforeAscii(conf, st, c), BeforeAscii(WithLf(conf), st, c))
  {
    var st1 := st.(ch := 0, r2l := false);
    assert O.GsOk(st1);
    hide O.ToAscii, O.AtLineEnd, O.RevertDirection, FinalsOutside, O.GsOk, WithinLine;
    SignsAlike(conf, st);
    ToAsciiAlike(conf, st1, c);
    var (st2, out2) := O.ToAscii(conf, st1, c);
    AtLineEndAlike(conf, st2, c);
    WithinBoth(out2, O.AtLineEnd(conf, st2, c).1);
    NothingWithin();
    WithinBoth(if st.r2l then O.RevertDirection(conf.form) else [], out2 + O.AtLineEnd(conf, st2, c).1);
  }

  lemma NothingWithin()
    ensures WithinLine([])
  {
  }

  lemma AsciiStepIs(conf: O.Conf, st: O.OutState, c: nat)
    requires conf.Ok() && O.GsOk(st)
    ensures var (st3, before) := BeforeAscii(conf, st, c);
      var comp := if st3.comp == O.CMP_ASCII || st3.comp == O.CMP_NONASCII then O.CMP_LC else st3.comp;
      O.AsciiStep(conf, st, c)
        == (st3.(graphic := 0, boundary := true, comp := comp), before + O.LineEnd(conf.form.eol, c))
  {
    var (st2, out2) := O.ToAscii(conf, st.(ch := 0, r2l := false), c);
    assert O.GsOk(st2);
    hide O.ToAscii, O.AtLineEnd, O.RevertDirection, O.LineEnd;
    var out3 := O.AtLineEnd(conf, st2, c).1;
    Regrouped(if st.r2l then O.RevertDirection(conf.form) else [], out2, out3, O.LineEnd(conf.form.eol, c));
  }

  lemma Regrouped(a: seq<nat>, b: seq<nat>, c: seq<nat>, d: seq<nat>)
    ensures a + (b + (c + d)) == (a + (b + c)) + d
  {
  }

  lemma LineBytes(before: seq<nat>, c: nat)
    requires WithinLine(before) && c < 256
    ensures AreBytes(before + O.LineEnd(EolLf, c))
  {
    var none: seq<nat> := [];
    assert O.LineEnd(EolLf, c) == [c] by { assert none + [c] == [c]; }
  }

  lemma AsciiStepAlike(conf: O.Conf, st: O.OutState, c: nat)
    requires conf.Ok() && FinalsOutside(conf.t) && Fixed(conf.form.eol) && O.GsOk(st) && c < 256
    ensures AlikeBut(conf.form.eol, O.AsciiStep(conf, st, c), O.AsciiStep(WithLf(conf), st, c))
  {
    var eol := conf.form.eol;
    BeforeAlike(conf, st, c);
    var before := BeforeAscii(conf, st, c).1;
    assert WithinLine(before) && WithLf(conf).form.eol == EolLf && WithLf(conf).Ok();
    LineBytes(before, c);
    hide E.OutAll, BeforeAscii, O.AsciiStep, O.LineEnd, FinalsOutside, AreBytes, WithinLine;
    AsciiStepIs(conf, st, c);
    AsciiStepIs(WithLf(conf), st, c);
    LineEndIs(eol, c);
    E.OutBoth(eol, false, before, O.LineEnd(EolLf, c));
    NoLineEnds(eol, before);
  }

  /** The direction a leading byte turns the text to. */
  function LeadTurn(conf: O.Conf, st: O.OutState, lc: nat): (bool, seq<nat>)
    requires conf.Ok() && lc < 256
  {
    if st.r2l && !conf.t.r2l[lc] then (false, O.RevertDirection(conf.form))
    else if !conf.form.nodir && !st.r2l && conf.t.r2l[lc] then (true, O.StartRightToLeft(conf.form))
    else (st.r2l, [])
  }

  lemma LeadStepIs(conf: O.Conf, st: O.OutState, lc: nat)
    requires conf.Ok() && O.GsOk(st) && lc < 256
    ensures var (r2l, turn) := LeadTurn(conf, st, lc);
      var comp := if st.comp == O.CMP_LC then O.CMP_NONASCII else st.comp;
      var (st1, out) := O.Place(conf, st.(ch := 0, boundary := false, r2l := r2l), lc);
      O.LeadStep(conf, st, lc) == if LCPRV11 <= lc <= LCPRV22 then (st.(ch := lc, boundary := false, comp := comp), [])
        else (st1.(comp := comp), turn + out)
  {
    var st0 := st.(ch := 0, boundary := false);
    assert forall r: bool :: st0.(r2l := r) == st.(ch := 0, boundary := false, r2l := r);
    hide O.Place, O.RevertDirection, O.StartRightToLeft;
  }

  lemma TurnAlike(conf: O.Conf, st: O.OutState, lc: nat)
    requires conf.Ok() && lc < 256
    ensures LeadTurn(conf, st, lc) == LeadTurn(WithLf(conf), st, lc) && WithinLine(LeadTurn(conf, st, lc).1)
  {
    hide O.RevertDirection, O.StartRightToLeft;
    SignsAlike(conf, st);
  }

  lemma LeadStepAlike(conf: O.Conf, st: O.OutState, lc: nat)
    requires conf.Ok() && FinalsOutside(conf.t) && O.GsOk(st) && 0x80 <= lc < 256
    ensures Alike(O.LeadStep(conf, st, lc), O.LeadStep(WithLf(conf), st, lc)) && Begun(O.LeadStep(conf, st, lc).0.ch)
  {
    TurnAlike(conf, st, lc);
    var st0 := st.(ch := 0, boundary := false, r2l := LeadTurn(conf, st, lc).0);
    assert O.GsOk(st0) && WithLf(conf).Ok() && Begun(0);
    PlaceAlike(conf, st0, lc);
    RT.PlaceKeeps(conf, st0, lc);
    LeadStepIs(conf, st, lc);
    LeadStepIs(WithLf(conf), st, lc);
    hide O.Place, FinalsOutside, LeadTurn, O.GsOk, O.LeadStep, WithinLine;
    NothingWithin();
    WithinBoth(LeadTurn(conf, st, lc).1, O.Place(conf, st0, lc).1);
  }

  lemma MaskedIs(conf: O.Conf, st: O.OutState, c: nat)
    ensures O.Masked(conf, st, c) == O.Masked(WithLf(conf), st, c)
    ensures O.Masked(conf, st, c) < 256 && (c % 256 >= 0x9A ==> O.Masked(conf, st, c) != LF)
  {
  }

  lemma NonAsciiStepAlike(conf: O.Conf, st: O.OutState, c: nat)
    requires conf.Ok() && O.GsOk(st) && 0x9F <= c < 256 && Begun(st.ch)
    ensures Alike(O.NonAsciiStep(conf, st, c), O.NonAsciiStep(WithLf(conf), st, c))
  {
    MaskedIs(conf, st, c);
    MaskedIs(conf, st, st.ch);
    MaskedIs(conf, st, st.ch / 256);
    hide O.Masked;
    var n := conf.t.bytes[O.InUse(st)];
    if n == 2 {
    } else if n == 3 {
    } else if n == 4 {
    } else {
    }
  }

  lemma NonAsciiStepBegun(conf: O.Conf, st: O.OutState, c: nat)
    requires conf.Ok() && O.GsOk(st) && 0x9F <= c < 256 && Begun(st.ch)
    ensures Begun(O.NonAsciiStep(conf, st, c).0.ch)
  {
    hide O.Masked, O.InUse;
    assert (st.ch + c * 256) % 256 == st.ch % 256;
  }

  lemma BeforeKeeps(conf: O.Conf, st: O.OutState, c: nat)
    requires conf.Ok() && O.GsOk(st)
    ensures BeforeAscii(conf, st, c).0.ch == 0
  {
    var st1 := st.(ch := 0, r2l := false);
    var st2 := O.ToAscii(conf, st1, c).0;
    assert st2.ch == 0 && O.GsOk(st2);
    hide O.ToAscii, O.Restore, O.GsOk;
  }

  lemma AsciiStepEnds(conf: O.Conf, st: O.OutState, c: nat)
    requires conf.Ok() && O.GsOk(st)
    ensures O.AsciiStep(conf, st, c).0.ch == 0
  {
    hide O.AsciiStep, BeforeAscii;
    AsciiStepIs(conf, st, c);
    BeforeKeeps(conf, st, c);
  }

  lemma MainStepAlike(conf: O.Conf, st: O.OutState, c: nat)
    requires conf.Ok() && FinalsOutside(conf.t) && Fixed(conf.form.eol) && O.GsOk(st) && c < 256 && Begun(st.ch)
    ensures AlikeBut(conf.form.eol, O.MainStep(conf, st, c), O.MainStep(WithLf(conf), st, c))
    ensures Begun(O.MainStep(conf, st, c).0.ch)
  {
    var eol := conf.form.eol;
    assert WithLf(conf).Ok() && Begun(0);
    hide O.AsciiStep, O.LeadStep, O.NonAsciiStep, FinalsOutside, AlikeBut, O.GsOk, Begun;
    if AsciiP(c) {
      AsciiStepAlike(conf, st, c);
      AsciiStepEnds(conf, st, c);
    } else if c == LCCMP {
      AlikeAnyway(eol, O.MainStep(conf, st, c), O.MainStep(WithLf(conf), st, c));
    } else if LcP(c) || LcP(st.ch) {
      LeadStepAlike(conf, st, c);
      AlikeAnyway(eol, O.LeadStep(conf, st, c), O.LeadStep(WithLf(conf), st, c));
    } else {
      NonAsciiStepAlike(conf, st, c);
      NonAsciiStepBegun(conf, st, c);
      AlikeAnyway(eol, O.NonAsciiStep(conf, st, c), O.NonAsciiStep(WithLf(conf), st, c));
    }
  }

  /** The byte that MainStep gets, the state it starts from, and what is put out before. */
  function Fed(st: O.OutState, c: nat): (r: (seq<nat>, O.OutState, nat))
    requires c < 256
  {
    if st.comp == O.CMP_LC then
      if c > 0xA0 then ([], st, c - 0x20) else ([ESC, '1' as nat], st.(comp := O.CMP_NONE), c)
    else ([], st, if st.comp == O.CMP_ASCII then c % 128 else c)
  }

  lemma OutStepIs(conf: O.Conf, st: O.OutState, c: nat)
    requires conf.Ok() && O.GsOk(st) && c < 256
    ensures var (pre, st0, c0) := Fed(st, Selected(conf.selective, c)); O.GsOk(st0) && c0 < 256 && st0.ch == st.ch
    ensures var (pre, st0, c0) := Fed(st, Selected(conf.selective, c)); var (st1, out) := O.MainStep(conf, st0, c0);
      O.Out(conf)(st, c) == if st.comp == O.CMP_LC && Selected(conf.selective, c) == 0xA0
        then (st.(comp := O.CMP_ASCII), []) else (st1, pre + out)
  {
    hide O.MainStep;
    var (pre, st0, c0) := Fed(st, Selected(conf.selective, c));
    var out := O.MainStep(conf, st0, c0).1;
    assert [] + out == out;
  }

  lemma FedAlike(eol: Eol, st: O.OutState, c: nat, a: (O.OutState, seq<nat>), b: (O.OutState, seq<nat>))
    requires c < 256 && AlikeBut(eol, a, b)
    ensures AlikeBut(eol, (a.0, Fed(st, c).0 + a.1), (b.0, Fed(st, c).0 + b.1))
  {
    E.OutBoth(eol, false, Fed(st, c).0, b.1);
    NoLineEnds(eol, Fed(st, c).0);
  }

  lemma SelectedMeans(conf: O.Conf, st: O.OutState, c: nat)
    requires conf.Ok() && c < 256 && Begun(st.ch)
    ensures var c1 := Selected(conf.selective, c);
      WithLf(conf).Ok() && c1 < 256 && Selected(WithLf(conf).selective, c1) == c1 && Begun(Fed(st, c1).1.ch)
  {
  }

  lemma NothingAlike(eol: Eol, st: O.OutState)
    ensures AlikeBut(eol, (st, []), (st, []))
  {
    NoLineEnds(eol, []);
  }

  lemma OutStepAlike(conf: O.Conf, st: O.OutState, c: nat)
    requires conf.Ok() && FinalsOutside(conf.t) && Fixed(conf.form.eol) && O.GsOk(st) && c < 256 && Begun(st.ch)
    ensures AlikeBut(conf.form.eol, O.Out(conf)(st, c), O.Out(WithLf(conf))(st, Selected(conf.selective, c)))
    ensures O.GsOk(O.Out(conf)(st, c).0) && Begun(O.Out(conf)(st, c).0.ch)
  {
    OutIs(conf, st, c);
    hide *;
    var c1 := Selected(conf.selective, c);
    SelectedMeans(conf, st, c);
    O.StepOk(conf, st, c);
    OutStepIs(conf, st, c);
    OutStepIs(WithLf(conf), st, c1);
    var (pre, st0, c0) := Fed(st, c1);
    MainStepAlike(conf, st0, c0);
    FedAlike(conf.form.eol, st, c1, O.MainStep(conf, st0, c0), O.MainStep(WithLf(conf), st0, c0));
    NothingAlike(conf.form.eol, st.(comp := O.CMP_ASCII));
  }

  lemma OutIs(conf: O.Conf, st: O.OutState, c: nat)
    requires conf.Ok() && O.GsOk(st) && c < 256
    ensures O.Out(conf)(st, c) == O.OutStep(conf, st, c)
  {
    hide O.OutStep;
  }

  lemma LfTextSnoc(selective: bool, s: seq<nat>, i: nat)
    requires i < |s|
    ensures LfText(selective, s[..i + 1]) == LfText(selective, s[..i]) + [Selected(selective, s[i])]
  {
    assert s[..i + 1][..i] == s[..i];
  }

  lemma {:induction false} RunAlike(conf: O.Conf, st: O.OutState, s: seq<nat>)
    requires conf.Ok() && FinalsOutside(conf.t) && Fixed(conf.form.eol) && O.GsOk(st) && AreBytes(s) && Begun(st.ch)
    ensures AlikeBut(conf.form.eol, Run(O.Out(conf), st, s), Run(O.Out(WithLf(conf)), st, LfText(conf.selective, s)))
    ensures O.GsOk(Run(O.Out(conf), st, s).0) && Begun(Run(O.Out(conf), st, s).0.ch)
  {
    hide O.Out, E.OutAll, O.GsOk, Begun, FinalsOutside, LfText, Selected;
    var eol, selective := conf.form.eol, conf.selective;
    if s == [] {
      NoLineEnds(eol, []);
    } else {
      var n := |s| - 1;
      assert s[..n + 1] == s;
      RunAlike(conf, st, s[..n]);
      var (st1, out) := Run(O.Out(WithLf(conf)), st, LfText(selective, s[..n]));
      OutStepAlike(conf, st1, s[n]);
      LfTextSnoc(selective, s, n);
      RunSnocs(O.Out(WithLf(conf)), st, LfText(selective, s[..n]), Selected(selective, s[n]));
      E.OutBoth(eol, false, out, O.Out(WithLf(conf))(st1, Selected(selective, s[n])).1);
    }
  }

  /** Under any line ends g2i writes what g2a makes of what it would write under LF for the text with an LF at the end
      of each line. */
  lemma Encoded(conf: O.Conf, st: O.OutState, s: seq<nat>, end: bool)
    requires conf.Ok() && FinalsOutside(conf.t) && Fixed(conf.form.eol) && O.GsOk(st) && AreBytes(s) && Begun(st.ch)
    ensures WithLf(conf).Ok()
    ensures var (st1, out) := O.Encoded(WithLf(conf), st, LfText(conf.selective, s), end);
      O.Encoded(conf, st, s, end) == (st1, E.OutAll(conf.form.eol, false, out)) && AreBytes(out)
  {
    hide Run, O.Out, E.OutAll, O.GsOk, Begun, FinalsOutside, O.FinalOut, LfText;
    RunAlike(conf, st, s);
    var (st1, out) := Run(O.Out(conf), st, s);
    if end {
      FinalAlike(conf, st1);
      var rest := O.FinalOut(conf, st1).1;
      NoLineEnds(conf.form.eol, rest);
      E.OutBoth(conf.form.eol, false, Run(O.Out(WithLf(conf)), st, LfText(conf.selective, s)).1, rest);
    }
  }
}
