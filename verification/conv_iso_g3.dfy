// Seven-bit G3: why the round trip leaves it out.

module Iso2022G3 {
  import opened Bytes
  import opened Conversion
  import opened Iso2022In
  import opened Iso2022RoundTrip
  import O = Iso2022Out

  /** Whatever follows, the text that comes out will not begin with lc. */
  predicate NotLed(st: InState, out: seq<nat>, lc: nat) { if out == [] then st.ch != 0 else out[0] != lc }

  /** Left to right, and no composite character open. */
  predicate Plain(d: InState) { !d.r2l && !d.cmp }

  lemma CharOutNotLed(t: Tables, own: nat, ch: nat, m: nat, lc: nat)
    requires t.Ok() && own < 256 && own != lc && 0x81 <= lc < LCPRV11 && ch <= 0x7F && 0 < m < 0x80
    ensures var (ch1, out) := CharOut(t, false, own, ch, m);
      (if out == [] then ch1 != 0 else out[0] != lc) && (ch == 0 && out == [] ==> ch1 == m)
  {
    assert DrainAbove(ch, 0xFF) == ([], ch) && DrainAbove(ch, 0xFFFF) == ([], ch);
    assert Drain(0) == [] && (ch != 0 ==> Drain(ch)[0] == ch);
  }

  /** A payload byte that follows ESC N is read as one of G2. */
  lemma WrongSet(t: Tables, d: InState, m: nat, lc: nat)
    requires t.Ok() && Quiet(d.(ss2 := false, ch := 0)) && d.ss2 && d.ch <= 0x7F && 0x20 <= m < 0x80 && Plain(d)
    requires d.g2 != LCINV && d.g2 != lc && !t.r2l[d.g2] && !t.r2l[LCASCII] && 0x81 <= lc < LCPRV11
    ensures var (d1, out) := D(t)(d, m); NotLed(d1, out, lc) && (d.ch == 0 && out == [] ==> d1 == d.(ch := m))
  {
    assert BytesOk(d) && Ok(d);
    var own := CharSet(t, d, m);
    assert own == d.g2 || own == LCASCII;
    CharOutNotLed(t, own, d.ch, m, lc);
    hide CharSet, CharOut;
    var (ch, out) := CharOut(t, false, own, d.ch, m);
    assert [] + out == out;
    assert Step(t, EolLf, d, m) == GraphicStep(t, d, m);
  }

  lemma WrongSets(t: Tables, d: InState, ms: seq<nat>, lc: nat)
    requires t.Ok() && Quiet(d.(ss2 := false)) && Plain(d) && d.ss2 && 1 <= |ms| <= 2
      && forall i :: 0 <= i < |ms| ==> 0x20 <= ms[i] < 0x80
    requires d.g2 != LCINV && d.g2 != lc && !t.r2l[d.g2] && !t.r2l[LCASCII] && 0x81 <= lc < LCPRV11
    ensures var (d1, out) := Run(D(t), d, ms); NotLed(d1, out, lc)
  {
    hide Run, D;
    WrongSet(t, d, ms[0], lc);
    if |ms| == 1 {
      assert ms == [ms[0]];
      RunOne(D(t), d, ms[0]);
    } else {
      assert ms == [ms[0], ms[1]];
      RunTwo(D(t), d, ms[0], ms[1]);
      var (d1, out) := D(t)(d, ms[0]);
      if out == [] {
        WrongSet(t, d1, ms[1], lc);
        assert [] + D(t)(d1, ms[1]).1 == D(t)(d1, ms[1]).1;
      }
    }
  }

  lemma InvalidN(t: Tables, d: InState)
    requires t.Ok() && Quiet(d) && d.g2 == LCINV
    ensures var out := D(t)(Reading(d, CC_ESC), 'N' as nat).1; out != [] && out[0] == ESC
  {
    var st := Reading(d, CC_ESC);
    assert Ok(st);
    hide GraphicStep;
    assert EscapeStep(t, st, 'N' as nat).1[0] == ESC && !EscapeStep(t, st, 'N' as nat).2;
  }

  /** What follows the designation of G3 and its announcement by ESC N. */
  lemma AnnouncedWrongly(t: Tables, d: InState, ms: seq<nat>, lc: nat)
    requires t.Ok() && Quiet(d) && Plain(d) && 1 <= |ms| <= 2 && forall i :: 0 <= i < |ms| ==> 0x20 <= ms[i] < 0x80
    requires d.g2 != lc && !t.r2l[d.g2] && !t.r2l[LCASCII] && 0x81 <= lc < LCPRV11
    ensures var (d1, out) := Run(D(t), d, [ESC, 'N' as nat] + ms); NotLed(d1, out, lc)
  {
    hide Run;
    EscRead(t, d);
    RunTwo(D(t), d, ESC, 'N' as nat);
    RunAppend(D(t), d, [ESC, 'N' as nat], ms);
    if d.g2 != LCINV {
      Ss2Read(t, d, true);
      WrongSets(t, d.(ss2 := true), ms, lc);
      assert [] + Run(D(t), d.(ss2 := true), ms).1 == Run(D(t), d.(ss2 := true), ms).1;
    } else {
      InvalidN(t, d);
      assert ([] + D(t)(Reading(d, CC_ESC), 'N' as nat).1)[0] == ESC;
    }
  }

  /** What the encoder takes G3 to hold before the first character. */
  function FirstOld(conf: O.Conf, e: O.OutState, lc: nat): nat { if lc == conf.o3 && e.i3 then LCINV else e.g3 }

  lemma FirstG3(conf: O.Conf, e: O.OutState, lc: nat)
    requires Supported(conf) && PlainSet(conf, lc) && conf.form.seven && NeedsG3(conf, lc)
    requires exists i0, i1, i2, i3, b :: e == FirstOut(conf, i0, i1, i2, i3, b)
    ensures O.GsOk(e)
    ensures FirstOld(conf, e, lc) == LCINV || Known(conf.t, FirstOld(conf, e, lc))
    ensures O.Out(conf)(e, lc).1 == O.Change(conf, FirstOld(conf, e, lc), lc, 3) + [ESC, 'N' as nat]
    ensures var e1 := O.Out(conf)(e, lc).0;
      O.GsOk(e1) && e1.comp == O.CMP_NONE && e1.ch == 0 && O.InUse(e1) == lc
  {
    FirstKnown(conf, e, lc);
    assert 0x81 <= lc < LCPRV11 && !conf.t.r2l[lc] && !conf.selective && conf.Ok();
    LeadOut(conf, e, lc);
    hide O.Change, O.Out, Known, Supported, PlainSet;
  }

  lemma FirstKnown(conf: O.Conf, e: O.OutState, lc: nat)
    requires Supported(conf) && PlainSet(conf, lc)
    requires exists i0, i1, i2, i3, b :: e == FirstOut(conf, i0, i1, i2, i3, b)
    ensures O.GsOk(e) && e.ch == 0 && e.comp == O.CMP_NONE && !e.r2l
    ensures FirstOld(conf, e, lc) == LCINV || Known(conf.t, FirstOld(conf, e, lc))
  {
    hide LeftOk;
  }

  lemma {:induction false} PayloadsOut(conf: O.Conf, e: O.OutState, lc: nat, p: seq<nat>)
    requires conf.Ok() && O.GsOk(e) && !conf.selective && e.comp == O.CMP_NONE && O.InUse(e) == lc
      && 0x81 <= lc < LCPRV11
    requires conf.form.seven && e.ch == 0 && conf.t.bytes[lc] == |p| + 1 && 1 <= |p| <= 2
    requires forall i :: 0 <= i < |p| ==> 0xA0 <= p[i] <= 0xFF
    ensures |Run(O.Out(conf), e, p).1| == |p| && forall i :: 0 <= i < |p| ==> Run(O.Out(conf), e, p).1[i] == p[i] - 0x80
  {
    hide O.Out, Run;
    PayloadOut(conf, e, lc, p[0]);
    if |p| == 1 {
      assert p == [p[0]];
      RunOne(O.Out(conf), e, p[0]);
    } else {
      assert p == [p[0], p[1]];
      PayloadOut(conf, e.(ch := p[0], boundary := false), lc, p[1]);
      RunTwo(O.Out(conf), e, p[0], p[1]);
    }
  }

  /** A character of a set that goes to G3. */
  predicate G3Char(conf: O.Conf, u: seq<nat>)
    requires conf.Ok()
  {
    && |u| > 1 && PlainSet(conf, u[0]) && NeedsG3(conf, u[0]) && |u| == conf.t.bytes[u[0]]
    && forall i :: 1 <= i < |u| ==> Payload(conf.t, u[0], u[i])
  }

  lemma G3CharMeans(conf: O.Conf, u: seq<nat>)
    requires conf.Ok() && G3Char(conf, u)
    ensures u == [u[0]] + u[1..] && AreBytes(u) && 1 <= |u[1..]| <= 2 && conf.t.bytes[u[0]] == |u[1..]| + 1
    ensures 0x81 <= u[0] < LCPRV11 && forall i :: 0 <= i < |u[1..]| ==> 0xA0 <= u[1..][i] <= 0xFF
  {
    hide Known, NeedsG3;
    assert forall i :: 0 <= i < |u[1..]| ==> u[1..][i] == u[i + 1] && Payload(conf.t, u[0], u[i + 1]);
  }

  /** What the encoder makes of it. */
  lemma CodedG3(conf: O.Conf, e: O.OutState, u: seq<nat>) returns (ms: seq<nat>)
    requires Supported(conf) && conf.form.seven && G3Char(conf, u)
    requires exists i0, i1, i2, i3, b :: e == FirstOut(conf, i0, i1, i2, i3, b)
    ensures O.GsOk(e) && AreBytes(u)
    ensures FirstOld(conf, e, u[0]) == LCINV || Known(conf.t, FirstOld(conf, e, u[0]))
    ensures Run(O.Out(conf), e, u).1 == O.Change(conf, FirstOld(conf, e, u[0]), u[0], 3) + ([ESC, 'N' as nat] + ms)
    ensures 1 <= |ms| <= 2 && forall i :: 0 <= i < |ms| ==> 0x20 <= ms[i] < 0x80
  {
    var lc, p := u[0], u[1..];
    FirstG3(conf, e, lc);
    G3CharMeans(conf, u);
    assert conf.Ok() && !conf.selective;
    hide G3Char, Supported, PlainSet, NeedsG3, O.Out, Run, Known, O.Change, FirstOld, O.InUse;
    var e1 := O.Out(conf)(e, lc).0;
    PayloadsOut(conf, e1, lc, p);
    ms := Run(O.Out(conf), e1, p).1;
    RunCons(O.Out(conf), e, lc, p);
    CodedIs(O.Out(conf)(e, lc).1[..|O.Out(conf)(e, lc).1| - 2], ms);
  }

  /** A seven-bit code announces G3 by ESC N, so a set that goes there is never read back, not even from a text
      of one character. */
  lemma SevenBitG3Lost(conf: O.Conf, i0: bool, i1: bool, i2: bool, i3: bool, boundary: bool, u: seq<nat>)
    requires Supported(conf) && conf.form.seven && G3Char(conf, u) && !conf.t.r2l[conf.o2]
    ensures conf.Ok() && O.GsOk(FirstOut(conf, i0, i1, i2, i3, boundary)) && AreBytes(u)
    ensures Output(In(conf.t, EolLf), FlushCh(), FirstIn(conf),
                   O.Encoded(conf, FirstOut(conf, i0, i1, i2, i3, boundary), u, false).1, true) != u
  {
    var t, e, d, lc := conf.t, FirstOut(conf, i0, i1, i2, i3, boundary), FirstIn(conf), u[0];
    assert conf.Ok() && !t.r2l[LCASCII] && Quiet(d) && 0x81 <= lc < LCPRV11 && Known(t, lc) && d.g2 != lc;
    var ms := CodedG3(conf, e, u);
    var current := FirstOld(conf, e, lc);
    hide G3Char, Supported, PlainSet, NeedsG3, O.Out, Run, In, O.Change, NotLed, FirstOld;
    ChangeRead(conf, d, current, lc, 3);
    var d1 := if current != lc then SetG(d, 3, Fold(lc)) else d;
    hide Known;
    LoudRun(D(t), d, O.Change(conf, current, lc, 3), d1, [ESC, 'N' as nat] + ms);
    QuietSet(d, lc);
    hide Quiet, SetG, Fold;
    AnnouncedWrongly(t, d1, ms, lc);
    var (d2, text) := Run(D(t), d1, [ESC, 'N' as nat] + ms);
    LedByOther(d2, text, lc);
  }

  lemma CodedIs(a: seq<nat>, ms: seq<nat>)
    ensures (a + [ESC, 'N' as nat]) + ms == a + ([ESC, 'N' as nat] + ms)
  {
  }

  lemma QuietSet(d: InState, lc: nat)
    requires Quiet(d) && lc < 256
    ensures Quiet(SetG(d, 3, Fold(lc))) && SetG(d, 3, Fold(lc)).g2 == d.g2 && (Plain(d) ==> Plain(SetG(d, 3, Fold(lc))))
  {
  }

  lemma LedByOther(st: InState, out: seq<nat>, lc: nat)
    requires NotLed(st, out, lc) && lc >= 0x81
    ensures var text := out + FlushCh()(st); text != [] && text[0] != lc
  {
    assert st.ch != 0 ==> Drain(st.ch)[0] == st.ch % 128;
  }
}
