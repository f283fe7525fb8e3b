// g2i: buffer text as an ISO 2022 byte stream.

module Iso2022Out {
  import opened Bytes
  import opened Conversion
  import opened Iso2022In

  // CC_CMP_MASK: where in a composite character the text is.
  const CMP_NONE: nat := 0
  const CMP_LC: nat := 1
  const CMP_ASCII: nat := 2
  const CMP_NONASCII: nat := 3

  /** What does not change while text is converted: tables, form, and the initial designations. */
  datatype Conf = Conf(t: Tables, form: Form, selective: bool, o0: nat, o1: nat, o2: nat, o3: nat)
  {
    predicate Ok() { t.Ok() && o0 < 256 && o1 < 256 && o2 < 256 && o3 < 256 }
  }

  /** The state of the encoder: the set in use (graphic), whether G1 is shifted in, the designations, the
      sets still to be designated before their first use, and whether a character is complete. */
  datatype OutState = OutState(r2l: bool, graphic: nat, shift: bool, comp: nat, ch: nat,
                               g0: nat, g1: nat, g2: nat, g3: nat, i0: bool, i1: bool, i2: bool, i3: bool,
                               boundary: bool)

  predicate GsOk(st: OutState) { st.g0 < 256 && st.g1 < 256 && st.g2 < 256 && st.g3 < 256 }

  /** The set that is actually named in a designation. */
  function Named(form: Form, lc: nat): nat {
    if lc == LCASCII && form.useRoman then LCROMAN else if lc == LCJP && form.low then LCJPOLD else lc
  }

  function Inter94(g: nat): nat { 0x28 + g }

  function Inter96(g: nat): nat { 0x2C + g }

  /** designate, when an escape sequence is needed at all. */
  function Sequence(conf: Conf, lc: nat, g: nat): seq<nat>
    requires conf.t.Ok() && lc < 256
  {
    var k := conf.t.kind[lc];
    var inter := if k == TYPE94 || k == 0xFF then [Inter94(g)]
                 else if k == TYPE96 then [Inter96(g)]
                 else if k == TYPE94N then
                   ['$' as nat] + (if g != 0 || !conf.form.short || (lc != LCJPOLD && lc != LCJP
                     && lc != LCCN) then [Inter94(g)] else [])
                 else if k == TYPE96N then ['$' as nat, Inter96(g)]
                 else [];
    [ESC] + inter + [conf.t.final[lc]]
  }

  function Designate(conf: Conf, current: nat, lc: nat, g: nat): seq<nat>
    requires conf.t.Ok() && current < 256 && lc < 256
  {
    if conf.t.kind[current] == conf.t.kind[lc] && conf.t.final[current] == conf.t.final[lc] then []
    else Sequence(conf, Named(conf.form, lc), g)
  }

  /** designate is called only for a set that is not designated already. */
  function Change(conf: Conf, current: nat, lc: nat, g: nat): seq<nat>
    requires conf.t.Ok() && current < 256 && lc < 256
  {
    if current != lc then Designate(conf, current, lc, g) else []
  }

  function ShiftIn(st: OutState): seq<nat> { if st.shift then [SI] else [] }

  function Designation0(conf: Conf, st: OutState, lc: nat): (OutState, seq<nat>)
    requires conf.t.Ok() && GsOk(st) && lc < 256
  {
    (st.(shift := false, g0 := lc, graphic := 0), ShiftIn(st) + Change(conf, st.g0, lc, 0))
  }

  function Designation1(conf: Conf, st: OutState, lc: nat): (OutState, seq<nat>)
    requires conf.t.Ok() && GsOk(st) && lc < 256
  {
    (st.(shift := false, g1 := lc, graphic := 1), ShiftIn(st) + Change(conf, st.g1, lc, 1))
  }

  function LockingShift(conf: Conf, st: OutState, lc: nat): (OutState, seq<nat>)
    requires conf.t.Ok() && GsOk(st) && lc < 256
  {
    (st.(g1 := lc, graphic := 1, shift := true), Change(conf, st.g1, lc, 1) + (if st.shift then [] else [SO]))
  }

  function SingleShift2(conf: Conf, st: OutState, lc: nat): (OutState, seq<nat>)
    requires conf.t.Ok() && GsOk(st) && lc < 256
  {
    (st.(g2 := lc, graphic := 2), Change(conf, st.g2, lc, 2) + (if conf.form.seven then [ESC, 'N' as nat] else [SS2]))
  }

  /** In a seven-bit code G3 is announced by ESC N, which is the announcement of G2. */
  function SingleShift3(conf: Conf, st: OutState, lc: nat): (OutState, seq<nat>)
    requires conf.t.Ok() && GsOk(st) && lc < 256
  {
    (st.(g3 := lc, graphic := 3), Change(conf, st.g3, lc, 3) + (if conf.form.seven then [ESC, 'N' as nat] else [SS3]))
  }

  /** A leading byte: its set is put where it is or was designated, or else where there is room. */
  function Place(conf: Conf, st: OutState, lc: nat): (OutState, seq<nat>)
    requires conf.t.Ok() && GsOk(st) && lc < 256
  {
    if lc == st.g0 || lc == conf.o0 then
      Designation0(conf, if st.i0 then st.(g0 := LCINV, i0 := false) else st, lc)
    else if lc == st.g1 || lc == conf.o1 then
      var st1 := if st.i1 then st.(g1 := LCINV, i1 := false) else st;
      if conf.form.seven then LockingShift(conf, st1, lc) else Designation1(conf, st1, lc)
    else if lc == st.g2 || lc == conf.o2 then
      SingleShift2(conf, if st.i2 then st.(g2 := LCINV, i2 := false) else st, lc)
    else if lc == st.g3 || lc == conf.o3 then
      SingleShift3(conf, if st.i3 then st.(g3 := LCINV, i3 := false) else st, lc)
    else if conf.t.graphic[lc] != 0 then
      if st.g1 != LCINV && !conf.form.seven then Designation1(conf, st, lc)
      else if st.g1 != LCINV && conf.form.lockShift then LockingShift(conf, st, lc)
      else if st.g2 != LCINV then SingleShift2(conf, st, lc)
      else if st.g3 != LCINV then SingleShift3(conf, st, lc)
      else Designation0(conf, st, lc)
    else Designation0(conf, st, lc)
  }

  /** The escape sequence that ends right-to-left text. */
  function RevertDirection(form: Form): seq<nat> {
    if form.seven then [ESC, '[' as nat, '0' as nat, ']' as nat] else [0x9B, ']' as nat]
  }

  function StartRightToLeft(form: Form): seq<nat> {
    (if form.seven then [ESC, '[' as nat] else [0x9B]) + ['2' as nat, ']' as nat]
  }

  function Initial(conf: Conf, g: nat): nat {
    if g == 0 then conf.o0 else if g == 1 then conf.o1 else if g == 2 then conf.o2 else conf.o3
  }

  function Current(st: OutState,
                   g: nat): nat { if g == 0 then st.g0 else if g == 1 then st.g1 else if g == 2 then st.g2 else st.g3 }

  function Assign(st: OutState, g: nat, lc: nat): OutState {
    if g == 0 then st.(g0 := lc) else if g == 1 then st.(g1 := lc) else if g == 2 then st.(g2 := lc) else st.(g3 := lc)
  }

  /** One set back to what it was at first. */
  function RestoreOne(conf: Conf, st: OutState, g: nat): (OutState, seq<nat>)
    requires conf.Ok() && GsOk(st)
  {
    if Initial(conf, g) != LCINV then
      (Assign(st, g, Initial(conf, g)), Change(conf, Current(st, g), Initial(conf, g), g))
    else (st, [])
  }

  lemma RestoreOneOk(conf: Conf, st: OutState, g: nat)
    requires conf.Ok() && GsOk(st)
    ensures GsOk(RestoreOne(conf, st, g).0) && SameBesides(st, RestoreOne(conf, st, g).0)
  {
    hide Change;
  }

  /** Two states that differ in the designations only. */
  predicate SameBesides(a: OutState, b: OutState) {
    a.(g0 := 0, g1 := 0, g2 := 0, g3 := 0) == b.(g0 := 0, g1 := 0, g2 := 0, g3 := 0)
  }

  /** Back to the initial designations. */
  function Restore(conf: Conf, st: OutState): (r: (OutState, seq<nat>))
    requires conf.Ok() && GsOk(st)
    ensures GsOk(r.0) && SameBesides(st, r.0)
  {
    hide RestoreOne, GsOk;
    var (st0, s0) := RestoreOne(conf, st, 0);
    RestoreOneOk(conf, st, 0);
    var (st1, s1) := RestoreOne(conf, st0, 1);
    RestoreOneOk(conf, st0, 1);
    var (st2, s2) := RestoreOne(conf, st1, 2);
    RestoreOneOk(conf, st1, 2);
    var (st3, s3) := RestoreOne(conf, st2, 3);
    RestoreOneOk(conf, st2, 3);
    (st3, s0 + (s1 + (s2 + s3)))
  }

  function EndComposite(st: OutState): seq<nat> { if st.comp != CMP_NONE then [ESC, '1' as nat] else [] }

  /** Control and ASCII graphic characters belong to ASCII in G0. */
  function ToAscii(conf: Conf, st: OutState, c: nat): (OutState, seq<nat>)
    requires conf.Ok() && GsOk(st)
  {
    if ((c < 0x20 || c == 0x20 || c == DEL) && conf.form.asciiCntl) || 0x20 < c < DEL then
      (st.(shift := false, g0 := LCASCII), ShiftIn(st) + Change(conf, st.g0, LCASCII, 0))
    else (st, [])
  }

  /** At the end of a line everything may be reset. */
  function AtLineEnd(conf: Conf, st: OutState, c: nat): (OutState, seq<nat>)
    requires conf.Ok() && GsOk(st)
  {
    if c == LF && conf.form.asciiEol then
      var (st1, out) := Restore(conf, st);
      (st1.(r2l := false, comp := CMP_NONE, shift := false), EndComposite(st) + (ShiftIn(st) + out))
    else (st, [])
  }

  function LineEnd(eol: Eol, c: nat): seq<nat> {
    if c == LF then (if !eol.EolLf? then [CR] else []) + (if !eol.EolCr? then [c] else []) else [c]
  }

  function AsciiStep(conf: Conf, st: OutState, c: nat): (OutState, seq<nat>)
    requires conf.Ok() && GsOk(st)
  {
    var st1 := st.(ch := 0, r2l := false);
    var revert := if st.r2l then RevertDirection(conf.form) else [];
    var (st2, out2) := ToAscii(conf, st1, c);
    var (st3, out3) := AtLineEnd(conf, st2, c);
    var comp := if st3.comp == CMP_ASCII || st3.comp == CMP_NONASCII then CMP_LC else st3.comp;
    (st3.(graphic := 0, boundary := true, comp := comp), revert + (out2 + (out3 + LineEnd(conf.form.eol, c))))
  }

  function LeadStep(conf: Conf, st0: OutState, lc: nat): (OutState, seq<nat>)
    requires conf.Ok() && GsOk(st0) && lc < 256
  {
    var st := st0.(ch := 0, boundary := false);
    var comp := if st.comp == CMP_LC then CMP_NONASCII else st.comp;
    if LCPRV11 <= lc <= LCPRV22 then (st.(ch := lc, comp := comp), [])
    else
      var (r2l, turn) :=
        if st.r2l && !conf.t.r2l[lc] then (false, RevertDirection(conf.form))
        else if !conf.form.nodir && !st.r2l && conf.t.r2l[lc] then (true, StartRightToLeft(conf.form))
        else (st.r2l, []);
      var (st1, out) := Place(conf, st.(r2l := r2l), lc);
      (st1.(comp := comp), turn + out)
  }

  /** The low bits that survive in the code: seven of them in G0 and in seven-bit codes. */
  function Masked(conf: Conf, st: OutState, c: nat): nat {
    if conf.form.seven || st.graphic == 0 then c % 128 else c % 256
  }

  function InUse(st: OutState): nat {
    if st.graphic == 2 then st.g2 else if st.graphic == 3 then st.g3 else if st.graphic == 1 then st.g1 else st.g0
  }

  function NonAsciiStep(conf: Conf, st: OutState, c: nat): (OutState, seq<nat>)
    requires conf.Ok() && GsOk(st)
  {
    var lc := InUse(st);
    var (ch, out, boundary) :=
      if conf.t.bytes[lc] == 2 then (st.ch, [Masked(conf, st, c)], true)
      else if conf.t.bytes[lc] == 3 then
        if 0xA0 <= lc < 0xC0 then (0, [Masked(conf, st, c)], true)
        else if st.ch != 0 then (0, [Masked(conf, st, st.ch), Masked(conf, st, c)], true)
        else (c, [], false)
      else if conf.t.bytes[lc] == 4 then
        if 0xC0 <= lc then
          if st.ch != 0 then (0, [Masked(conf, st, st.ch), Masked(conf, st, c)], true) else (c, [], false)
        else if st.ch > 0xFF then
          (0, [Masked(conf, st, st.ch), Masked(conf, st, st.ch / 256), Masked(conf, st, c)], true)
        else (if st.ch != 0 then st.ch + c * 256 else c, [], false)
      else (st.ch, [], true);
    (st.(ch := ch, boundary := boundary, comp := if boundary && st.comp == CMP_NONASCII then CMP_LC else st.comp), out)
  }

  function MainStep(conf: Conf, st: OutState, c: nat): (OutState, seq<nat>)
    requires conf.Ok() && GsOk(st) && c < 256
  {
    if AsciiP(c) then AsciiStep(conf, st, c)
    else if c == LCCMP then (st.(ch := 0, comp := CMP_LC, boundary := false), [ESC, '0' as nat])
    else if LcP(c) || LcP(st.ch) then LeadStep(conf, st, c)
    else NonAsciiStep(conf, st, c)
  }

  function OutStep(conf: Conf, st: OutState, c0: nat): (OutState, seq<nat>)
    requires conf.Ok() && GsOk(st) && c0 < 256
  {
    var c := if conf.selective && c0 == CR then LF else c0;
    if st.comp == CMP_LC then
      if c == 0xA0 then (st.(comp := CMP_ASCII), [])
      else if c > 0xA0 then MainStep(conf, st, c - 0x20)
      else
        var (st1, out) := MainStep(conf, st.(comp := CMP_NONE), c);
        (st1, [ESC, '1' as nat] + out)
    else if st.comp == CMP_ASCII then MainStep(conf, st, c % 128)
    else MainStep(conf, st, c)
  }

  /** At the end of the text, if it ends with a character, everything is reset. */
  function FinalOut(conf: Conf, st: OutState): (OutState, seq<nat>)
    requires conf.Ok() && GsOk(st)
  {
    if st.boundary then
      var revert := if st.r2l then RevertDirection(conf.form) else [];
      var (st1, out) := Restore(conf, st.(r2l := false, graphic := 0, shift := false, comp := CMP_NONE));
      (st1, revert + (EndComposite(st) + (ShiftIn(st) + out)))
    else (st, [])
  }

  lemma ShiftsOk(conf: Conf, st: OutState, lc: nat)
    requires conf.t.Ok() && GsOk(st) && lc < 256
    ensures GsOk(Designation0(conf, st, lc).0) && GsOk(Designation1(conf, st, lc).0)
      && GsOk(LockingShift(conf, st, lc).0)
    ensures GsOk(SingleShift2(conf, st, lc).0) && GsOk(SingleShift3(conf, st, lc).0)
  {
    hide Change, ShiftIn;
  }

  lemma PlaceOk(conf: Conf, st: OutState, lc: nat)
    requires conf.t.Ok() && GsOk(st) && lc < 256
    ensures GsOk(Place(conf, st, lc).0)
  {
    hide Designation0, Designation1, LockingShift, SingleShift2, SingleShift3;
    ShiftsOk(conf, st, lc);
    ShiftsOk(conf, st.(g0 := LCINV, i0 := false), lc);
    ShiftsOk(conf, st.(g1 := LCINV, i1 := false), lc);
    ShiftsOk(conf, st.(g2 := LCINV, i2 := false), lc);
    ShiftsOk(conf, st.(g3 := LCINV, i3 := false), lc);
  }

  lemma LeadOk(conf: Conf, st0: OutState, lc: nat)
    requires conf.Ok() && GsOk(st0) && lc < 256
    ensures GsOk(LeadStep(conf, st0, lc).0)
  {
    hide Place, RevertDirection, StartRightToLeft;
    var st := st0.(ch := 0, boundary := false);
    PlaceOk(conf, st.(r2l := true), lc);
    PlaceOk(conf, st.(r2l := false), lc);
  }

  lemma AsciiOk(conf: Conf, st: OutState, c: nat)
    requires conf.Ok() && GsOk(st)
    ensures GsOk(AsciiStep(conf, st, c).0)
  {
    hide Change, RevertDirection, ShiftIn, EndComposite, LineEnd, Restore;
  }

  lemma MainOk(conf: Conf, st: OutState, c: nat)
    requires conf.Ok() && GsOk(st) && c < 256
    ensures GsOk(MainStep(conf, st, c).0)
  {
    hide AsciiStep, LeadStep;
    AsciiOk(conf, st, c);
    LeadOk(conf, st, c);
  }

  lemma StepOk(conf: Conf, st: OutState, c: nat)
    requires conf.Ok() && GsOk(st) && c < 256
    ensures GsOk(OutStep(conf, st, c).0)
  {
    hide MainStep;
    var c1 := if conf.selective && c == CR then LF else c;
    MainOk(conf, st, c1);
    MainOk(conf, st, c1 % 128);
    MainOk(conf, st.(comp := CMP_NONE), c1);
    if c1 > 0xA0 { MainOk(conf, st, c1 - 0x20); }
  }

  lemma {:induction false} RunOk(conf: Conf, st: OutState, s: seq<nat>)
    requires conf.Ok() && GsOk(st) && AreBytes(s)
    ensures GsOk(Run(Out(conf), st, s).0)
  {
    hide OutStep, GsOk;
    if s != [] {
      RunOk(conf, st, s[..|s| - 1]);
      StepOk(conf, Run(Out(conf), st, s[..|s| - 1]).0, s[|s| - 1]);
    }
  }

  /** The step for a state that has been reached; other arguments do not occur. */
  function Out(conf: Conf): (OutState, nat) -> (OutState, seq<nat>) {
    (st, c) => if conf.Ok() && GsOk(st) && c < 256 then OutStep(conf, st, c) else (st, [])
  }

  // ---- the method ----

  /** The coding system of a conversion. */
  function ConfOf(t: Tables, form: Form, selective: bool, olcg: seq<nat>): Conf
    requires |olcg| == 4
  {
    Conf(t, form, selective, olcg[0], olcg[1], olcg[2], olcg[3])
  }

  function StateOf(cntl: Cntl, ch: nat, lcg: seq<nat>, ilcg: seq<bool>, boundary: bool): OutState
    requires |lcg| == |ilcg| == 4
  {
    OutState(cntl.r2l, cntl.graphic, cntl.shift, cntl.comp, ch, lcg[0], lcg[1], lcg[2], lcg[3],
             ilcg[0], ilcg[1], ilcg[2], ilcg[3], boundary)
  }

  /** CODE_COMPOSE, into the bits this direction uses. */
  function CntlOf(cntl: Cntl, st: OutState): Cntl {
    cntl.(r2l := st.r2l, graphic := st.graphic, shift := st.shift, comp := st.comp)
  }

  /** The end of a piece: on the last one everything may be reset. */
  function Finished(conf: Conf, st: OutState, out: seq<nat>, end: bool): (OutState, seq<nat>)
    requires conf.Ok() && GsOk(st)
  {
    if end then var (st1, rest) := FinalOut(conf, st); (st1, out + rest) else (st, out)
  }

  /** What g2i writes for a text, and the state it leaves. */
  function Encoded(conf: Conf, st: OutState, s: seq<nat>, end: bool): (OutState, seq<nat>)
    requires conf.Ok() && GsOk(st) && AreBytes(s)
  {
    var (st1, out) := Run(Out(conf), st, s);
    RunOk(conf, st, s);
    Finished(conf, st1, out, end)
  }

  lemma RunGrows(conf: Conf, st: OutState, s: seq<nat>, i: nat)
    requires i <= |s|
    ensures |Run(Out(conf), st, s[..i]).1| <= |Run(Out(conf), st, s).1|
  {
    hide Run;
    RunAppend(Out(conf), st, s[..i], s[i..]);
    assert s[..i] + s[i..] == s;
  }

  /** The loop of g2i. */
  method Convert(conf: Conf, st0: OutState, src: seq<nat>, dst: array<nat>) returns (st: OutState, dp: nat)
    requires conf.Ok() && GsOk(st0) && AreBytes(src) && |Run(Out(conf), st0, src).1| <= dst.Length
    modifies dst
    ensures GsOk(st) && dp <= dst.Length && Run(Out(conf), st0, src) == (st, dst[..dp])
  {
    hide Run, OutStep, GsOk;
    st, dp := st0, 0;
    var i := 0;
    RunNothing(Out(conf), st0, src);
    while i < |src|
      invariant 0 <= i <= |src| && GsOk(st) && dp <= dst.Length
      invariant Run(Out(conf), st0, src[..i]) == (st, dst[..dp])
    {
      RunSnoc(Out(conf), st0, src, i);
      RunGrows(conf, st0, src, i + 1);
      StepOk(conf, st, src[i]);
      var (st1, out) := OutStep(conf, st, src[i]);
      Put(out, dst, dp);
      st, dp, i := st1, dp + |out|, i + 1;
    }
    assert src[..i] == src;
  }

  method Finish(conf: Conf, st0: OutState, dst: array<nat>, dp0: nat, cntl0: Cntl)
    returns (st: OutState, dp: nat, cntl: Cntl)
    requires conf.Ok() && GsOk(st0) && dp0 <= dst.Length
    requires |Finished(conf, st0, dst[..dp0], cntl0.end).1| <= dst.Length
    modifies dst
    ensures GsOk(st) && dp <= dst.Length && (st, dst[..dp]) == Finished(conf, st0, old(dst[..dp0]), cntl0.end)
    ensures cntl.end == (cntl0.end && !st.boundary)
      && cntl.selective == (cntl0.selective && !(cntl0.end && st.boundary))
  {
    hide FinalOut;
    st, dp, cntl := st0, dp0, cntl0;
    if st.boundary && cntl.end {
      FinalOk(conf, st);
      var (st1, out) := FinalOut(conf, st);
      Put(out, dst, dp);
      st, dp, cntl := st1, dp + |out|, NO_CNTL;
    } else {
      if !st.boundary { NoFinal(conf, st); }
      assert dst[..dp] + [] == dst[..dp];
    }
  }

  method G2I(t: Tables, src: seq<nat>, dst: array<nat>, code: CodingType, boundary0: bool) returns (len: nat)
    requires t.Ok() && AreBytes(src) && |code.lcg| == |code.olcg| == |code.ilcg| == 4
    requires var conf := ConfOf(t, code.form, code.cntl.selective, code.olcg);
      var st := StateOf(code.cntl, code.ch, code.lcg, code.ilcg, boundary0);
      conf.Ok() && GsOk(st) && |Encoded(conf, st, src, code.cntl.end).1| <= dst.Length
    modifies dst, code`cntl, code`ch, code`lcg, code`ilcg
    ensures len <= dst.Length && |code.lcg| == |code.ilcg| == 4
    ensures var conf := ConfOf(t, code.form, old(code.cntl.selective), code.olcg);
      var st := StateOf(old(code.cntl), old(code.ch), old(code.lcg), old(code.ilcg), boundary0);
      var (st1, out) := Encoded(conf, st, src, old(code.cntl.end));
      && dst[..len] == out && StateOf(code.cntl, code.ch, code.lcg, code.ilcg, st1.boundary) == st1 && GsOk(st1)
      && code.cntl.end == (old(code.cntl.end) && !st1.boundary)
      && code.cntl.selective == (old(code.cntl.selective) && !(old(code.cntl.end) && st1.boundary))
  {
    hide Run, Out, Finished, GsOk, StateOf, CntlOf;
    var conf := ConfOf(t, code.form, code.cntl.selective, code.olcg);
    var st := StateOf(code.cntl, code.ch, code.lcg, code.ilcg, boundary0);
    RunOk(conf, st, src);
    RunFits(conf, st, src, code.cntl.end);
    var st1, dp := Convert(conf, st, src, dst);
    var st2, cntl;
    st2, dp, cntl := Finish(conf, st1, dst, dp, code.cntl);
    Composed(cntl, st2);
    code.cntl, code.ch := CntlOf(cntl, st2), st2.ch;
    code.lcg, code.ilcg := [st2.g0, st2.g1, st2.g2, st2.g3], [st2.i0, st2.i1, st2.i2, st2.i3];
    return dp;
  }

  lemma Composed(cntl: Cntl, st: OutState)
    ensures StateOf(CntlOf(cntl, st), st.ch, [st.g0, st.g1, st.g2, st.g3], [st.i0, st.i1, st.i2, st.i3], st.boundary)
      == st
    ensures CntlOf(cntl, st).end == cntl.end && CntlOf(cntl, st).selective == cntl.selective
  {
  }

  lemma RunFits(conf: Conf, st: OutState, s: seq<nat>, end: bool)
    requires conf.Ok() && GsOk(st) && AreBytes(s)
    ensures |Run(Out(conf), st, s).1| <= |Encoded(conf, st, s, end).1|
  {
    hide Run, Out, FinalOut;
    RunOk(conf, st, s);
  }


  lemma FinalOk(conf: Conf, st: OutState)
    requires conf.Ok() && GsOk(st)
    ensures var (st1, out) := FinalOut(conf, st); GsOk(st1) && st1.boundary == st.boundary
  {
    hide Change, RevertDirection, EndComposite, ShiftIn, Restore;
  }

  lemma NoFinal(conf: Conf, st: OutState)
    requires conf.Ok() && GsOk(st) && !st.boundary
    ensures FinalOut(conf, st) == (st, [])
  {
  }
}
