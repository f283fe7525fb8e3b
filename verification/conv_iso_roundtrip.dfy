// Decoding with i2g what g2i has encoded gives the text back.

module Iso2022RoundTrip {
  import opened Bytes
  import opened Conversion
  import opened Iso2022In
  import O = Iso2022Out

  // ---- the texts and coding systems the round trip is for ----

  /** A set that the tables identify by its type and final byte. */
  predicate Known(t: Tables, lc: nat)
    requires t.Ok()
  {
    lc < 256 && lc != LCINV && t.kind[lc] <= 3 && t.final[lc] < 128 && t.lcTable[t.kind[lc] * 128 + t.final[lc]] == lc
  }

  /** The short form ESC $ F needs one of three final bytes. */
  predicate ShortFinal(t: Tables, lc: nat)
    requires t.Ok() && lc < 256
  {
    t.kind[lc] == TYPE94N ==> 0x40 <= t.final[lc] <= 0x42
  }

  /** A set that may be in use when a space is written: with CODE_ASCII_CNTL any; without, one in which a space and a
      DEL are what they are in ASCII. */
  predicate LeftOk(conf: O.Conf, lc: nat)
    requires conf.Ok()
  {
    conf.form.asciiCntl || lc == LCINV
    || (lc < 256 && (conf.t.kind[lc] == TYPE94 || conf.t.kind[lc] == TYPE94N))
  }

  /** The encoder puts this set neither in G0 nor, by shifting out, in place of it. */
  predicate OnRight(conf: O.Conf, lc: nat)
    requires conf.Ok() && lc < 256
  {
    && lc != conf.o0 && (conf.form.seven ==> lc != conf.o1)
    && (lc == conf.o1 || lc == conf.o2 || lc == conf.o3
        || (conf.t.graphic[lc] != 0
            && (if conf.form.seven then conf.o1 == LCINV || !conf.form.lockShift else true)
            && ((conf.o1 != LCINV && !conf.form.seven) || conf.o2 != LCINV || conf.o3 != LCINV)))
  }

  /** A coding system and tables that fit together; ASCII is a one-byte set. */
  predicate Supported(conf: O.Conf) {
    && conf.Ok() && conf.form.eol.EolLf? && !conf.selective
    && LeftOk(conf, LCASCII) && LeftOk(conf, LCJP) && LeftOk(conf, conf.o0)
    && (conf.form.seven ==> LeftOk(conf, conf.o1))
    && conf.t.kind[LCINV] > 3 && Known(conf.t, LCASCII) && conf.t.bytes[LCASCII] == 1 && !conf.t.r2l[LCASCII]
    && (conf.form.useRoman ==> Known(conf.t, LCROMAN)) && (conf.form.low ==> Known(conf.t, LCJPOLD))
    && ShortFinal(conf.t, LCJP) && ShortFinal(conf.t, LCJPOLD) && ShortFinal(conf.t, LCCN)
    && (conf.o0 == LCINV || Known(conf.t, conf.o0)) && (conf.o1 == LCINV || Known(conf.t, conf.o1))
    && (conf.o2 == LCINV || Known(conf.t, conf.o2)) && (conf.o3 == LCINV || Known(conf.t, conf.o3))
  }

  /** The encoder puts this set in G3. */
  predicate NeedsG3(conf: O.Conf, lc: nat)
    requires conf.Ok() && lc < 256
  {
    && lc != conf.o0 && lc != conf.o1 && lc != conf.o2
    && (lc == conf.o3
        || (conf.t.graphic[lc] != 0 && !(conf.o1 != LCINV && (!conf.form.seven || conf.form.lockShift))
            && conf.o2 == LCINV && conf.o3 != LCINV))
  }

  /** A left-to-right set of one or two bytes that the decoder does not fold into another. */
  predicate PlainSet(conf: O.Conf, lc: nat)
    requires conf.Ok()
  {
    && 0x81 <= lc < LCPRV11 && lc != LCROMAN && lc != LCJPOLD
    && Known(conf.t, lc) && 2 <= conf.t.bytes[lc] <= 3 && !conf.t.r2l[lc]
  }

  /** A set of one or two bytes with a leading byte of its own, */
  predicate Official(t: Tables, lc: nat)
    requires t.Ok()
  {
    0x81 <= lc < LCPRV11 && 2 <= t.bytes[lc] <= 3
  }

  /** or a private one, whose leading byte follows another. */
  predicate Private(t: Tables, lc: nat)
    requires t.Ok()
  {
    (0xA0 <= lc < 0xC0 && t.bytes[lc] == 3) || (0xC0 <= lc <= 0xFF && t.bytes[lc] == 4)
  }

  predicate Multibyte(t: Tables, lc: nat)
    requires t.Ok()
  {
    Official(t, lc) || Private(t, lc)
  }

  /** A set that the decoder does not fold into another.  One written from right to left needs a form that says so. */
  predicate AnySet(conf: O.Conf, lc: nat)
    requires conf.Ok()
  {
    && Multibyte(conf.t, lc) && lc != LCROMAN && lc != LCJPOLD && Known(conf.t, lc)
    && (conf.t.r2l[lc] ==> !conf.form.nodir) && (LeftOk(conf, lc) || OnRight(conf, lc))
  }

  predicate TextSet(conf: O.Conf, lc: nat)
    requires conf.Ok()
  {
    AnySet(conf, lc) && (conf.form.seven ==> !NeedsG3(conf, lc))
  }

  predicate Payload(t: Tables, lc: nat, c: nat)
    requires t.Ok() && lc < 256
  {
    0xA0 <= c <= 0xFF && (t.kind[lc] == TYPE94 || t.kind[lc] == TYPE94N ==> 0xA1 <= c <= 0xFE)
  }

  /** How many bytes follow the leading bytes. */
  function PayloadLength(t: Tables, lc: nat): int
    requires t.Ok() && lc < 256
  {
    var n: int := t.bytes[lc];
    if lc < 0xA0 then n - 1 else n - 2
  }

  predicate PlainAscii(c: nat) { c < 0x80 && c != ESC && c != SO && c != SI }

  /** The beginning of a composite character; an ASCII character; one of another set.  The last two may be parts of a
      composite character. */
  datatype Unit = Mark | Ascii(c: nat, composed: bool) | Multi(lc: nat, p: seq<nat>, composed: bool)

  /** The leading byte before that of a private set. */
  function Before(lc: nat): nat {
    if lc < 0xB8 then LCPRV11 else if lc < 0xC0 then LCPRV12 else if lc < 0xC8 then LCPRV21 else LCPRV22
  }

  /** Within composite characters the first leading byte is 0x20 higher. */
  function Leads(lc: nat, composed: bool): seq<nat> {
    var k: nat := if composed then 0x20 else 0;
    if lc < 0xA0 then [lc + k] else [Before(lc) + k, lc]
  }

  function Written(u: Unit): seq<nat> {
    match u
    case Mark => [LCCMP]
    case Ascii(c, composed) => if composed then [0xA0, c + 0x80] else [c]
    case Multi(lc, p, composed) => Leads(lc, composed) + p
  }

  predicate UnitOk(conf: O.Conf, u: Unit)
    requires conf.Ok()
  {
    match u
    case Mark => true
    case Ascii(c, composed) => PlainAscii(c) && (composed ==> c >= 0x20)
    case Multi(lc, p, _) =>
      && TextSet(conf, lc) && |p| == PayloadLength(conf.t, lc) && forall i :: 0 <= i < |p| ==> Payload(conf.t, lc, p[i])
  }

  predicate Composed(u: Unit) { !u.Mark? && u.composed }

  /** Parts of a composite character come only where one is open. */
  predicate Text(conf: O.Conf, units: seq<Unit>, open: bool)
    requires conf.Ok()
    decreases |units|
  {
    units == [] || (UnitOk(conf, units[0]) && (Composed(units[0]) ==> open)
                    && Text(conf, units[1..], units[0].Mark? || Composed(units[0])))
  }

  function Contents(units: seq<Unit>): seq<nat> {
    if units == [] then [] else Written(units[0]) + Contents(units[1..])
  }

  // ---- the decoder, read piece by piece ----

  function D(t: Tables): (InState, nat) -> (InState, seq<nat>) { In(t, EolLf) }

  /** Direction and composition, which designations leave alone. */
  predicate SameModes(d: InState, d1: InState) { d1.r2l == d.r2l && d1.cmp == d.cmp }

  /** Nothing has been started. */
  predicate Quiet(d: InState) {
    BytesOk(d) && !d.cr && !d.escape && !d.ss2 && !d.ss3 && d.esc == 0 && d.ch == 0
  }

  function Reading(d: InState, esc: nat): InState { d.(escape := true, esc := esc) }

  lemma EscRead(t: Tables, d: InState)
    requires t.Ok() && Quiet(d)
    ensures D(t)(d, ESC) == (Reading(d, CC_ESC), [])
  {
    assert Drain(0) + [] == [];
  }

  lemma MoreRead(t: Tables, d: InState, esc: nat, c: nat, esc': nat)
    requires t.Ok() && Quiet(d)
    requires (esc == CC_ESC && ((c == '$' as nat && esc' == CC_ESC_2_4) || (0x28 <= c <= 0x2F && esc' == c - 0x28)))
      || (esc == CC_ESC_2_4 && 0x28 <= c <= 0x2F && esc' == c - 0x20)
    ensures D(t)(Reading(d, esc), c) == (Reading(d, esc'), [])
  {
  }

  lemma FinalRead(t: Tables, d: InState, esc: nat, c: nat, lc: nat)
    requires t.Ok() && Quiet(d) && c < 128 && (esc < 16 || (esc == CC_ESC_2_4 && 0x40 <= c <= 0x42)) && lc != LCINV
    requires t.lcTable[(if esc < 16 then esc / 4 else 2) * 128 + c] == lc
    ensures D(t)(Reading(d, esc), c) == (SetG(d, if esc < 16 then esc % 4 else 0, Fold(lc)), [])
  {
  }

  lemma RunTwo<S>(step: (S, nat) -> (S, seq<nat>), st: S, a: nat, b: nat)
    ensures var (st1, out1) := step(st, a);
      var (st2, out2) := step(st1, b);
      Run(step, st, [a, b]) == (st2, out1 + out2)
  {
    assert [a, b] == [a] + [b];
    RunCons(step, st, a, [b]);
    RunOne(step, step(st, a).0, b);
  }

  lemma SilentRun<S>(step: (S, nat) -> (S, seq<nat>), st: S, x: seq<nat>, st1: S, y: seq<nat>, st2: S)
    requires Run(step, st, x) == (st1, []) && Run(step, st1, y) == (st2, [])
    ensures Run(step, st, x + y) == (st2, [])
  {
    RunAppend(step, st, x, y);
  }

  /** ESC i F and its longer forms designate the set they name. */
  lemma SequenceRead(conf: O.Conf, d: InState, lc: nat, g: nat)
    requires Supported(conf) && Quiet(d) && Known(conf.t, lc) && g <= 3
    ensures Run(D(conf.t), d, O.Sequence(conf, lc, g)) == (SetG(d, g, Fold(lc)), [])
  {
    hide D, Run, In;
    var t, k, f := conf.t, conf.t.kind[lc], conf.t.final[lc];
    EscRead(t, d);
    RunOne(D(t), d, ESC);
    var esc := k * 4 + g;
    FinalRead(t, d, esc, f, lc);
    RunOne(D(t), Reading(d, esc), f);
    if k == TYPE94 || k == TYPE96 {
      var i := 0x28 + esc;
      MoreRead(t, d, CC_ESC, i, esc);
      RunOne(D(t), Reading(d, CC_ESC), i);
      SilentRun(D(t), d, [ESC], Reading(d, CC_ESC), [i], Reading(d, esc));
      SilentRun(D(t), d, [ESC] + [i], Reading(d, esc), [f], SetG(d, g, Fold(lc)));
      assert O.Sequence(conf, lc, g) == [ESC] + [i] + [f];
    } else {
      MoreRead(t, d, CC_ESC, '$' as nat, CC_ESC_2_4);
      RunOne(D(t), Reading(d, CC_ESC), '$' as nat);
      SilentRun(D(t), d, [ESC], Reading(d, CC_ESC), ['$' as nat], Reading(d, CC_ESC_2_4));
      if O.Sequence(conf, lc, g) == [ESC, '$' as nat, f] {
        FinalRead(t, d, CC_ESC_2_4, f, lc);
        RunOne(D(t), Reading(d, CC_ESC_2_4), f);
        SilentRun(D(t), d, [ESC] + ['$' as nat], Reading(d, CC_ESC_2_4), [f], SetG(d, g, Fold(lc)));
        assert [ESC, '$' as nat, f] == [ESC] + ['$' as nat] + [f];
      } else {
        var i := 0x20 + esc;
        MoreRead(t, d, CC_ESC_2_4, i, esc);
        RunOne(D(t), Reading(d, CC_ESC_2_4), i);
        SilentRun(D(t), d, [ESC] + ['$' as nat], Reading(d, CC_ESC_2_4), [i], Reading(d, esc));
        SilentRun(D(t), d, [ESC] + ['$' as nat] + [i], Reading(d, esc), [f], SetG(d, g, Fold(lc)));
        assert O.Sequence(conf, lc, g) == [ESC] + ['$' as nat] + [i] + [f];
      }
    }
  }

  // ---- encoder and decoder side by side ----

  /** The decoder's designation is the encoder's, or what the decoder folds it into. */
  predicate Slot(t: Tables, e: nat, d: nat)
    requires t.Ok()
  {
    (d == e || d == Fold(e)) && (e == LCINV || Known(t, e))
  }

  /** Wherever a space is read, it is one. */
  predicate Spaced(conf: O.Conf, e: O.OutState)
    requires conf.Ok()
  {
    (e.shift ==> conf.form.seven) && LeftOk(conf, e.g0) && (conf.form.seven ==> LeftOk(conf, e.g1))
  }

  /** Designations and shift state agree, but for slot `skip`, which the encoder has marked as unknown. */
  predicate Tied(conf: O.Conf, e: O.OutState, d: InState, skip: nat)
    requires conf.Ok()
  {
    && Quiet(d) && d.so == e.shift && (e.shift ==> conf.o1 != LCINV)
    && (d.g1 == LCINV <==> conf.o1 == LCINV) && (d.g2 == LCINV <==> conf.o2 == LCINV)
    && (d.g3 == LCINV <==> conf.o3 == LCINV)
    && (if skip == 0 then e.g0 == LCINV else Slot(conf.t, e.g0, d.g0))
    && (if skip == 1 then e.g1 == LCINV else Slot(conf.t, e.g1, d.g1))
    && (if skip == 2 then e.g2 == LCINV else Slot(conf.t, e.g2, d.g2))
    && (if skip == 3 then e.g3 == LCINV else Slot(conf.t, e.g3, d.g3))
    && (conf.form.seven ==> e.g3 == conf.o3) && Spaced(conf, e)
  }

  lemma ChangeRead(conf: O.Conf, d: InState, current: nat, lc: nat, g: nat)
    requires Supported(conf) && Quiet(d) && Known(conf.t, lc) && (current == LCINV || Known(conf.t, current)) && g <= 3
    ensures Run(D(conf.t), d, O.Change(conf, current, lc, g)) == (if current != lc then SetG(d, g, Fold(lc)) else d, [])
  {
    hide D, Run, O.Sequence;
    if current != lc {
      SequenceRead(conf, d, O.Named(conf.form, lc), g);
    } else {
      RunNothing(D(conf.t), d, []);
    }
  }

  lemma ShiftInRead(conf: O.Conf, e: O.OutState, d: InState, skip: nat)
    requires Supported(conf) && Tied(conf, e, d, skip)
    ensures Run(D(conf.t), d, O.ShiftIn(e)) == (d.(so := false), [])
  {
    hide Run;
    if e.shift {
      RunOne(D(conf.t), d, SI);
    } else {
      RunNothing(D(conf.t), d, []);
    }
  }

  /** Both sides are about to handle a character of set lc. */
  predicate Aimed(conf: O.Conf, e: O.OutState, d: InState, lc: nat)
    requires conf.Ok()
  {
    && Tied(conf, e, d.(ss2 := false, ss3 := false), 4) && d.ss2 == (e.graphic == 2) && d.ss3 == (e.graphic == 3)
    && e.graphic <= 3 && O.InUse(e) == lc && (e.graphic == 0 ==> !e.shift)
    && (conf.form.seven ==> e.graphic != 3 && (e.graphic == 1 ==> e.shift))
  }

  /** The decoder reads `out` without putting anything out, and is then ready for set lc. */
  ghost predicate Lands(conf: O.Conf, d: InState, e1: O.OutState, out: seq<nat>, lc: nat)
    requires conf.Ok()
  {
    var (d1, text) := Run(D(conf.t), d, out);
    text == [] && Aimed(conf, e1, d1, lc) && SameModes(d, d1)
  }

  lemma BeforeChange(conf: O.Conf, e: O.OutState, d: InState, skip: nat, g: nat, lc: nat)
    requires Supported(conf) && Tied(conf, e, d, skip) && AnySet(conf, lc) && g <= 3 && (skip == 4 || skip == g)
    ensures O.GsOk(e) && lc < 256 && Known(conf.t, lc) && Quiet(d)
    ensures O.Current(e, g) == LCINV || Known(conf.t, O.Current(e, g))
    ensures conf.Ok() && Fold(lc) == lc != LCINV && (O.Current(e, g) == lc ==> SetG(d, g, lc) == d)
    ensures d.so == e.shift && (e.shift ==> conf.o1 != LCINV && conf.form.seven)
      && (d.g1 != LCINV <==> conf.o1 != LCINV)
    ensures (d.g2 != LCINV <==> conf.o2 != LCINV) && (d.g3 != LCINV <==> conf.o3 != LCINV)
  {
  }

  lemma ShiftsStay(conf: O.Conf, e: O.OutState, d: InState, skip: nat, g: nat, lc: nat, s: bool)
    requires Supported(conf) && Tied(conf, e, d, skip) && AnySet(conf, lc) && g <= 3 && (skip == 4 || skip == g)
    requires g == 1 ==> conf.o1 != LCINV
    requires g == 2 ==> conf.o2 != LCINV
    requires g == 3 ==> conf.o3 != LCINV && !conf.form.seven
    requires (s ==> conf.o1 != LCINV && conf.form.seven) && (g == 0 || (g == 1 && conf.form.seven) ==> LeftOk(conf, lc))
    ensures var d1 := SetG(d, g, lc).(so := s);
      var e1 := (if g == 0 then e.(g0 := lc) else if g == 1 then e.(g1 := lc) else if g == 2 then e.(g2 := lc)
        else e.(g3 := lc));
      Tied(conf, e1.(shift := s, graphic := g), d1, 4)
  {
    BeforeChange(conf, e, d, skip, g, lc);
    assert Slot(conf.t, lc, lc);
    DecoderSlots(d, g, lc, s);
    hide Slot, Known, Supported, AnySet, Quiet, SetG, LeftOk;
    SpacedStays(conf, e, g, lc, s);
    hide Spaced;
  }

  lemma SpacedStays(conf: O.Conf, e: O.OutState, g: nat, lc: nat, s: bool)
    requires conf.Ok() && Spaced(conf, e) && g <= 3
    requires (s ==> conf.form.seven) && (g == 0 || (g == 1 && conf.form.seven) ==> LeftOk(conf, lc))
    ensures var e1 := (if g == 0 then e.(g0 := lc) else if g == 1 then e.(g1 := lc) else if g == 2 then e.(g2 := lc)
        else e.(g3 := lc));
      Spaced(conf, e1.(shift := s, graphic := g))
  {
    hide LeftOk;
  }

  lemma DecoderSlots(d: InState, g: nat, lc: nat, s: bool)
    requires Quiet(d) && g <= 3 && lc < 256
    ensures var d1 := SetG(d, g, lc).(so := s);
      && Quiet(d1) && d1.so == s && d1.g0 == (if g == 0 then lc else d.g0) && d1.g1 == (if g == 1 then lc else d.g1)
      && d1.g2 == (if g == 2 then lc else d.g2) && d1.g3 == (if g == 3 then lc else d.g3)
  {
  }

  /** The decoder reads the designation, and knows the set afterwards even if none was needed. */
  lemma DesignationRead(conf: O.Conf, e: O.OutState, d: InState, skip: nat, g: nat, lc: nat, so: bool)
    requires Supported(conf) && Tied(conf, e, d, skip) && AnySet(conf, lc) && g <= 3 && (skip == 4 || skip == g)
    ensures O.GsOk(e) && lc < 256 && conf.Ok()
    ensures Run(D(conf.t), d.(so := so), O.Change(conf, O.Current(e, g), lc, g)) == (SetG(d, g, lc).(so := so), [])
    ensures Quiet(SetG(d, g, lc).(so := so)) && d.so == e.shift && !d.ss2 && !d.ss3
    ensures (conf.o1 != LCINV ==> SetG(d, g, lc).g1 != LCINV) && (conf.o2 != LCINV ==> SetG(d, g, lc).g2 != LCINV)
    ensures conf.o3 != LCINV ==> SetG(d, g, lc).g3 != LCINV
    ensures e.shift ==> conf.o1 != LCINV && conf.form.seven
    ensures so == d.so ==> d.(so := so) == d && SetG(d, g, lc).(so := so) == SetG(d, g, lc)
    ensures SameModes(d, SetG(d, g, lc))
  {
    hide D, Run, O.Change, Tied, Known, AnySet, Supported, Slot;
    BeforeChange(conf, e, d, skip, g, lc);
    ChangeRead(conf, d.(so := so), O.Current(e, g), lc, g);
  }

  lemma Designation0Read(conf: O.Conf, e: O.OutState, d: InState, skip: nat, lc: nat)
    requires Supported(conf) && (skip == 4 || skip == 0) && Tied(conf, e, d, skip) && AnySet(conf, lc)
      && LeftOk(conf, lc)
    ensures O.GsOk(e) && lc < 256
    ensures Lands(conf, d, O.Designation0(conf, e, lc).0, O.Designation0(conf, e, lc).1, lc)
  {
    hide D, Run, O.Change, O.ShiftIn, Tied, Known, AnySet, Supported, Slot, Quiet;
    DesignationRead(conf, e, d, skip, 0, lc, false);
    ShiftInRead(conf, e, d, skip);
    SilentRun(D(conf.t), d, O.ShiftIn(e), d.(so := false), O.Change(conf, e.g0, lc, 0), SetG(d, 0, lc).(so := false));
    ShiftsStay(conf, e, d, skip, 0, lc, false);
  }

  lemma Designation1Read(conf: O.Conf, e: O.OutState, d: InState, skip: nat, lc: nat)
    requires Supported(conf) && (skip == 4 || skip == 1) && Tied(conf, e, d, skip) && AnySet(conf, lc)
      && conf.o1 != LCINV && !conf.form.seven
    ensures O.GsOk(e) && lc < 256
    ensures Lands(conf, d, O.Designation1(conf, e, lc).0, O.Designation1(conf, e, lc).1, lc)
  {
    hide D, Run, O.Change, O.ShiftIn, Tied, Known, AnySet, Supported, Slot, Quiet;
    DesignationRead(conf, e, d, skip, 1, lc, false);
    ShiftInRead(conf, e, d, skip);
    SilentRun(D(conf.t), d, O.ShiftIn(e), d.(so := false), O.Change(conf, e.g1, lc, 1), SetG(d, 1, lc).(so := false));
    ShiftsStay(conf, e, d, skip, 1, lc, false);
  }

  lemma LockingShiftAims(conf: O.Conf, e: O.OutState, d: InState, skip: nat, lc: nat)
    requires Supported(conf) && (skip == 4 || skip == 1) && Tied(conf, e, d, skip) && AnySet(conf, lc)
      && conf.o1 != LCINV && conf.form.seven && LeftOk(conf, lc)
    ensures O.GsOk(e) && lc < 256 && Aimed(conf, O.LockingShift(conf, e, lc).0, SetG(d, 1, lc).(so := true), lc)
  {
    DesignationRead(conf, e, d, skip, 1, lc, true);
    ShiftsStay(conf, e, d, skip, 1, lc, true);
    hide D, Run, O.Change, Tied, Known, AnySet, Supported, Slot, Quiet;
  }

  lemma LockingShiftRead(conf: O.Conf, e: O.OutState, d: InState, skip: nat, lc: nat)
    requires Supported(conf) && (skip == 4 || skip == 1) && Tied(conf, e, d, skip) && AnySet(conf, lc)
      && conf.o1 != LCINV && conf.form.seven && LeftOk(conf, lc)
    ensures O.GsOk(e) && lc < 256
    ensures Lands(conf, d, O.LockingShift(conf, e, lc).0, O.LockingShift(conf, e, lc).1, lc)
  {
    hide D, Run, O.Change, Tied, Known, AnySet, Supported, Slot, Quiet, SetG, Aimed;
    DesignationRead(conf, e, d, skip, 1, lc, d.so);
    var d1 := SetG(d, 1, lc);
    LockingShiftAims(conf, e, d, skip, lc);
    SoRead(conf.t, d1);
    RunNothing(D(conf.t), d1, []);
    SilentRun(D(conf.t), d, O.Change(conf, e.g1, lc, 1), d1, if e.shift then [] else [SO], d1.(so := true));
  }

  lemma SoRead(t: Tables, d: InState)
    requires t.Ok() && Quiet(d) && d.g1 != LCINV
    ensures Run(D(t), d, [SO]) == (d.(so := true), [])
  {
    hide Run;
    RunOne(D(t), d, SO);
  }

  lemma Ss2Read(t: Tables, d: InState, seven: bool)
    requires t.Ok() && Quiet(d) && d.g2 != LCINV
    ensures Run(D(t), d, if seven then [ESC, 'N' as nat] else [SS2]) == (d.(ss2 := true), [])
  {
    hide Run;
    if seven {
      EscRead(t, d);
      RunTwo(D(t), d, ESC, 'N' as nat);
    } else {
      RunOne(D(t), d, SS2);
    }
  }

  lemma Ss3Read(t: Tables, d: InState)
    requires t.Ok() && Quiet(d) && d.g3 != LCINV
    ensures Run(D(t), d, [SS3]) == (d.(ss3 := true), [])
  {
    hide Run;
    RunOne(D(t), d, SS3);
  }

  lemma SingleShift2Aims(conf: O.Conf, e: O.OutState, d: InState, skip: nat, lc: nat)
    requires Supported(conf) && (skip == 4 || skip == 2) && Tied(conf, e, d, skip) && AnySet(conf, lc)
      && conf.o2 != LCINV
    ensures O.GsOk(e) && lc < 256 && Aimed(conf, O.SingleShift2(conf, e, lc).0, SetG(d, 2, lc).(ss2 := true), lc)
  {
    DesignationRead(conf, e, d, skip, 2, lc, d.so);
    ShiftsStay(conf, e, d, skip, 2, lc, e.shift);
    hide D, Run, O.Change, Tied, Known, AnySet, Supported, Slot, Quiet;
  }

  lemma SingleShift2Read(conf: O.Conf, e: O.OutState, d: InState, skip: nat, lc: nat)
    requires Supported(conf) && (skip == 4 || skip == 2) && Tied(conf, e, d, skip) && AnySet(conf, lc)
      && conf.o2 != LCINV
    ensures O.GsOk(e) && lc < 256
    ensures Lands(conf, d, O.SingleShift2(conf, e, lc).0, O.SingleShift2(conf, e, lc).1, lc)
  {
    hide D, Run, O.Change, Tied, Known, AnySet, Supported, Slot, Quiet, SetG, Aimed;
    DesignationRead(conf, e, d, skip, 2, lc, d.so);
    var d1 := SetG(d, 2, lc);
    SingleShift2Aims(conf, e, d, skip, lc);
    Ss2Read(conf.t, d1, conf.form.seven);
    SilentRun(D(conf.t), d, O.Change(conf, e.g2, lc, 2), d1, if conf.form.seven then [ESC, 'N' as nat] else [SS2],
              d1.(ss2 := true));
  }

  lemma SingleShift3Aims(conf: O.Conf, e: O.OutState, d: InState, skip: nat, lc: nat)
    requires Supported(conf) && (skip == 4 || skip == 3) && Tied(conf, e, d, skip) && AnySet(conf, lc)
      && conf.o3 != LCINV && !conf.form.seven
    ensures O.GsOk(e) && lc < 256 && Aimed(conf, O.SingleShift3(conf, e, lc).0, SetG(d, 3, lc).(ss3 := true), lc)
  {
    DesignationRead(conf, e, d, skip, 3, lc, d.so);
    ShiftsStay(conf, e, d, skip, 3, lc, e.shift);
    hide D, Run, O.Change, Tied, Known, AnySet, Supported, Slot, Quiet;
  }

  lemma SingleShift3Read(conf: O.Conf, e: O.OutState, d: InState, skip: nat, lc: nat)
    requires Supported(conf) && (skip == 4 || skip == 3) && Tied(conf, e, d, skip) && AnySet(conf, lc)
      && conf.o3 != LCINV && !conf.form.seven
    ensures O.GsOk(e) && lc < 256
    ensures Lands(conf, d, O.SingleShift3(conf, e, lc).0, O.SingleShift3(conf, e, lc).1, lc)
  {
    hide D, Run, O.Change, Tied, Known, AnySet, Supported, Slot, Quiet, SetG, Aimed;
    DesignationRead(conf, e, d, skip, 3, lc, d.so);
    var d1 := SetG(d, 3, lc);
    SingleShift3Aims(conf, e, d, skip, lc);
    Ss3Read(conf.t, d1);
    SilentRun(D(conf.t), d, O.Change(conf, e.g3, lc, 3), d1, [SS3], d1.(ss3 := true));
  }

  lemma TiedBut(conf: O.Conf, e: O.OutState, d: InState)
    requires conf.Ok() && Tied(conf, e, d, 4)
    ensures O.GsOk(e)
    ensures Tied(conf, e.(g0 := LCINV, i0 := false), d, 0) && (e.g1 == LCINV <==> conf.o1 == LCINV)
    ensures conf.o1 != LCINV ==> Tied(conf, e.(g1 := LCINV, i1 := false), d, 1)
    ensures conf.o2 != LCINV ==> Tied(conf, e.(g2 := LCINV, i2 := false), d, 2)
    ensures !conf.form.seven ==> Tied(conf, e.(g3 := LCINV, i3 := false), d, 3)
    ensures (e.g2 == LCINV <==> conf.o2 == LCINV) && (e.g3 == LCINV <==> conf.o3 == LCINV)
    ensures conf.form.seven ==> e.g3 == conf.o3
  {
    hide Known;
  }

  /** Only sets in which a space is a space are put on the left. */
  lemma PutLeft(conf: O.Conf, e: O.OutState, d: InState, lc: nat)
    requires Supported(conf) && Tied(conf, e, d, 4) && TextSet(conf, lc)
    ensures O.GsOk(e) && lc < 256
    ensures lc == e.g0 || lc == conf.o0 || (conf.form.seven && (lc == e.g1 || lc == conf.o1)) ==> LeftOk(conf, lc)
    ensures lc != conf.o1 && lc != conf.o2 && lc != conf.o3 && conf.t.graphic[lc] == 0 ==> LeftOk(conf, lc)
    ensures lc != conf.o1 && lc != conf.o2 && lc != conf.o3 && conf.form.seven && conf.form.lockShift
      && conf.o1 != LCINV
      ==> LeftOk(conf, lc)
    ensures lc != conf.o1 && lc != conf.o2 && lc != conf.o3 && (conf.form.seven || conf.o1 == LCINV)
      && conf.o2 == LCINV == conf.o3
      ==> LeftOk(conf, lc)
  {
    TiedOk(conf, e, d);
    hide Known, LeftOk, NeedsG3, Quiet, Slot;
  }

  /** Wherever the encoder puts the set of the next character, the decoder follows. */
  lemma PlaceRead(conf: O.Conf, e: O.OutState, d: InState, lc: nat)
    requires Supported(conf) && Tied(conf, e, d, 4) && TextSet(conf, lc)
    ensures O.GsOk(e) && lc < 256
    ensures Lands(conf, d, O.Place(conf, e, lc).0, O.Place(conf, e, lc).1, lc)
  {
    TiedBut(conf, e, d);
    PutLeft(conf, e, d, lc);
    assert lc < 256 && lc != LCINV && AnySet(conf, lc);
    var seven := conf.form.seven;
    assert seven ==> !NeedsG3(conf, lc);
    hide Lands, Tied, Supported, AnySet, TextSet, LeftOk, O.Designation0, O.Designation1, O.LockingShift,
         O.SingleShift2,
         O.SingleShift3;
    if lc == e.g0 || lc == conf.o0 {
      Designation0Read(conf, if e.i0 then e.(g0 := LCINV, i0 := false) else e, d, if e.i0 then 0 else 4, lc);
    } else if lc == e.g1 || lc == conf.o1 {
      var e1 := if e.i1 then e.(g1 := LCINV, i1 := false) else e;
      if seven { LockingShiftRead(conf, e1, d, if e.i1 then 1 else 4, lc); }
      else { Designation1Read(conf, e1, d, if e.i1 then 1 else 4, lc); }
    } else if lc == e.g2 || lc == conf.o2 {
      SingleShift2Read(conf, if e.i2 then e.(g2 := LCINV, i2 := false) else e, d, if e.i2 then 2 else 4, lc);
    } else if lc == e.g3 || lc == conf.o3 {
      SingleShift3Read(conf, if e.i3 then e.(g3 := LCINV, i3 := false) else e, d, if e.i3 then 3 else 4, lc);
    } else if conf.t.graphic[lc] != 0 {
      if e.g1 != LCINV && !seven { Designation1Read(conf, e, d, 4, lc); }
      else if e.g1 != LCINV && conf.form.lockShift { LockingShiftRead(conf, e, d, 4, lc); }
      else if e.g2 != LCINV { SingleShift2Read(conf, e, d, 4, lc); }
      else if e.g3 != LCINV { SingleShift3Read(conf, e, d, 4, lc); }
      else { Designation0Read(conf, e, d, 4, lc); }
    } else {
      Designation0Read(conf, e, d, 4, lc);
    }
  }

  // ---- characters of other sets ----

  /** A composite character is open on both sides or on neither. */
  predicate SameComp(e: O.OutState, d: InState) {
    (e.comp == O.CMP_NONE && !d.cmp) || (e.comp == O.CMP_LC && d.cmp)
  }

  /** Between characters. */
  predicate Sync(conf: O.Conf, e: O.OutState, d: InState)
    requires conf.Ok()
  {
    Tied(conf, e, d, 4) && e.ch == 0 && e.r2l == d.r2l && SameComp(e, d)
  }

  /** The leading bytes have been encoded and decoded. */
  predicate Inside(conf: O.Conf, e: O.OutState, d: InState, lc: nat)
    requires conf.Ok() && lc < 256
  {
    && Aimed(conf, e, d, lc) && e.ch == 0 && e.r2l == d.r2l && d.r2l == conf.t.r2l[lc]
    && ((e.comp == O.CMP_NONE && !d.cmp) || (e.comp == O.CMP_NONASCII && d.cmp))
  }

  predicate SameRest(e: O.OutState, e1: O.OutState) { e1.ch == e.ch && e1.comp == e.comp && e1.r2l == e.r2l }

  lemma ShiftsKeep(conf: O.Conf, e: O.OutState, lc: nat)
    requires conf.t.Ok() && O.GsOk(e) && lc < 256
    ensures SameRest(e, O.Designation0(conf, e, lc).0) && SameRest(e, O.Designation1(conf, e, lc).0)
    ensures SameRest(e, O.LockingShift(conf, e, lc).0)
    ensures SameRest(e, O.SingleShift2(conf, e, lc).0) && SameRest(e, O.SingleShift3(conf, e, lc).0)
  {
    hide O.Change, O.ShiftIn;
  }

  lemma PlaceKeeps(conf: O.Conf, e: O.OutState, lc: nat)
    requires conf.t.Ok() && O.GsOk(e) && lc < 256
    ensures SameRest(e, O.Place(conf, e, lc).0)
  {
    hide O.Designation0, O.Designation1, O.LockingShift, O.SingleShift2, O.SingleShift3;
    if lc == e.g0 || lc == conf.o0 {
      ShiftsKeep(conf, if e.i0 then e.(g0 := LCINV, i0 := false) else e, lc);
    } else if lc == e.g1 || lc == conf.o1 {
      ShiftsKeep(conf, if e.i1 then e.(g1 := LCINV, i1 := false) else e, lc);
    } else if lc == e.g2 || lc == conf.o2 {
      ShiftsKeep(conf, if e.i2 then e.(g2 := LCINV, i2 := false) else e, lc);
    } else if lc == e.g3 || lc == conf.o3 {
      ShiftsKeep(conf, if e.i3 then e.(g3 := LCINV, i3 := false) else e, lc);
    } else {
      ShiftsKeep(conf, e, lc);
    }
  }

  lemma LeadOut(conf: O.Conf, e: O.OutState, lc: nat)
    requires conf.Ok() && O.GsOk(e) && 0x81 <= lc < LCPRV11 && !conf.t.r2l[lc] && !conf.selective
    requires e.ch == 0 && e.comp == O.CMP_NONE && !e.r2l
    ensures O.Out(conf)(e, lc) == O.Place(conf, e.(boundary := false), lc)
  {
    hide O.Place;
    var e0 := e.(boundary := false);
    assert e0 == e.(ch := 0, boundary := false).(r2l := false);
    PlaceKeeps(conf, e0, lc);
    var (e1, out) := O.Place(conf, e0, lc);
    assert e1.(comp := O.CMP_NONE) == e1 && [] + out == out;
  }

  /** What is put out when the direction changes. */
  function Turn(conf: O.Conf, r2l: bool, next: bool): seq<nat> {
    if r2l && !next then O.RevertDirection(conf.form) else if !r2l && next then O.StartRightToLeft(conf.form) else []
  }

  /** The encoder's step for the leading byte of a set. */
  lemma LeadStepIs(conf: O.Conf, e: O.OutState, lc: nat)
    requires conf.Ok() && O.GsOk(e) && AnySet(conf, lc)
    requires e.comp == O.CMP_NONE || e.comp == O.CMP_LC || e.comp == O.CMP_NONASCII
    ensures var (e1, out) := O.Place(conf, Turned(conf, e, lc), lc);
      O.LeadStep(conf, e, lc) == (e1.(comp := CompInside(e)), Turn(conf, e.r2l, conf.t.r2l[lc]) + out)
  {
    hide O.Place, O.RevertDirection, O.StartRightToLeft, Known;
    assert e.(ch := 0, boundary := false).(r2l := conf.t.r2l[lc]) == Turned(conf, e, lc);
  }

  /** A leading byte between characters, or one that is 0x20 higher within a composite character. */
  lemma OutIsLead(conf: O.Conf, e: O.OutState, c: nat)
    requires conf.Ok() && O.GsOk(e) && !conf.selective && 0x81 <= c <= LCPRV22
      && (e.comp == O.CMP_NONE || e.comp == O.CMP_LC)
    ensures O.Out(conf)(e, if e.comp == O.CMP_LC then c + 0x20 else c) == O.LeadStep(conf, e, c)
  {
    hide O.LeadStep, O.AsciiStep, O.NonAsciiStep;
  }

  /** The leading byte of a private set, behind the byte before it. */
  lemma OutIsSecondLead(conf: O.Conf, e: O.OutState, lc: nat)
    requires conf.Ok() && O.GsOk(e) && !conf.selective && 0xA0 <= lc <= 0xFF && LCPRV11 <= e.ch <= LCPRV22
    requires e.comp == O.CMP_NONE || e.comp == O.CMP_NONASCII
    ensures O.Out(conf)(e, lc) == O.LeadStep(conf, e, lc)
  {
    hide O.LeadStep, O.AsciiStep, O.NonAsciiStep;
  }

  lemma FirstOfPrivate(conf: O.Conf, e: O.OutState, c: nat)
    requires conf.Ok() && O.GsOk(e) && LCPRV11 <= c <= LCPRV22 && (e.comp == O.CMP_NONE || e.comp == O.CMP_LC)
    ensures O.LeadStep(conf, e, c)
      == (e.(ch := c, boundary := false, comp := if e.comp == O.CMP_NONE then O.CMP_NONE else O.CMP_NONASCII), [])
  {
    hide O.Place;
  }

  /** The state after the leading bytes, but for the designation. */
  function Turned(conf: O.Conf, e: O.OutState, lc: nat): O.OutState
    requires conf.Ok() && lc < 256
  {
    e.(ch := 0, boundary := false, r2l := conf.t.r2l[lc])
  }

  /** A private set is placed when the byte before it has been seen. */
  function Placing(conf: O.Conf, e: O.OutState, lc: nat): O.OutState
    requires conf.Ok() && lc < 256
  {
    Turned(conf, e, lc).(comp := if lc < 0xA0 then e.comp else CompInside(e))
  }

  function CompInside(e: O.OutState): nat { if e.comp == O.CMP_NONE then O.CMP_NONE else O.CMP_NONASCII }

  /** What the encoder makes of the leading bytes of a character. */
  lemma LeadsOut(conf: O.Conf, e: O.OutState, lc: nat)
    requires conf.Ok() && O.GsOk(e) && !conf.selective && AnySet(conf, lc)
      && (e.comp == O.CMP_NONE || e.comp == O.CMP_LC)
    ensures var r := Run(O.Out(conf), e, Leads(lc, e.comp == O.CMP_LC));
      && r.1 == Turn(conf, e.r2l, conf.t.r2l[lc]) + O.Place(conf, Placing(conf, e, lc), lc).1
      && r.0 == O.Place(conf, Placing(conf, e, lc), lc).0.(comp := CompInside(e))
  {
    if lc < 0xA0 {
      OutIsLead(conf, e, lc);
      LeadStepIs(conf, e, lc);
      assert Turned(conf, e, lc) == Placing(conf, e, lc);
      hide Run, O.Out, O.LeadStep, O.Place, Known, Turn;
      var leads := Leads(lc, e.comp == O.CMP_LC);
      RunOne(O.Out(conf), e, leads[0]);
      assert leads == [leads[0]];
    } else {
      PrivateLeadsOut(conf, e, lc);
    }
  }

  lemma PrivateLeadsOut(conf: O.Conf, e: O.OutState, lc: nat)
    requires conf.Ok() && O.GsOk(e) && !conf.selective && AnySet(conf, lc)
      && (e.comp == O.CMP_NONE || e.comp == O.CMP_LC)
    requires lc >= 0xA0
    ensures var r := Run(O.Out(conf), e, Leads(lc, e.comp == O.CMP_LC));
      && r.1 == Turn(conf, e.r2l, conf.t.r2l[lc]) + O.Place(conf, Placing(conf, e, lc), lc).1
      && r.0 == O.Place(conf, Placing(conf, e, lc), lc).0.(comp := CompInside(e))
  {
    var b := Before(lc);
    var e1 := e.(ch := b, boundary := false, comp := CompInside(e));
    hide *;
    PrivateMeans(conf, e, lc);
    PlacingOk(conf, e, lc);
    OutIsLead(conf, e, b);
    FirstOfPrivate(conf, e, b);
    OutIsSecondLead(conf, e1, lc);
    LeadStepIs(conf, e1, lc);
    RunTwo(O.Out(conf), e, if e.comp == O.CMP_LC then b + 0x20 else b, lc);
    var text := Turn(conf, e.r2l, conf.t.r2l[lc]) + O.Place(conf, Placing(conf, e, lc), lc).1;
    assert [] + text == text;
  }

  lemma PrivateMeans(conf: O.Conf, e: O.OutState, lc: nat)
    requires conf.Ok() && O.GsOk(e) && AnySet(conf, lc) && lc >= 0xA0 && (e.comp == O.CMP_NONE || e.comp == O.CMP_LC)
    ensures var b := Before(lc);
      var e1 := e.(ch := b, boundary := false, comp := CompInside(e));
      && 0xA0 <= lc <= 0xFF && 0x81 <= LCPRV11 <= b <= LCPRV22 && O.GsOk(e1)
      && e1.comp == (if e.comp == O.CMP_NONE then O.CMP_NONE else O.CMP_NONASCII)
      && Turned(conf, e1, lc) == Placing(conf, e, lc) && CompInside(e1) == CompInside(e) && e1.r2l == e.r2l
      && Leads(lc, e.comp == O.CMP_LC) == [if e.comp == O.CMP_LC then b + 0x20 else b, lc]
  {
    hide Known;
  }

  lemma PlacingOk(conf: O.Conf, e: O.OutState, lc: nat)
    requires conf.Ok() && O.GsOk(e) && lc < 256
    ensures |conf.t.r2l| == 256 && conf.t.Ok() && O.GsOk(Placing(conf, e, lc))
  {
  }

  lemma RevertRead(conf: O.Conf, d: InState)
    requires conf.Ok() && Quiet(d)
    ensures Run(D(conf.t), d, O.RevertDirection(conf.form)) == (d.(r2l := false), [])
  {
    hide Run;
    var t := conf.t;
    DirectionRead(t, d);
    if conf.form.seven {
      assert [ESC, '[' as nat, '0' as nat, ']' as nat] == [ESC, '[' as nat] + ['0' as nat, ']' as nat];
      EscRead(t, d);
      RunTwo(D(t), d, ESC, '[' as nat);
      RunTwo(D(t), Reading(d, CC_ESC_5_11), '0' as nat, ']' as nat);
      SilentRun(D(t), d, [ESC, '[' as nat], Reading(d, CC_ESC_5_11), ['0' as nat, ']' as nat], d.(r2l := false));
    } else {
      RunTwo(D(t), d, 0x9B, ']' as nat);
    }
  }

  lemma StartRead(conf: O.Conf, d: InState)
    requires conf.Ok() && Quiet(d)
    ensures Run(D(conf.t), d, O.StartRightToLeft(conf.form)) == (d.(r2l := true), [])
  {
    hide Run;
    var t := conf.t;
    DirectionRead(t, d);
    RunTwo(D(t), Reading(d, CC_ESC_5_11), '2' as nat, ']' as nat);
    if conf.form.seven {
      EscRead(t, d);
      RunTwo(D(t), d, ESC, '[' as nat);
      SilentRun(D(t), d, [ESC, '[' as nat], Reading(d, CC_ESC_5_11), ['2' as nat, ']' as nat], d.(r2l := true));
    } else {
      RunOne(D(t), d, 0x9B);
      SilentRun(D(t), d, [0x9B], Reading(d, CC_ESC_5_11), ['2' as nat, ']' as nat], d.(r2l := true));
    }
  }

  /** The bytes that announce a direction. */
  lemma DirectionRead(t: Tables, d: InState)
    requires t.Ok() && Quiet(d)
    ensures D(t)(Reading(d, CC_ESC), '[' as nat) == (Reading(d, CC_ESC_5_11), [])
    ensures D(t)(d, 0x9B) == (Reading(d, CC_ESC_5_11), [])
    ensures D(t)(Reading(d, CC_ESC_5_11), '0' as nat) == (Reading(d, CC_ESC_5_11_0), [])
    ensures D(t)(Reading(d, CC_ESC_5_11), '2' as nat) == (Reading(d, CC_ESC_5_11_2), [])
    ensures D(t)(Reading(d, CC_ESC_5_11), ']' as nat) == (d.(r2l := false), [])
    ensures D(t)(Reading(d, CC_ESC_5_11_0), ']' as nat) == (d.(r2l := false), [])
    ensures D(t)(Reading(d, CC_ESC_5_11_2), ']' as nat) == (d.(r2l := true), [])
  {
    BracketRead(t, d);
    DigitRead(t, d);
    hide In;
    ClosingRead(t, d, CC_ESC_5_11);
    ClosingRead(t, d, CC_ESC_5_11_0);
    ClosingRead(t, d, CC_ESC_5_11_2);
  }

  lemma BracketRead(t: Tables, d: InState)
    requires t.Ok() && Quiet(d)
    ensures D(t)(Reading(d, CC_ESC), '[' as nat) == (Reading(d, CC_ESC_5_11), [])
    ensures D(t)(d, 0x9B) == (Reading(d, CC_ESC_5_11), [])
  {
    assert Drain(0) + [] == [];
    assert Ok(d) && Ok(Reading(d, CC_ESC));
    assert EscapeStep(t, Reading(d, CC_ESC), '[' as nat) == (Reading(d, CC_ESC_5_11), [], true);
    assert ControlStep(EolLf, d, 0x9B) == (Reading(d, CC_ESC_5_11), []);
    hide GraphicStep, EscapeStep, ControlStep;
  }

  lemma DigitRead(t: Tables, d: InState)
    requires t.Ok() && Quiet(d)
    ensures D(t)(Reading(d, CC_ESC_5_11), '0' as nat) == (Reading(d, CC_ESC_5_11_0), [])
    ensures D(t)(Reading(d, CC_ESC_5_11), '2' as nat) == (Reading(d, CC_ESC_5_11_2), [])
  {
    hide GraphicStep, ControlStep;
  }

  lemma ClosingRead(t: Tables, d: InState, esc: nat)
    requires t.Ok() && Quiet(d) && (esc == CC_ESC_5_11 || esc == CC_ESC_5_11_0 || esc == CC_ESC_5_11_2)
    ensures D(t)(Reading(d, esc), ']' as nat) == (d.(r2l := esc == CC_ESC_5_11_2), [])
  {
    hide GraphicStep, ControlStep;
  }

  lemma TurnRead(conf: O.Conf, d: InState, next: bool)
    requires conf.Ok() && Quiet(d)
    ensures Run(D(conf.t), d, Turn(conf, d.r2l, next)) == (d.(r2l := next), [])
  {
    hide D, Run, O.RevertDirection, O.StartRightToLeft;
    if d.r2l && !next {
      RevertRead(conf, d);
    } else if !d.r2l && next {
      StartRead(conf, d);
    } else {
      RunNothing(D(conf.t), d, []);
    }
  }

  lemma SyncTurned(conf: O.Conf, e: O.OutState, d: InState, lc: nat)
    requires conf.Ok() && Sync(conf, e, d) && lc < 256
    ensures Quiet(d) && O.GsOk(e) && e.ch == 0 && d.r2l == e.r2l && (e.comp == O.CMP_NONE || e.comp == O.CMP_LC)
    ensures d.cmp == (e.comp == O.CMP_LC)
    ensures Tied(conf, Placing(conf, e, lc), d.(r2l := conf.t.r2l[lc]), 4)
    ensures var e0 := Placing(conf, e, lc); e0.ch == 0 && e0.r2l == conf.t.r2l[lc]
  {
    hide Known;
  }

  /** A leading byte, or two, put nothing out on the decoding side and leave both sides ready for the set. */
  lemma LeadRead(conf: O.Conf, e: O.OutState, d: InState, lc: nat)
    requires Supported(conf) && Sync(conf, e, d) && TextSet(conf, lc)
    ensures lc < 256
    ensures var (e1, out) := Run(O.Out(conf), e, Leads(lc, d.cmp)); var (d1, more) := Run(D(conf.t), d, out);
      more == [] && Inside(conf, e1, d1, lc) && d1.cmp == d.cmp
  {
    assert AnySet(conf, lc) && !conf.selective && conf.Ok();
    var r2l := conf.t.r2l[lc];
    SyncTurned(conf, e, d, lc);
    var e0, d0 := Placing(conf, e, lc), d.(r2l := r2l);
    LeadsOut(conf, e, lc);
    TurnRead(conf, d, r2l);
    PlaceRead(conf, e0, d0, lc);
    PlaceKeeps(conf, e0, lc);
    hide O.Place, Tied, Supported, TextSet, D, Run, Aimed, Leads, Turn, O.Out, AnySet, Quiet, Placing;
    var (e1, out) := O.Place(conf, e0, lc);
    SilentRun(D(conf.t), d, Turn(conf, e.r2l, r2l), d0, out, Run(D(conf.t), d0, out).0);
    AimedComp(conf, e1, Run(D(conf.t), d0, out).0, lc, CompInside(e));
  }

  lemma AimedComp(conf: O.Conf, e: O.OutState, d: InState, lc: nat, comp: nat)
    requires conf.Ok() && Aimed(conf, e, d, lc)
    ensures Aimed(conf, e.(comp := comp), d, lc)
  {
  }

  /** The decoder finds the byte in the right set, and its high bit can be restored. */
  lemma PayloadAimed(conf: O.Conf, e: O.OutState, d: InState, lc: nat, c: nat)
    requires Supported(conf) && TextSet(conf, lc) && lc < 256 && Inside(conf, e, d, lc) && Payload(conf.t, lc, c)
    ensures var m := O.Masked(conf, e, c);
      BytesOk(d) && m < 256 && !ControlP(m) && m != 0 && High(m) == c && CharSet(conf.t, d, m) == lc
  {
  }

  lemma PayloadOut(conf: O.Conf, e: O.OutState, lc: nat, c: nat)
    requires conf.Ok() && O.GsOk(e) && !conf.selective && e.comp == O.CMP_NONE && O.InUse(e) == lc
      && 0x81 <= lc < LCPRV11
    requires 0xA0 <= c <= 0xFF && (e.ch == 0 || 0xA0 <= e.ch)
    ensures conf.t.bytes[lc] == 2 ==> O.Out(conf)(e, c) == (e.(boundary := true), [O.Masked(conf, e, c)])
    ensures conf.t.bytes[lc] == 3 && e.ch == 0 ==> O.Out(conf)(e, c) == (e.(ch := c, boundary := false), [])
    ensures conf.t.bytes[lc] == 3 && e.ch != 0 ==>
      O.Out(conf)(e, c) == (e.(ch := 0, boundary := true), [O.Masked(conf, e, e.ch), O.Masked(conf, e, c)])
  {
  }

  /** Where composition stands when a character is complete. */
  function CompAfter(e: O.OutState): nat { if e.comp == O.CMP_NONASCII then O.CMP_LC else e.comp }

  /** What the encoder makes of a payload byte, in any set. */
  lemma AnyPayloadOut(conf: O.Conf, e: O.OutState, lc: nat, c: nat)
    requires conf.Ok() && O.GsOk(e) && !conf.selective && AnySet(conf, lc) && O.InUse(e) == lc
    requires 0xA0 <= c <= 0xFF && (e.ch == 0 || 0xA0 <= e.ch <= 0xFF)
      && (e.comp == O.CMP_NONE || e.comp == O.CMP_NONASCII)
    ensures var n := PayloadLength(conf.t, lc);
      && (n == 1 && e.ch == 0 ==>
          O.Out(conf)(e, c) == (e.(boundary := true, comp := CompAfter(e)), [O.Masked(conf, e, c)]))
      && (n == 2 && e.ch == 0 ==> O.Out(conf)(e, c) == (e.(ch := c, boundary := false), []))
      && (n == 2 && e.ch != 0 ==>
          O.Out(conf)(e, c) == (e.(ch := 0, boundary := true, comp := CompAfter(e)),
                                [O.Masked(conf, e, e.ch), O.Masked(conf, e, c)]))
  {
    hide Known, O.Masked, O.AsciiStep, O.LeadStep;
  }

  /** The decoder takes in a payload byte. */
  lemma PayloadIn(t: Tables, d: InState, lc: nat, m: nat)
    requires t.Ok() && Quiet(d.(ss2 := false, ss3 := false, ch := 0)) && m < 256 && !ControlP(m) && m != 0
      && d.ch <= 0xFF
    requires Multibyte(t, lc) && CharSet(t, d, m) == lc
    ensures var d1, n := d.(ss2 := false, ss3 := false, ch := 0), PayloadLength(t, lc);
      && (n == 1 && d.ch == 0 ==> D(t)(d, m) == (d1, Leads(lc, d.cmp) + [High(m)]))
      && (n == 2 && d.ch == 0 ==> D(t)(d, m) == (d.(ch := m), []))
      && (n == 2 && d.ch != 0 ==> D(t)(d, m) == (d1, Leads(lc, d.cmp) + [High(d.ch), High(m)]))
  {
    assert BytesOk(d) && Ok(d) && CharSet(t, d, m) < 256;
    CharOutIs(t, d.cmp, lc, d.ch, m);
    hide CharSet, CharOut, Leads, PayloadLength;
    var (ch, out) := CharOut(t, d.cmp, CharSet(t, d, m), d.ch, m);
    assert [] + out == out;
    assert Step(t, EolLf, d, m) == GraphicStep(t, d, m);
  }

  lemma CharOutIs(t: Tables, cmp: bool, lc: nat, ch: nat, m: nat)
    requires t.Ok() && Multibyte(t, lc) && ch <= 0xFF
    ensures var n := PayloadLength(t, lc);
      && (n == 1 && ch == 0 ==> CharOut(t, cmp, lc, ch, m) == (0, Leads(lc, cmp) + [High(m)]))
      && (n == 2 && ch == 0 ==> CharOut(t, cmp, lc, ch, m) == (m, []))
      && (n == 2 && ch != 0 ==> CharOut(t, cmp, lc, ch, m) == (0, Leads(lc, cmp) + [High(ch), High(m)]))
  {
    assert DrainAbove(ch, 0xFF) == ([], ch);
    assert Drain(0) == [];
    var x: nat := if cmp then 0x20 else 0;
    if lc < 0xA0 {
      assert Low8(lc + 0x20) == lc + 0x20;
      assert Leads(lc, cmp) + [High(m)] == [] + [lc + x, High(m)];
      assert Leads(lc, cmp) + [High(ch), High(m)] == [] + [lc + x, High(ch), High(m)];
    } else {
      assert Leads(lc, cmp) + [High(m)] == [] + [Before(lc) + x, lc, High(m)];
      assert Leads(lc, cmp) + [High(ch), High(m)] == [] + [Before(lc) + x, lc, High(ch), High(m)];
    }
  }

  lemma InsideMeans(conf: O.Conf, e: O.OutState, d: InState, lc: nat)
    requires Supported(conf) && TextSet(conf, lc) && lc < 256 && Inside(conf, e, d, lc)
    ensures O.GsOk(e) && !conf.selective && conf.Ok() && AnySet(conf, lc) && O.InUse(e) == lc
    ensures conf.t.Ok() && Multibyte(conf.t, lc)
    ensures e.comp == O.CMP_NONE || e.comp == O.CMP_NONASCII
    ensures Quiet(d.(ss2 := false, ss3 := false)) && d.ch == 0 && e.ch == 0
    ensures Sync(conf, e.(boundary := true, comp := CompAfter(e)), d.(ss2 := false, ss3 := false))
  {
  }

  lemma OneByteRead(conf: O.Conf, e: O.OutState, d: InState, lc: nat, c: nat)
    requires Supported(conf) && TextSet(conf, lc) && lc < 256 && Inside(conf, e, d, lc) && Payload(conf.t, lc, c)
      && PayloadLength(conf.t, lc) == 1
    ensures var (e1, out) := Run(O.Out(conf), e, [c]); var (d1, more) := Run(D(conf.t), d, out);
      more == Leads(lc, d.cmp) + [c] && Sync(conf, e1, d1) && d1.cmp == d.cmp && e1.boundary
  {
    InsideMeans(conf, e, d, lc);
    PayloadAimed(conf, e, d, lc, c);
    AnyPayloadOut(conf, e, lc, c);
    RunOne(O.Out(conf), e, c);
    var m := O.Masked(conf, e, c);
    PayloadIn(conf.t, d, lc, m);
    RunOne(D(conf.t), d, m);
    hide Run, D, O.Out, Sync, Inside, TextSet, Supported, CharSet, O.Masked, AnySet, Leads;
    assert d.(ss2 := false, ss3 := false, ch := 0) == d.(ss2 := false, ss3 := false);
  }

  lemma TwoBytesOut(conf: O.Conf, e: O.OutState, lc: nat, c1: nat, c2: nat)
    requires conf.Ok() && O.GsOk(e) && !conf.selective && AnySet(conf, lc) && O.InUse(e) == lc && e.ch == 0
    requires 0xA0 <= c1 <= 0xFF && 0xA0 <= c2 <= 0xFF && PayloadLength(conf.t, lc) == 2
    requires e.comp == O.CMP_NONE || e.comp == O.CMP_NONASCII
    ensures Run(O.Out(conf), e, [c1, c2])
      == (e.(boundary := true, comp := CompAfter(e)), [O.Masked(conf, e, c1), O.Masked(conf, e, c2)])
  {
    hide *;
    var e1 := e.(ch := c1, boundary := false);
    BetweenBytesOut(conf, e, c1);
    AnyPayloadOut(conf, e, lc, c1);
    AnyPayloadOut(conf, e1, lc, c2);
    RunTwo(O.Out(conf), e, c1, c2);
    MaskedSame(conf, e, c1);
    var out := [O.Masked(conf, e, c1), O.Masked(conf, e, c2)];
    assert [] + out == out;
    assert e1.(ch := 0, boundary := true, comp := CompAfter(e)) == e.(boundary := true, comp := CompAfter(e));
  }

  lemma TwoBytesIn(t: Tables, d: InState, lc: nat, m1: nat, m2: nat)
    requires t.Ok() && Quiet(d.(ss2 := false, ss3 := false)) && d.ch == 0
    requires m1 < 256 && !ControlP(m1) && m1 != 0 && m2 < 256 && !ControlP(m2) && m2 != 0 && BytesOk(d)
    requires Multibyte(t, lc) && PayloadLength(t, lc) == 2 && CharSet(t, d, m1) == lc == CharSet(t, d, m2)
    ensures Run(D(t), d, [m1, m2]) == (d.(ss2 := false, ss3 := false), Leads(lc, d.cmp) + [High(m1), High(m2)])
  {
    assert t.Ok();
    hide *;
    var d1 := d.(ch := m1);
    BetweenBytesIn(d, m1);
    PayloadIn(t, d, lc, m1);
    ChSet(t, d, m1, m2);
    PayloadIn(t, d1, lc, m2);
    RunTwo(D(t), d, m1, m2);
    var text := Leads(lc, d.cmp) + [High(m1), High(m2)];
    assert [] + text == text && d1.(ss2 := false, ss3 := false, ch := 0) == d.(ss2 := false, ss3 := false);
  }

  lemma TwoBytesRead(conf: O.Conf, e: O.OutState, d: InState, lc: nat, c1: nat, c2: nat)
    requires Supported(conf) && TextSet(conf, lc) && lc < 256 && Inside(conf, e, d, lc)
      && PayloadLength(conf.t, lc) == 2
    requires Payload(conf.t, lc, c1) && Payload(conf.t, lc, c2)
    ensures var (e1, out) := Run(O.Out(conf), e, [c1, c2]); var (d1, more) := Run(D(conf.t), d, out);
      more == Leads(lc, d.cmp) + [c1, c2] && Sync(conf, e1, d1) && d1.cmp == d.cmp && e1.boundary
  {
    hide *;
    InsideMeans(conf, e, d, lc);
    PayloadMeans(conf, lc, c1);
    PayloadMeans(conf, lc, c2);
    PayloadAimed(conf, e, d, lc, c1);
    PayloadAimed(conf, e, d, lc, c2);
    TwoBytesOut(conf, e, lc, c1, c2);
    TwoBytesIn(conf.t, d, lc, O.Masked(conf, e, c1), O.Masked(conf, e, c2));
  }

  lemma PayloadMeans(conf: O.Conf, lc: nat, c: nat)
    requires conf.Ok() && lc < 256 && Payload(conf.t, lc, c)
    ensures 0xA0 <= c <= 0xFF
  {
  }

  /** Neither side is disturbed by the first of two bytes. */
  lemma BetweenBytesOut(conf: O.Conf, e: O.OutState, c: nat)
    requires conf.Ok() && O.GsOk(e)
    ensures var e1 := e.(ch := c, boundary := false);
      O.GsOk(e1) && O.InUse(e1) == O.InUse(e) && CompAfter(e1) == CompAfter(e)
  {
  }

  lemma BetweenBytesIn(d: InState, m: nat)
    requires Quiet(d.(ss2 := false, ss3 := false)) && d.ch == 0
    ensures Quiet(d.(ss2 := false, ss3 := false, ch := 0)) && Quiet(d.(ch := m).(ss2 := false, ss3 := false, ch := 0))
  {
  }

  lemma MaskedSame(conf: O.Conf, e: O.OutState, ch: nat)
    ensures forall c: nat :: O.Masked(conf, e.(ch := ch, boundary := false), c) == O.Masked(conf, e, c)
  {
  }

  lemma ChSet(t: Tables, d: InState, ch: nat, c: nat)
    requires t.Ok() && BytesOk(d) && c < 256
    ensures CharSet(t, d.(ch := ch), c) == CharSet(t, d, c)
  {
  }

  // ---- back to the initial designations ----

  lemma SlotSet(conf: O.Conf, e: O.OutState, d: InState, g: nat, fd: nat)
    requires Supported(conf) && Tied(conf, e, d, 4) && g <= 3
    requires O.Initial(conf, g) != LCINV && Slot(conf.t, O.Initial(conf, g), fd) && fd < 256 && fd != LCINV
    ensures Tied(conf, O.Assign(e, g, O.Initial(conf, g)), SetG(d, g, fd), 4)
  {
    DecoderSet(d, g, fd);
    InitialKept(conf, e, g);
    hide Known, Supported, Slot, Quiet, SetG;
  }

  lemma DecoderSet(d: InState, g: nat, lc: nat)
    requires Quiet(d) && g <= 3 && lc < 256
    ensures var d1 := SetG(d, g, lc);
      && Quiet(d1) && d1.so == d.so && d1.g0 == (if g == 0 then lc else d.g0) && d1.g1 == (if g == 1 then lc else d.g1)
      && d1.g2 == (if g == 2 then lc else d.g2) && d1.g3 == (if g == 3 then lc else d.g3)
  {
  }

  lemma InitialKept(conf: O.Conf, e: O.OutState, g: nat)
    requires g <= 3
    ensures var e1 := O.Assign(e, g, O.Initial(conf, g));
      && e1.shift == e.shift && e1.g0 == (if g == 0 then conf.o0 else e.g0)
      && e1.g1 == (if g == 1 then conf.o1 else e.g1) && e1.g2 == (if g == 2 then conf.o2 else e.g2)
      && e1.g3 == (if g == 3 then conf.o3 else e.g3)
  {
  }

  lemma RestoreOneRead(conf: O.Conf, e: O.OutState, d: InState, g: nat)
    requires Supported(conf) && Tied(conf, e, d, 4) && g <= 3
    ensures O.GsOk(e) && conf.Ok()
    ensures var (e1, out) := O.RestoreOne(conf, e, g); var (d1, more) := Run(D(conf.t), d, out);
      more == [] && Tied(conf, e1, d1, 4) && SameModes(d, d1)
  {
    var o, current := O.Initial(conf, g), O.Current(e, g);
    InitialMeans(conf, e, d, g);
    hide *;
    RestoreOneIs(conf, e, g);
    RunNothing(D(conf.t), d, []);
    if o != LCINV {
      ChangeRead(conf, d, current, o, g);
      if current != o { SlotSet(conf, e, d, g, Fold(o)); }
    }
  }

  lemma InitialMeans(conf: O.Conf, e: O.OutState, d: InState, g: nat)
    requires Supported(conf) && Tied(conf, e, d, 4) && g <= 3
    ensures O.GsOk(e) && conf.Ok() && Quiet(d) && SameModes(d, d)
    ensures O.Current(e, g) == LCINV || Known(conf.t, O.Current(e, g))
    ensures O.Initial(conf, g) != LCINV ==> Known(conf.t, O.Initial(conf, g))
    ensures var o := O.Initial(conf, g);
      o != LCINV ==> Slot(conf.t, o, Fold(o)) && Fold(o) < 256 && Fold(o) != LCINV && SameModes(d, SetG(d, g, Fold(o)))
    ensures O.Current(e, g) == O.Initial(conf, g) ==> O.Assign(e, g, O.Initial(conf, g)) == e
  {
    InitialKnown(conf, e, d, g);
    SetKeepsModes(d, g, Fold(O.Initial(conf, g)));
    hide Tied, Supported, SetG, O.Initial, O.Current;
  }

  lemma InitialKnown(conf: O.Conf, e: O.OutState, d: InState, g: nat)
    requires Supported(conf) && Tied(conf, e, d, 4) && g <= 3
    ensures O.GsOk(e) && conf.Ok() && Quiet(d)
    ensures O.Current(e, g) == LCINV || Known(conf.t, O.Current(e, g))
    ensures O.Initial(conf, g) == LCINV || Known(conf.t, O.Initial(conf, g))
    ensures O.Current(e, g) == O.Initial(conf, g) ==> O.Assign(e, g, O.Initial(conf, g)) == e
  {
    hide Known, LeftOk, Spaced;
  }

  lemma SetKeepsModes(d: InState, g: nat, lc: nat)
    ensures SameModes(d, SetG(d, g, lc)) && SameModes(d, d)
  {
  }

  lemma RestoreOneIs(conf: O.Conf, e: O.OutState, g: nat)
    requires conf.Ok() && O.GsOk(e)
    ensures var o := O.Initial(conf, g);
      O.RestoreOne(conf, e, g)
        == if o != LCINV then (O.Assign(e, g, o), O.Change(conf, O.Current(e, g), o, g)) else (e, [])
  {
  }

  /** After the encoder has gone back to the initial designations the decoder has them too. */
  lemma RestoreRead(conf: O.Conf, e: O.OutState, d: InState)
    requires Supported(conf) && Tied(conf, e, d, 4)
    ensures O.GsOk(e) && conf.Ok()
    ensures var (e1, out) := O.Restore(conf, e); var (d1, more) := Run(D(conf.t), d, out);
      more == [] && Tied(conf, e1, d1, 4) && SameModes(d, d1)
  {
    hide D, Run, Tied, Supported, O.RestoreOne;
    RestoreOneRead(conf, e, d, 0);
    var (e0, s0) := O.RestoreOne(conf, e, 0);
    var d0 := Run(D(conf.t), d, s0).0;
    RestoreOneRead(conf, e0, d0, 1);
    var (e1, s1) := O.RestoreOne(conf, e0, 1);
    var d1 := Run(D(conf.t), d0, s1).0;
    RestoreOneRead(conf, e1, d1, 2);
    var (e2, s2) := O.RestoreOne(conf, e1, 2);
    var d2 := Run(D(conf.t), d1, s2).0;
    RestoreOneRead(conf, e2, d2, 3);
    var (e3, s3) := O.RestoreOne(conf, e2, 3);
    var d3 := Run(D(conf.t), d2, s3).0;
    SilentRun(D(conf.t), d1, s2, d2, s3, d3);
    SilentRun(D(conf.t), d0, s1, d1, s2 + s3, d3);
    SilentRun(D(conf.t), d, s0, d0, s1 + (s2 + s3), d3);
  }

  // ---- ASCII ----

  /** The decoder when ASCII has come into G0. */
  function InAscii(e: O.OutState, d: InState): InState {
    if e.g0 != LCASCII then SetG(d.(so := false), 0, LCASCII) else d.(so := false)
  }

  /** Written as it stands, whatever is in G0. */
  predicate Neutral(conf: O.Conf, c: nat) { !conf.form.asciiCntl && (c <= 0x20 || c == DEL) }

  lemma ToAsciiIs(conf: O.Conf, e: O.OutState, c: nat)
    requires Supported(conf) && O.GsOk(e) && PlainAscii(c)
    ensures conf.Ok()
    ensures O.ToAscii(conf, e, c) == if Neutral(conf, c) then (e, [])
      else (e.(shift := false, g0 := LCASCII), O.ShiftIn(e) + O.Change(conf, e.g0, LCASCII, 0))
  {
    hide O.ShiftIn, O.Change;
  }

  lemma ToAsciiRun(conf: O.Conf, e: O.OutState, d: InState)
    requires Supported(conf) && Tied(conf, e, d, 4)
    ensures O.GsOk(e) && conf.Ok()
    ensures Run(D(conf.t), d, O.ShiftIn(e) + O.Change(conf, e.g0, LCASCII, 0)) == (InAscii(e, d), [])
  {
    ShiftInRead(conf, e, d, 4);
    var d0 := d.(so := false);
    assert Fold(LCASCII) == LCASCII;
    AsciiKnown(conf, e, d);
    ChangeRead(conf, d0, e.g0, LCASCII, 0);
    hide *;
    SilentRun(D(conf.t), d, O.ShiftIn(e), d0, O.Change(conf, e.g0, LCASCII, 0), InAscii(e, d));
  }

  lemma AsciiKnown(conf: O.Conf, e: O.OutState, d: InState)
    requires Supported(conf) && Tied(conf, e, d, 4)
    ensures O.GsOk(e) && conf.Ok() && Known(conf.t, LCASCII) && (e.g0 == LCINV || Known(conf.t, e.g0))
    ensures Quiet(d) && Quiet(d.(so := false))
  {
  }

  lemma AsciiTied(conf: O.Conf, e: O.OutState, d: InState)
    requires Supported(conf) && Tied(conf, e, d, 4)
    ensures var d1 := InAscii(e, d);
      && Tied(conf, e.(shift := false, g0 := LCASCII), d1, 4) && d1.g0 == LCASCII && !d1.so && SameModes(d, d1)
  {
    AsciiKnown(conf, e, d);
    DecoderSlots(d, 0, LCASCII, false);
    assert Slot(conf.t, LCASCII, LCASCII);
    hide Known, Supported, Quiet;
  }

  lemma ToAsciiRead(conf: O.Conf, e: O.OutState, d: InState, c: nat)
    requires Supported(conf) && Tied(conf, e, d, 4) && PlainAscii(c)
    ensures O.GsOk(e) && conf.Ok()
    ensures var (e1, out) := O.ToAscii(conf, e, c); var (d1, more) := Run(D(conf.t), d, out);
      && more == [] && Tied(conf, e1, d1, 4) && (Neutral(conf, c) || (d1.g0 == LCASCII && !d1.so)) && SameModes(d, d1)
      && SameRest(e, e1)
  {
    hide Supported, Tied, Run, D, O.ShiftIn, O.Change, InAscii, O.ToAscii;
    ToAsciiRun(conf, e, d);
    AsciiTied(conf, e, d);
    ToAsciiIs(conf, e, c);
    RunNothing(D(conf.t), d, []);
  }

  /** The decoder takes the byte for an ASCII character. */
  lemma FindsAscii(conf: O.Conf, e: O.OutState, d: InState, c: nat)
    requires Supported(conf) && Tied(conf, e, d, 4) && !d.r2l && 0x20 <= c < 0x80
    requires Neutral(conf, c) || (d.g0 == LCASCII && !d.so)
    ensures conf.Ok() && BytesOk(d) && CharSet(conf.t, d, c) == LCASCII
  {
    AsciiKnown(conf, e, d);
    assert LeftOk(conf, d.g0) && (d.so ==> LeftOk(conf, d.g1)) by {
      hide Known;
    }
    hide Slot, Known, Supported;
  }

  /** How an ASCII character is written in the buffer. */
  function AsciiText(c: nat, composed: bool): seq<nat> { if composed then [0xA0, c + 0x80] else [c] }

  lemma AsciiByteRead(conf: O.Conf, d: InState, c: nat)
    requires Supported(conf) && Quiet(d) && PlainAscii(c) && !d.r2l
    requires (c >= 0x20 ==> CharSet(conf.t, d, c) == LCASCII) && (d.cmp ==> c >= 0x20)
    ensures Run(D(conf.t), d, [c]) == (d, AsciiText(c, d.cmp))
  {
    var t := conf.t;
    RunOne(D(t), d, c);
    assert Drain(0) == [];
    assert Ok(d);
    hide Run;
    if c >= 0x20 {
      assert CharSet(t, d, c) == LCASCII;
      var text := AsciiText(c, d.cmp);
      assert [] + text == text;
      assert CharOut(t, d.cmp, LCASCII, 0, c) == (0, Drain(0) + text);
      hide CharSet, CharOut;
    } else {
      assert d.(ch := 0) == d;
      var held: seq<nat> := Drain(d.ch) + [];
      assert held == [] && held + [c] == [c];
      assert ControlStep(EolLf, d, c) == (d, [c]);
    }
  }

  lemma RestoreShifted(conf: O.Conf, e: O.OutState)
    requires conf.Ok() && O.GsOk(e)
    ensures var (e1, out) := O.Restore(conf, e); O.Restore(conf, e.(shift := false)) == (e1.(shift := false), out)
  {
    var f := e.(shift := false);
    OneShifted(conf, e, 0);
    var e0 := O.RestoreOne(conf, e, 0).0;
    O.RestoreOneOk(conf, e, 0);
    OneShifted(conf, e0, 1);
    var e1 := O.RestoreOne(conf, e0, 1).0;
    O.RestoreOneOk(conf, e0, 1);
    OneShifted(conf, e1, 2);
    var e2 := O.RestoreOne(conf, e1, 2).0;
    O.RestoreOneOk(conf, e1, 2);
    OneShifted(conf, e2, 3);
    hide O.RestoreOne, O.GsOk;
  }

  lemma OneShifted(conf: O.Conf, e: O.OutState, g: nat)
    requires conf.Ok() && O.GsOk(e)
    ensures var (e1, out) := O.RestoreOne(conf, e, g);
      O.RestoreOne(conf, e.(shift := false), g) == (e1.(shift := false), out)
  {
    ShiftApart(e, g, O.Initial(conf, g));
    hide O.Change, O.Assign, O.Current, O.Initial;
  }

  lemma ShiftApart(e: O.OutState, g: nat, lc: nat)
    ensures O.Assign(e.(shift := false), g, lc) == O.Assign(e, g, lc).(shift := false)
    ensures O.Current(e.(shift := false), g) == O.Current(e, g)
  {
    assert e.(shift := false).(g0 := lc) == e.(g0 := lc).(shift := false);
    assert e.(shift := false).(g1 := lc) == e.(g1 := lc).(shift := false);
    assert e.(shift := false).(g2 := lc) == e.(g2 := lc).(shift := false);
    assert e.(shift := false).(g3 := lc) == e.(g3 := lc).(shift := false);
  }

  lemma AtLineEndIs(conf: O.Conf, e: O.OutState, c: nat)
    requires conf.Ok() && O.GsOk(e) && !e.r2l && (c == LF ==> e.comp == O.CMP_NONE)
    ensures var (e1, out) := O.Restore(conf, e.(shift := false));
      O.AtLineEnd(conf, e, c) == if c == LF && conf.form.asciiEol then (e1, O.ShiftIn(e) + out) else (e, [])
    ensures SameRest(e, O.Restore(conf, e.(shift := false)).0)
  {
    RestoreShifted(conf, e);
    hide O.Restore, O.ShiftIn;
    var (e1, out) := O.Restore(conf, e);
    assert [] + (O.ShiftIn(e) + out) == O.ShiftIn(e) + out;
  }

  lemma TiedShift(conf: O.Conf, e: O.OutState, d: InState)
    requires conf.Ok() && Tied(conf, e, d, 4)
    ensures O.GsOk(e) && Tied(conf, e.(shift := false), d.(so := false), 4) && SameModes(d, d.(so := false))
      && SameModes(d, d)
  {
    hide Known, LeftOk;
  }

  lemma AtLineEndRead(conf: O.Conf, e: O.OutState, d: InState, c: nat)
    requires Supported(conf) && Tied(conf, e, d, 4) && !e.r2l && (c == LF ==> e.comp == O.CMP_NONE)
    ensures O.GsOk(e) && conf.Ok()
    ensures var (e1, out) := O.AtLineEnd(conf, e, c); var (d1, more) := Run(D(conf.t), d, out);
      && more == [] && Tied(conf, e1, d1, 4) && SameModes(d, d1) && (c != LF ==> d1 == d)
      && e1.comp == e.comp && e1.ch == e.ch && !e1.r2l
  {
    assert conf.Ok();
    hide D, Run, O.Restore, Known, Slot, Supported, Tied, O.AtLineEnd, O.ShiftIn;
    TiedShift(conf, e, d);
    AtLineEndIs(conf, e, c);
    RunNothing(D(conf.t), d, []);
    ShiftInRead(conf, e, d, 4);
    var d0 := d.(so := false);
    RestoreRead(conf, e.(shift := false), d0);
    var out := O.Restore(conf, e.(shift := false)).1;
    SilentRun(D(conf.t), d, O.ShiftIn(e), d0, out, Run(D(conf.t), d0, out).0);
  }

  lemma LoudRun<S>(step: (S, nat) -> (S, seq<nat>), st: S, x: seq<nat>, st1: S, y: seq<nat>)
    requires Run(step, st, x) == (st1, [])
    ensures Run(step, st, x + y) == Run(step, st1, y)
  {
    RunAppend(step, st, x, y);
    var (st2, out) := Run(step, st1, y);
    assert [] + out == out;
  }

  /** What the encoder makes of an ASCII character, alone or within a composite character. */
  lemma AsciiStepIs(conf: O.Conf, e: O.OutState, c: nat)
    requires conf.Ok() && O.GsOk(e) && conf.form.eol.EolLf? && e.ch == 0
      && (e.comp == O.CMP_NONE || e.comp == O.CMP_ASCII)
    requires O.GsOk(O.ToAscii(conf, e.(r2l := false), c).0)
    requires O.AtLineEnd(conf, O.ToAscii(conf, e.(r2l := false), c).0, c).0.comp == e.comp
    ensures var (e2, out2) := O.ToAscii(conf, e.(r2l := false), c); var (e3, out3) := O.AtLineEnd(conf, e2, c);
      O.AsciiStep(conf, e, c) ==
        (e3.(graphic := 0, boundary := true, comp := if e.comp == O.CMP_NONE then O.CMP_NONE else O.CMP_LC),
         Turn(conf, e.r2l, false) + (out2 + (out3 + [c])))
  {
    hide O.ToAscii, O.AtLineEnd, O.RevertDirection;
    assert e.(ch := 0, r2l := false) == e.(r2l := false);
    assert O.LineEnd(EolLf, c) == [c];
  }

  /** Both sides, for an ASCII character. */
  lemma AsciiStepRead(conf: O.Conf, e: O.OutState, d: InState, c: nat)
    requires Supported(conf) && Tied(conf, e, d, 4) && e.ch == 0 && e.r2l == d.r2l && PlainAscii(c)
    requires if e.comp == O.CMP_NONE then !d.cmp else e.comp == O.CMP_ASCII && d.cmp && c >= 0x20
    ensures O.GsOk(e) && conf.Ok()
    ensures var (e1, out) := O.AsciiStep(conf, e, c); var (d1, more) := Run(D(conf.t), d, out);
      more == AsciiText(c, d.cmp) && Sync(conf, e1, d1) && e1.boundary && d1.cmp == d.cmp
  {
    var e0, d0 := e.(r2l := false), d.(r2l := false);
    TiedModes(conf, e, d);
    TurnRead(conf, d, false);
    ToAsciiRead(conf, e0, d0, c);
    assert conf.form.eol.EolLf?;
    hide D, Run, Tied, Supported, O.ToAscii, O.AtLineEnd, O.AsciiStep, Turn;
    var (e2, out2) := O.ToAscii(conf, e0, c);
    var d2 := Run(D(conf.t), d0, out2).0;
    AtLineEndRead(conf, e2, d2, c);
    var (e3, out3) := O.AtLineEnd(conf, e2, c);
    var d3 := Run(D(conf.t), d2, out3).0;
    TiedOk(conf, e2, d2);
    AsciiStepIs(conf, e, c);
    TiedMarks(conf, e3, d3, if e.comp == O.CMP_NONE then O.CMP_NONE else O.CMP_LC);
    if c >= 0x20 { FindsAscii(conf, e3, d3, c); }
    AsciiByteRead(conf, d3, c);
    LoudRun(D(conf.t), d2, out3, d3, [c]);
    LoudRun(D(conf.t), d0, out2, d2, out3 + [c]);
    LoudRun(D(conf.t), d, Turn(conf, e.r2l, false), d0, out2 + (out3 + [c]));
  }

  lemma TiedModes(conf: O.Conf, e: O.OutState, d: InState)
    requires conf.Ok() && Tied(conf, e, d, 4)
    ensures Tied(conf, e.(r2l := false), d.(r2l := false), 4) && Quiet(d) && O.GsOk(e)
  {
    hide Known;
  }

  lemma TiedOk(conf: O.Conf, e: O.OutState, d: InState)
    requires conf.Ok() && Tied(conf, e, d, 4)
    ensures O.GsOk(e)
  {
    hide Known;
  }

  lemma TiedMarks(conf: O.Conf, e: O.OutState, d: InState, comp: nat)
    requires conf.Ok() && Tied(conf, e, d, 4)
    ensures Tied(conf, e.(graphic := 0, boundary := true, comp := comp), d, 4) && Quiet(d)
  {
    hide Slot;
  }

  // ---- composite characters ----

  lemma EndRead(t: Tables, d: InState)
    requires t.Ok() && Quiet(d)
    ensures Run(D(t), d, [ESC, '1' as nat]) == (d.(cmp := false), [])
    ensures Run(D(t), d, [ESC, '0' as nat]) == (d.(cmp := true), [LCCMP])
  {
    EscRead(t, d);
    ComposeRead(t, d);
    hide D, Run;
    RunTwo(D(t), d, ESC, '1' as nat);
    RunTwo(D(t), d, ESC, '0' as nat);
    assert [] + [LCCMP] == [LCCMP];
  }

  lemma ComposeRead(t: Tables, d: InState)
    requires t.Ok() && Quiet(d)
    ensures D(t)(Reading(d, CC_ESC), '1' as nat) == (d.(cmp := false), [])
    ensures D(t)(Reading(d, CC_ESC), '0' as nat) == (d.(cmp := true), [LCCMP])
  {
    var st := Reading(d, CC_ESC);
    assert Ok(st);
    assert EscapeStep(t, st, '1' as nat) == (d.(cmp := false), [], true);
    assert EscapeStep(t, st, '0' as nat) == (d.(cmp := true), [LCCMP], true);
    hide GraphicStep, ControlStep, EscapeStep;
  }

  /** A byte that is no part of a composite character closes it first. */
  lemma ClosedOut(conf: O.Conf, e: O.OutState, c: nat, rest: seq<nat>)
    requires conf.Ok() && O.GsOk(e) && !conf.selective && e.comp == O.CMP_LC && c < 0xA0
    ensures var (e1, out) := Run(O.Out(conf), e.(comp := O.CMP_NONE), [c] + rest);
      Run(O.Out(conf), e, [c] + rest) == (e1, [ESC, '1' as nat] + out)
  {
    hide Run, O.MainStep;
    var e0 := e.(comp := O.CMP_NONE);
    var (e1, out1) := O.MainStep(conf, e0, c);
    assert O.Out(conf)(e, c) == (e1, [ESC, '1' as nat] + out1) && O.Out(conf)(e0, c) == (e1, out1);
    RunCons(O.Out(conf), e, c, rest);
    RunCons(O.Out(conf), e0, c, rest);
    var out2 := Run(O.Out(conf), e1, rest).1;
    assert ([ESC, '1' as nat] + out1) + out2 == [ESC, '1' as nat] + (out1 + out2);
  }

  lemma ClosedSync(conf: O.Conf, e: O.OutState, d: InState)
    requires conf.Ok() && Sync(conf, e, d)
    ensures Quiet(d) && O.GsOk(e) && Sync(conf, e.(comp := O.CMP_NONE), d.(cmp := false))
    ensures (e.comp == O.CMP_NONE && !d.cmp) || (e.comp == O.CMP_LC && d.cmp)
    ensures e.comp == O.CMP_NONE ==> e.(comp := O.CMP_NONE) == e && d.(cmp := false) == d
  {
    hide Known;
  }

  /** So a character that is no part of one comes back if it does so with none open. */
  lemma Closes(conf: O.Conf, e: O.OutState, d: InState, c: nat, rest: seq<nat>, open: bool)
    requires Supported(conf) && Sync(conf, e, d) && c < 0xA0
    requires Both(conf, e.(comp := O.CMP_NONE), d.(cmp := false), [c] + rest, open)
    ensures Both(conf, e, d, [c] + rest, open)
  {
    ClosedSync(conf, e, d);
    assert conf.Ok() && !conf.selective;
    hide Supported, Sync, Run, D, O.Out;
    if e.comp == O.CMP_LC {
      ClosedOut(conf, e, c, rest);
      EndRead(conf.t, d);
      LoudRun(D(conf.t), d, [ESC, '1' as nat], d.(cmp := false),
              Run(O.Out(conf), e.(comp := O.CMP_NONE), [c] + rest).1);
    }
  }

  /** These bytes go through both converters, and both are ready for more; a composite character may be open. */
  predicate Both(conf: O.Conf, e: O.OutState, d: InState, u: seq<nat>, open: bool)
    requires conf.Ok()
  {
    var (e1, out) := Run(O.Out(conf), e, u); var (d1, more) := Run(D(conf.t), d, out);
    more == u && Sync(conf, e1, d1) && (open ==> d1.cmp) && (e1.boundary || u == [LCCMP])
  }

  // ---- whole texts ----

  lemma SyncMeans(conf: O.Conf, e: O.OutState, d: InState)
    requires Supported(conf) && Sync(conf, e, d)
    ensures conf.Ok() && !conf.selective && Tied(conf, e, d, 4) && e.ch == 0 && e.r2l == d.r2l && O.GsOk(e)
    ensures (e.comp == O.CMP_NONE && !d.cmp) || (e.comp == O.CMP_LC && d.cmp)
    ensures Tied(conf, e.(comp := O.CMP_ASCII), d, 4)
  {
    hide Known, LeftOk;
  }

  lemma BothIs(conf: O.Conf, e: O.OutState, d: InState, u: seq<nat>, open: bool)
    requires conf.Ok()
    requires var (e1, out) := Run(O.Out(conf), e, u); var (d1, more) := Run(D(conf.t), d, out);
      more == u && Sync(conf, e1, d1) && (open ==> d1.cmp) && (e1.boundary || u == [LCCMP])
    ensures Both(conf, e, d, u, open)
  {
  }

  lemma AsciiRead(conf: O.Conf, e: O.OutState, d: InState, c: nat)
    requires Supported(conf) && Sync(conf, e, d) && e.comp == O.CMP_NONE && PlainAscii(c)
    ensures Both(conf, e, d, [c], false)
  {
    AsciiOutIs(conf, e, d, c);
    hide *;
    SyncMeans(conf, e, d);
    AsciiStepRead(conf, e, d, c);
    RunOne(O.Out(conf), e, c);
    BothIs(conf, e, d, [c], false);
  }

  lemma AsciiOutIs(conf: O.Conf, e: O.OutState, d: InState, c: nat)
    requires Supported(conf) && Sync(conf, e, d) && e.comp == O.CMP_NONE && PlainAscii(c)
    ensures conf.Ok() && O.GsOk(e) && O.Out(conf)(e, c) == O.AsciiStep(conf, e, c) && AsciiText(c, d.cmp) == [c]
  {
    SyncMeans(conf, e, d);
    hide O.AsciiStep, Supported, Sync, Tied;
  }

  /** An ASCII character as part of a composite one. */
  lemma AsciiPartRead(conf: O.Conf, e: O.OutState, d: InState, c: nat)
    requires Supported(conf) && Sync(conf, e, d) && e.comp == O.CMP_LC && PlainAscii(c) && c >= 0x20
    ensures Both(conf, e, d, [0xA0, c + 0x80], true)
  {
    assert AsciiText(c, true) == [0xA0, c + 0x80] && c < 0x80;
    hide *;
    SyncMeans(conf, e, d);
    AsciiStepRead(conf, e.(comp := O.CMP_ASCII), d, c);
    PartOut(conf, e, c);
    RunTwo(O.Out(conf), e, 0xA0, c + 0x80);
    var out := O.AsciiStep(conf, e.(comp := O.CMP_ASCII), c).1;
    assert [] + out == out;
    BothIs(conf, e, d, [0xA0, c + 0x80], true);
  }

  lemma PartOut(conf: O.Conf, e: O.OutState, c: nat)
    requires conf.Ok() && O.GsOk(e) && !conf.selective && e.comp == O.CMP_LC && 0x20 <= c < 0x80
    ensures O.Out(conf)(e, 0xA0) == (e.(comp := O.CMP_ASCII), [])
    ensures O.Out(conf)(e.(comp := O.CMP_ASCII), c + 0x80) == O.AsciiStep(conf, e.(comp := O.CMP_ASCII), c)
  {
    hide O.AsciiStep, O.LeadStep, O.NonAsciiStep;
    assert (c + 0x80) % 128 == c;
  }

  lemma MarkRead(conf: O.Conf, e: O.OutState, d: InState)
    requires Supported(conf) && Sync(conf, e, d) && e.comp == O.CMP_NONE
    ensures Both(conf, e, d, [LCCMP], true)
  {
    ClosedSync(conf, e, d);
    assert conf.Ok() && !conf.selective;
    assert O.Out(conf)(e, LCCMP) == (e.(ch := 0, comp := O.CMP_LC, boundary := false), [ESC, '0' as nat]);
    RunOne(O.Out(conf), e, LCCMP);
    EndRead(conf.t, d);
    hide Run, D, O.Out, Known;
  }

  /** A character of another set, alone or as part of a composite one. */
  lemma MultiRead(conf: O.Conf, e: O.OutState, d: InState, lc: nat, p: seq<nat>)
    requires Supported(conf) && Sync(conf, e, d) && UnitOk(conf, Multi(lc, p, d.cmp))
    ensures Both(conf, e, d, Leads(lc, d.cmp) + p, d.cmp)
  {
    assert TextSet(conf, lc) && 1 <= PayloadLength(conf.t, lc) <= 2 && Payload(conf.t, lc, p[0]);
    LeadRead(conf, e, d, lc);
    var leads := Leads(lc, d.cmp);
    hide Run, D, O.Out, Sync, Supported, TextSet, Inside, Leads;
    var (e1, out1) := Run(O.Out(conf), e, leads);
    var d1 := Run(D(conf.t), d, out1).0;
    RunAppend(O.Out(conf), e, leads, p);
    if |p| == 1 {
      assert p == [p[0]];
      OneByteRead(conf, e1, d1, lc, p[0]);
    } else {
      assert p == [p[0], p[1]] && Payload(conf.t, lc, p[1]);
      TwoBytesRead(conf, e1, d1, lc, p[0], p[1]);
    }
    LoudRun(D(conf.t), d, out1, d1, Run(O.Out(conf), e1, p).1);
  }

  lemma LeadsFirst(lc: nat, p: seq<nat>)
    requires 0x81 <= lc < LCPRV11 || 0xA0 <= lc
    ensures var s := Leads(lc, false) + p; s[0] < 0xA0 && s == [s[0]] + s[1..]
  {
  }

  /** One unit goes through both converters, and both are ready for the next. */
  lemma UnitRead(conf: O.Conf, e: O.OutState, d: InState, u: Unit)
    requires Supported(conf) && Sync(conf, e, d) && UnitOk(conf, u) && (Composed(u) ==> d.cmp)
    ensures Both(conf, e, d, Written(u), u.Mark? || Composed(u))
  {
    ClosedSync(conf, e, d);
    assert conf.Ok();
    var e0, d0 := e.(comp := O.CMP_NONE), d.(cmp := false);
    hide Run, D, O.Out, Sync, Supported, Both, UnitOk, Leads, Quiet;
    match u {
      case Mark =>
        MarkRead(conf, e0, d0);
        assert [LCCMP] == [LCCMP] + [];
        Closes(conf, e, d, LCCMP, [], true);
      case Ascii(c, composed) =>
        AsciiUnitOk(conf, u);
        if composed {
          AsciiPartRead(conf, e, d, c);
        } else {
          AsciiRead(conf, e0, d0, c);
          assert [c] == [c] + [];
          Closes(conf, e, d, c, [], false);
        }
      case Multi(lc, p, composed) =>
        MultiUnitOk(conf, u);
        if composed {
          MultiRead(conf, e, d, lc, p);
        } else {
          MultiRead(conf, e0, d0, lc, p);
          LeadsFirst(lc, p);
          Closes(conf, e, d, Written(u)[0], Written(u)[1..], false);
        }
    }
  }

  lemma AsciiUnitOk(conf: O.Conf, u: Unit)
    requires conf.Ok() && UnitOk(conf, u) && u.Ascii?
    ensures PlainAscii(u.c) && (u.composed ==> u.c >= 0x20)
  {
  }

  lemma MultiUnitOk(conf: O.Conf, u: Unit)
    requires conf.Ok() && UnitOk(conf, u) && u.Multi?
    ensures UnitOk(conf, Multi(u.lc, u.p, !u.composed)) && (0x81 <= u.lc < LCPRV11 || 0xA0 <= u.lc <= 0xFF)
  {
  }

  /** The text ends with a character, not with the beginning of a composite one. */
  predicate Complete(units: seq<Unit>) { units != [] && !units[|units| - 1].Mark? }

  lemma LastUnit(conf: O.Conf, units: seq<Unit>, open: bool)
    requires conf.Ok() && Text(conf, units, open)
    ensures units != [] && units[1..] != [] ==> Complete(units) == Complete(units[1..])
    ensures units != [] && units[1..] == [] && Complete(units) ==> Written(units[0]) != [LCCMP]
  {
    hide Known, NeedsG3;
  }

  /** At every boundary between units the decoder has the text so far, and its designations, shift state, direction and
      composition track the encoder's. */
  lemma {:induction false} TextRead(conf: O.Conf, e: O.OutState, d: InState, units: seq<Unit>, open: bool)
    requires Supported(conf) && Sync(conf, e, d) && Text(conf, units, open) && (open ==> d.cmp)
    ensures var (e1, out) := Run(O.Out(conf), e, Contents(units)); var (d1, more) := Run(D(conf.t), d, out);
      more == Contents(units) && Sync(conf, e1, d1) && (Complete(units) ==> e1.boundary)
    decreases |units|
  {
    LastUnit(conf, units, open);
    hide D, Run, Sync, Supported, O.Out, UnitOk, Written, Complete;
    if units == [] {
      RunNothing(O.Out(conf), e, []);
      RunNothing(D(conf.t), d, []);
    } else {
      UnitRead(conf, e, d, units[0]);
      var (e1, out1) := Run(O.Out(conf), e, Written(units[0]));
      var d1 := Run(D(conf.t), d, out1).0;
      TextRead(conf, e1, d1, units[1..], units[0].Mark? || Composed(units[0]));
      RunNothing(O.Out(conf), e1, []);
      RunAppend(O.Out(conf), e, Written(units[0]), Contents(units[1..]));
      RunAppend(D(conf.t), d, out1, Run(O.Out(conf), e1, Contents(units[1..])).1);
    }
  }

  lemma FinalReset(conf: O.Conf, e: O.OutState, d: InState)
    requires Supported(conf) && Sync(conf, e, d)
    ensures O.GsOk(e) && conf.Ok()
    ensures var (e1, out) := O.FinalOut(conf, e); var (d1, more) := Run(D(conf.t), d, out);
      more == [] && Sync(conf, e1, d1)
  {
    ClosedSync(conf, e, d);
    if e.boundary {
      var t := conf.t;
      var e0 := e.(r2l := false, graphic := 0, shift := false, comp := O.CMP_NONE);
      var d0 := d.(r2l := false, cmp := false, so := false);
      ShiftedIn(conf, e, d);
      TurnRead(conf, d, false);
      var d2 := d.(r2l := false);
      EndRead(t, d2);
      var d3 := d2.(cmp := false);
      ShiftInRead(conf, e, d3, 4);
      RestoreRead(conf, e0, d0);
      RunNothing(D(t), d2, []);
      hide D, Run, O.Restore, Tied, Supported, O.ShiftIn, O.RevertDirection, Known, SameModes;
      var (e1, out) := O.Restore(conf, e0);
      var close := O.EndComposite(e);
      assert Run(D(t), d2, close) == (d3, []);
      SilentRun(D(t), d3, O.ShiftIn(e), d0, out, Run(D(t), d0, out).0);
      SilentRun(D(t), d2, close, d3, O.ShiftIn(e) + out, Run(D(t), d0, out).0);
      SilentRun(D(t), d, Turn(conf, e.r2l, false), d2, close + (O.ShiftIn(e) + out), Run(D(t), d0, out).0);
      FinalSync(conf, e1, Run(D(t), d0, out).0, d0);
    } else {
      RunNothing(D(conf.t), d, []);
    }
  }

  lemma FinalSync(conf: O.Conf, e: O.OutState, d: InState, d0: InState)
    requires conf.Ok() && Tied(conf, e, d, 4) && SameModes(d0, d) && !d0.r2l && !d0.cmp
    requires e.ch == 0 && !e.r2l && e.comp == O.CMP_NONE
    ensures Sync(conf, e, d)
  {
  }

  lemma ShiftedIn(conf: O.Conf, e: O.OutState, d: InState)
    requires Supported(conf) && Tied(conf, e, d, 4)
    ensures Tied(conf, e, d.(r2l := false, cmp := false), 4)
    ensures Tied(conf, e.(r2l := false, graphic := 0, shift := false, comp := O.CMP_NONE),
                 d.(r2l := false, cmp := false, so := false), 4)
  {
    hide Slot;
  }

  /** Both converters start from the same coding system. */
  function FirstOut(conf: O.Conf, i0: bool, i1: bool, i2: bool, i3: bool, boundary: bool): O.OutState {
    O.OutState(false, 0, false, O.CMP_NONE, 0, conf.o0, conf.o1, conf.o2, conf.o3, i0, i1, i2, i3, boundary)
  }

  function FirstIn(conf: O.Conf): InState {
    InState(false, false, false, false, false, false, false, 0, 0, conf.o0, conf.o1, conf.o2, conf.o3)
  }

  lemma FirstSync(conf: O.Conf, e: O.OutState)
    requires Supported(conf) && exists i0, i1, i2, i3, b :: e == FirstOut(conf, i0, i1, i2, i3, b)
    ensures Sync(conf, e, FirstIn(conf)) && O.GsOk(e)
  {
  }

  lemma {:induction false} TextBytes(conf: O.Conf, units: seq<Unit>, open: bool)
    requires Supported(conf) && Text(conf, units, open)
    ensures AreBytes(Contents(units))
    decreases |units|
  {
    if units != [] {
      TextBytes(conf, units[1..], units[0].Mark? || Composed(units[0]));
      UnitBytes(conf, units[0]);
      hide Written, UnitOk;
    }
  }

  lemma UnitBytes(conf: O.Conf, u: Unit)
    requires conf.Ok() && UnitOk(conf, u)
    ensures AreBytes(Written(u))
  {
    hide Known, NeedsG3;
  }

  /** Decoding what was encoded, both from the same coding system, gives the text back, whether or not the
      designations are reset at the end. */
  lemma RoundTrip(conf: O.Conf, i0: bool, i1: bool, i2: bool, i3: bool, boundary: bool, units: seq<Unit>, end: bool)
    requires Supported(conf) && Text(conf, units, false)
    ensures conf.Ok() && O.GsOk(FirstOut(conf, i0, i1, i2, i3, boundary)) && AreBytes(Contents(units))
    ensures var coded := O.Encoded(conf, FirstOut(conf, i0, i1, i2, i3, boundary), Contents(units), end).1;
      Output(In(conf.t, EolLf), FlushCh(), FirstIn(conf), coded, true) == Contents(units)
  {
    var e, d := FirstOut(conf, i0, i1, i2, i3, boundary), FirstIn(conf);
    FirstSync(conf, e);
    TextBytes(conf, units, false);
    hide Run, Supported, O.Out, In, Tied, O.FinalOut;
    TextRead(conf, e, d, units, false);
    var (e1, out) := Run(O.Out(conf), e, Contents(units));
    var (d1, text) := Run(D(conf.t), d, out);
    QuietEnd(conf, e1, d1);
    assert text + [] == text;
    if end {
      FinalReset(conf, e1, d1);
      var (e2, rest) := O.FinalOut(conf, e1);
      RunAppend(D(conf.t), d, out, rest);
      QuietEnd(conf, e2, Run(D(conf.t), d1, rest).0);
    }
  }

  lemma QuietEnd(conf: O.Conf, e: O.OutState, d: InState)
    requires conf.Ok() && Sync(conf, e, d)
    ensures FlushCh()(d) == []
  {
    assert Quiet(d);
  }

  // ---- an instance ----

  /** Tables with ASCII, JIS X 0208, one Latin set and a private one that is written from right to left, and the coding
      systems that start with ASCII in G0. */
  function Example(form: Form, o1: nat, o2: nat): O.Conf {
    var kind := seq(256, i => if i == LCASCII || i == 0xA0 then TYPE94 else if i == LCJP then TYPE94N
      else if i == 0x81 then TYPE96 else 0xFF);
    var final := seq(256, i => if i == 0x81 then 0x41 else if i == 0xA0 then 0x30 else 0x42);
    var bytes := seq(256, i => if i == LCASCII then 1 else if i == LCJP || i == 0xA0 then 3 else 2);
    var lcTable := seq(640, i => if i == TYPE94 * 128 + 0x42 then LCASCII else if i == TYPE94N * 128 + 0x42 then LCJP
                                 else if i == TYPE96 * 128 + 0x41 then 0x81 else if i == TYPE94 * 128 + 0x30 then 0xA0
                                 else LCINV);
    var t := Tables(kind, final, bytes, seq(256, i => i == 0xA0), seq(256, i => if i == LCASCII then 0 else 1), lcTable,
        seq(256, _ => 0));
    O.Conf(t, form, false, LCASCII, o1, o2, LCINV)
  }

  /** The conditions of the round trip can be met: in seven bits with everything in G0, in seven bits with locking
      shift, and in eight bits with a Latin set in G1 and JIS X 0208 in G2 or, without CODE_ASCII_CNTL, the other way
      round. */
  lemma ExampleSupported()
    ensures var conf := Example(Form(EolLf, false, true, true, true, true, false, false, false), LCINV, LCINV);
      Supported(conf) && TextSet(conf, LCJP) && TextSet(conf, 0xA0)
    ensures var conf := Example(Form(EolLf, false, true, true, true, true, true, false, false), LCJP, LCINV);
      Supported(conf) && TextSet(conf, 0x81) && TextSet(conf, 0xA0)
    ensures var conf := Example(Form(EolLf, false, true, true, true, false, false, false, false), 0x81, LCJP);
      Supported(conf) && TextSet(conf, LCJP) && TextSet(conf, 0x81) && TextSet(conf, 0xA0)
    ensures var conf := Example(Form(EolLf, false, true, false, false, false, false, false, false), LCJP, 0x81);
      Supported(conf) && TextSet(conf, LCJP) && TextSet(conf, 0x81) && TextSet(conf, 0xA0)
  {
  }
}
