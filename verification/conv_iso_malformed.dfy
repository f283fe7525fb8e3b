// What i2g makes of bytes that are no well-formed ISO 2022: broken escape sequences, characters cut short, and bytes of
// no set.

module Iso2022Malformed {
  import opened Conversion
  import opened Iso2022In
  import opened Iso2022Grammar
  import RT = Iso2022RoundTrip

  // ---- escape sequences ----

  /** The beginning of an escape sequence. */
  datatype Part = Escape | Dollar | Intermediate(multi: bool, of96: bool, g: nat) | Bracket(eight: bool)
                | Digit(eight: bool, digit: nat)

  predicate PartOk(u: Part) { (u.Intermediate? ==> u.g < 4) && (u.Digit? ==> u.digit < 3) }

  function PartSpelled(u: Part): seq<nat> {
    match u
    case Escape => [ESC]
    case Dollar => [ESC] + ['$' as nat]
    case Intermediate(multi, of96, g) =>
      (if multi then [ESC] + ['$' as nat] else [ESC]) + [0x28 + (if of96 then 4 else 0) + g]
    case Bracket(eight) => if eight then [0x9B] else [ESC] + ['[' as nat]
    case Digit(eight, digit) => (if eight then [0x9B] else [ESC] + ['[' as nat]) + ['0' as nat + digit]
  }

  /** As it comes out: the one-byte form of ESC [ as two bytes. */
  function InSevenBits(u: Part): Part {
    match u
    case Bracket(_) => Bracket(false)
    case Digit(_, digit) => Digit(false, digit)
    case _ => u
  }

  /** The byte continues no escape sequence that begins so. */
  predicate Breaks(t: Tables, d: InState, u: Part, c: nat)
    requires t.Ok() && PartOk(u)
  {
    c < 256 &&
    match u
    case Escape =>
      && c !in Codes("$[01") && c !in Codes(INTERMEDIATES)
      && (c == 'N' as nat ==> d.g2 == LCINV) && (c == 'O' as nat ==> d.g3 == LCINV)
    case Dollar => c !in Codes(INTERMEDIATES) && (0x40 <= c <= 0x42 ==> NamedSet(t, true, false, c) == LCINV)
    case Intermediate(multi, of96, _) =>
      t.lcTable[((if multi then 2 else 0) + (if of96 then 1 else 0)) * 128 + c] == LCINV
    case Bracket(_) => c !in Codes("]012")
    case Digit(_, _) => c != ']' as nat
  }

  function EscOf(u: Part): nat {
    match u
    case Escape => CC_ESC
    case Dollar => CC_ESC_2_4
    case Intermediate(multi, of96, g) => (if multi then 8 else 0) + (if of96 then 4 else 0) + g
    case Bracket(_) => CC_ESC_5_11
    case Digit(_, digit) => CC_ESC_5_11_0 + digit
  }

  lemma PartRead(t: Tables, d: InState, u: Part)
    requires t.Ok() && RT.Quiet(d) && PartOk(u)
    ensures Run(RT.D(t), d, PartSpelled(u)) == (RT.Reading(d, EscOf(u)), [])
  {
    hide Run, In, RT.D, RT.Quiet;
    Begin(t, d);
    RT.MoreRead(t, d, CC_ESC, '$' as nat, CC_ESC_2_4);
    Then(t, d, [ESC], RT.Reading(d, CC_ESC), '$' as nat);
    if u.Intermediate? {
      var i, esc := 0x28 + (if u.of96 then 4 else 0) + u.g, EscOf(u);
      RT.MoreRead(t, d, if u.multi then CC_ESC_2_4 else CC_ESC, i, esc);
      Then(t, d, if u.multi then [ESC] + ['$' as nat] else [ESC], RT.Reading(d, if u.multi then CC_ESC_2_4 else CC_ESC),
           i);
    } else if u.Bracket? || u.Digit? {
      RT.DirectionRead(t, d);
      OneRead(t, d);
      RunOne(RT.D(t), d, 0x9B);
      Then(t, d, [ESC], RT.Reading(d, CC_ESC), '[' as nat);
      if u.Digit? {
        Then(t, d, if u.eight then [0x9B] else [ESC] + ['[' as nat], RT.Reading(d, CC_ESC_5_11), '0' as nat + u.digit);
      }
    }
  }

  lemma Listed(c: nat)
    ensures 0x28 <= c <= 0x2F ==> c in Codes(INTERMEDIATES)
    ensures c == 0x24 || c == 0x5B || c == 0x30 || c == 0x31 ==> c in Codes("$[01")
    ensures c == 0x5D || c == 0x30 || c == 0x31 || c == 0x32 ==> c in Codes("]012")
  {
    var a, b, d := Codes(INTERMEDIATES), Codes("$[01"), Codes("]012");
    assert a[0] == 0x28 && a[1] == 0x29 && a[2] == 0x2A && a[3] == 0x2B;
    assert a[4] == 0x2C && a[5] == 0x2D && a[6] == 0x2E && a[7] == 0x2F;
    assert b[0] == 0x24 && b[1] == 0x5B && b[2] == 0x30 && b[3] == 0x31;
    assert d[0] == 0x5D && d[1] == 0x30 && d[2] == 0x31 && d[3] == 0x32;
  }

  lemma EscBytesAre(u: Part)
    requires PartOk(u)
    ensures EscOf(u) < 0x1F && EscBytes(EscOf(u)) == PartSpelled(InSevenBits(u))
  {
    assert u.Escape? ==> [ESC] + [] == [ESC];
  }

  lemma BreaksMeans(t: Tables, d: InState, u: Part, c: nat)
    requires t.Ok() && RT.Quiet(d) && PartOk(u) && Breaks(t, d, u, c)
    ensures var st := RT.Reading(d, EscOf(u)); st.esc < 0x1F && Ok(st) && Lookup(t, st, c).0 == CC_ESC_INVALID
  {
    Listed(c);
    hide Codes, EscBytes;
  }

  lemma StartsAgain(t: Tables, d: InState, esc: nat, c: nat)
    requires t.Ok() && RT.Quiet(d) && esc < 0x1F && c < 256 && Ok(RT.Reading(d, esc))
    requires Lookup(t, RT.Reading(d, esc), c).0 == CC_ESC_INVALID
    ensures RT.D(t)(RT.Reading(d, esc), c) == (RT.D(t)(d, c).0, EscBytes(esc) + RT.D(t)(d, c).1)
  {
    var st := RT.Reading(d, esc);
    LookupOk(t, st, c);
    assert Ok(d) && st.escape && !d.escape;
    hide Lookup, EscBytes, ControlStep, GraphicStep;
    assert EscapeStep(t, st, c) == (d, EscBytes(esc), false);
    hide EscapeStep;
  }

  /** A broken escape sequence comes out as it is, and the byte that breaks it is read as if it stood alone. */
  lemma BrokenRead(t: Tables, d: InState, u: Part, c: nat)
    requires t.Ok() && RT.Quiet(d) && PartOk(u) && Breaks(t, d, u, c)
    ensures Run(RT.D(t), d, PartSpelled(u) + [c])
      == (RT.D(t)(d, c).0, PartSpelled(InSevenBits(u)) + RT.D(t)(d, c).1)
  {
    assert c < 256;
    hide *;
    PartRead(t, d, u);
    BreaksMeans(t, d, u, c);
    EscBytesAre(u);
    StartsAgain(t, d, EscOf(u), c);
    Then(t, d, PartSpelled(u), RT.Reading(d, EscOf(u)), c);
  }

  // ---- characters cut short ----

  /** Where the second byte of a character should be there is a control character: the first byte comes out with its
      high bit off. */
  lemma CutShort(t: Tables, d: InState, single: nat, lc: nat, m: nat, c: nat)
    requires t.Ok() && RT.Quiet(d) && single <= 3 && lc < 256 && lc != LCINV && t.r2l[lc] == d.r2l
    requires RT.Multibyte(t, lc) && RT.PayloadLength(t, lc) == 2 && InSet(t, d, single, lc, m)
    requires c < 256 && ControlP(c)
    ensures Run(RT.D(t), Announced(d, single), [m, c])
      == (RT.D(t)(Announced(d, single), c).0, [m % 128] + RT.D(t)(Announced(d, single), c).1)
  {
    var d1 := Announced(d, single);
    hide *;
    Found(t, d, single, lc, m);
    RT.PayloadIn(t, d1, lc, m);
    Drained(t, d1, m, c);
    RT.RunTwo(RT.D(t), d1, m, c);
    assert [] + RT.D(t)(d1.(ch := m), c).1 == RT.D(t)(d1.(ch := m), c).1;
  }

  /** Likewise where there is a character of one byte. */
  lemma CutByCharacter(t: Tables, d: InState, lc: nat, m: nat, lc2: nat, c: nat)
    requires t.Ok() && RT.Quiet(d) && lc < 256 && lc != LCINV && lc2 < 256 && lc2 != LCINV
      && t.r2l[lc] == d.r2l == t.r2l[lc2]
    requires RT.Multibyte(t, lc) && RT.PayloadLength(t, lc) == 2 && InSet(t, d, 0, lc, m)
    requires Has(t, lc2, 1) && InSet(t, d, 0, lc2, c)
    ensures Run(RT.D(t), d, [m, c]) == (d, [m % 128] + Shown(t, lc2, d.cmp, [c]))
  {
    assert Announced(d, 0) == d;
    hide *;
    Found(t, d, 0, lc, m);
    Found(t, d, 0, lc2, c);
    RT.PayloadIn(t, d, lc, m);
    DrainedByOne(t, d, m, lc2, c);
    RT.RunTwo(RT.D(t), d, m, c);
    var text := [m % 128] + Shown(t, lc2, d.cmp, [c]);
    assert [] + text == text;
  }

  lemma DrainedByOne(t: Tables, d: InState, m: nat, lc: nat, c: nat)
    requires t.Ok() && BytesOk(d) && RT.Quiet(d) && 0 < m < 256 && c < 256 && !ControlP(c)
    requires lc < 256 && CharSet(t, d, c) == lc && Has(t, lc, 1)
    ensures RT.D(t)(d.(ch := m), c) == (d, [m % 128] + Shown(t, lc, d.cmp, [c]))
  {
    assert Drain(0) == [] && Drain(m) == [m % 128] + Drain(m / 256) && m / 256 == 0;
    assert Ok(d.(ch := m)) && CharSet(t, d.(ch := m), c) == lc && Highs([c]) == [High(c)];
    var text := [m % 128] + Shown(t, lc, d.cmp, [c]);
    assert [] + text == text && d.(ch := m).(ch := 0) == d;
    OneShown(t, lc, d.cmp, m, c);
    hide EscapeStep, ControlStep, CharSet, CharOut, Shown;
  }

  lemma OneShown(t: Tables, lc: nat, composed: bool, m: nat, c: nat)
    requires t.Ok() && lc < 256 && Has(t, lc, 1) && Drain(m) == [m % 128]
    ensures CharOut(t, composed, lc, m, c) == (0, [m % 128] + Shown(t, lc, composed, [c]))
  {
    assert Highs([c]) == [High(c)];
    var k: nat := if composed then 0x20 else 0;
    assert lc < 0xA0 ==> Low8(lc + 0x20) == lc + 0x20;
    assert [lc + k] + [High(c)] == [lc + k, High(c)];
    assert [RT.Before(lc) + k, lc] + [High(c)] == [RT.Before(lc) + k, lc, High(c)];
  }

  lemma Drained(t: Tables, d: InState, m: nat, c: nat)
    requires t.Ok() && BytesOk(d) && RT.Quiet(d.(ss2 := false, ss3 := false)) && d.ch == 0 && 0 < m < 256 && c < 256
      && ControlP(c)
    ensures RT.D(t)(d.(ch := m), c) == (RT.D(t)(d, c).0, [m % 128] + RT.D(t)(d, c).1)
  {
    assert Drain(0) == [] && Drain(m) == [m % 128] + Drain(m / 256) && m / 256 == 0;
    assert Ok(d) && Ok(d.(ch := m));
    hide EscapeStep, GraphicStep;
    ControlDrained(EolLf, d, m, c);
    hide ControlStep, Drain;
  }

  lemma ControlDrained(eol: Eol, d: InState, m: nat, c: nat)
    requires !d.escape && d.ch == 0 && Drain(m) == [m % 128]
    ensures var (st, out) := ControlStep(eol, d, c); ControlStep(eol, d.(ch := m), c) == (st, [m % 128] + out)
  {
    assert Drain(0) == [];
    Prefixed([m % 128],
             if d.ss2 then [SS2 % 128] else if d.ss3 then [SS3 % 128] else if d.cr && c != LF then [CR] else [], c);
  }

  lemma Prefixed(a: seq<nat>, b: seq<nat>, c: nat)
    ensures (a + b) + [c] == a + (([] + b) + [c]) && (a + b) + [LF] == a + (([] + b) + [LF])
    ensures a + b == a + ([] + b)
  {
  }

  /** Where a character of G2 or G3 should be there is a control character: the announcement comes out as SO or SI. */
  lemma AnnouncedNothing(t: Tables, d: InState, single: nat, c: nat)
    requires t.Ok() && RT.Quiet(d) && 2 <= single <= 3 && c < 256 && ControlP(c)
    ensures RT.D(t)(Announced(d, single), c) == (RT.D(t)(d, c).0, [if single == 2 then SO else SI] + RT.D(t)(d, c).1)
  {
    assert Ok(d) && Ok(Announced(d, single));
    hide EscapeStep, GraphicStep;
    assert Drain(0) == [];
    Prefixed([if single == 2 then SO else SI], [], c);
    var held: seq<nat> := [if single == 2 then SO else SI];
    assert [] + held == held == held + [];
  }

  // ---- bytes of no set ----

  /** A space or DEL where a set of 94 characters is in use, and any byte where none is, is an ASCII character. */
  lemma AsciiInstead(t: Tables, d: InState, c: nat)
    requires t.Ok() && RT.Quiet(d) && c < 256 && Graphic(c) && !d.r2l && !t.r2l[LCASCII] && t.bytes[LCASCII] == 1
    requires var lc := Invoked(d, 0, c);
      lc == LCINV || ((c == 0x20 || c == DEL) && (t.kind[lc] == TYPE94 || t.kind[lc] == TYPE94N))
    ensures RT.D(t)(d, c) == (d, if d.cmp then [0xA0, High(c)] else [c % 128])
  {
    assert CharSet(t, d, c) == LCASCII;
    hide CharSet;
    OneByteSetRead(t, d, LCASCII, c);
  }

  /** A byte of a set whose direction is not that of the text belongs to the set that differs from it in direction
      only. */
  lemma OtherDirection(t: Tables, d: InState, lc: nat, p: seq<nat>)
    requires t.Ok() && RT.Quiet(d) && lc < 256 && lc != LCINV && t.r2l[lc] != d.r2l
    requires p != [] && Has(t, t.rev[lc], |p|) && forall i :: 0 <= i < |p| ==> InSet(t, d, 0, lc, p[i])
    ensures Run(RT.D(t), d, p) == (d, Shown(t, t.rev[lc], d.cmp, p))
  {
    var own := t.rev[lc];
    assert 1 <= |p| <= 2 && (|p| == 2 ==> RT.Multibyte(t, own)) && (t.bytes[own] == 1 ==> !RT.Multibyte(t, own));
    assert InSet(t, d, 0, lc, p[0]) && (|p| == 2 ==> InSet(t, d, 0, lc, p[1]));
    FoundReversed(t, d, lc, p[0]);
    HighsOf(p);
    if |p| == 2 { FoundReversed(t, d, lc, p[1]); }
    hide Run, In, RT.D, InSet, RT.Quiet, CharSet, Invoked, RT.Multibyte, RT.PayloadLength, BytesOk;
    if |p| == 1 {
      RunOne(RT.D(t), d, p[0]);
      if t.bytes[own] == 1 { OneByteSetRead(t, d, own, p[0]); } else { RT.PayloadIn(t, d, own, p[0]); }
    } else {
      RT.TwoBytesIn(t, d, own, p[0], p[1]);
    }
  }

  lemma FoundReversed(t: Tables, d: InState, lc: nat, c: nat)
    requires t.Ok() && RT.Quiet(d) && lc < 256 && lc != LCINV && t.r2l[lc] != d.r2l && InSet(t, d, 0, lc, c)
    ensures BytesOk(d) && c < 256 && CharSet(t, d, c) == t.rev[lc] && !ControlP(c) && c != 0 && d.ch == 0
    ensures d.(ss2 := false, ss3 := false) == d && d.(ss2 := false, ss3 := false, ch := 0) == d
  {
  }
}
