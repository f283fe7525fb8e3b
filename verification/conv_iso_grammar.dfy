// What i2g makes of the code extensions of ISO 2022 (ECMA-35), spelled out byte by byte.

module Iso2022Grammar {
  import opened Conversion
  import opened Iso2022In
  import O = Iso2022Out
  import RT = Iso2022RoundTrip

  /** The intermediate bytes that send a set to G0, G1, G2 and G3: first sets of 94, then of 96 characters. */
  const INTERMEDIATES := "()*+,-./"

  /** What a byte stream is made of. */
  datatype Token =
    | Designation(multi: bool, of96: bool, g: nat, final: nat)
    | ShortDesignation(final: nat)
    | Shift(out: bool)
    | Direction(eight: bool, digit: string)
    | Composition(begin: bool)
    | Control(c: nat)
    | Character(single: nat, seven: bool, p: seq<nat>)

  function Codes(s: string): (r: seq<nat>) { seq(|s|, i requires 0 <= i < |s| => s[i] as nat) }

  /** The announcement of one character of G2 or G3. */
  function SingleShift(single: nat, seven: bool): seq<nat> {
    if single == 2 then (if seven then [ESC] + Codes("N") else [SS2])
    else if single == 3 then (if seven then [ESC] + Codes("O") else [SS3])
    else []
  }

  function Spelled(k: Token): seq<nat> {
    match k
    case Designation(multi, of96, g, final) =>
      [ESC] + (if multi then Codes("$") else [])
      + (if g < 4 then [INTERMEDIATES[(if of96 then 4 else 0) + g] as nat] else []) + [final]
    case ShortDesignation(final) => [ESC] + Codes("$") + [final]
    case Shift(out) => [if out then SO else SI]
    case Direction(eight, digit) => (if eight then [0x9B] else [ESC] + Codes("[")) + Codes(digit + "]")
    case Composition(begin) => [ESC] + Codes(if begin then "0" else "1")
    case Control(c) => [c]
    case Character(single, seven, p) => SingleShift(single, seven) + p
  }

  /** The set a designation names. */
  function NamedSet(t: Tables, multi: bool, of96: bool, final: nat): nat
    requires t.Ok() && final < 128
  {
    t.lcTable[(if multi then (if of96 then TYPE96N else TYPE94N) else if of96 then TYPE96 else TYPE94) * 128 + final]
  }

  /** The set in which a byte is looked up. */
  function Invoked(d: InState, single: nat, c: nat): nat {
    if single == 2 then d.g2 else if single == 3 then d.g3 else if d.so || c >= 0x80 then d.g1 else d.g0
  }

  predicate Graphic(c: nat) { 0x20 <= c < 0x80 || 0xA0 <= c < 0x100 }

  /** A byte of a character of that set.  Space and DEL are in no set of 94 characters. */
  predicate InSet(t: Tables, d: InState, single: nat, lc: nat, c: nat)
    requires t.Ok() && lc < 256
  {
    && Graphic(c) && Invoked(d, single, c) == lc
    && (c == 0x20 || c == DEL ==> t.kind[lc] != TYPE94 && t.kind[lc] != TYPE94N)
  }

  /** How many bytes the characters of a set have. */
  predicate Has(t: Tables, lc: nat, n: nat)
    requires t.Ok() && lc < 256
  {
    (n == 1 && t.bytes[lc] == 1) || (RT.Multibyte(t, lc) && n == RT.PayloadLength(t, lc))
  }

  /** A complete character of a set that has been designated, written in the direction of the text. */
  predicate CharacterOk(t: Tables, d: InState, single: nat, p: seq<nat>)
    requires t.Ok() && BytesOk(d)
  {
    && (single == 0 || single == 2 || single == 3) && p != []
    && var lc := Invoked(d, single, p[0]);
    && lc != LCINV && Has(t, lc, |p|) && t.r2l[lc] == d.r2l
    && forall i :: 0 <= i < |p| ==> InSet(t, d, single, lc, p[i])
  }

  /** A shift function for a set that has not been designated is a control character like any other. */
  predicate ControlOk(d: InState, c: nat) {
    && (c < 0x20 || 0x80 <= c < 0xA0) && c != ESC && c != 0x9B
    && (c == SO || c == SI ==> d.g1 == LCINV) && (c == SS2 ==> d.g2 == LCINV) && (c == SS3 ==> d.g3 == LCINV)
  }

  predicate TokenOk(t: Tables, d: InState, k: Token)
    requires t.Ok() && BytesOk(d)
  {
    match k
    case Designation(multi, of96, g, final) => g < 4 && final < 128 && NamedSet(t, multi, of96, final) != LCINV
    case ShortDesignation(final) => 0x40 <= final <= 0x42 && NamedSet(t, true, false, final) != LCINV
    case Shift(_) => d.g1 != LCINV
    case Direction(_, digit) => digit == "" || digit == "0" || digit == "1" || digit == "2"
    case Composition(_) => true
    case Control(c) => ControlOk(d, c)
    case Character(single, _, p) => CharacterOk(t, d, single, p)
  }

  function Highs(p: seq<nat>): seq<nat> { seq(|p|, i requires 0 <= i < |p| => High(p[i])) }

  /** A character as it stands in a buffer. */
  function Shown(t: Tables, lc: nat, composed: bool, p: seq<nat>): seq<nat>
    requires t.Ok() && lc < 256 && p != []
  {
    if t.bytes[lc] == 1 then (if composed then [0xA0, High(p[0])] else [p[0] % 128])
    else RT.Leads(lc, composed) + Highs(p)
  }

  /** The state after a token, and what is put out for it. */
  function Meaning(t: Tables, d: InState, k: Token): (InState, seq<nat>)
    requires t.Ok() && BytesOk(d) && TokenOk(t, d, k)
  {
    match k
    case Designation(multi, of96, g, final) => (SetG(d, g, Fold(NamedSet(t, multi, of96, final))), [])
    case ShortDesignation(final) => (SetG(d, 0, Fold(NamedSet(t, true, false, final))), [])
    case Shift(out) => (d.(so := out), [])
    case Direction(_, digit) => (d.(r2l := digit == "2"), [])
    case Composition(begin) => (d.(cmp := begin), if begin then [LCCMP] else [])
    case Control(c) => (d, [c])
    case Character(single, _, p) => (d, Shown(t, Invoked(d, single, p[0]), d.cmp, p))
  }

  // ---- one token ----

  lemma Then(t: Tables, d: InState, s: seq<nat>, d1: InState, c: nat)
    requires Run(RT.D(t), d, s) == (d1, [])
    ensures Run(RT.D(t), d, s + [c]) == RT.D(t)(d1, c)
  {
    hide In;
    RunSnocs(RT.D(t), d, s, c);
    assert [] + RT.D(t)(d1, c).1 == RT.D(t)(d1, c).1;
  }

  lemma Begin(t: Tables, d: InState)
    requires t.Ok() && RT.Quiet(d)
    ensures Run(RT.D(t), d, [ESC]) == (RT.Reading(d, CC_ESC), [])
  {
    RT.EscRead(t, d);
    hide Run, In;
    RunOne(RT.D(t), d, ESC);
  }

  lemma SpelledDesignation(multi: bool, of96: bool, g: nat, final: nat)
    requires g < 4
    ensures var i: nat := 0x28 + (if of96 then 4 else 0) + g;
      Spelled(Designation(multi, of96, g, final))
        == (if multi then [ESC] + ['$' as nat] + [i] else [ESC] + [i]) + [final]
  {
    var i: nat := 0x28 + (if of96 then 4 else 0) + g;
    assert INTERMEDIATES[(if of96 then 4 else 0) + g] as nat == i;
    assert Codes("$") == ['$' as nat];
    assert [ESC] + [] == [ESC];
  }

  lemma DesignationRead(t: Tables, d: InState, multi: bool, of96: bool, g: nat, final: nat)
    requires t.Ok() && RT.Quiet(d) && TokenOk(t, d, Designation(multi, of96, g, final))
    ensures Run(RT.D(t), d, Spelled(Designation(multi, of96, g, final)))
      == (SetG(d, g, Fold(NamedSet(t, multi, of96, final))), [])
  {
    var lc, i := NamedSet(t, multi, of96, final), 0x28 + (if of96 then 4 else 0) + g;
    var esc := (if multi then 8 else 0) + (if of96 then 4 else 0) + g;
    assert esc / 4 == (if multi then (if of96 then TYPE96N else TYPE94N) else if of96 then TYPE96 else TYPE94);
    assert esc % 4 == g;
    hide Run, In, RT.D, RT.Quiet, SetG, Fold, Spelled, BytesOk;
    RT.FinalRead(t, d, esc, final, lc);
    SpelledDesignation(multi, of96, g, final);
    Begin(t, d);
    if multi {
      RT.MoreRead(t, d, CC_ESC, '$' as nat, CC_ESC_2_4);
      Then(t, d, [ESC], RT.Reading(d, CC_ESC), '$' as nat);
      RT.MoreRead(t, d, CC_ESC_2_4, i, esc);
      Then(t, d, [ESC] + ['$' as nat], RT.Reading(d, CC_ESC_2_4), i);
      Then(t, d, [ESC] + ['$' as nat] + [i], RT.Reading(d, esc), final);
    } else {
      RT.MoreRead(t, d, CC_ESC, i, esc);
      Then(t, d, [ESC], RT.Reading(d, CC_ESC), i);
      Then(t, d, [ESC] + [i], RT.Reading(d, esc), final);
    }
  }

  lemma ShortRead(t: Tables, d: InState, final: nat)
    requires t.Ok() && RT.Quiet(d) && TokenOk(t, d, ShortDesignation(final))
    ensures Run(RT.D(t), d, Spelled(ShortDesignation(final))) == (SetG(d, 0, Fold(NamedSet(t, true, false, final))), [])
  {
    assert Codes("$") == ['$' as nat];
    hide Run, In, RT.D, RT.Quiet, SetG, Fold, BytesOk;
    RT.FinalRead(t, d, CC_ESC_2_4, final, NamedSet(t, true, false, final));
    Begin(t, d);
    RT.MoreRead(t, d, CC_ESC, '$' as nat, CC_ESC_2_4);
    Then(t, d, [ESC], RT.Reading(d, CC_ESC), '$' as nat);
    Then(t, d, [ESC] + ['$' as nat], RT.Reading(d, CC_ESC_2_4), final);
  }

  lemma ShiftRead(t: Tables, d: InState, out: bool)
    requires t.Ok() && RT.Quiet(d) && d.g1 != LCINV
    ensures Run(RT.D(t), d, [if out then SO else SI]) == (d.(so := out), [])
  {
    RunOne(RT.D(t), d, if out then SO else SI);
    var none: seq<nat> := [];
    assert Drain(0) == [] && none + none == none && Ok(d);
    hide Run, GraphicStep, EscapeStep;
  }

  lemma OneRead(t: Tables, d: InState)
    requires t.Ok() && RT.Quiet(d)
    ensures RT.D(t)(RT.Reading(d, CC_ESC_5_11), '1' as nat) == (RT.Reading(d, CC_ESC_5_11_1), [])
    ensures RT.D(t)(RT.Reading(d, CC_ESC_5_11_1), ']' as nat) == (d.(r2l := false), [])
  {
    hide GraphicStep, ControlStep;
  }

  lemma SpelledDirection(eight: bool, digit: string)
    ensures Spelled(Direction(eight, ""))
      == (if eight then [0x9B] else [ESC] + ['[' as nat]) + [']' as nat]
    ensures |digit| == 1 ==>
      Spelled(Direction(eight, digit))
        == (if eight then [0x9B] else [ESC] + ['[' as nat]) + [digit[0] as nat] + [']' as nat]
  {
    assert Codes("[") == ['[' as nat] && Codes("" + "]") == [']' as nat];
    if |digit| == 1 { assert Codes(digit + "]") == [digit[0] as nat] + [']' as nat]; }
  }

  lemma DirectionRead(t: Tables, d: InState, eight: bool, digit: string)
    requires t.Ok() && RT.Quiet(d) && TokenOk(t, d, Direction(eight, digit))
    ensures Run(RT.D(t), d, Spelled(Direction(eight, digit))) == (d.(r2l := digit == "2"), [])
  {
    assert digit == "" || |digit| == 1;
    SpelledDirection(eight, digit);
    hide Run, In, RT.D, RT.Quiet, Spelled, BytesOk;
    RT.DirectionRead(t, d);
    OneRead(t, d);
    var s, d1 := if eight then [0x9B] else [ESC] + ['[' as nat], RT.Reading(d, CC_ESC_5_11);
    if eight {
      RunOne(RT.D(t), d, 0x9B);
    } else {
      Begin(t, d);
      Then(t, d, [ESC], RT.Reading(d, CC_ESC), '[' as nat);
    }
    if digit == "" {
      Then(t, d, s, d1, ']' as nat);
    } else {
      var c := digit[0] as nat;
      Then(t, d, s, d1, c);
      Then(t, d, s + [c], RT.Reading(d, CC_ESC_5_11_0 + (c - '0' as nat)), ']' as nat);
    }
  }

  lemma CompositionRead(t: Tables, d: InState, begin: bool)
    requires t.Ok() && RT.Quiet(d)
    ensures Run(RT.D(t), d, Spelled(Composition(begin))) == (d.(cmp := begin), if begin then [LCCMP] else [])
  {
    RT.EndRead(t, d);
    assert Codes("0") == ['0' as nat] && Codes("1") == ['1' as nat];
    assert [ESC] + ['0' as nat] == [ESC, '0' as nat] && [ESC] + ['1' as nat] == [ESC, '1' as nat];
  }

  lemma ControlRead(t: Tables, d: InState, c: nat)
    requires t.Ok() && RT.Quiet(d) && ControlOk(d, c)
    ensures Run(RT.D(t), d, [c]) == (d, [c])
  {
    RunOne(RT.D(t), d, c);
    var none: seq<nat> := [];
    assert Drain(0) == [] && none + none == none && none + [c] == [c] && Ok(d);
    hide Run, GraphicStep, EscapeStep;
  }

  /** The state after the announcement of one character. */
  function Announced(d: InState, single: nat): InState { d.(ss2 := single == 2, ss3 := single == 3) }

  lemma LettersRead(t: Tables, d: InState)
    requires t.Ok() && RT.Quiet(d)
    ensures d.g2 != LCINV ==> RT.D(t)(RT.Reading(d, CC_ESC), 'N' as nat) == (d.(ss2 := true), [])
    ensures d.g3 != LCINV ==> RT.D(t)(RT.Reading(d, CC_ESC), 'O' as nat) == (d.(ss3 := true), [])
  {
    assert Ok(RT.Reading(d, CC_ESC));
    hide GraphicStep, ControlStep;
  }

  lemma SingleShiftRead(t: Tables, d: InState, single: nat, seven: bool)
    requires t.Ok() && RT.Quiet(d) && (single == 2 ==> d.g2 != LCINV) && (single == 3 ==> d.g3 != LCINV)
    ensures Run(RT.D(t), d, SingleShift(single, seven)) == (Announced(d, single), [])
  {
    assert Codes("N") == ['N' as nat] && Codes("O") == ['O' as nat];
    assert !d.ss2 && !d.ss3;
    RunNothing(RT.D(t), d, []);
    hide Run, In, RT.D;
    LettersRead(t, d);
    Begin(t, d);
    if single == 2 {
      if seven { Then(t, d, [ESC], RT.Reading(d, CC_ESC), 'N' as nat); } else { RT.Ss2Read(t, d, false); }
    } else if single == 3 {
      if seven { Then(t, d, [ESC], RT.Reading(d, CC_ESC), 'O' as nat); } else { RT.Ss3Read(t, d); }
    }
  }

  /** The set the byte is found in. */
  lemma Found(t: Tables, d: InState, single: nat, lc: nat, c: nat)
    requires t.Ok() && RT.Quiet(d) && single <= 3 && lc < 256 && lc != LCINV && t.r2l[lc] == d.r2l
      && InSet(t, d, single, lc, c)
    ensures var d1 := Announced(d, single);
      && BytesOk(d1) && c < 256 && CharSet(t, d1, c) == lc && !ControlP(c) && c != 0
      && RT.Quiet(d1.(ss2 := false, ss3 := false)) && RT.Quiet(d1.(ss2 := false, ss3 := false, ch := 0))
      && d1.ch == 0 && d1.cmp == d.cmp && d1.(ss2 := false, ss3 := false) == d
      && d1.(ss2 := false, ss3 := false, ch := 0) == d
  {
  }

  lemma OneByteSetRead(t: Tables, d: InState, lc: nat, c: nat)
    requires t.Ok() && BytesOk(d) && RT.Quiet(d.(ss2 := false, ss3 := false)) && d.ch == 0
    requires c < 256 && lc < 256 && CharSet(t, d, c) == lc && !ControlP(c) && t.bytes[lc] == 1
    ensures RT.D(t)(d, c) == (d.(ss2 := false, ss3 := false), if d.cmp then [0xA0, High(c)] else [c % 128])
  {
    assert Drain(0) == [] && Ok(d);
    var text := if d.cmp then [0xA0, High(c)] else [c % 128];
    assert CharOut(t, d.cmp, lc, 0, c) == (0, [] + text) && [] + text == text;
    hide CharSet, CharOut, EscapeStep, ControlStep;
  }

  lemma HighsOf(p: seq<nat>)
    ensures |p| == 1 ==> p == [p[0]] && Highs(p) == [High(p[0])]
    ensures |p| == 2 ==> p == [p[0], p[1]] && Highs(p) == [High(p[0]), High(p[1])]
  {
  }

  lemma PayloadRead(t: Tables, d: InState, single: nat, p: seq<nat>)
    requires t.Ok() && RT.Quiet(d) && CharacterOk(t, d, single, p)
    ensures Run(RT.D(t), Announced(d, single), p) == (d, Shown(t, Invoked(d, single, p[0]), d.cmp, p))
  {
    var lc, d1 := Invoked(d, single, p[0]), Announced(d, single);
    assert lc < 256 && Has(t, lc, |p|) && 1 <= |p| <= 2 && (|p| == 2 ==> RT.Multibyte(t, lc));
    assert InSet(t, d, single, lc, p[0]) && (|p| == 2 ==> InSet(t, d, single, lc, p[1]));
    assert t.bytes[lc] == 1 ==> !RT.Multibyte(t, lc);
    hide Run, In, RT.D, InSet, CharacterOk, RT.Quiet, CharSet, Announced, Invoked, RT.Multibyte, RT.PayloadLength,
         BytesOk;
    Found(t, d, single, lc, p[0]);
    HighsOf(p);
    if |p| == 1 {
      RunOne(RT.D(t), d1, p[0]);
      if t.bytes[lc] == 1 { OneByteSetRead(t, d1, lc, p[0]); } else { RT.PayloadIn(t, d1, lc, p[0]); }
    } else {
      Found(t, d, single, lc, p[1]);
      RT.TwoBytesIn(t, d1, lc, p[0], p[1]);
    }
  }

  lemma CharacterMeans(t: Tables, d: InState, single: nat, seven: bool, p: seq<nat>)
    requires t.Ok() && RT.Quiet(d) && CharacterOk(t, d, single, p)
    ensures (single == 2 ==> d.g2 != LCINV) && (single == 3 ==> d.g3 != LCINV) && p != [] && BytesOk(d)
    ensures Invoked(d, single, p[0]) < 256 && Spelled(Character(single, seven, p)) == SingleShift(single, seven) + p
  {
  }

  lemma CharacterRead(t: Tables, d: InState, single: nat, seven: bool, p: seq<nat>)
    requires t.Ok() && RT.Quiet(d) && CharacterOk(t, d, single, p)
    ensures Run(RT.D(t), d, Spelled(Character(single, seven, p))) == (d, Shown(t, Invoked(d, single, p[0]), d.cmp, p))
  {
    CharacterMeans(t, d, single, seven, p);
    hide *;
    SingleShiftRead(t, d, single, seven);
    PayloadRead(t, d, single, p);
    RT.LoudRun(RT.D(t), d, SingleShift(single, seven), Announced(d, single), p);
  }

  lemma MeaningQuiet(t: Tables, d: InState, k: Token)
    requires t.Ok() && RT.Quiet(d) && TokenOk(t, d, k)
    ensures RT.Quiet(Meaning(t, d, k).0)
  {
    hide Shown, CharacterOk;
  }

  /** Each token is read as what it means. */
  lemma TokenRead(t: Tables, d: InState, k: Token)
    requires t.Ok() && RT.Quiet(d) && TokenOk(t, d, k)
    ensures Run(RT.D(t), d, Spelled(k)) == Meaning(t, d, k) && RT.Quiet(Meaning(t, d, k).0)
  {
    MeaningQuiet(t, d, k);
    hide Run, RT.D, RT.Quiet, CharacterOk, Shown, ControlOk;
    match k {
      case Designation(multi, of96, g, final) => DesignationRead(t, d, multi, of96, g, final);
      case ShortDesignation(final) => ShortRead(t, d, final);
      case Shift(out) => ShiftRead(t, d, out);
      case Direction(eight, digit) => DirectionRead(t, d, eight, digit);
      case Composition(begin) => CompositionRead(t, d, begin);
      case Control(c) => ControlRead(t, d, c);
      case Character(single, seven, p) => CharacterRead(t, d, single, seven, p);
    }
  }

  // ---- streams ----

  function SpelledAll(ks: seq<Token>): seq<nat> { if ks == [] then [] else Spelled(ks[0]) + SpelledAll(ks[1..]) }

  predicate StreamOk(t: Tables, d: InState, ks: seq<Token>)
    requires t.Ok() && BytesOk(d)
    decreases |ks|
  {
    ks == []
    || (TokenOk(t, d, ks[0]) && BytesOk(Meaning(t, d, ks[0]).0) && StreamOk(t, Meaning(t, d, ks[0]).0, ks[1..]))
  }

  /** What a whole stream means. */
  function MeaningAll(t: Tables, d: InState, ks: seq<Token>): (InState, seq<nat>)
    requires t.Ok() && BytesOk(d) && StreamOk(t, d, ks)
    decreases |ks|
  {
    if ks == [] then (d, [])
    else
      var (d1, out) := Meaning(t, d, ks[0]);
      var (d2, more) := MeaningAll(t, d1, ks[1..]);
      (d2, out + more)
  }

  /** i2g gives every stream of designations, shifts, directions, compositions, control characters and complete
      characters its meaning. */
  lemma {:induction false} StreamRead(t: Tables, d: InState, ks: seq<Token>)
    requires t.Ok() && RT.Quiet(d) && StreamOk(t, d, ks)
    ensures Run(RT.D(t), d, SpelledAll(ks)) == MeaningAll(t, d, ks)
    decreases |ks|
  {
    assert BytesOk(d);
    hide Run, RT.D, RT.Quiet, TokenOk, Meaning, Spelled;
    if ks == [] {
      RunNothing(RT.D(t), d, []);
    } else {
      TokenRead(t, d, ks[0]);
      StreamRead(t, Meaning(t, d, ks[0]).0, ks[1..]);
      RunAppend(RT.D(t), d, Spelled(ks[0]), SpelledAll(ks[1..]));
    }
  }

  // ---- what g2i writes ----

  /** A designation is the token that names the set by its type and final byte.  The short form is for three sets in
      G0. */
  lemma SequenceSpelled(conf: O.Conf, lc: nat, g: nat)
    requires conf.t.Ok() && lc < 256 && conf.t.kind[lc] <= 3 && g < 4
    ensures var k, final := conf.t.kind[lc], conf.t.final[lc];
      O.Sequence(conf, lc, g)
        == if k == TYPE94N && g == 0 && conf.form.short && (lc == LCJP || lc == LCJPOLD || lc == LCCN)
           then Spelled(ShortDesignation(final))
           else Spelled(Designation(k == TYPE94N || k == TYPE96N, k == TYPE96 || k == TYPE96N, g, final))
  {
    var k, final := conf.t.kind[lc], conf.t.final[lc];
    var i: nat := 0x28 + (if k == TYPE96 || k == TYPE96N then 4 else 0) + g;
    assert Codes("$") == ['$' as nat];
    SpelledDesignation(k == TYPE94N || k == TYPE96N, k == TYPE96 || k == TYPE96N, g, final);
    assert ['$' as nat] + [] == ['$' as nat];
    assert [ESC] + (['$' as nat] + [i]) + [final] == [ESC] + ['$' as nat] + [i] + [final];
    assert [ESC] + ['$' as nat, i] + [final] == [ESC] + ['$' as nat] + [i] + [final];
  }

  /** Directions and composite characters, likewise. */
  lemma SignsSpelled(form: Form, st: O.OutState)
    ensures O.RevertDirection(form) == Spelled(Direction(!form.seven, if form.seven then "0" else ""))
    ensures O.StartRightToLeft(form) == Spelled(Direction(!form.seven, "2"))
    ensures O.EndComposite(st) == if st.comp == O.CMP_NONE then [] else Spelled(Composition(false))
    ensures O.ShiftIn(st) == if st.shift then Spelled(Shift(false)) else []
  {
    SpelledDirection(!form.seven, "0");
    SpelledDirection(!form.seven, "2");
    assert Codes("1") == ['1' as nat] && [ESC] + ['1' as nat] == [ESC, '1' as nat];
  }
}
