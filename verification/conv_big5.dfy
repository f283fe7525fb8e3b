// b2g and g2b: Big5.

module Big5Conversion {
  import opened Conversion
  import opened TextFiles
  import opened TwoByteCodes

  const ROW: int := 157                 // trailing bytes: 0x40 .. 0x7E and 0xA1 .. 0xFE
  const COL: int := 94
  const TWO32: int := 0x1_0000_0000

  /** Arithmetic on unsigned int. */
  function U32(x: int): nat { x % TWO32 }

  /** What G2B adds, and B2G takes away, for the characters of the second level. */
  function Level2(eten: bool): nat { if eten then 157 * 40 else 157 * 37 + 63 }

  predicate Level1P(b1: nat, b2: nat) { b1 < 0xC6 || (b1 == 0xC6 && b2 < 0x7F) }

  /** B2G: leading byte and two bytes for a Big5 pair. */
  function B2G(eten: bool, b1: nat, b2: nat): (nat, nat, nat) {
    var i := U32((b1 - 0xA1) * ROW + b2 - (if b2 < 0x7F then 0x40 else 0x62));
    var j := if Level1P(b1, b2) then i else U32(i - Level2(eten));
    (if Level1P(b1, b2) then LCBIG5_1 else LCBIG5_2, Low8(j / COL + 0xA1), Low8(j % COL + 0xA1))
  }

  function G2B(eten: bool, lc: nat, g1: nat, g2: nat): (nat, nat) {
    var i := U32((g1 - 0xA1) * COL + (g2 - 0xA1));
    var j := if lc == LCBIG5_2 then U32(i + Level2(eten)) else i;
    var b2 := j % ROW;
    (Low8(j / ROW + 0xA1), Low8(b2 + (if b2 < 0x3F then 0x40 else 0x62)))
  }

  /** A Big5 pair; with the ETEN layout the second level starts at 0xC9. */
  predicate Pair(eten: bool, b1: nat, b2: nat) {
    && 0xA1 <= b1 <= 0xFE && (0x40 <= b2 < 0x7F || 0xA1 <= b2 <= 0xFE)
    && (eten ==> Level1P(b1, b2) || b1 >= 0xC9)
  }

  function Column(b2: nat): int { b2 - (if b2 < 0x7F then 0x40 else 0x62) }

  lemma Small(x: int)
    ensures 0 <= x < TWO32 ==> U32(x) == x
    ensures 0 <= x < 256 ==> Low8(x) == x
  {
  }

  lemma Divided(q: int, r: int)
    requires 0 <= r < ROW
    ensures (q * ROW + r) / ROW == q && (q * ROW + r) % ROW == r
  {
  }

  /** The number of a character in its level. */
  function Index(eten: bool, b1: nat, b2: nat): int {
    (b1 - 0xA1) * ROW + Column(b2) - (if Level1P(b1, b2) then 0 else Level2(eten))
  }

  lemma B2GIs(eten: bool, b1: nat, b2: nat)
    requires Pair(eten, b1, b2)
    ensures var i := Index(eten, b1, b2);
      && 0 <= i < 94 * 95
      && B2G(eten, b1, b2) == (if Level1P(b1, b2) then LCBIG5_1 else LCBIG5_2, i / COL + 0xA1, i % COL + 0xA1)
  {
    var i := (b1 - 0xA1) * ROW + Column(b2);
    Small(i);
    Small(i - Level2(eten));
    var j := Index(eten, b1, b2);
    Small(j / COL + 0xA1);
    Small(j % COL + 0xA1);
  }

  lemma G2BIs(eten: bool, lc: nat, i: int, b1: nat, b2: nat)
    requires Pair(eten, b1, b2) && 0 <= i < 94 * 95
    requires lc == if Level1P(b1, b2) then LCBIG5_1 else LCBIG5_2
    requires i == Index(eten, b1, b2)
    ensures G2B(eten, lc, i / COL + 0xA1, i % COL + 0xA1) == (b1, b2)
  {
    assert (i / COL) * COL + i % COL == i;
    Small(i);
    var j := (b1 - 0xA1) * ROW + Column(b2);
    Small(i + Level2(eten));
    Divided(b1 - 0xA1, Column(b2));
    Small(b1);
    Small(b2);
  }

  /** On the pairs of Big5 the two macros are inverse, and what lies between is not mistaken for ASCII or a
      leading byte. */
  lemma PairsAgree(eten: bool, b1: nat, b2: nat)
    requires Pair(eten, b1, b2)
    ensures var (lc, g1, g2) := B2G(eten, b1, b2);
      && (lc == LCBIG5_1 || lc == LCBIG5_2) && 0xA1 <= g1 < 256 && 0xA1 <= g2 < 256
      && G2B(eten, lc, g1, g2) == (b1, b2)
  {
    B2GIs(eten, b1, b2);
    G2BIs(eten, if Level1P(b1, b2) then LCBIG5_1 else LCBIG5_2, Index(eten, b1, b2), b1, b2);
  }

  /** Between 0xC6A1 and 0xC8FE the ETEN offset makes the index wrap around, and another character comes back. */
  lemma EtenGap(b1: nat, b2: nat)
    requires 0xC6 <= b1 <= 0xC8 && (0x40 <= b2 < 0x7F || 0xA1 <= b2 <= 0xFE) && !Level1P(b1, b2)
    ensures var (lc, g1, g2) := B2G(true, b1, b2); G2B(true, lc, g1, g2).0 > b1
  {
    var k := 6280 - ((b1 - 0xA1) * ROW + Column(b2));
    assert 1 <= k <= 408;
    Small((b1 - 0xA1) * ROW + Column(b2));
    assert U32(-k) == TWO32 - k;
    var j := TWO32 - k;
    var q := j / COL;
    assert 45691136 <= q <= 45691141;
    assert Low8(q + 0xA1) == q - 45691136 + 0xA1;
    var r := j % COL;
    Small(r + 0xA1);
    var i := (q - 45691136) * COL + r;
    Small(i);
    Small(i + 6280);
    assert (i + 6280) / ROW >= 40;
    Small((i + 6280) / ROW + 0xA1);
  }

  /** Reading and writing a pair agree exactly outside that gap. */
  lemma PairsAgreeWhen(eten: bool, b1: nat, b2: nat)
    requires 0xA1 <= b1 <= 0xFE && (0x40 <= b2 < 0x7F || 0xA1 <= b2 <= 0xFE)
    ensures var (lc, g1, g2) := B2G(eten, b1, b2); G2B(eten, lc, g1, g2) == (b1, b2) <==> Pair(eten, b1, b2)
  {
    if Pair(eten, b1, b2) { PairsAgree(eten, b1, b2); } else { EtenGap(b1, b2); }
  }

  // ---- b2g ----

  function InStep(eol: Eol, eten: bool, st: Pend, c: nat): (Pend, seq<nat>) {
    if st.ch != 0 then
      var (lc, g1, g2) := B2G(eten, st.ch, c);
      (st.(ch := 0), [lc, g1, g2])
    else if c == CR then
      if eol.EolCr? then (st, [LF])
      else if !eol.EolCrLf? || st.cr then (st, [c])
      else (st.(cr := true), [])
    else
      var held := if st.cr && c != LF then [CR] else [];
      if c > 0xA0 then (Pend(false, c), held) else (Pend(false, 0), held + [c])
  }

  function In(eol: Eol, eten: bool): (Pend, nat) -> (Pend, seq<nat>) { (st, c) => InStep(eol, eten, st, c) }

  lemma InIs(eol: Eol, eten: bool, st: Pend, c: nat)
    ensures In(eol, eten)(st, c) == InStep(eol, eten, st, c)
  {
  }

  /** One round of the loop of b2g. */
  method InByte(eol: Eol, eten: bool, cr0: bool, ch0: nat, c: nat, dst: array<nat>, dp0: nat)
    returns (cr: bool, ch: nat, dp: nat)
    requires dp0 + 3 <= dst.Length
    modifies dst
    ensures dp0 <= dp <= dp0 + 3
    ensures var (st, out) := InStep(eol, eten, Pend(cr0, ch0), c);
      st == Pend(cr, ch) && dst[..dp] == old(dst[..dp0]) + out
  {
    cr, ch, dp := cr0, ch0, dp0;
    if ch != 0 {
      var (lc, g1, g2) := B2G(eten, ch, c);
      dst[dp], dst[dp + 1], dst[dp + 2] := lc, g1, g2;
      dp := dp + 3;
      ch := 0;
    } else if c == CR {
      if eol.EolCr? {
        dst[dp] := LF;
        dp := dp + 1;
      } else if !eol.EolCrLf? || cr {
        dst[dp] := c;
        dp := dp + 1;
      } else {
        cr := true;
      }
    } else {
      if cr {
        if c != LF {
          dst[dp] := CR;
          dp := dp + 1;
        }
        cr := false;
      }
      if c > 0xA0 {
        ch := c;
      } else {
        dst[dp] := c;
        dp := dp + 1;
      }
    }
  }

  method Convert(eol: Eol, eten: bool, cr0: bool, ch0: nat, src: seq<nat>, dst: array<nat>)
    returns (cr: bool, ch: nat, dp: nat)
    requires dst.Length >= 3 * |src|
    modifies dst
    ensures dp <= 3 * |src| && (Pend(cr, ch), dst[..dp]) == Run(In(eol, eten), Pend(cr0, ch0), src)
  {
    hide Run, InStep, In;
    cr, ch, dp := cr0, ch0, 0;
    var i := 0;
    ghost var step, st0 := In(eol, eten), Pend(cr, ch);
    RunNothing(step, st0, src);
    while i < |src|
      invariant 0 <= i <= |src| && 0 <= dp <= 3 * i
      invariant Run(step, st0, src[..i]) == (Pend(cr, ch), dst[..dp])
    {
      RunSnoc(step, st0, src, i);
      InIs(eol, eten, Pend(cr, ch), src[i]);
      cr, ch, dp := InByte(eol, eten, cr, ch, src[i], dst, dp);
      i := i + 1;
    }
    assert src[..i] == src;
  }

  method B2GAll(src: seq<nat>, dst: array<nat>, code: CodingType) returns (len: nat)
    requires dst.Length >= ConvBufSize(|src|)
    modifies dst, code`cntl, code`ch
    ensures len <= 3 * |src| + 1 && len <= dst.Length
    ensures var step, st := In(code.form.eol, code.form.low), Pend(old(code.cntl.cr), old(code.ch));
      && dst[..len] == Output(step, Flush(), st, src, code.cntl.end)
      && (!code.cntl.end ==> Run(step, st, src).0 == Pend(code.cntl.cr, code.ch))
    ensures code.cntl == old(code.cntl).(cr := code.cntl.cr)
  {
    hide Run, Flush, In, InStep;
    var cr, ch, dp := Convert(code.form.eol, code.form.low, code.cntl.cr, code.ch, src, dst);
    len := Finish(code, cr, ch, dst, dp);
  }

  // ---- g2b ----

  function OutStep(eol: Eol, eten: bool, selective: bool, ch: nat, c0: nat): (nat, seq<nat>) {
    var c := if selective && c0 == CR then LF else c0;
    if c == LF then (0, (if !eol.EolLf? then [CR] else []) + (if !eol.EolCr? then [c] else []))
    else if AsciiP(c) then (0, [c])
    else if LcP(c) then (if c == LCBIG5_1 || c == LCBIG5_2 then c else 0, [])
    else if ch == 0 then (0, [])
    else if ch == LCBIG5_1 || ch == LCBIG5_2 then (ch * 256 + c, [])
    else var (b1, b2) := G2B(eten, Low8(ch / 256), ch % 256, c); (0, [b1, b2])
  }

  function Out(eol: Eol, eten: bool, selective: bool): (nat, nat) -> (nat, seq<nat>) {
    (ch, c) => OutStep(eol, eten, selective, ch, c)
  }

  /** One round of the loop of g2b. */
  method OutByte(eol: Eol, eten: bool, selective: bool, ch0: nat, c0: nat, dst: array<nat>, dp0: nat)
    returns (ch: nat, dp: nat)
    requires dp0 + 2 <= dst.Length
    modifies dst
    ensures dp0 <= dp <= dp0 + 2
    ensures var (st, out) := OutStep(eol, eten, selective, ch0, c0); st == ch && dst[..dp] == old(dst[..dp0]) + out
  {
    ch, dp := ch0, dp0;
    var c := c0;
    if selective && c == CR { c := LF; }
    if c == LF {
      if !eol.EolLf? {
        dst[dp] := CR;
        dp := dp + 1;
      }
      if !eol.EolCr? {
        dst[dp] := c;
        dp := dp + 1;
      }
      ch := 0;
    } else if AsciiP(c) {
      dst[dp] := c;
      dp := dp + 1;
      ch := 0;
    } else if LcP(c) {
      ch := if c == LCBIG5_1 || c == LCBIG5_2 then c else 0;
    } else if ch != 0 {
      if ch == LCBIG5_1 || ch == LCBIG5_2 {
        ch := ch * 256 + c;
      } else {
        var c1 := Low8(ch / 256);
        ch := ch % 256;
        var (b1, b2) := G2B(eten, c1, ch, c);
        dst[dp], dst[dp + 1] := b1, b2;
        dp := dp + 2;
        ch := 0;
      }
    }
  }

  method G2BAll(src: seq<nat>, dst: array<nat>, code: CodingType) returns (len: nat)
    requires dst.Length >= ConvBufSize(|src|)
    modifies dst, code`ch
    ensures len <= 2 * |src| && len <= dst.Length
    ensures var step := Out(code.form.eol, code.form.low, code.cntl.selective);
      && dst[..len] == Output(step, NoFlush(), old(code.ch), src, code.cntl.end)
      && Run(step, old(code.ch), src).0 == code.ch
  {
    hide Run, OutStep;
    var eol, eten, selective := code.form.eol, code.form.low, code.cntl.selective;
    var dp, ch, i := 0, code.ch, 0;
    ghost var step, ch0 := Out(eol, eten, selective), ch;
    RunNothing(step, ch0, src);
    while i < |src|
      invariant 0 <= i <= |src| && 0 <= dp <= 2 * i
      invariant Run(step, ch0, src[..i]) == (ch, dst[..dp])
      modifies dst
    {
      RunSnoc(step, ch0, src, i);
      ch, dp := OutByte(eol, eten, selective, ch, src[i], dst, dp);
      i := i + 1;
    }
    assert src[..i] == src;
    code.ch := ch;
    assert dst[..dp] + [] == dst[..dp];
    return dp;
  }

  // ---- the round trip ----

  /** Text a Big5 file with these line ends can hold. */
  predicate Valid(eol: Eol, eten: bool, afterCr: bool, s: seq<nat>)
    decreases |s|
  {
    if s == [] then true
    else if s[0] < 0x80 then
      (s[0] == LF ==> eol.EolLf? || (eol.EolCrLf? && afterCr)) && Valid(eol, eten, s[0] == CR, s[1..])
    else |s| > 1 && Pair(eten, s[0], s[1]) && Valid(eol, eten, false, s[2..])
  }

  lemma AsciiKept(eol: Eol, eten: bool)
    ensures KeepsAscii(eol, In(eol, eten), Out(eol, eten, false))
  {
    forall cr, c | c < 0x80
      ensures In(eol, eten)(Pend(cr, 0), c) == AsciiIn(eol, cr, c)
        && Out(eol, eten, false)(0, c) == (0, AsciiOut(eol, c))
    {
      OneAscii(eol, eten, cr, c);
    }
  }

  lemma OneAscii(eol: Eol, eten: bool, cr: bool, c: nat)
    requires c < 0x80
    ensures In(eol, eten)(Pend(cr, 0), c) == AsciiIn(eol, cr, c)
    ensures Out(eol, eten, false)(0, c) == (0, AsciiOut(eol, c))
  {
    hide B2G, G2B;
  }

  lemma PairBack(eol: Eol, eten: bool, cr: bool, b1: nat, b2: nat)
    requires Pair(eten, b1, b2)
    ensures var (st, mid) := Run(In(eol, eten), Pend(cr, 0), [b1, b2]);
      st == Pend(false, 0) && Run(Out(eol, eten, false), 0, mid) == (0, Held(cr) + [b1, b2])
  {
    var (lc, g1, g2) := B2G(eten, b1, b2);
    PairsAgree(eten, b1, b2);
    hide B2G, G2B, Run;
    ThreeOut(Out(eol, eten, false), lc, g1, g2, lc * 256 + g1, [b1, b2]);
    PairUnit(In(eol, eten), Out(eol, eten, false), cr, b1, b2, [lc, g1, g2]);
  }

  /** g2b undoes b2g on every text Big5 can hold, whatever its length. */
  lemma {:induction false} ReadBack(eol: Eol, eten: bool, cr: bool, s: seq<nat>)
    requires Fixed(eol) && (cr ==> eol.EolCrLf?) && Valid(eol, eten, cr, s)
    ensures Back(In(eol, eten), Out(eol, eten, false), cr, s) == Held(cr) + s
    decreases |s|
  {
    var inp, out := In(eol, eten), Out(eol, eten, false);
    AsciiKept(eol, eten);
    hide Back, Run, In, Out, KeepsAscii, Held;
    if s == [] {
      NothingBack(eol, inp, out, cr);
    } else if s[0] < 0x80 {
      ValidAfter(eol, eten, s[0] == CR, s[1..]);
      ReadBack(eol, eten, eol.EolCrLf? && s[0] == CR, s[1..]);
      AsciiBack(eol, inp, out, cr, s[0], s[1..]);
      assert s == [s[0]] + s[1..];
    } else {
      PairBack(eol, eten, cr, s[0], s[1]);
      ReadBack(eol, eten, false, s[2..]);
      CharBack(inp, out, cr, [s[0], s[1]], s[2..]);
      assert s == [s[0], s[1]] + s[2..];
    }
  }

  /** Only under CR LF does it matter what came before. */
  lemma ValidAfter(eol: Eol, eten: bool, afterCr: bool, s: seq<nat>)
    requires Valid(eol, eten, afterCr, s)
    ensures Valid(eol, eten, eol.EolCrLf? && afterCr, s)
  {
  }

  lemma RoundTrip(eol: Eol, eten: bool, s: seq<nat>)
    requires Fixed(eol) && Valid(eol, eten, false, s)
    ensures Output(Out(eol, eten, false), NoFlush(), 0, Output(In(eol, eten), Flush(), Pend(false, 0), s, true), true)
      == s
  {
    ReadBack(eol, eten, false, s);
    assert Back(In(eol, eten), Out(eol, eten, false), false, s) + [] == s;
  }

  // ---- which characters the bytes are ----

  /** The characters of Big5, those of each level numbered from 0. */
  datatype Big5Char = NewLine | Ascii(c: nat) | First(n: nat) | Second(n: nat)
  {
    predicate Ok(eol: Eol, eten: bool) {
      match this
      case NewLine => true
      case Ascii(c) => PlainOk(eol, c)
      case First(n) => n < FIRST_LEVEL
      case Second(n) => n + SecondAt(eten) < 94 * 157
    }
  }

  /** The first level ends with 0xC67E: 37 leading bytes of 157 characters, and 63 more. */
  const FIRST_LEVEL: nat := 5872

  /** The second level begins behind it, or, in the ETEN layout, with 0xC940, the forty-first leading byte. */
  function SecondAt(eten: bool): nat { if eten then 6280 else FIRST_LEVEL }

  /** The bytes of the i-th pair.  The trailing bytes leave out 0x7F to 0xA0. */
  function FileBytes(i: nat): seq<nat> {
    var k := i % 157;
    [0xA1 + i / 157, if k < 63 then 0x40 + k else 0x62 + k]
  }

  function ItemOf(eten: bool, c: Big5Char): Item {
    match c
    case NewLine => Line
    case Ascii(a) => Plain(a)
    case First(n) => Char(FileBytes(n), [LCBIG5_1, 0xA1 + n / 94, 0xA1 + n % 94])
    case Second(n) => Char(FileBytes(n + SecondAt(eten)), [LCBIG5_2, 0xA1 + n / 94, 0xA1 + n % 94])
  }

  function Items(eten: bool, chars: seq<Big5Char>): seq<Item> {
    seq(|chars|, i requires 0 <= i < |chars| => ItemOf(eten, chars[i]))
  }

  /** The pair with this number, and the level it is in. */
  lemma NumberedPair(eten: bool, i: nat)
    requires i < FIRST_LEVEL || SecondAt(eten) <= i < 94 * 157
    ensures var b := FileBytes(i);
      && Pair(eten, b[0], b[1]) && (Level1P(b[0], b[1]) <==> i < FIRST_LEVEL)
      && Index(eten, b[0], b[1]) == if i < FIRST_LEVEL then i else i - SecondAt(eten)
  {
    var q, k := i / 157, i % 157;
    assert i == 157 * q + k && q < 94;
  }

  lemma HanziExchanged(eol: Eol, eten: bool, i: nat)
    requires i < FIRST_LEVEL || SecondAt(eten) <= i < 94 * 157
    ensures var n := if i < FIRST_LEVEL then i else i - SecondAt(eten);
      var lc := if i < FIRST_LEVEL then LCBIG5_1 else LCBIG5_2;
      Exchanged(In(eol, eten), Out(eol, eten, false), FileBytes(i), [lc, 0xA1 + n / 94, 0xA1 + n % 94])
  {
    var n := if i < FIRST_LEVEL then i else i - SecondAt(eten);
    var lc := if i < FIRST_LEVEL then LCBIG5_1 else LCBIG5_2;
    var b1, b2 := FileBytes(i)[0], FileBytes(i)[1];
    NumberedPair(eten, i);
    B2GIs(eten, b1, b2);
    G2BIs(eten, lc, n, b1, b2);
    assert FileBytes(i) == [b1, b2];
    hide *;
    PairExchanged(eol, eten, b1, b2, lc, 0xA1 + n / 94, 0xA1 + n % 94);
  }

  lemma PairExchanged(eol: Eol, eten: bool, b1: nat, b2: nat, lc: nat, g1: nat, g2: nat)
    requires b1 > 0xA0 && (lc == LCBIG5_1 || lc == LCBIG5_2) && 0xA1 <= g1 < 256 && 0xA1 <= g2 < 256
    requires B2G(eten, b1, b2) == (lc, g1, g2) && G2B(eten, lc, g1, g2) == (b1, b2)
    ensures Exchanged(In(eol, eten), Out(eol, eten, false), [b1, b2], [lc, g1, g2])
  {
    hide B2G, G2B, Run;
    ThreeOut(Out(eol, eten, false), lc, g1, g2, lc * 256 + g1, [b1, b2]);
    forall cr ensures Run(In(eol, eten), Pend(cr, 0), [b1, b2]) == (Pend(false, 0), Held(cr) + [lc, g1, g2]) {
      assert [b1, b2] == [b1] + [b2];
      RunCons(In(eol, eten), Pend(cr, 0), b1, [b2]);
      RunOne(In(eol, eten), Pend(false, b1), b2);
    }
  }

  /** b2g reads a file as the characters it holds, and g2b writes them as that file. */
  lemma Characters(eol: Eol, eten: bool, chars: seq<Big5Char>)
    requires Fixed(eol) && forall i :: 0 <= i < |chars| ==> chars[i].Ok(eol, eten)
    ensures var file, text := FileText(eol, Items(eten, chars)), BufferText(Items(eten, chars));
      && Output(In(eol, eten), Flush(), Pend(false, 0), file, true) == text
      && Output(Out(eol, eten, false), NoFlush(), 0, text, true) == file
  {
    hide In, Out, Exchanged, Run, Flush, FileBytes;
    var items := Items(eten, chars);
    AsciiKept(eol, eten);
    forall i | 0 <= i < |items| ensures ItemOk(eol, In(eol, eten), Out(eol, eten, false), items[i]) {
      match chars[i] {
        case First(n) => HanziExchanged(eol, eten, n);
        case Second(n) => HanziExchanged(eol, eten, n + SecondAt(eten));
        case _ =>
      }
    }
    hide KeepsAscii, ItemOk, Items;
    Converts(eol, In(eol, eten), Out(eol, eten, false), false, items);
    NothingHeld(BufferText(items));
    assert FileText(eol, items) + [] == FileText(eol, items);
  }

  /** A first byte that ends the input is put out as it is, behind a CR held back. */
  lemma HalfKept(eol: Eol, eten: bool, cr: bool, b1: nat)
    requires 0xA0 < b1 < 0x100
    ensures Output(In(eol, eten), Flush(), Pend(cr, 0), [b1], true) == Held(cr) + [b1]
  {
    hide B2G, Run;
    RunOne(In(eol, eten), Pend(cr, 0), b1);
  }

  /** Where CR stands for a line end in the buffer, g2b writes as if LF stood there. */
  lemma SelectiveOut(eol: Eol, eten: bool, ch: nat, c: nat)
    ensures Out(eol, eten, true)(ch, c) == Out(eol, eten, false)(ch, if c == CR then LF else c)
  {
    hide G2B;
  }

  /** Characters of other sets are left out. */
  lemma OthersLeftOut(eol: Eol, eten: bool, lc: nat, c: nat)
    requires LcP(lc) && lc != LCBIG5_1 && lc != LCBIG5_2 && 0x9F < c
    ensures Out(eol, eten, false)(0, lc) == (0, []) && Out(eol, eten, false)(0, c) == (0, [])
  {
    hide G2B;
  }
}
