// s2g and g2s: Shift-JIS.

module SjisConversion {
  import opened Conversion
  import opened TextFiles
  import opened TwoByteCodes

  /** The first byte of a two-byte character: SJIS_P. */
  predicate SjisP(c: nat) { 0x80 <= c < 0xA0 || c >= 0xE0 }

  /** S2E: a Shift-JIS pair as an EUC pair, each stored into a byte. */
  function S2E(i1: nat, i2: nat): (nat, nat) {
    if i2 >= 0x9F then
      (Low8(if i1 >= 0xE0 then i1 * 2 - 0xE0 else i1 * 2 - 0x60), Low8(i2 + 2))
    else
      (Low8(if i1 >= 0xE0 then i1 * 2 - 0xE1 else i1 * 2 - 0x61), Low8(if i2 >= 0x7F then i2 + 0x60 else i2 + 0x61))
  }

  function E2S(i1: nat, i2: nat): (nat, nat) {
    if i1 % 2 == 1 then
      (Low8(if i1 < 0xDF then i1 / 2 + 0x31 else i1 / 2 + 0x71), Low8(if i2 >= 0xE0 then i2 - 0x60 else i2 - 0x61))
    else
      (Low8(if i1 < 0xDF then i1 / 2 + 0x30 else i1 / 2 + 0x70), Low8(i2 - 2))
  }

  predicate Lead(c: nat) { 0x81 <= c <= 0x9F || 0xE0 <= c <= 0xEF }

  predicate Trail(c: nat) { 0x40 <= c <= 0xFC && c != 0x7F }

  /** On the code points of Shift-JIS the two macros are inverse, and what lies between is not mistaken for
      ASCII or a leading byte. */
  lemma PairsAgree(i1: nat, i2: nat)
    requires Lead(i1) && Trail(i2)
    ensures var (c1, c2) := S2E(i1, i2); 0xA1 <= c1 < 0xFF && 0xA1 <= c2 < 0xFF && E2S(c1, c2) == (i1, i2)
  {
    hide Low8;
    var h := if i1 >= 0xE0 then i1 * 2 - 0xE0 else i1 * 2 - 0x60;
    if i2 >= 0x9F {
      Fits(h);
      Fits(i2 + 2);
      assert h % 2 == 0 && h / 2 == if i1 >= 0xE0 then i1 - 0x70 else i1 - 0x30;
      Fits(i1);
      Fits(i2);
    } else {
      Fits(h - 1);
      assert (h - 1) % 2 == 1 && (h - 1) / 2 == if i1 >= 0xE0 then i1 - 0x71 else i1 - 0x31;
      Fits(if i2 >= 0x7F then i2 + 0x60 else i2 + 0x61);
      Fits(i1);
      Fits(i2);
    }
  }

  lemma Fits(x: int)
    ensures 0 <= x < 256 ==> Low8(x) == x
  {
  }

  // ---- s2g ----

  function InStep(eol: Eol, st: Pend, c: nat): (Pend, seq<nat>) {
    if st.ch != 0 then
      var (c1, c2) := S2E(st.ch, c);
      (st.(ch := 0), [LCJP, c1, c2])
    else if c == CR then
      if eol.EolCr? then (st, [LF])
      else if !eol.EolCrLf? || st.cr then (st, [c])
      else (st.(cr := true), [])
    else
      var held := if st.cr && c != LF then [CR] else [];
      if SjisP(c) then (Pend(false, c), held)
      else (Pend(false, 0), held + (if c >= 0x80 then [LCKANA, c] else [c]))
  }

  function In(eol: Eol): (Pend, nat) -> (Pend, seq<nat>) { (st, c) => InStep(eol, st, c) }

  lemma InIs(eol: Eol, st: Pend, c: nat)
    ensures In(eol)(st, c) == InStep(eol, st, c)
  {
  }

  /** One round of the loop of s2g. */
  method InByte(eol: Eol, cr0: bool, ch0: nat, c: nat, dst: array<nat>, dp0: nat) returns (cr: bool, ch: nat, dp: nat)
    requires dp0 + 3 <= dst.Length
    modifies dst
    ensures dp0 <= dp <= dp0 + 3
    ensures var (st, out) := InStep(eol, Pend(cr0, ch0), c); st == Pend(cr, ch) && dst[..dp] == old(dst[..dp0]) + out
  {
    cr, ch, dp := cr0, ch0, dp0;
    if ch != 0 {
      dst[dp] := LCJP;
      var (c1, c2) := S2E(ch, c);
      dst[dp + 1], dst[dp + 2] := c1, c2;
      dp := dp + 3;
      ch := 0;
    } else if c == CR {
      if eol.EolCr? {
        dst[dp] := LF;
        dp := dp + 1;
      } else if !eol.EolCrLf? || cr {
        dst[dp] := c;
        dp := dp + 1;
      } else {
        cr := true;
      }
    } else {
      if cr {
        if c != LF {
          dst[dp] := CR;
          dp := dp + 1;
        }
        cr := false;
      }
      if SjisP(c) {
        ch := c;
      } else {
        if c >= 0x80 {
          dst[dp] := LCKANA;
          dp := dp + 1;
        }
        dst[dp] := c;
        dp := dp + 1;
      }
    }
  }

  method Convert(eol: Eol, cr0: bool, ch0: nat, src: seq<nat>, dst: array<nat>) returns (cr: bool, ch: nat, dp: nat)
    requires dst.Length >= 3 * |src|
    modifies dst
    ensures dp <= 3 * |src| && (Pend(cr, ch), dst[..dp]) == Run(In(eol), Pend(cr0, ch0), src)
  {
    hide Run, InStep, In;
    cr, ch, dp := cr0, ch0, 0;
    var i := 0;
    ghost var step, st0 := In(eol), Pend(cr, ch);
    RunNothing(step, st0, src);
    while i < |src|
      invariant 0 <= i <= |src| && 0 <= dp <= 3 * i
      invariant Run(step, st0, src[..i]) == (Pend(cr, ch), dst[..dp])
    {
      RunSnoc(step, st0, src, i);
      InIs(eol, Pend(cr, ch), src[i]);
      cr, ch, dp := InByte(eol, cr, ch, src[i], dst, dp);
      i := i + 1;
    }
    assert src[..i] == src;
  }

  method S2G(src: seq<nat>, dst: array<nat>, code: CodingType) returns (len: nat)
    requires dst.Length >= ConvBufSize(|src|)
    modifies dst, code`cntl, code`ch
    ensures len <= 3 * |src| + 1 && len <= dst.Length
    ensures var st := Pend(old(code.cntl.cr), old(code.ch));
      && dst[..len] == Output(In(code.form.eol), Flush(), st, src, code.cntl.end)
      && (!code.cntl.end ==> Run(In(code.form.eol), st, src).0 == Pend(code.cntl.cr, code.ch))
    ensures code.cntl == old(code.cntl).(cr := code.cntl.cr)
  {
    hide Run, Flush, In, InStep;
    var cr, ch, dp := Convert(code.form.eol, code.cntl.cr, code.ch, src, dst);
    len := Finish(code, cr, ch, dst, dp);
  }

  // ---- g2s ----

  function OutStep(eol: Eol, selective: bool, ch: nat, c0: nat): (nat, seq<nat>) {
    var c := if selective && c0 == CR then LF else c0;
    if c == LF then (0, (if !eol.EolLf? then [CR] else []) + (if !eol.EolCr? then [c] else []))
    else if AsciiP(c) then (0, [c])
    else if LcP(c) then (if c == LCKANA || c == LCJPOLD || c == LCJP then c else 0, [])
    else if ch == 0 then (0, [])
    else if ch == LCKANA then (0, [c])
    else if ch == LCJPOLD || ch == LCJP then (c, [])
    else var (c1, c2) := E2S(ch, c); (0, [c1, c2])
  }

  function Out(eol: Eol, selective: bool): (nat, nat) -> (nat, seq<nat>) { (ch, c) => OutStep(eol, selective, ch, c) }

  /** One round of the loop of g2s. */
  method OutByte(eol: Eol, selective: bool, ch0: nat, c0: nat, dst: array<nat>, dp0: nat) returns (ch: nat, dp: nat)
    requires dp0 + 2 <= dst.Length
    modifies dst
    ensures dp0 <= dp <= dp0 + 2
    ensures var (st, out) := OutStep(eol, selective, ch0, c0); st == ch && dst[..dp] == old(dst[..dp0]) + out
  {
    ch, dp := ch0, dp0;
    var c := c0;
    if selective && c == CR { c := LF; }
    if c == LF {
      if !eol.EolLf? {
        dst[dp] := CR;
        dp := dp + 1;
      }
      if !eol.EolCr? {
        dst[dp] := c;
        dp := dp + 1;
      }
      ch := 0;
    } else if AsciiP(c) {
      dst[dp] := c;
      dp := dp + 1;
      ch := 0;
    } else if LcP(c) {
      ch := if c == LCKANA || c == LCJPOLD || c == LCJP then c else 0;
    } else if ch != 0 {
      if ch == LCKANA {
        dst[dp] := c;
        dp := dp + 1;
        ch := 0;
      } else if ch == LCJPOLD || ch == LCJP {
        ch := c;
      } else {
        var (c1, c2) := E2S(ch, c);
        dst[dp], dst[dp + 1] := c1, c2;
        dp := dp + 2;
        ch := 0;
      }
    }
  }

  method G2S(src: seq<nat>, dst: array<nat>, code: CodingType) returns (len: nat)
    requires dst.Length >= ConvBufSize(|src|)
    modifies dst, code`ch
    ensures len <= 2 * |src| && len <= dst.Length
    ensures dst[..len] == Output(Out(code.form.eol, code.cntl.selective), NoFlush(), old(code.ch), src, code.cntl.end)
    ensures Run(Out(code.form.eol, code.cntl.selective), old(code.ch), src).0 == code.ch
  {
    hide Run, OutStep;
    var eol, selective := code.form.eol, code.cntl.selective;
    var dp, ch, i := 0, code.ch, 0;
    ghost var step, ch0 := Out(eol, selective), ch;
    RunNothing(step, ch0, src);
    while i < |src|
      invariant 0 <= i <= |src| && 0 <= dp <= 2 * i
      invariant Run(step, ch0, src[..i]) == (ch, dst[..dp])
      modifies dst
    {
      RunSnoc(step, ch0, src, i);
      ch, dp := OutByte(eol, selective, ch, src[i], dst, dp);
      i := i + 1;
    }
    assert src[..i] == src;
    code.ch := ch;
    assert dst[..dp] + [] == dst[..dp];
    return dp;
  }

  // ---- the round trip ----

  /** Text a Shift-JIS file with these line ends can hold: with CR LF every LF follows a CR, with CR there is
      no LF; bytes above 0x7F are half-width kana or pairs.  `afterCr` tells what came before. */
  predicate Valid(eol: Eol, afterCr: bool, s: seq<nat>)
    decreases |s|
  {
    if s == [] then true
    else if s[0] < 0x80 then
      (s[0] == LF ==> eol.EolLf? || (eol.EolCrLf? && afterCr)) && Valid(eol, s[0] == CR, s[1..])
    else if 0xA0 <= s[0] < 0xE0 then Valid(eol, false, s[1..])
    else Lead(s[0]) && |s| > 1 && Trail(s[1]) && Valid(eol, false, s[2..])
  }

  lemma AsciiKept(eol: Eol)
    ensures KeepsAscii(eol, In(eol), Out(eol, false))
  {
    forall cr, c | c < 0x80
      ensures In(eol)(Pend(cr, 0), c) == AsciiIn(eol, cr, c) && Out(eol, false)(0, c) == (0, AsciiOut(eol, c))
    {
      OneAscii(eol, cr, c);
    }
  }

  lemma OneAscii(eol: Eol, cr: bool, c: nat)
    requires c < 0x80
    ensures In(eol)(Pend(cr, 0), c) == AsciiIn(eol, cr, c) && Out(eol, false)(0, c) == (0, AsciiOut(eol, c))
  {
    hide S2E, E2S;
  }

  lemma KanaUnit(eol: Eol, cr: bool, c: nat)
    requires 0xA0 <= c < 0xE0
    ensures var (st, mid) := Run(In(eol), Pend(cr, 0), [c]);
      st == Pend(false, 0) && Run(Out(eol, false), 0, mid) == (0, Held(cr) + [c])
  {
    hide S2E, E2S;
    assert InStep(eol, Pend(cr, 0), c) == (Pend(false, 0), Held(cr) + [LCKANA, c]);
    assert OutStep(eol, false, 0, LCKANA) == (LCKANA, []) && OutStep(eol, false, LCKANA, c) == (0, [c]);
    hide Run, InStep, OutStep;
    RunOne(In(eol), Pend(cr, 0), c);
    HeldFirst(Out(eol, false), cr, [LCKANA, c]);
    assert [LCKANA, c] == [LCKANA] + [c];
    RunCons(Out(eol, false), 0, LCKANA, [c]);
    RunOne(Out(eol, false), LCKANA, c);
  }

  lemma PairBack(eol: Eol, cr: bool, i1: nat, i2: nat)
    requires Lead(i1) && Trail(i2)
    ensures var (st, mid) := Run(In(eol), Pend(cr, 0), [i1, i2]);
      st == Pend(false, 0) && Run(Out(eol, false), 0, mid) == (0, Held(cr) + [i1, i2])
  {
    var (c1, c2) := S2E(i1, i2);
    PairsAgree(i1, i2);
    hide S2E, E2S, Run;
    ThreeOut(Out(eol, false), LCJP, c1, c2, c1, [i1, i2]);
    PairUnit(In(eol), Out(eol, false), cr, i1, i2, [LCJP, c1, c2]);
  }

  /** g2s undoes s2g on every text Shift-JIS can hold, whatever its length. */
  lemma {:induction false} ReadBack(eol: Eol, cr: bool, s: seq<nat>)
    requires Fixed(eol) && (cr ==> eol.EolCrLf?) && Valid(eol, cr, s)
    ensures Back(In(eol), Out(eol, false), cr, s) == Held(cr) + s
    decreases |s|
  {
    hide Back, Run, In, Out, Held;
    if s == [] {
      AsciiKept(eol);
      NothingBack(eol, In(eol), Out(eol, false), cr);
    } else if s[0] < 0x80 {
      ValidAfter(eol, s[0] == CR, s[1..]);
      ReadBack(eol, eol.EolCrLf? && s[0] == CR, s[1..]);
      AsciiKept(eol);
      AsciiBack(eol, In(eol), Out(eol, false), cr, s[0], s[1..]);
      assert s == [s[0]] + s[1..];
    } else if 0xA0 <= s[0] < 0xE0 {
      ReadBack(eol, false, s[1..]);
      KanaUnit(eol, cr, s[0]);
      CharBack(In(eol), Out(eol, false), cr, [s[0]], s[1..]);
      assert s == [s[0]] + s[1..];
    } else {
      ReadBack(eol, false, s[2..]);
      PairBack(eol, cr, s[0], s[1]);
      CharBack(In(eol), Out(eol, false), cr, [s[0], s[1]], s[2..]);
      assert s == [s[0], s[1]] + s[2..];
    }
  }

  /** Only under CR LF does it matter what came before. */
  lemma ValidAfter(eol: Eol, afterCr: bool, s: seq<nat>)
    requires Valid(eol, afterCr, s)
    ensures Valid(eol, eol.EolCrLf? && afterCr, s)
  {
  }

  lemma RoundTrip(eol: Eol, s: seq<nat>)
    requires Fixed(eol) && Valid(eol, false, s)
    ensures Output(Out(eol, false), NoFlush(), 0, Output(In(eol), Flush(), Pend(false, 0), s, true), true) == s
  {
    ReadBack(eol, false, s);
    assert Back(In(eol), Out(eol, false), false, s) + [] == s;
  }

  // ---- which characters the bytes are ----

  /** The characters of Shift-JIS: ASCII, half-width kana, and row and cell of JIS X 0208, both counted from 0. */
  datatype JisChar = NewLine | Ascii(c: nat) | Kana(c: nat) | Kanji(row: nat, cell: nat)
  {
    predicate Ok(eol: Eol) {
      match this
      case NewLine => true
      case Ascii(c) => PlainOk(eol, c)
      case Kana(c) => 0xA0 <= c < 0xE0
      case Kanji(row, cell) => row < 94 && cell < 94
    }
  }

  /** Two rows share a leading byte.  The leading bytes leave out 0xA0 to 0xDF, the trailing ones 0x7F. */
  function FirstByte(row: nat): nat { if row < 62 then 0x81 + row / 2 else 0xC1 + row / 2 }

  function SecondByte(row: nat, cell: nat): nat {
    var k := row % 2 * 94 + cell;
    if k < 63 then 0x40 + k else 0x41 + k
  }

  function ItemOf(c: JisChar): Item {
    match c
    case NewLine => Line
    case Ascii(a) => Plain(a)
    case Kana(k) => Char([k], [LCKANA, k])
    case Kanji(row, cell) => Char([FirstByte(row), SecondByte(row, cell)], [LCJP, 0xA1 + row, 0xA1 + cell])
  }

  function Items(chars: seq<JisChar>): seq<Item> { seq(|chars|, i requires 0 <= i < |chars| => ItemOf(chars[i])) }

  /** Every pair of Shift-JIS is a character, and only one. */
  lemma PairIs(i1: nat, i2: nat, row: nat, cell: nat)
    requires Lead(i1) && Trail(i2) && row < 94 && cell < 94
    ensures FirstByte(row) == i1 && SecondByte(row, cell) == i2 <==>
      94 * row + cell
      == 188 * (if i1 < 0xE0 then i1 - 0x81 else i1 - 0xC1) + (if i2 < 0x7F then i2 - 0x40 else i2 - 0x41)
  {
  }

  lemma KanjiPair(row: nat, cell: nat)
    requires row < 94 && cell < 94
    ensures Lead(FirstByte(row)) && Trail(SecondByte(row, cell))
    ensures S2E(FirstByte(row), SecondByte(row, cell)) == (0xA1 + row, 0xA1 + cell)
  {
    hide Low8;
    Fits(0xA1 + row);
    Fits(0xA1 + cell);
  }

  lemma KanjiExchanged(eol: Eol, row: nat, cell: nat)
    requires row < 94 && cell < 94
    ensures var b1, b2 := FirstByte(row), SecondByte(row, cell);
      Exchanged(In(eol), Out(eol, false), [b1, b2], [LCJP, 0xA1 + row, 0xA1 + cell])
  {
    var b1, b2, c1, c2 := FirstByte(row), SecondByte(row, cell), 0xA1 + row, 0xA1 + cell;
    KanjiPair(row, cell);
    PairsAgree(b1, b2);
    hide S2E, E2S, Run, FirstByte, SecondByte;
    ThreeOut(Out(eol, false), LCJP, c1, c2, c1, [b1, b2]);
    forall cr ensures Run(In(eol), Pend(cr, 0), [b1, b2]) == (Pend(false, 0), Held(cr) + [LCJP, c1, c2]) {
      assert [b1, b2] == [b1] + [b2];
      RunCons(In(eol), Pend(cr, 0), b1, [b2]);
      RunOne(In(eol), Pend(false, b1), b2);
    }
  }

  lemma KanaExchanged(eol: Eol, c: nat)
    requires 0xA0 <= c < 0xE0
    ensures Exchanged(In(eol), Out(eol, false), [c], [LCKANA, c])
  {
    hide S2E, E2S;
    assert OutStep(eol, false, 0, LCKANA) == (LCKANA, []) && OutStep(eol, false, LCKANA, c) == (0, [c]);
    assert forall cr :: InStep(eol, Pend(cr, 0), c) == (Pend(false, 0), Held(cr) + [LCKANA, c]);
    hide Run, InStep, OutStep;
    assert [LCKANA, c] == [LCKANA] + [c] && [] + [c] == [c];
    RunCons(Out(eol, false), 0, LCKANA, [c]);
    RunOne(Out(eol, false), LCKANA, c);
    forall cr ensures Run(In(eol), Pend(cr, 0), [c]) == (Pend(false, 0), Held(cr) + [LCKANA, c]) {
      RunOne(In(eol), Pend(cr, 0), c);
    }
  }

  /** s2g reads a file as the characters it holds, and g2s writes them as that file. */
  lemma Characters(eol: Eol, chars: seq<JisChar>)
    requires Fixed(eol) && forall i :: 0 <= i < |chars| ==> chars[i].Ok(eol)
    ensures var file, text := FileText(eol, Items(chars)), BufferText(Items(chars));
      && Output(In(eol), Flush(), Pend(false, 0), file, true) == text
      && Output(Out(eol, false), NoFlush(), 0, text, true) == file
  {
    hide In, Out, Exchanged, Run, Flush;
    var items := Items(chars);
    AsciiKept(eol);
    forall i | 0 <= i < |items| ensures ItemOk(eol, In(eol), Out(eol, false), items[i]) {
      match chars[i] {
        case Kana(c) => KanaExchanged(eol, c);
        case Kanji(row, cell) => KanjiExchanged(eol, row, cell);
        case _ =>
      }
    }
    hide KeepsAscii, ItemOk, Items;
    Converts(eol, In(eol), Out(eol, false), false, items);
    NothingHeld(BufferText(items));
    assert FileText(eol, items) + [] == FileText(eol, items);
  }

  /** A first byte that ends the input is put out as it is, behind a CR held back. */
  lemma HalfKept(eol: Eol, cr: bool, b1: nat)
    requires Lead(b1)
    ensures Output(In(eol), Flush(), Pend(cr, 0), [b1], true) == Held(cr) + [b1]
  {
    hide S2E, Run;
    RunOne(In(eol), Pend(cr, 0), b1);
  }

  /** A character marked as JIS C 6226-1978 is written as the same pair. */
  lemma OldKanjiOut(eol: Eol, row: nat, cell: nat)
    requires row < 94 && cell < 94
    ensures Run(Out(eol, false), 0, [LCJPOLD, 0xA1 + row, 0xA1 + cell]) == (0, [FirstByte(row), SecondByte(row, cell)])
  {
    var b1, b2, c1, c2 := FirstByte(row), SecondByte(row, cell), 0xA1 + row, 0xA1 + cell;
    KanjiPair(row, cell);
    PairsAgree(b1, b2);
    hide S2E, E2S, Run, FirstByte, SecondByte;
    ThreeOut(Out(eol, false), LCJPOLD, c1, c2, c1, [b1, b2]);
  }

  /** Where CR stands for a line end in the buffer, g2s writes as if LF stood there. */
  lemma SelectiveOut(eol: Eol, ch: nat, c: nat)
    ensures Out(eol, true)(ch, c) == Out(eol, false)(ch, if c == CR then LF else c)
  {
  }

  /** Characters of other sets are left out. */
  lemma OthersLeftOut(eol: Eol, lc: nat, c: nat)
    requires LcP(lc) && lc != LCKANA && lc != LCJPOLD && lc != LCJP && 0x9F < c
    ensures Out(eol, false)(0, lc) == (0, []) && Out(eol, false)(0, c) == (0, [])
  {
    hide E2S;
  }
}
