// i2g: the ISO 2022 interpreter, which turns a byte stream with escape sequences into buffer text.

module Iso2022In {
  import opened Bytes
  import opened Conversion

  const TYPE94: nat := 0
  const TYPE96: nat := 1
  const TYPE94N: nat := 2
  const TYPE96N: nat := 3

  // What has been read of an escape sequence; below 0x10, an intermediate byte that names a type and G0 .. G3.
  const CC_ESC: nat := 0x10
  const CC_ESC_2_4: nat := 0x11
  const CC_ESC_SS2: nat := 0x12
  const CC_ESC_SS3: nat := 0x13
  const CC_ESC_DESIGNATE: nat := 0x14
  const CC_ESC_INVALID: nat := 0x15
  const CC_ESC_STARTCMP: nat := 0x16
  const CC_ESC_ENDCMP: nat := 0x17
  const CC_ESC_RVT_DIR: nat := 0x18
  const CC_ESC_L2R_DIR: nat := 0x19
  const CC_ESC_R2L_DIR: nat := 0x1A
  const CC_ESC_5_11: nat := 0x1B
  const CC_ESC_5_11_0: nat := 0x1C
  const CC_ESC_5_11_1: nat := 0x1D
  const CC_ESC_5_11_2: nat := 0x1E

  /** The charset tables, indexed by leading byte.  lc_table is kept as the flat array it is: a final byte
      above 0x7F reads on into the next row, and past the last row into what lies behind. */
  datatype Tables = Tables(kind: seq<nat>, final: seq<nat>, bytes: seq<nat>, r2l: seq<bool>, graphic: seq<nat>,
                           lcTable: seq<nat>, rev: seq<nat>)
  {
    predicate Ok() {
      && |kind| == |final| == |bytes| == |r2l| == |graphic| == |rev| == 256 && |lcTable| == 640
      && (forall i :: 0 <= i < 256 ==> rev[i] < 256 && final[i] < 256)
      && (forall i :: 0 <= i < 640 ==> lcTable[i] < 256)
    }
  }

  /** The state of the interpreter; `esc` says how far an escape sequence has been read, `g0` .. `g3` which
      sets are designated. */
  datatype InState = InState(r2l: bool, cr: bool, escape: bool, cmp: bool, so: bool, ss2: bool, ss3: bool, esc: nat,
                             ch: nat, g0: nat, g1: nat, g2: nat, g3: nat)

  predicate BytesOk(st: InState) { st.g0 < 256 && st.g1 < 256 && st.g2 < 256 && st.g3 < 256 }

  function SetG(st: InState, g: nat, lc: nat): InState {
    if g == 0 then st.(g0 := lc) else if g == 1 then st.(g1 := lc) else if g == 2 then st.(g2 := lc) else st.(g3 := lc)
  }

  /** JIS C 6226-1978 is read as JIS X 0208-1983, and JIS X 0201 Roman as ASCII. */
  function Fold(lc: nat): nat { if lc == LCJPOLD then LCJP else if lc == LCROMAN then LCASCII else lc }

  /** lookup: what byte c means in an escape sequence, and the designations afterwards. */
  function Lookup(t: Tables, st: InState, c: nat): (nat, InState)
    requires t.Ok() && c < 256 && st.esc < 0x1F
  {
    if st.esc == CC_ESC then
      if c == '$' as nat then (CC_ESC_2_4, st)
      else if c == 'N' as nat then (if st.g2 == LCINV then CC_ESC_INVALID else CC_ESC_SS2, st)
      else if c == 'O' as nat then (if st.g3 == LCINV then CC_ESC_INVALID else CC_ESC_SS3, st)
      else if c == '0' as nat then (CC_ESC_STARTCMP, st)
      else if c == '1' as nat then (CC_ESC_ENDCMP, st)
      else if c == '[' as nat then (CC_ESC_5_11, st)
      else if 0x28 <= c <= 0x2F then (c - 0x28, st)
      else (CC_ESC_INVALID, st)
    else if st.esc == CC_ESC_2_4 then
      if 0x28 <= c <= 0x2F then (c - 0x20, st)
      else if 0x40 <= c <= 0x42 then Designated(st, 0, t.lcTable[TYPE94N * 128 + c])
      else (CC_ESC_INVALID, st)
    else if st.esc == CC_ESC_5_11 then
      if c == ']' as nat then (CC_ESC_RVT_DIR, st)
      else if '0' as nat <= c <= '2' as nat then (CC_ESC_5_11_0 + (c - '0' as nat), st)
      else (CC_ESC_INVALID, st)
    else if CC_ESC_5_11_0 <= st.esc <= CC_ESC_5_11_2 then
      if c == ']' as nat then
        (if st.esc == CC_ESC_5_11_0 then CC_ESC_RVT_DIR else if st.esc == CC_ESC_5_11_1 then CC_ESC_L2R_DIR
          else CC_ESC_R2L_DIR, st)
      else (CC_ESC_INVALID, st)
    else
      Designated(st, st.esc % 4, t.lcTable[st.esc / 4 % 4 * 128 + c])
  }

  function Designated(st: InState, g: nat, lc: nat): (nat, InState) {
    if lc == LCINV then (CC_ESC_INVALID, st) else (CC_ESC_DESIGNATE, SetG(st, g, Fold(lc)))
  }

  /** cntl &= CC_LOCK: only shift, composition and direction survive. */
  function Locked(st: InState): InState {
    st.(cr := false, escape := false, ss2 := false, ss3 := false, esc := 0)
  }

  /** The bytes of an escape sequence that has turned out to be invalid. */
  function EscBytes(esc: nat): seq<nat> {
    [ESC] + (if esc <= 7 then [esc + 0x28]
             else if esc <= 15 then ['$' as nat, esc + 0x20]
             else if esc == CC_ESC_2_4 then ['$' as nat]
             else if esc == CC_ESC_5_11 then ['[' as nat]
             else if CC_ESC_5_11_0 <= esc <= CC_ESC_5_11_2 then ['[' as nat, '0' as nat + (esc - CC_ESC_5_11_0)]
             else [])
  }

  /** The bytes held in ch, lowest first, with the high bit off. */
  function Drain(ch: nat): seq<nat> { if ch == 0 then [] else [ch % 128] + Drain(ch / 256) }

  /** Bytes of ch that have to go before at most `limit` is left. */
  function DrainAbove(ch: nat, limit: nat): (seq<nat>, nat) {
    if ch <= limit then ([], ch)
    else var (out, rest) := DrainAbove(ch / 256, limit); ([ch % 128] + out, rest)
  }

  /** c | 0x80 */
  function High(c: nat): nat { if c < 0x80 then c + 0x80 else c }

  predicate ControlP(c: nat) { c < 0x20 || 0x80 <= c < 0xA0 }

  /** Within an escape sequence.  The flag says whether the byte has been used up. */
  function EscapeStep(t: Tables, st: InState, c: nat): (InState, seq<nat>, bool)
    requires t.Ok() && c < 256 && st.esc < 0x1F
  {
    var (code, st1) := Lookup(t, st, c);
    var done := Locked(st1).(ch := 0);
    if code == CC_ESC_DESIGNATE then (done, [], true)
    else if code == CC_ESC_SS2 then (done.(ss2 := true), [], true)
    else if code == CC_ESC_SS3 then (done.(ss3 := true), [], true)
    else if code == CC_ESC_STARTCMP then (done.(cmp := true), [LCCMP], true)
    else if code == CC_ESC_ENDCMP then (done.(cmp := false), [], true)
    else if code == CC_ESC_RVT_DIR || code == CC_ESC_L2R_DIR then (done.(r2l := false), [], true)
    else if code == CC_ESC_R2L_DIR then (done.(r2l := true), [], true)
    else if code == CC_ESC_INVALID then (done, EscBytes(st.esc), false)
    else (st1.(esc := code, ch := 0), [], true)
  }

  function ControlStep(eol: Eol, st0: InState, c: nat): (InState, seq<nat>) {
    var held := if st0.ss2 then [SS2 % 128] else if st0.ss3 then [SS3 % 128] else if st0.cr && c != LF then [CR]
      else [];
    var out := Drain(st0.ch) + held;
    var st := (if st0.ss2 || st0.ss3 || st0.cr then Locked(st0) else st0).(ch := 0);
    if c == ESC then (st.(escape := true, esc := CC_ESC), out)
    else if c == SO then (if st.g1 == LCINV then (st, out + [c]) else (st.(so := true), out))
    else if c == SI then (if st.g1 == LCINV then (st, out + [c]) else (st.(so := false), out))
    else if c == SS2 then (if st.g2 == LCINV then (st, out + [c]) else (st.(ss2 := true), out))
    else if c == SS3 then (if st.g3 == LCINV then (st, out + [c]) else (st.(ss3 := true), out))
    else if c == 0x9B then (st.(escape := true, esc := CC_ESC_5_11), out)
    else if c == CR then
      if eol.EolCr? then (st, out + [LF]) else if eol.EolCrLf? then (st.(cr := true), out) else (st, out + [c])
    else (st, out + [c])
  }

  /** The set a graphic byte belongs to. */
  function CharSet(t: Tables, st: InState, c: nat): (lc: nat)
    requires t.Ok() && c < 256 && BytesOk(st)
    ensures lc < 256
  {
    var lc0 := if st.ss2 then st.g2 else if st.ss3 then st.g3 else if st.so || c >= 0x80 then st.g1 else st.g0;
    var lc1 := if lc0 == LCINV then LCASCII
               else if (c == 0x20 || c == DEL) && (t.kind[lc0] == TYPE94 || t.kind[lc0] == TYPE94N) then LCASCII
               else lc0;
    if st.r2l != t.r2l[lc1] then t.rev[lc1] else lc1
  }

  /** A graphic byte of a set, with `ch` holding the bytes that came before it. */
  function CharOut(t: Tables, cmp: bool, lc: nat, ch: nat, c: nat): (nat, seq<nat>)
    requires t.Ok() && lc < 256
  {
    var lead := if cmp then Low8(lc + 0x20) else lc;
    if t.bytes[lc] == 1 then (0, Drain(ch) + (if cmp then [0xA0, High(c)] else [c % 128]))
    else if t.bytes[lc] == 2 then (0, Drain(ch) + [lead, High(c)])
    else if t.bytes[lc] == 3 then
      if 0xA0 <= lc < 0xC0 then
        var prv := if lc < 0xB8 then LCPRV11 else LCPRV12;
        (0, Drain(ch) + [if cmp then prv + 0x20 else prv, lc, High(c)])
      else
        var (out, rest) := DrainAbove(ch, 0xFF);
        if rest != 0 then (0, out + [lead, High(rest), High(c)]) else (c, out)
    else if lc == LCPRV3 then
      var (out, rest) := DrainAbove(ch, 0xFFFF);
      if rest > 0xFF then (0, out + [lead, Low8(rest % 256 + 0x40), rest / 256 % 256, 0xFF])
      else (if rest != 0 then rest + c * 256 else c, out)
    else
      var (out, rest) := DrainAbove(ch, 0xFF);
      var prv := if lc < 0xC8 then LCPRV21 else LCPRV22;
      if rest != 0 then (0, out + [if cmp then prv + 0x20 else prv, lc, High(rest), High(c)]) else (c, out)
  }

  function GraphicStep(t: Tables, st: InState, c: nat): (InState, seq<nat>)
    requires t.Ok() && c < 256 && BytesOk(st)
  {
    var held := if st.cr then [CR] else [];
    var (ch, out) := CharOut(t, st.cmp, CharSet(t, st, c), st.ch, c);
    var st1 := st.(cr := false, ch := ch);
    (if ch == 0 then Locked(st1) else st1, held + out)
  }

  /** One round of the loop: an invalid escape sequence is put out without using up the byte that ends it. */
  function Micro(t: Tables, eol: Eol, st: InState, c: nat): (InState, seq<nat>, bool)
    requires t.Ok() && c < 256 && st.esc < 0x1F && BytesOk(st)
  {
    if st.escape then EscapeStep(t, st, c)
    else if ControlP(c) then var (st1, out) := ControlStep(eol, st, c); (st1, out, true)
    else var (st1, out) := GraphicStep(t, st, c); (st1, out, true)
  }

  // ---- what every state reached satisfies ----

  predicate Ok(st: InState) {
    && BytesOk(st) && st.ch <= 0xFFFF
    && (st.escape ==> st.ch == 0 && !st.cr && !st.ss2 && !st.ss3)
    && (st.escape ==> st.esc <= CC_ESC_2_4 || CC_ESC_5_11 <= st.esc <= CC_ESC_5_11_2)
    && (!st.escape ==> st.esc == 0)
  }

  function DrainLen(ch: nat): nat { if ch == 0 then 0 else if ch <= 0xFF then 1 else 2 }

  /** Bytes taken in that may still have to be put out. */
  function Pending(st: InState): (n: nat)
    ensures n <= 4
  {
    if st.escape then (if st.esc <= 7 then 2 else if st.esc <= 15 then 3 else if st.esc == CC_ESC then 1
                       else if st.esc == CC_ESC_2_4 || st.esc == CC_ESC_5_11 then 2 else 3)
    else (if st.cr then 1 else 0) + (if st.ss2 || st.ss3 then 1 else 0) + DrainLen(st.ch)
  }

  lemma DrainIs(ch: nat)
    requires ch <= 0xFFFF
    ensures |Drain(ch)| == DrainLen(ch)
    ensures var (out, rest) := DrainAbove(ch, 0xFF); |out| + DrainLen(rest) == DrainLen(ch) && rest <= 0xFF
    ensures DrainAbove(ch, 0xFFFF) == ([], ch)
  {
    if ch > 0xFF {
      assert 0 < ch / 256 <= 0xFF && ch / 256 / 256 == 0;
      assert Drain(ch / 256) == [ch / 256 % 128] + Drain(0);
      assert DrainAbove(ch / 256, 0xFF) == ([], ch / 256);
    } else if ch > 0 {
      assert ch / 256 == 0;
    }
  }

  lemma CharOutPays(t: Tables, cmp: bool, lc: nat, ch: nat, c: nat)
    requires t.Ok() && lc < 256 && ch <= 0xFFFF && c < 256
    ensures var (ch', out) := CharOut(t, cmp, lc, ch, c); ch' <= 0xFFFF && |out| + DrainLen(ch') <= 3 + DrainLen(ch)
  {
    DrainIs(ch);
    hide Drain, DrainAbove;
  }

  lemma LookupOk(t: Tables, st: InState, c: nat)
    requires t.Ok() && c < 256 && Ok(st) && st.escape
    ensures var (code, st1) := Lookup(t, st, c);
      && BytesOk(st1) && st1 == st.(g0 := st1.g0, g1 := st1.g1, g2 := st1.g2, g3 := st1.g3)
      && (code == CC_ESC_INVALID ==> st1 == st)
      && (code <= CC_ESC_2_4 || CC_ESC_SS2 <= code <= CC_ESC_5_11_2)
      && (code <= CC_ESC_2_4 || code >= CC_ESC_5_11 ==> Pending(st.(esc := code)) <= Pending(st) + 1)
  {
  }

  lemma EscapePays(t: Tables, st: InState, c: nat)
    requires t.Ok() && c < 256 && Ok(st) && st.escape
    ensures var (st1, out, used) := EscapeStep(t, st, c);
      && Ok(st1) && |out| + Pending(st1) <= Pending(st) + (if used then 3 else 0) && (!used ==> !st1.escape)
  {
    LookupOk(t, st, c);
    hide Lookup;
  }

  lemma ControlPays(eol: Eol, st: InState, c: nat)
    requires Ok(st) && !st.escape
    ensures var (st1, out) := ControlStep(eol, st, c); Ok(st1) && |out| + Pending(st1) <= Pending(st) + 3
  {
    DrainIs(st.ch);
    hide Drain, DrainAbove;
  }

  lemma GraphicPays(t: Tables, st: InState, c: nat)
    requires t.Ok() && c < 256 && Ok(st) && !st.escape
    ensures var (st1, out) := GraphicStep(t, st, c); Ok(st1) && |out| + Pending(st1) <= Pending(st) + 3
  {
    hide CharOut, CharSet;
    CharOutPays(t, st.cmp, CharSet(t, st, c), st.ch, c);
  }

  /** Output is paid for: three bytes for each byte used up, and the bytes that were pending. */
  lemma MicroPays(t: Tables, eol: Eol, st: InState, c: nat)
    requires t.Ok() && c < 256 && Ok(st)
    ensures st.esc < 0x1F && BytesOk(st)
    ensures var (st1, out, used) := Micro(t, eol, st, c);
      && Ok(st1) && |out| + Pending(st1) <= Pending(st) + (if used then 3 else 0)
      && (!used ==> st.escape && !st1.escape)
  {
    OkMeans(st);
    hide EscapeStep, ControlStep, GraphicStep, Ok, Pending;
    if st.escape {
      EscapePays(t, st, c);
    } else if ControlP(c) {
      ControlPays(eol, st, c);
    } else {
      GraphicPays(t, st, c);
    }
  }

  lemma OkMeans(st: InState)
    requires Ok(st)
    ensures st.esc < 0x1F && BytesOk(st)
  {
  }

  /** A byte and, after an invalid sequence, the same byte again: it ends there. */
  function Step(t: Tables, eol: Eol, st: InState, c: nat): (InState, seq<nat>)
    requires t.Ok() && c < 256 && Ok(st)
  {
    var (st1, out1, used) := Micro(t, eol, st, c);
    MicroPays(t, eol, st, c);
    if used then (st1, out1)
    else var (st2, out2, _) := Micro(t, eol, st1, c); (st2, out1 + out2)
  }

  lemma StepPays(t: Tables, eol: Eol, st: InState, c: nat)
    requires t.Ok() && c < 256 && Ok(st)
    ensures var (st1, out) := Step(t, eol, st, c); Ok(st1) && |out| + Pending(st1) <= Pending(st) + 3
  {
    OkMeans(st);
    hide Micro, Ok, Pending;
    MicroPays(t, eol, st, c);
    var (st1, out1, used) := Micro(t, eol, st, c);
    if !used { MicroPays(t, eol, st1, c); }
  }

  /** The step for a state that has been reached; other arguments do not occur. */
  function In(t: Tables, eol: Eol): (InState, nat) -> (InState, seq<nat>) {
    (st, c) => if t.Ok() && c < 256 && Ok(st) then Step(t, eol, st, c) else (st, [])
  }

  function FlushCh(): InState -> seq<nat> { (st: InState) => Drain(st.ch) }

  /** From any state that can be reached, n bytes give at most 3 * n + 4 bytes. */
  lemma {:induction false} RunPays(t: Tables, eol: Eol, st: InState, s: seq<nat>)
    requires t.Ok() && AreBytes(s) && Ok(st)
    ensures var (st1, out) := Run(In(t, eol), st, s);
      Ok(st1) && |out| + Pending(st1) <= 3 * |s| + Pending(st)
  {
    hide Step, Ok, Pending;
    if s != [] {
      var n := |s| - 1;
      RunPays(t, eol, st, s[..n]);
      StepPays(t, eol, Run(In(t, eol), st, s[..n]).0, s[n]);
    }
  }

  /** The buffer get_conversion_buffer provides is large enough, what is left at the end included. */
  lemma OutputFits(t: Tables, eol: Eol, st: InState, s: seq<nat>, end: bool)
    requires t.Ok() && AreBytes(s) && Ok(st)
    ensures |Output(In(t, eol), FlushCh(), st, s, end)| <= 3 * |s| + Pending(st) <= ConvBufSize(|s|)
  {
    RunPays(t, eol, st, s);
    var st1 := Run(In(t, eol), st, s).0;
    DrainIs(st1.ch);
    hide Run;
  }

  // ---- the method ----

  function StateOf(cntl: Cntl, ch: nat, lcg: seq<nat>): InState
    requires |lcg| == 4
  {
    InState(cntl.r2l, cntl.cr, cntl.escape, cntl.cmp, cntl.so, cntl.ss2, cntl.ss3, cntl.esc, ch, lcg[0], lcg[1],
        lcg[2], lcg[3])
  }

  /** CODE_COMPOSE, into the bits this direction uses. */
  function CntlOf(cntl: Cntl, st: InState): Cntl {
    cntl.(r2l := st.r2l, cr := st.cr, escape := st.escape, cmp := st.cmp, so := st.so, ss2 := st.ss2, ss3 := st.ss3,
        esc := st.esc)
  }

  method Put(out: seq<nat>, dst: array<nat>, dp: nat)
    requires dp + |out| <= dst.Length
    modifies dst
    ensures dst[..dp + |out|] == old(dst[..dp]) + out
  {
    var k := 0;
    while k < |out|
      invariant 0 <= k <= |out| && dst[..dp + k] == old(dst[..dp]) + out[..k]
    {
      dst[dp + k] := out[k];
      k := k + 1;
    }
    assert out[..k] == out;
  }

  /** The loop of i2g.  It ends although an invalid escape sequence makes it take the same byte again. */
  method Convert(t: Tables, eol: Eol, st0: InState, src: seq<nat>, dst: array<nat>) returns (st: InState, dp: nat)
    requires t.Ok() && AreBytes(src) && Ok(st0) && dst.Length >= ConvBufSize(|src|)
    modifies dst
    ensures dp <= dst.Length && (st, dst[..dp]) == Run(In(t, eol), st0, src)
    ensures Ok(st) && dp + Pending(st) <= 3 * |src| + Pending(st0)
  {
    hide Run, Micro, Ok, Pending;
    st, dp := st0, 0;
    var i := 0;
    ghost var again := false;
    RunNothing(In(t, eol), st0, src);
    while i < |src|
      invariant 0 <= i <= |src| && Ok(st) && (again ==> i < |src| && !st.escape)
      invariant dp + Pending(st) <= 3 * i + Pending(st0)
      invariant !again ==> Run(In(t, eol), st0, src[..i]) == (st, dst[..dp])
      invariant again ==> Halfway(t, eol, st0, src, i, st, dst[..dp])
      decreases |src| - i, st.escape
    {
      OkMeans(st);
      PendingFew(st);
      MicroPays(t, eol, st, src[i]);
      var (st1, out, used) := Micro(t, eol, st, src[i]);
      RunSnoc(In(t, eol), st0, src, i);
      Rounds(t, eol, st0, src, i, st, dst[..dp], again);
      Put(out, dst, dp);
      st, dp := st1, dp + |out|;
      if used {
        i := i + 1;
        again := false;
      } else {
        again := true;
      }
    }
    assert src[..i] == src;
  }

  lemma PendingFew(st: InState)
    ensures Pending(st) <= 4
  {
  }

  /** The bytes before number i have been dealt with, and byte i has ended an invalid escape sequence. */
  ghost predicate Halfway(t: Tables, eol: Eol, st0: InState, src: seq<nat>, i: nat, st: InState, out: seq<nat>)
    requires t.Ok() && AreBytes(src) && i < |src|
  {
    var (st1, out1) := Run(In(t, eol), st0, src[..i]);
    && Ok(st1)
    && var (st2, out2, used) := Micro(t, eol, st1, src[i]); !used && st == st2 && out == out1 + out2
  }

  lemma Rounds(t: Tables, eol: Eol, st0: InState, src: seq<nat>, i: nat, st: InState, out: seq<nat>, again: bool)
    requires t.Ok() && AreBytes(src) && i < |src| && Ok(st)
    requires if again then Halfway(t, eol, st0, src, i, st, out) && !st.escape
             else Run(In(t, eol), st0, src[..i]) == (st, out)
    ensures var (st1, more, used) := Micro(t, eol, st, src[i]);
      && (used ==> Run(In(t, eol), st0, src[..i + 1]) == (st1, out + more))
      && (!used ==> !again && Halfway(t, eol, st0, src, i, st1, out + more))
  {
    hide Run, Micro, Pending;
    RunSnoc(In(t, eol), st0, src, i);
    MicroPays(t, eol, st, src[i]);
    var (a, o) := Run(In(t, eol), st0, src[..i]);
    if again {
      var (b, p, _) := Micro(t, eol, a, src[i]);
      var (d, q, _) := Micro(t, eol, st, src[i]);
      assert o + (p + q) == (o + p) + q;
    }
  }

  method I2G(t: Tables, src: seq<nat>, dst: array<nat>, code: CodingType) returns (len: nat)
    requires t.Ok() && AreBytes(src) && dst.Length >= ConvBufSize(|src|)
    requires |code.lcg| == 4 && Ok(StateOf(code.cntl, code.ch, code.lcg))
    modifies dst, code`cntl, code`ch, code`lcg
    ensures len <= dst.Length && |code.lcg| == 4
    ensures var st := StateOf(old(code.cntl), old(code.ch), old(code.lcg));
      && dst[..len] == Output(In(t, code.form.eol), FlushCh(), st, src, code.cntl.end)
      && len <= 3 * |src| + Pending(st)
      && (!code.cntl.end ==> Run(In(t, code.form.eol), st, src).0 == StateOf(code.cntl, code.ch, code.lcg))
    ensures code.cntl.end == old(code.cntl.end) && Ok(StateOf(code.cntl, code.ch, code.lcg))
  {
    hide Run, Ok, Pending, In;
    var st0 := StateOf(code.cntl, code.ch, code.lcg);
    var st, dp := Convert(t, code.form.eol, st0, src, dst);
    OutputFits(t, code.form.eol, st0, src, code.cntl.end);
    if code.cntl.end {
      Put(Drain(st.ch), dst, dp);
      dp := dp + |Drain(st.ch)|;
    } else {
      code.cntl, code.ch, code.lcg := CntlOf(code.cntl, st), st.ch, [st.g0, st.g1, st.g2, st.g3];
      assert dst[..dp] + [] == dst[..dp];
    }
    return dp;
  }
}
