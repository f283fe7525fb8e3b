// Reading and writing back text in a two-byte code: what Shift-JIS and Big5 have in common.

module TwoByteCodes {
  import opened Conversion
  import opened TextFiles

  type Reader = (Pend, nat) -> (Pend, seq<nat>)
  type Writer = (nat, nat) -> (nat, seq<nat>)

  /** An ASCII byte coming in between characters, with a CR held back or not. */
  function AsciiIn(eol: Eol, cr: bool, c: nat): (Pend, seq<nat>) {
    if c == CR then
      if eol.EolCr? then (Pend(cr, 0), [LF])
      else if !eol.EolCrLf? || cr then (Pend(cr, 0), [c])
      else (Pend(true, 0), [])
    else (Pend(false, 0), Held(cr && c != LF) + [c])
  }

  function AsciiOut(eol: Eol, c: nat): seq<nat> {
    if c == LF then (if !eol.EolLf? then [CR] else []) + (if !eol.EolCr? then [c] else []) else [c]
  }

  /** Both directions treat ASCII bytes like that. */
  ghost predicate KeepsAscii(eol: Eol, inp: Reader, out: Writer) {
    forall cr, c | c < 0x80 :: inp(Pend(cr, 0), c) == AsciiIn(eol, cr, c) && out(0, c) == (0, AsciiOut(eol, c))
  }

  /** Reading s, with a CR held back or not, and writing what comes out. */
  function Back(inp: Reader, out: Writer, cr: bool, s: seq<nat>): seq<nat> {
    Run(out, 0, Output(inp, Flush(), Pend(cr, 0), s, true)).1
  }

  /** A unit of text that is read without anything being left over. */
  lemma UnitBack(inp: Reader, out: Writer, cr: bool, cr': bool, u: seq<nat>, s: seq<nat>)
    requires Run(inp, Pend(cr, 0), u).0 == Pend(cr', 0) && Run(out, 0, Run(inp, Pend(cr, 0), u).1).0 == 0
    ensures Back(inp, out, cr, u + s) == Run(out, 0, Run(inp, Pend(cr, 0), u).1).1 + Back(inp, out, cr', s)
  {
    hide Run;
    var mid := Run(inp, Pend(cr, 0), u).1;
    RunAppend(inp, Pend(cr, 0), u, s);
    var (st, more) := Run(inp, Pend(cr', 0), s);
    assert (mid + more) + Flush()(st) == mid + (more + Flush()(st));
    RunAppend(out, 0, mid, Output(inp, Flush(), Pend(cr', 0), s, true));
  }

  lemma NothingOut(out: Writer)
    ensures Run(out, 0, []) == (0, [])
  {
  }

  /** A held-back CR comes out before whatever follows it. */
  lemma HeldFirst(out: Writer, cr: bool, mid: seq<nat>)
    requires out(0, CR) == (0, [CR])
    ensures Run(out, 0, Held(cr) + mid) == (Run(out, 0, mid).0, Held(cr) + Run(out, 0, mid).1)
  {
    if cr {
      RunCons(out, 0, CR, mid);
    } else {
      assert [] + mid == mid && [] + Run(out, 0, mid).1 == Run(out, 0, mid).1;
    }
  }

  lemma AsciiUnit(eol: Eol, inp: Reader, out: Writer, cr: bool, c: nat)
    requires KeepsAscii(eol, inp, out)
    requires c < 0x80 && Fixed(eol) && (cr ==> eol.EolCrLf?) && (c == LF ==> eol.EolLf? || (eol.EolCrLf? && cr))
    ensures var (st, mid) := Run(inp, Pend(cr, 0), [c]);
      && st == Pend(eol.EolCrLf? && c == CR, 0)
      && Run(out, 0, mid).0 == 0 && Run(out, 0, mid).1 + Held(st.cr) == Held(cr) + [c]
  {
    hide Run;
    RunOne(inp, Pend(cr, 0), c);
    assert out(0, CR) == (0, [CR]);
    if c == CR {
      NothingOut(out);
      RunOne(out, 0, if eol.EolCr? then LF else CR);
    } else if c == LF {
      assert [] + [c] == [LF];
      RunOne(out, 0, LF);
    } else {
      HeldFirst(out, cr, [c]);
      RunOne(out, 0, c);
    }
  }

  /** A character of two bytes comes back after a held-back CR. */
  lemma PairUnit(inp: Reader, out: Writer, cr: bool, b1: nat, b2: nat, mid: seq<nat>)
    requires out(0, CR) == (0, [CR])
    requires inp(Pend(cr, 0), b1) == (Pend(false, b1), Held(cr)) && inp(Pend(false, b1), b2) == (Pend(false, 0), mid)
    requires Run(out, 0, mid) == (0, [b1, b2])
    ensures Run(inp, Pend(cr, 0), [b1, b2]).0 == Pend(false, 0)
    ensures Run(out, 0, Run(inp, Pend(cr, 0), [b1, b2]).1) == (0, Held(cr) + [b1, b2])
  {
    hide Run;
    assert [b1, b2] == [b1] + [b2];
    RunCons(inp, Pend(cr, 0), b1, [b2]);
    RunOne(inp, Pend(false, b1), b2);
    HeldFirst(out, cr, mid);
  }

  /** Three bytes that are written as two. */
  lemma ThreeOut(out: Writer, lc: nat, c1: nat, c2: nat, ch: nat, pair: seq<nat>)
    requires out(0, lc) == (lc, []) && out(lc, c1) == (ch, []) && out(ch, c2) == (0, pair)
    ensures Run(out, 0, [lc, c1, c2]) == (0, pair)
  {
    hide Run;
    assert [lc, c1, c2] == [lc] + [c1, c2] && [c1, c2] == [c1] + [c2];
    RunCons(out, 0, lc, [c1, c2]);
    RunCons(out, lc, c1, [c2]);
    RunOne(out, ch, c2);
    assert [] + ([] + pair) == pair;
  }

  lemma NothingBack(eol: Eol, inp: Reader, out: Writer, cr: bool)
    requires KeepsAscii(eol, inp, out)
    ensures Back(inp, out, cr, []) == Held(cr) + []
  {
    assert inp(Pend(cr, 0), CR) == AsciiIn(eol, cr, CR) && out(0, CR) == (0, [CR]);
    assert Output(inp, Flush(), Pend(cr, 0), [], true) == Held(cr);
    if cr { RunOne(out, 0, CR); }
  }

  /** If the rest comes back, so does the rest after an ASCII byte, */
  lemma AsciiBack(eol: Eol, inp: Reader, out: Writer, cr: bool, c: nat, s: seq<nat>)
    requires KeepsAscii(eol, inp, out)
    requires c < 0x80 && Fixed(eol) && (cr ==> eol.EolCrLf?) && (c == LF ==> eol.EolLf? || (eol.EolCrLf? && cr))
    requires var cr' := eol.EolCrLf? && c == CR; Back(inp, out, cr', s) == Held(cr') + s
    ensures Back(inp, out, cr, [c] + s) == Held(cr) + ([c] + s)
  {
    hide Back, Run;
    var cr' := eol.EolCrLf? && c == CR;
    AsciiUnit(eol, inp, out, cr, c);
    UnitBack(inp, out, cr, cr', [c], s);
    Regroup(Run(out, 0, Run(inp, Pend(cr, 0), [c]).1).1, Held(cr'), Held(cr), [c], s);
  }

  /** and after a character that is written back whole. */
  lemma CharBack(inp: Reader, out: Writer, cr: bool, u: seq<nat>, s: seq<nat>)
    requires Run(inp, Pend(cr, 0), u).0 == Pend(false, 0)
    requires Run(out, 0, Run(inp, Pend(cr, 0), u).1) == (0, Held(cr) + u)
    requires Back(inp, out, false, s) == Held(false) + s
    ensures Back(inp, out, cr, u + s) == Held(cr) + (u + s)
  {
    hide Back, Run;
    UnitBack(inp, out, cr, false, u, s);
    assert (Held(cr) + u) + s == Held(cr) + (u + s);
  }

  // ---- texts ----

  /** The bytes of this character are read and written like that. */
  ghost predicate Exchanged(inp: Reader, out: Writer, file: seq<nat>, text: seq<nat>) {
    && (forall cr :: Run(inp, Pend(cr, 0), file) == (Pend(false, 0), Held(cr) + text))
    && Run(out, 0, text) == (0, file)
  }

  ghost predicate ItemOk(eol: Eol, inp: Reader, out: Writer, item: Item) {
    match item
    case Line => true
    case Plain(c) => PlainOk(eol, c)
    case Char(file, text) => Exchanged(inp, out, file, text)
  }

  lemma LineReads(eol: Eol, inp: Reader, out: Writer, cr: bool)
    requires KeepsAscii(eol, inp, out) && Fixed(eol) && (cr ==> eol.EolCrLf?)
    ensures Run(inp, Pend(cr, 0), LineEnd(eol)) == (Pend(false, 0), Held(cr) + [LF])
    ensures Run(out, 0, [LF]) == (0, LineEnd(eol))
  {
    hide Run;
    RunOne(out, 0, LF);
    assert inp(Pend(cr, 0), LF) == AsciiIn(eol, cr, LF) && out(0, LF) == (0, AsciiOut(eol, LF));
    assert AsciiOut(eol, LF) == LineEnd(eol);
    if eol.EolCrLf? {
      assert inp(Pend(cr, 0), CR) == AsciiIn(eol, cr, CR) && inp(Pend(true, 0), LF) == AsciiIn(eol, true, LF);
      assert [CR, LF] == [CR] + [LF];
      RunCons(inp, Pend(cr, 0), CR, [LF]);
      RunOne(inp, Pend(true, 0), LF);
      assert [] + [LF] == [LF];
    } else {
      var c := if eol.EolCr? then CR else LF;
      assert inp(Pend(cr, 0), c) == AsciiIn(eol, cr, c);
      RunOne(inp, Pend(cr, 0), c);
      assert Held(cr) + [LF] == [LF] == Held(false) + [LF];
    }
  }

  lemma PlainReads(eol: Eol, inp: Reader, out: Writer, cr: bool, c: nat)
    requires KeepsAscii(eol, inp, out) && Fixed(eol) && (cr ==> eol.EolCrLf?) && PlainOk(eol, c)
    ensures var (st, mid) := Run(inp, Pend(cr, 0), [c]);
      st == Pend(HeldAfter(eol, Plain(c)), 0) && mid + Held(st.cr) == Held(cr) + [c]
    ensures Run(out, 0, [c]) == (0, [c])
  {
    hide Run;
    RunOne(inp, Pend(cr, 0), c);
    RunOne(out, 0, c);
    assert inp(Pend(cr, 0), c) == AsciiIn(eol, cr, c) && out(0, c) == (0, AsciiOut(eol, c));
    assert [] + [c] == [c] && [c] + [] == [c] && Held(cr) + [c] + [] == Held(cr) + [c];
  }

  lemma ItemReads(eol: Eol, inp: Reader, out: Writer, cr: bool, item: Item)
    requires KeepsAscii(eol, inp, out) && Fixed(eol) && (cr ==> eol.EolCrLf?) && ItemOk(eol, inp, out, item)
    ensures var (st, mid) := Run(inp, Pend(cr, 0), InFile(eol, item));
      st == Pend(HeldAfter(eol, item), 0) && mid + Held(st.cr) == Held(cr) + InBuffer(item)
    ensures Run(out, 0, InBuffer(item)) == (0, InFile(eol, item))
  {
    hide Run, KeepsAscii;
    match item {
      case Line =>
        LineReads(eol, inp, out, cr);
        assert Held(cr) + [LF] + [] == Held(cr) + [LF];
      case Plain(c) => PlainReads(eol, inp, out, cr, c);
      case Char(file, text) => assert Held(cr) + text + [] == Held(cr) + text;
    }
  }

  /** A file is read as the characters it holds, and these are written as that file. */
  lemma {:induction false} Converts(eol: Eol, inp: Reader, out: Writer, cr: bool, items: seq<Item>)
    requires KeepsAscii(eol, inp, out) && Fixed(eol) && (cr ==> eol.EolCrLf?)
    requires forall i :: 0 <= i < |items| ==> ItemOk(eol, inp, out, items[i])
    ensures Output(inp, Flush(), Pend(cr, 0), FileText(eol, items), true) == Held(cr) + BufferText(items)
    ensures Run(out, 0, BufferText(items)) == (0, FileText(eol, items))
    decreases |items|
  {
    if items == [] {
      RunNothing(inp, Pend(cr, 0), []);
      RunNothing(out, 0, []);
      assert [] + Flush()(Pend(cr, 0)) == Held(cr) + [];
    } else {
      var x, rest := items[0], items[1..];
      assert ItemOk(eol, inp, out, x);
      hide *;
      ItemReads(eol, inp, out, cr, x);
      var cr' := HeldAfter(eol, x);
      HeldMeans(eol, x);
      Converts(eol, inp, out, cr', rest);
      var (st, mid) := Run(inp, Pend(cr, 0), InFile(eol, x));
      ChunksAgree(inp, Flush(), Pend(cr, 0), InFile(eol, x), FileText(eol, rest), true);
      RunAppend(out, 0, InBuffer(x), BufferText(rest));
      TextsOf(eol, items);
      PieceOutput(inp, Pend(cr, 0), InFile(eol, x));
      Regroup(mid, Held(cr'), Held(cr), InBuffer(x), BufferText(rest));
    }
  }

  lemma PieceOutput(inp: Reader, st: Pend, s: seq<nat>)
    ensures Output(inp, Flush(), st, s, false) == Run(inp, st, s).1
  {
    hide Run;
    assert Run(inp, st, s).1 + [] == Run(inp, st, s).1;
  }

}
