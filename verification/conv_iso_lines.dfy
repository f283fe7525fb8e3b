// ISO 2022 text with any line ends: what is written, and what is read back.

module Iso2022Lines {
  import opened Bytes
  import opened Conversion
  import opened Iso2022In
  import opened TextFiles
  import E = EolConversion
  import LI = Iso2022LinesIn
  import LO = Iso2022LinesOut
  import O = Iso2022Out
  import RT = Iso2022RoundTrip

  // ---- ASCII text ----

  /** The encoder is at ASCII, and at the end of a line there is no set to restore. */
  predicate WritesAscii(conf: O.Conf, e: O.OutState) {
    && e.g0 == LCASCII && !e.shift && !e.r2l && e.comp == O.CMP_NONE && !conf.selective
    && (conf.form.asciiEol ==>
          forall g :: 0 <= g < 4 ==> O.Initial(conf, g) == LCINV || O.Initial(conf, g) == O.Current(e, g))
  }

  /** The state behind an ASCII character. */
  function Behind(e: O.OutState): O.OutState { e.(ch := 0, graphic := 0, boundary := true) }

  lemma NothingToRestore(conf: O.Conf, e: O.OutState)
    requires conf.Ok() && O.GsOk(e) && WritesAscii(conf, e) && conf.form.asciiEol
    ensures O.Restore(conf, e) == (e, [])
  {
    NoneToRestore(conf, e, 0);
    NoneToRestore(conf, e, 1);
    NoneToRestore(conf, e, 2);
    NoneToRestore(conf, e, 3);
    hide O.RestoreOne, WritesAscii;
    var none: seq<nat> := [];
    assert none + (none + (none + none)) == none;
  }

  lemma NoneToRestore(conf: O.Conf, e: O.OutState, g: nat)
    requires conf.Ok() && O.GsOk(e) && WritesAscii(conf, e) && conf.form.asciiEol && g < 4
    ensures O.RestoreOne(conf, e, g) == (e, [])
  {
    assert O.Initial(conf, g) == LCINV || O.Initial(conf, g) == O.Current(e, g);
  }

  lemma AsciiByteOut(conf: O.Conf, e: O.OutState, c: nat)
    requires conf.Ok() && O.GsOk(e) && WritesAscii(conf, e) && c < 0x80
    ensures O.Out(conf)(e, c) == (Behind(e), O.LineEnd(conf.form.eol, c))
  {
    var e1 := e.(ch := 0, r2l := false);
    if conf.form.asciiEol { NothingToRestore(conf, e1); }
    var none: seq<nat> := [];
    var line := O.LineEnd(conf.form.eol, c);
    assert none + none == none && none + line == line;
    hide O.Restore, WritesAscii, O.LineEnd;
    assert O.ToAscii(conf, e1, c) == (e1, []);
    assert O.AtLineEnd(conf, e1, c) == (e1, []);
    assert O.AsciiStep(conf, e, c) == (Behind(e), line);
    hide O.ToAscii, O.AtLineEnd, O.AsciiStep;
  }

  lemma {:induction false} AsciiOut(conf: O.Conf, e: O.OutState, s: seq<nat>)
    requires conf.Ok() && O.GsOk(e) && WritesAscii(conf, e) && forall i :: 0 <= i < |s| ==> s[i] < 0x80
    requires Fixed(conf.form.eol)
    ensures Run(O.Out(conf), e, s) == (if s == [] then e else Behind(e), E.OutAll(conf.form.eol, false, s))
  {
    if s != [] {
      var n := |s| - 1;
      AsciiOut(conf, e, s[..n]);
      assert WritesAscii(conf, Behind(e)) by { assert forall g :: O.Current(Behind(e), g) == O.Current(e, g); }
      AsciiByteOut(conf, e, s[n]);
      AsciiByteOut(conf, Behind(e), s[n]);
      assert O.LineEnd(conf.form.eol, s[n]) == E.Out(conf.form.eol, false, s[n]);
    }
  }

  /** A text of lines is written as the file that holds them. */
  lemma LinesWritten(conf: O.Conf, e: O.OutState, items: seq<Item>)
    requires conf.Ok() && O.GsOk(e) && WritesAscii(conf, e) && Fixed(conf.form.eol)
    requires forall i :: 0 <= i < |items| ==> LI.AsciiItem(conf.form.eol, items[i])
    ensures Run(O.Out(conf), e, BufferText(items)).1 == FileText(conf.form.eol, items)
  {
    LI.PlainText(conf.form.eol, items);
    AsciiOut(conf, e, BufferText(items));
    E.Lines(conf.form.eol, false, items);
  }

  // ---- the round trip ----

  lemma {:induction false} CrBack(x: seq<nat>)
    requires CR !in x
    ensures Run(E.In(EolCr), false, E.OutAll(EolCr, false, x)) == (false, x)
  {
    if x != [] {
      var n := |x| - 1;
      assert x[n] in x && x == x[..n] + [x[n]];
      CrBack(x[..n]);
      var c := if x[n] == LF then CR else x[n];
      assert E.Out(EolCr, false, x[n]) == [c];
      RunSnocs(E.In(EolCr), false, E.OutAll(EolCr, false, x[..n]), c);
    }
  }

  /** With LF line ends the decoder keeps every CR. */
  lemma CrKept(t: Tables, st: InState, x: seq<nat>)
    requires t.Ok() && LI.FinalsInside(t) && Ok(st) && !st.cr && AreBytes(x) && CR in x
    ensures CR in Output(In(t, EolLf), FlushCh(), st, x, true)
  {
    var i :| 0 <= i < |x| && x[i] == CR;
    var a, b := x[..i], x[i + 1..];
    assert x == (a + [CR]) + b && AreBytes(a);
    hide Run, In, LI.FinalsInside, LI.GivenUp, LI.Settled;
    E.PlainCopy(EolLf, false, a);
    LI.RunSame(t, EolLf, false, st, st, a);
    var (st1, out) := Run(In(t, EolLf), st, a);
    LI.EndRead(t, EolLf, st1, CR);
    RunSnocs(In(t, EolLf), st, a, CR);
    RunAppend(In(t, EolLf), st, a + [CR], b);
    assert CR in LI.GivenUp(st1) + [CR];
  }

  predicate EndsInCr(s: seq<nat>) { s != [] && s[|s| - 1] == CR }

  lemma LastWritten(x: seq<nat>)
    ensures EndsInCr(E.OutAll(EolCrLf, false, x)) == EndsInCr(x)
  {
    if x != [] {
      var last := E.Out(EolCrLf, false, x[|x| - 1]);
      assert last != [] && last[|last| - 1] == x[|x| - 1];
    }
  }

  /** a2g reads back what g2a has written, but for a CR at the very end. */
  lemma EolBack(eol: Eol, x: seq<nat>)
    requires Fixed(eol) && (eol.EolCr? ==> CR !in x)
    ensures var (held, u) := Run(E.In(eol), false, E.OutAll(eol, false, x));
      held == (eol.EolCrLf? && EndsInCr(E.OutAll(eol, false, x))) && x == if held then u + [CR] else u
  {
    if eol.EolCrLf? {
      E.ReadBack(x);
      LastWritten(x);
    } else if eol.EolCr? {
      CrBack(x);
    } else {
      LfBack(x);
      E.PlainCopy(eol, false, x);
    }
  }

  lemma {:induction false} LfBack(x: seq<nat>)
    ensures E.OutAll(EolLf, false, x) == x
  {
    if x != [] {
      LfBack(x[..|x| - 1]);
      assert x == x[..|x| - 1] + [x[|x| - 1]];
    }
  }

  lemma {:induction false} WrittenBytes(eol: Eol, x: seq<nat>)
    requires AreBytes(x)
    ensures AreBytes(E.OutAll(eol, false, x))
  {
    if x != [] { WrittenBytes(eol, x[..|x| - 1]); }
  }

  /** Decoding what was encoded gives the text back, under any line ends; only a file that ends in a CR that is not an
      end of a line comes back without it. */
  lemma RoundTrip(conf: O.Conf, i0: bool, i1: bool, i2: bool, i3: bool, boundary: bool, s: seq<nat>,
                  units: seq<RT.Unit>,
                  end: bool)
    requires var plain := LO.WithLf(conf); RT.Supported(plain) && RT.Text(plain, units, false)
    requires Fixed(conf.form.eol) && LI.FinalsInside(conf.t) && LO.FinalsOutside(conf.t)
    requires AreBytes(s) && LO.LfText(conf.selective, s) == RT.Contents(units)
      && (conf.form.eol.EolCr? ==> CR !in RT.Contents(units))
    ensures conf.Ok() && O.GsOk(RT.FirstOut(conf, i0, i1, i2, i3, boundary))
    ensures var coded := O.Encoded(conf, RT.FirstOut(conf, i0, i1, i2, i3, boundary), s, end).1;
      var text := Output(In(conf.t, conf.form.eol), FlushCh(), RT.FirstIn(conf), coded, true);
      text + Held(conf.form.eol.EolCrLf? && EndsInCr(coded)) == RT.Contents(units)
  {
    var t, eol, e, d := conf.t, conf.form.eol, RT.FirstOut(conf, i0, i1, i2, i3, boundary), RT.FirstIn(conf);
    var plain := LO.WithLf(conf);
    assert conf.Ok() && plain.Ok() && O.GsOk(e) && LO.Begun(0) && plain.t == t && plain.form.eol == EolLf;
    assert RT.FirstOut(plain, i0, i1, i2, i3, boundary) == e && RT.FirstIn(plain) == d;
    assert LI.Ready(eol, d) && Ok(d) && !d.cr;
    hide *;
    RT.RoundTrip(plain, i0, i1, i2, i3, boundary, units, end);
    var x := O.Encoded(plain, e, RT.Contents(units), end).1;
    LO.Encoded(conf, e, s, end);
    var coded := E.OutAll(eol, false, x);
    WrittenBytes(eol, x);
    if CR in x { CrKept(t, d, x); }
    EolBack(eol, x);
    LI.Decoded(t, eol, d, coded, true);
  }
}
