// ISO 2022 files end as they began, and under CODE_ASCII_EOL so does every line: files can be joined, and lines read
// alone.

module Iso2022Files {
  import opened Bytes
  import opened Conversion
  import opened Iso2022In
  import opened Iso2022RoundTrip
  import O = Iso2022Out

  /** The designations, shift state and direction that a coding system starts with. */
  predicate AtStart(conf: O.Conf, e: O.OutState) {
    && (conf.o0 != LCINV ==> e.g0 == conf.o0) && (conf.o1 != LCINV ==> e.g1 == conf.o1)
    && (conf.o2 != LCINV ==> e.g2 == conf.o2) && (conf.o3 != LCINV ==> e.g3 == conf.o3)
    && !e.shift && !e.r2l && e.comp == O.CMP_NONE && e.graphic == 0
  }

  lemma RestoreOneEnds(conf: O.Conf, e: O.OutState, g: nat)
    requires conf.Ok() && O.GsOk(e) && g < 4
    ensures var e1 := O.RestoreOne(conf, e, g).0;
      && (O.Initial(conf, g) != LCINV ==> O.Current(e1, g) == O.Initial(conf, g))
      && (g != 0 ==> e1.g0 == e.g0) && (g != 1 ==> e1.g1 == e.g1) && (g != 2 ==> e1.g2 == e.g2)
      && (g != 3 ==> e1.g3 == e.g3)
  {
    hide O.Change;
  }

  lemma RestoreEnds(conf: O.Conf, e: O.OutState)
    requires conf.Ok() && O.GsOk(e)
    ensures var e1 := O.Restore(conf, e).0;
      && (conf.o0 != LCINV ==> e1.g0 == conf.o0) && (conf.o1 != LCINV ==> e1.g1 == conf.o1)
      && (conf.o2 != LCINV ==> e1.g2 == conf.o2) && (conf.o3 != LCINV ==> e1.g3 == conf.o3) && O.SameBesides(e, e1)
  {
    hide O.RestoreOne, O.GsOk;
    O.RestoreOneOk(conf, e, 0);
    RestoreOneEnds(conf, e, 0);
    var e0 := O.RestoreOne(conf, e, 0).0;
    O.RestoreOneOk(conf, e0, 1);
    RestoreOneEnds(conf, e0, 1);
    var e1 := O.RestoreOne(conf, e0, 1).0;
    O.RestoreOneOk(conf, e1, 2);
    RestoreOneEnds(conf, e1, 2);
    var e2 := O.RestoreOne(conf, e1, 2).0;
    O.RestoreOneOk(conf, e2, 3);
    RestoreOneEnds(conf, e2, 3);
  }

  /** The end of a text leaves the coding system as it was at first, */
  lemma FinalAtStart(conf: O.Conf, e: O.OutState)
    requires conf.Ok() && O.GsOk(e) && e.boundary
    ensures AtStart(conf, O.FinalOut(conf, e).0)
  {
    RestoreEnds(conf, e.(r2l := false, graphic := 0, shift := false, comp := O.CMP_NONE));
    hide O.Restore, O.RevertDirection, O.EndComposite, O.ShiftIn;
  }

  /** and so does the end of a line under CODE_ASCII_EOL. */
  lemma LineAtStart(conf: O.Conf, e: O.OutState)
    requires conf.Ok() && O.GsOk(e) && conf.form.asciiEol && !conf.selective && e.comp == O.CMP_NONE
    ensures AtStart(conf, O.Out(conf)(e, LF).0)
  {
    var e1 := O.ToAscii(conf, e.(ch := 0, r2l := false), LF).0;
    assert O.GsOk(e1);
    RestoreEnds(conf, e1);
    hide O.Restore, O.RevertDirection, O.EndComposite, O.ShiftIn, O.ToAscii, O.LineEnd, O.LeadStep, O.NonAsciiStep;
    assert O.Out(conf)(e, LF) == O.AsciiStep(conf, e, LF);
  }

  // ---- what is read from there ----

  lemma StartUnset(conf: O.Conf, e: O.OutState, d: InState)
    requires conf.Ok() && Tied(conf, e, d, 4) && AtStart(conf, e) && conf.o0 != LCINV
    ensures e.g0 == conf.o0 && e.g1 == conf.o1 && e.g2 == conf.o2 && e.g3 == conf.o3
    ensures Quiet(d) && d.so == e.shift
  {
    hide Known;
  }

  /** A decoder that has come this far is in step with an encoder that starts, */
  lemma StartSync(conf: O.Conf, e: O.OutState, d: InState, i0: bool, i1: bool, i2: bool, i3: bool, boundary: bool)
    requires conf.Ok() && Sync(conf, e, d) && AtStart(conf, e) && conf.o0 != LCINV
    ensures Sync(conf, FirstOut(conf, i0, i1, i2, i3, boundary), d)
  {
    StartUnset(conf, e, d);
    hide Quiet, Slot, Known;
  }

  /** and a decoder that starts is in step with an encoder that has come this far. */
  lemma StartSyncIn(conf: O.Conf, e: O.OutState, d: InState)
    requires Supported(conf) && Sync(conf, e, d) && AtStart(conf, e) && conf.o0 != LCINV
    ensures conf.Ok() && Sync(conf, e, FirstIn(conf)) && O.GsOk(e)
  {
    StartUnset(conf, e, d);
    FirstSync(conf, FirstOut(conf, false, false, false, false, false));
    hide Quiet, Slot, Known;
  }

  /** Files that were written one by one and then joined are read as their texts, one after the other. */
  lemma FilesJoin(conf: O.Conf, units: seq<Unit>, i0: bool, i1: bool, i2: bool, i3: bool, boundary: bool,
                  units2: seq<Unit>, j0: bool, j1: bool, j2: bool, j3: bool, boundary2: bool, end: bool)
    requires Supported(conf) && conf.o0 != LCINV && Text(conf, units, false) && Complete(units)
      && Text(conf, units2, false)
    ensures conf.Ok() && AreBytes(Contents(units)) && AreBytes(Contents(units2))
    ensures O.GsOk(FirstOut(conf, i0, i1, i2, i3, boundary)) && O.GsOk(FirstOut(conf, j0, j1, j2, j3, boundary2))
    ensures var file := O.Encoded(conf, FirstOut(conf, i0, i1, i2, i3, boundary), Contents(units), true).1;
      var file2 := O.Encoded(conf, FirstOut(conf, j0, j1, j2, j3, boundary2), Contents(units2), end).1;
      Output(In(conf.t, EolLf), FlushCh(), FirstIn(conf), file + file2, true) == Contents(units) + Contents(units2)
  {
    var e, e2, d := FirstOut(conf, i0, i1, i2, i3, boundary), FirstOut(conf, j0, j1, j2, j3, boundary2), FirstIn(conf);
    FirstSync(conf, e);
    FirstSync(conf, e2);
    assert conf.Ok();
    hide *;
    var e1, d1, file := FileRead(conf, e, d, units, true);
    StartSync(conf, e1, d1, j0, j1, j2, j3, boundary2);
    var e3, d3, file2 := FileRead(conf, e2, d1, units2, end);
    RunAppend(D(conf.t), d, file, file2);
    Flushed(conf, e3, d3, file + file2);
  }

  /** A file, read by a decoder in step with the encoder. */
  lemma FileRead(conf: O.Conf, e: O.OutState, d: InState, units: seq<Unit>, end: bool)
    returns (e1: O.OutState, d1: InState, file: seq<nat>)
    requires Supported(conf) && Sync(conf, e, d) && Text(conf, units, false)
    ensures conf.Ok() && O.GsOk(e) && AreBytes(Contents(units))
    ensures file == O.Encoded(conf, e, Contents(units), end).1 && (d1, Contents(units)) == Run(D(conf.t), d, file)
    ensures Sync(conf, e1, d1) && (end && Complete(units) ==> AtStart(conf, e1))
  {
    ClosedSync(conf, e, d);
    assert conf.Ok();
    hide *;
    TextBytes(conf, units, false);
    TextRead(conf, e, d, units, false);
    var (e0, out) := Run(O.Out(conf), e, Contents(units));
    var d0 := Run(D(conf.t), d, out).0;
    O.RunOk(conf, e, Contents(units));
    EncodedIs(conf, e, Contents(units), end);
    if end {
      FinalReset(conf, e0, d0);
      if Complete(units) { FinalAtStart(conf, e0); }
      var (e2, rest) := O.FinalOut(conf, e0);
      RunAppend(D(conf.t), d, out, rest);
      assert Contents(units) + [] == Contents(units);
      e1, d1, file := e2, Run(D(conf.t), d0, rest).0, out + rest;
    } else {
      e1, d1, file := e0, d0, out;
    }
  }

  lemma EncodedIs(conf: O.Conf, e: O.OutState, s: seq<nat>, end: bool)
    requires conf.Ok() && O.GsOk(e) && AreBytes(s) && O.GsOk(Run(O.Out(conf), e, s).0)
    ensures var (e1, out) := Run(O.Out(conf), e, s);
      O.Encoded(conf, e, s, end).1 == if end then out + O.FinalOut(conf, e1).1 else out
  {
    hide Run, O.Out, O.FinalOut;
  }

  lemma Flushed(conf: O.Conf, e: O.OutState, d: InState, file: seq<nat>)
    requires conf.Ok() && Sync(conf, e, d) && Run(D(conf.t), FirstIn(conf), file).0 == d
    ensures Output(In(conf.t, EolLf), FlushCh(), FirstIn(conf), file, true) == Run(D(conf.t), FirstIn(conf), file).1
  {
    QuietEnd(conf, e, d);
    hide Run, In, Sync, FlushCh;
    var text := Run(D(conf.t), FirstIn(conf), file).1;
    assert text + [] == text;
  }

  lemma {:induction false} TextPrefix(conf: O.Conf, units: seq<Unit>, n: nat, open: bool)
    requires conf.Ok() && Text(conf, units, open) && n < |units|
    ensures Text(conf, units[..n], open)
    ensures Contents(units[..n + 1]) == Contents(units[..n]) + Written(units[n])
    decreases n
  {
    hide UnitOk, Written;
    if n == 0 {
      assert units[..1][1..] == [] && Contents([]) == [];
      assert Written(units[0]) + [] == [] + Written(units[0]);
    } else {
      TextPrefix(conf, units[1..], n - 1, units[0].Mark? || Composed(units[0]));
      assert units[..n][1..] == units[1..][..n - 1] && units[..n + 1][1..] == units[1..][..n];
      assert units[1..][n - 1] == units[n];
    }
  }

  /** Within a composite character the line end closes it first. */
  lemma LineEnds(conf: O.Conf, e: O.OutState, d: InState)
    requires Supported(conf) && Sync(conf, e, d) && conf.form.asciiEol
    ensures conf.Ok() && AtStart(conf, O.Out(conf)(e, LF).0)
  {
    ClosedSync(conf, e, d);
    assert conf.Ok() && !conf.selective && O.GsOk(e.(comp := O.CMP_NONE));
    LineAtStart(conf, e.(comp := O.CMP_NONE));
    hide O.MainStep, AtStart;
  }

  lemma UnitsEnd(units: seq<Unit>)
    requires units != [] && units[|units| - 1] == Ascii(LF, false)
    ensures units[..|units|] == units && Written(units[|units| - 1]) == [LF]
  {
  }

  /** Under CODE_ASCII_EOL what follows a line end can be read alone, by a decoder that has not seen what comes
      before. */
  lemma LinesAlone(conf: O.Conf, i0: bool, i1: bool, i2: bool, i3: bool, boundary: bool, units: seq<Unit>,
                   rest: seq<Unit>)
    requires Supported(conf) && conf.o0 != LCINV && conf.form.asciiEol && Text(conf, units, false)
      && Text(conf, rest, false)
    requires units != [] && units[|units| - 1] == Ascii(LF, false)
    ensures conf.Ok()
    ensures var e1 := Run(O.Out(conf), FirstOut(conf, i0, i1, i2, i3, boundary), Contents(units)).0;
      var (e2, out) := Run(O.Out(conf), e1, Contents(rest));
      Output(In(conf.t, EolLf), FlushCh(), FirstIn(conf), out, true) == Contents(rest)
  {
    var e, d, n := FirstOut(conf, i0, i1, i2, i3, boundary), FirstIn(conf), |units| - 1;
    FirstSync(conf, e);
    assert conf.Ok();
    hide *;
    TextPrefix(conf, units, n, false);
    TextRead(conf, e, d, units[..n], false);
    var (e0, out0) := Run(O.Out(conf), e, Contents(units[..n]));
    LineEnds(conf, e0, Run(D(conf.t), d, out0).0);
    UnitsEnd(units);
    RunSnocs(O.Out(conf), e, Contents(units[..n]), LF);
    TextRead(conf, e, d, units, false);
    var (e1, out1) := Run(O.Out(conf), e, Contents(units));
    StartSyncIn(conf, e1, Run(D(conf.t), d, out1).0);
    TextRead(conf, e1, d, rest, false);
    var (e2, out2) := Run(O.Out(conf), e1, Contents(rest));
    Flushed(conf, e2, Run(D(conf.t), d, out2).0, out2);
  }
}
