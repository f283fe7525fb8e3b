// Where g2i puts the set of a character.

module Iso2022Place {
  import opened Conversion
  import O = Iso2022Out

  /** The set is, or was at first, in this place. */
  predicate Belongs(conf: O.Conf, e: O.OutState, lc: nat, g: nat) {
    g < 4 && (O.Current(e, g) == lc || O.Initial(conf, g) == lc)
  }

  /** A place for any set: one that is in use.  A seven-bit code can use G1 only by shifting out. */
  predicate Free(conf: O.Conf, e: O.OutState, g: nat) {
    1 <= g < 4 && O.Current(e, g) != LCINV && (g == 1 && conf.form.seven ==> conf.form.lockShift)
  }

  /** The flag that says that the place has not been designated in this text. */
  function Undesignated(e: O.OutState, g: nat): bool {
    if g == 0 then e.i0 else if g == 1 then e.i1 else if g == 2 then e.i2 else e.i3
  }

  /** What a shift function or designation leaves. */
  predicate PutIn(conf: O.Conf, e: O.OutState, lc: nat, g: nat, r: (O.OutState, seq<nat>)) {
    && r.0.graphic == g && O.Current(r.0, g) == lc
    && (forall h :: 0 <= h < 4 && h != g ==> O.Current(r.0, h) == O.Current(e, h))
    && (g == 0 ==> !r.0.shift) && (g == 1 ==> r.0.shift == conf.form.seven) && (g >= 2 ==> r.0.shift == e.shift)
    && (O.Current(e, g) == lc ==> |r.1| <= 2)
  }

  lemma ShiftsPut(conf: O.Conf, e: O.OutState, lc: nat)
    requires conf.t.Ok() && O.GsOk(e) && lc < 256
    ensures PutIn(conf, e, lc, 0, O.Designation0(conf, e, lc))
    ensures PutIn(conf, e, lc, 1, if conf.form.seven then O.LockingShift(conf, e, lc) else O.Designation1(conf, e, lc))
    ensures PutIn(conf, e, lc, 2, O.SingleShift2(conf, e, lc)) && PutIn(conf, e, lc, 3, O.SingleShift3(conf, e, lc))
  {
    hide O.Designate;
  }

  /** The place with its designation forgotten, if it has not been designated in this text. */
  function Forgotten(e: O.OutState, g: nat): O.OutState {
    if !Undesignated(e, g) then e
    else if g == 0 then e.(g0 := LCINV, i0 := false)
    else if g == 1 then e.(g1 := LCINV, i1 := false)
    else if g == 2 then e.(g2 := LCINV, i2 := false)
    else e.(g3 := LCINV, i3 := false)
  }

  lemma ForgottenIs(e: O.OutState, g: nat)
    requires O.GsOk(e) && g < 4
    ensures var e1 := Forgotten(e, g);
      && O.GsOk(e1) && e1.shift == e.shift && (forall h :: 0 <= h < 4 && h != g ==> O.Current(e1, h) == O.Current(e, h))
      && (!Undesignated(e, g) ==> e1 == e)
  {
  }

  /** A set goes to the first place where it belongs.  One that belongs nowhere goes to G0 if it is a set for G0, and
      else to the first free place, if there is one. */
  predicate Chosen(conf: O.Conf, e: O.OutState, lc: nat, g: nat)
    requires conf.t.Ok() && lc < 256
  {
    || (Belongs(conf, e, lc, g) && forall h :: 0 <= h < g ==> !Belongs(conf, e, lc, h))
    || ((forall h :: 0 <= h < 4 ==> !Belongs(conf, e, lc, h))
        && if conf.t.graphic[lc] != 0 && exists h :: 1 <= h < 4 && Free(conf, e, h)
           then Free(conf, e, g) && forall h :: 1 <= h < g ==> !Free(conf, e, h)
           else g == 0)
  }

  /** Where it is already nothing is designated, unless for the first time in the text; no other place changes. */
  lemma PlaceIs(conf: O.Conf, e: O.OutState, lc: nat, g: nat)
    requires conf.t.Ok() && O.GsOk(e) && lc < 256 && g < 4 && Chosen(conf, e, lc, g)
    ensures var (e1, out) := O.Place(conf, e, lc);
      && e1.graphic == g && O.InUse(e1) == lc
      && (forall h :: 0 <= h < 4 && h != g ==> O.Current(e1, h) == O.Current(e, h))
      && (g == 0 ==> !e1.shift) && (g == 1 ==> e1.shift == conf.form.seven) && (g >= 2 ==> e1.shift == e.shift)
      && (O.Current(e, g) == lc && !Undesignated(e, g) ==> |out| <= 2)
  {
    var e1 := if Belongs(conf, e, lc, g) then Forgotten(e, g) else e;
    ForgottenIs(e, g);
    NotThere(conf, e, lc, g);
    PlacePuts(conf, e, lc, g);
    hide O.Place, Chosen, Belongs, Forgotten, Undesignated, O.GsOk;
  }

  lemma NotThere(conf: O.Conf, e: O.OutState, lc: nat, g: nat)
    requires g < 4
    ensures O.Current(e, g) == lc ==> Belongs(conf, e, lc, g)
  {
  }

  lemma PlacePuts(conf: O.Conf, e: O.OutState, lc: nat, g: nat)
    requires conf.t.Ok() && O.GsOk(e) && lc < 256 && g < 4 && Chosen(conf, e, lc, g)
    ensures PutIn(conf, if Belongs(conf, e, lc, g) then Forgotten(e, g) else e, lc, g, O.Place(conf, e, lc))
  {
    hide *;
    PlaceGoes(conf, e, lc, g);
    ShiftsPut(conf, if Belongs(conf, e, lc, g) then Forgotten(e, g) else e, lc);
  }

  lemma PlaceGoes(conf: O.Conf, e: O.OutState, lc: nat, g: nat)
    requires conf.t.Ok() && O.GsOk(e) && lc < 256 && g < 4 && Chosen(conf, e, lc, g)
    ensures var e1 := if Belongs(conf, e, lc, g) then Forgotten(e, g) else e;
      O.GsOk(e1) && O.Place(conf, e, lc) == if g == 0 then O.Designation0(conf, e1, lc)
        else if g == 1 then (if conf.form.seven then O.LockingShift(conf, e1, lc) else O.Designation1(conf, e1, lc))
        else if g == 2 then O.SingleShift2(conf, e1, lc) else O.SingleShift3(conf, e1, lc)
  {
    ForgottenIs(e, g);
    hide O.Designation0, O.Designation1, O.LockingShift, O.SingleShift2, O.SingleShift3;
    if !Belongs(conf, e, lc, g) {
      assert !Belongs(conf, e, lc, 0) && !Belongs(conf, e, lc, 1);
      assert !Belongs(conf, e, lc, 2) && !Belongs(conf, e, lc, 3);
      assert Free(conf, e, 1) || Free(conf, e, 2) || Free(conf, e, 3) || forall h :: 1 <= h < 4 ==> !Free(conf, e, h);
    } else {
      assert g > 0 ==> !Belongs(conf, e, lc, 0);
      assert g > 1 ==> !Belongs(conf, e, lc, 1);
      assert g > 2 ==> !Belongs(conf, e, lc, 2);
    }
  }
}
