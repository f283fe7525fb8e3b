// a2g and g2a: line ends only.

module EolConversion {
  import opened Conversion
  import opened TextFiles

  /** a2g, one byte; the state says whether a CR is being held back. */
  function InStep(eol: Eol, held: bool, c: nat): (bool, seq<nat>) {
    if !eol.EolCrLf? && !eol.EolCr? then (held, [c])
    else if c == CR then
      if eol.EolCr? then (held, [LF])
      else if held then (held, [c])
      else (true, [])
    else if held then (false, if c != LF then [CR, c] else [c])
    else (held, [c])
  }

  function In(eol: Eol): (bool, nat) -> (bool, seq<nat>) { (held, c) => InStep(eol, held, c) }

  lemma {:induction false} PlainCopy(eol: Eol, held: bool, s: seq<nat>)
    requires !eol.EolCrLf? && !eol.EolCr?
    ensures Run(In(eol), held, s) == (held, s)
  {
    if s != [] {
      PlainCopy(eol, held, s[..|s| - 1]);
      assert s == s[..|s| - 1] + [s[|s| - 1]];
    }
  }

  method BCopy(src: seq<nat>, dst: array<nat>)
    requires |src| <= dst.Length
    modifies dst
    ensures dst[..|src|] == src
  {
    var i := 0;
    while i < |src|
      invariant 0 <= i <= |src| && dst[..i] == src[..i]
    {
      dst[i] := src[i];
      i := i + 1;
    }
  }

  /** One round of the loop of a2g. */
  method InByte(eol: Eol, cr0: bool, c: nat, dst: array<nat>, dp0: nat) returns (cr: bool, dp: nat)
    requires dp0 + 2 <= dst.Length && (eol.EolCrLf? || eol.EolCr?)
    modifies dst
    ensures dp0 <= dp <= dp0 + 2
    ensures var (st, out) := InStep(eol, cr0, c); st == cr && dst[..dp] == old(dst[..dp0]) + out
  {
    cr, dp := cr0, dp0;
    if c == CR {
      if eol.EolCr? {
        dst[dp] := LF;
        dp := dp + 1;
      } else {
        if cr {
          dst[dp] := c;
          dp := dp + 1;
        } else {
          cr := true;
        }
      }
    } else {
      if cr {
        if c != LF {
          dst[dp] := CR;
          dp := dp + 1;
        }
        cr := false;
      }
      dst[dp] := c;
      dp := dp + 1;
    }
  }

  method Convert(eol: Eol, cr0: bool, src: seq<nat>, dst: array<nat>) returns (cr: bool, dp: nat)
    requires dst.Length >= 2 * |src| && (eol.EolCrLf? || eol.EolCr?)
    modifies dst
    ensures dp <= 2 * |src| && (cr, dst[..dp]) == Run(In(eol), cr0, src)
  {
    hide Run, InStep, In;
    dp, cr := 0, cr0;
    var i := 0;
    RunNothing(In(eol), cr0, src);
    while i < |src|
      invariant 0 <= i <= |src| && 0 <= dp <= 2 * i
      invariant Run(In(eol), cr0, src[..i]) == (cr, dst[..dp])
    {
      RunSnoc(In(eol), cr0, src, i);
      InIs(eol, cr, src[i]);
      cr, dp := InByte(eol, cr, src[i], dst, dp);
      i := i + 1;
    }
    assert src[..i] == src;
  }

  method A2G(src: seq<nat>, dst: array<nat>, code: CodingType) returns (len: nat)
    requires dst.Length >= ConvBufSize(|src|)
    modifies dst, code`cntl
    ensures len <= 2 * |src| && len <= dst.Length
    ensures dst[..len] == Output(In(code.form.eol), NoFlush(), old(code.cntl.cr), src, code.cntl.end)
    ensures code.cntl == old(code.cntl).(cr := Run(In(code.form.eol), old(code.cntl.cr), src).0)
  {
    hide Run, In;
    var eol := code.form.eol;
    if !eol.EolCrLf? && !eol.EolCr? {
      BCopy(src, dst);
      PlainCopy(eol, code.cntl.cr, src);
      len := |src|;
    } else {
      var cr;
      cr, len := Convert(eol, code.cntl.cr, src, dst);
      code.cntl := code.cntl.(cr := cr);
    }
    assert dst[..len] + [] == dst[..len];
  }

  lemma InIs(eol: Eol, held: bool, c: nat)
    ensures In(eol)(held, c) == InStep(eol, held, c)
  {
  }

  // ---- g2a ----

  /** g2a, one byte: the output has no state. */
  function Out(eol: Eol, selective: bool, c: nat): seq<nat> {
    var c1 := if selective && c == CR then LF else c;
    if c1 == LF then (if eol.EolCrLf? then [CR, LF] else if eol.EolCr? then [CR] else [LF]) else [c1]
  }

  function OutAll(eol: Eol, selective: bool, s: seq<nat>): seq<nat> {
    if s == [] then [] else OutAll(eol, selective, s[..|s| - 1]) + Out(eol, selective, s[|s| - 1])
  }

  lemma OutSnoc(eol: Eol, selective: bool, s: seq<nat>, i: nat)
    requires i < |s|
    ensures OutAll(eol, selective, s[..i + 1]) == OutAll(eol, selective, s[..i]) + Out(eol, selective, s[i])
  {
    assert s[..i + 1][..i] == s[..i];
  }

  /** Without CR LF line ends, every byte stays one byte. */
  lemma {:induction false} SameLength(eol: Eol, selective: bool, s: seq<nat>)
    requires !eol.EolCrLf?
    ensures |OutAll(eol, selective, s)| == |s|
    ensures forall i :: 0 <= i < |s| ==> OutAll(eol, selective, s)[i] == Out(eol, selective, s[i])[0]
  {
    if s != [] { SameLength(eol, selective, s[..|s| - 1]); }
  }

  method G2A(src: seq<nat>, dst: array<nat>, code: CodingType) returns (len: nat)
    requires dst.Length >= ConvBufSize(|src|)
    modifies dst
    ensures len <= 2 * |src| && len <= dst.Length
    ensures dst[..len] == OutAll(code.form.eol, code.cntl.selective, src)
  {
    var selective, eol := code.cntl.selective, code.form.eol;
    if !eol.EolCrLf? {
      BCopy(src, dst);
      Replace(src, dst, eol, selective);
      return |src|;
    }
    var dp, i := 0, 0;
    while i < |src|
      invariant 0 <= i <= |src| && 0 <= dp <= 2 * i
      invariant dst[..dp] == OutAll(eol, selective, src[..i])
    {
      OutSnoc(eol, selective, src, i);
      var c := src[i];
      if selective && c == CR { c := LF; }
      if c == LF {
        dst[dp] := CR;
        dp := dp + 1;
      }
      dst[dp] := c;
      dp := dp + 1;
      i := i + 1;
    }
    assert src[..i] == src;
    return dp;
  }

  /** The two passes over the copy: CR becomes LF, then LF becomes CR. */
  method Replace(src: seq<nat>, dst: array<nat>, eol: Eol, selective: bool)
    requires |src| <= dst.Length && dst[..|src|] == src && !eol.EolCrLf?
    modifies dst
    ensures dst[..|src|] == OutAll(eol, selective, src)
  {
    var i := 0;
    assert forall k :: 0 <= k < |src| ==> dst[..|src|][k] == dst[k];
    if selective {
      while i < |src|
        invariant 0 <= i <= |src|
        invariant forall k :: 0 <= k < |src| ==> dst[k] == if k < i && src[k] == CR then LF else src[k]
      {
        if dst[i] == CR { dst[i] := LF; }
        i := i + 1;
      }
    }
    ghost var mid := dst[..|src|];
    if eol.EolCr? {
      i := 0;
      while i < |src|
        invariant 0 <= i <= |src|
        invariant forall k :: 0 <= k < |src| ==> dst[k] == if k < i && mid[k] == LF then CR else mid[k]
      {
        if dst[i] == LF { dst[i] := CR; }
        i := i + 1;
      }
    }
    SameLength(eol, selective, src);
  }

  // ---- the round trip ----

  lemma ReadBackOne(held: bool, c: nat)
    ensures Run(In(EolCrLf), held, Out(EolCrLf, false, c))
      == if c == CR then (true, if held then [CR] else [])
         else (false, if held then [CR, c] else [c])
  {
    if c == LF {
      RunCons(In(EolCrLf), held, CR, [LF]);
      RunOne(In(EolCrLf), true, LF);
      assert [CR] + [LF] == [CR, LF];
    } else {
      RunOne(In(EolCrLf), held, c);
    }
  }

  /** What a text ending in CR leaves held back. */
  function ButLastCr(s: seq<nat>): (bool, seq<nat>) {
    if s != [] && s[|s| - 1] == CR then (true, s[..|s| - 1]) else (false, s)
  }

  lemma ButLastCrSnoc(t: seq<nat>, c: nat)
    ensures var (held, u) := ButLastCr(t);
      ButLastCr(t + [c]) == if c == CR then (true, u + (if held then [CR] else []))
        else (false, u + (if held then [CR, c] else [c]))
  {
    var (held, u) := ButLastCr(t);
    if held {
      assert t == u + [CR];
      assert u + [CR, c] == t + [c];
    } else {
      assert u + [] == u;
    }
    assert (t + [c])[..|t|] == t;
  }

  /** Reading back what was written under CR LF: a text comes back, but for a CR at its very end. */
  lemma {:induction false} ReadBack(s: seq<nat>)
    ensures Run(In(EolCrLf), false, OutAll(EolCrLf, false, s)) == ButLastCr(s)
  {
    hide ButLastCr;
    if s == [] {
      assert OutAll(EolCrLf, false, s) == [];
      assert ButLastCr(s) == (false, []) by { NothingHeld(); }
    } else {
      var n := |s| - 1;
      var t, c := s[..n], s[n];
      assert s == t + [c];
      ReadBack(t);
      ButLastCrSnoc(t, c);
      hide Run, Out;
      RunAppend(In(EolCrLf), false, OutAll(EolCrLf, false, t), Out(EolCrLf, false, c));
      ReadBackOne(ButLastCr(t).0, c);
    }
  }

  lemma NothingHeld()
    ensures ButLastCr([]) == (false, [])
  {
  }

  /** a2g undoes g2a under CR LF exactly for the texts that do not end in CR. */
  lemma RoundTrip(s: seq<nat>, end: bool)
    ensures Output(In(EolCrLf), NoFlush(), false, OutAll(EolCrLf, false, s), end) == s
      <==> !(s != [] && s[|s| - 1] == CR)
  {
    ReadBack(s);
  }

  // ---- lines ----

  lemma LastOfBoth(x: seq<nat>, y: seq<nat>)
    requires y != []
    ensures var n, z := |y| - 1, x + y;
      |x| + n < |z| && z[..|x| + n] == x + y[..n] && z[..|x| + n + 1] == z && z[|x| + n] == y[n] && y[..n + 1] == y
  {
  }

  lemma {:induction false} OutBoth(eol: Eol, selective: bool, x: seq<nat>, y: seq<nat>)
    ensures OutAll(eol, selective, x + y) == OutAll(eol, selective, x) + OutAll(eol, selective, y)
  {
    if y == [] {
      assert x + y == x && OutAll(eol, selective, x) + [] == OutAll(eol, selective, x);
    } else {
      hide *;
      var n, z := |y| - 1, x + y;
      LastOfBoth(x, y);
      OutBoth(eol, selective, x, y[..n]);
      OutSnoc(eol, selective, z, |x| + n);
      OutSnoc(eol, selective, y, n);
      Grouped(OutAll(eol, selective, x), OutAll(eol, selective, y[..n]), Out(eol, selective, y[n]));
    }
  }

  lemma Grouped(p: seq<nat>, q: seq<nat>, r: seq<nat>)
    ensures (p + q) + r == p + (q + r)
  {
  }

  /** Nothing but line ends and other ASCII characters. */
  predicate ItemOk(eol: Eol,
                   item: Item) { item.Line? || (item.Plain? && (item.c == CR ==> !eol.EolCr?) && item.c != LF) }

  lemma ItemConverts(eol: Eol, held: bool, item: Item)
    requires Fixed(eol) && ItemOk(eol, item) && (held ==> eol.EolCrLf?)
    ensures var (st, out) := Run(In(eol), held, InFile(eol, item));
      st == HeldAfter(eol, item) && out + Held(st) == Held(held) + InBuffer(item)
    ensures OutAll(eol, false, InBuffer(item)) == InFile(eol, item)
  {
    if item.Line? {
      OutOne(eol, LF);
      if eol.EolCrLf? {
        LineConverts(held);
        assert (Held(held) + [LF]) + [] == Held(held) + [LF];
      } else {
        RunOne(In(eol), held, LineEnd(eol)[0]);
        assert LineEnd(eol) == [LineEnd(eol)[0]];
        assert [LF] + [] == [] + [LF];
      }
    } else {
      OutOne(eol, item.c);
      PlainConverts(eol, held, item.c);
    }
  }

  lemma PlainConverts(eol: Eol, held: bool, c: nat)
    requires Fixed(eol) && (c == CR ==> !eol.EolCr?) && c != LF && (held ==> eol.EolCrLf?)
    ensures var (st, out) := Run(In(eol), held, [c]);
      st == (eol.EolCrLf? && c == CR) && out + Held(st) == Held(held) + [c]
  {
    RunOne(In(eol), held, c);
    hide Run;
    if held && c != CR {
      assert [CR, c] + [] == [CR] + [c];
    } else if !held && c == CR && eol.EolCrLf? {
      assert [] + [CR] == [] + [c];
    } else if !held {
      assert [c] + [] == [] + [c];
    }
  }

  lemma OutOne(eol: Eol, c: nat)
    ensures OutAll(eol, false, [c]) == Out(eol, false, c)
  {
    assert [c][..0] == [] && OutAll(eol, false, []) == [];
    OutSnoc(eol, false, [c], 0);
    assert [c][..1] == [c] && [] + Out(eol, false, c) == Out(eol, false, c);
  }

  lemma LineConverts(held: bool)
    ensures Run(In(EolCrLf), held, [CR, LF]) == (false, Held(held) + [LF])
  {
    hide Run;
    assert [CR, LF] == [CR] + [LF];
    RunCons(In(EolCrLf), held, CR, [LF]);
    RunOne(In(EolCrLf), true, LF);
  }

  /** a2g reads a file as the lines it holds, but for a CR at its very end, and g2a writes them as that file. */
  lemma {:induction false} Lines(eol: Eol, held: bool, items: seq<Item>)
    requires Fixed(eol) && (held ==> eol.EolCrLf?) && forall i :: 0 <= i < |items| ==> ItemOk(eol, items[i])
    ensures var (st, out) := Run(In(eol), held, FileText(eol, items));
      && out + Held(st) == Held(held) + BufferText(items)
      && (st <==> if items == [] then held else HeldAfter(eol, items[|items| - 1]))
    ensures OutAll(eol, false, BufferText(items)) == FileText(eol, items)
    decreases |items|
  {
    if items == [] {
      RunNothing(In(eol), held, []);
      assert [] + Held(held) == Held(held) + [];
    } else {
      var x, rest := items[0], items[1..];
      assert ItemOk(eol, x);
      assert rest == [] ==> x == items[|items| - 1];
      assert rest != [] ==> rest[|rest| - 1] == items[|items| - 1];
      hide *;
      HeldMeans(eol, x);
      ItemConverts(eol, held, x);
      var (st, out) := Run(In(eol), held, InFile(eol, x));
      Lines(eol, st, rest);
      TextsOf(eol, items);
      RunAppend(In(eol), held, InFile(eol, x), FileText(eol, rest));
      OutBoth(eol, false, InBuffer(x), BufferText(rest));
      var (st1, more) := Run(In(eol), st, FileText(eol, rest));
      Joined(out, more, Held(st1), Held(st), BufferText(rest), InBuffer(x), Held(held));
    }
  }

  lemma Joined(out: seq<nat>, more: seq<nat>, left: seq<nat>, mid: seq<nat>, rest: seq<nat>, u: seq<nat>, h: seq<nat>)
    requires out + mid == h + u && more + left == mid + rest
    ensures (out + more) + left == h + (u + rest)
  {
    assert (out + more) + left == out + (more + left);
    Regroup(out, mid, h, u, rest);
  }

  /** Where CR stands for a line end in the buffer, g2a writes as if LF stood there. */
  lemma SelectiveOut(eol: Eol, c: nat)
    ensures Out(eol, true, c) == Out(eol, false, if c == CR then LF else c)
  {
  }
}
