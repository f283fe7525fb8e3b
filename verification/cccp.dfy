// cpp/cccp.c: a macro body is compiled into the text without its formals and a list saying where they go;
// a call puts the actuals back.

module MacroExpansion {

  predicate IsIdStart(c: char) { 'a' <= c <= 'z' || 'A' <= c <= 'Z' || c == '_' }

  predicate IsIdChar(c: char) { IsIdStart(c) || '0' <= c <= '9' }

  /** struct reflist: copy `nchars` characters, then argument number `argno` (from 1). */
  datatype Ref = Ref(nchars: nat, argno: nat)

  /** struct definition, for a macro with a formal list. */
  datatype Definition = Definition(nargs: nat, expansion: string, pattern: seq<Ref>)

  // ---- what a macro call means ----

  /** The end of the run of identifier characters at p. */
  function RunEnd(s: string, p: nat): (e: nat)
    requires p <= |s|
    ensures p <= e <= |s| && (forall k :: p <= k < e ==> IsIdChar(s[k]))
    ensures e < |s| ==> !IsIdChar(s[e])
    decreases |s| - p
  {
    if p < |s| && IsIdChar(s[p]) then RunEnd(s, p + 1) else p
  }

  /** The number of the formal with this name, 0 if there is none; of two with the same name the later one counts. */
  function FormalNo(formals: seq<string>, name: string): (k: nat)
    ensures k <= |formals|
    ensures k > 0 ==> formals[k - 1] == name && forall j :: k <= j < |formals| ==> formals[j] != name
    ensures k == 0 ==> name !in formals
  {
    if formals == [] then 0
    else
      var n := |formals| - 1;
      if formals[n] == name then n + 1
      else
        assert formals == formals[..n] + [formals[n]];
        FormalNo(formals[..n], name)
  }

  /** An identifier that is a formal stands for its actual, any other word for itself. */
  function Meaning(word: string, formals: seq<string>, actuals: seq<string>): string
    requires |word| > 0 && |actuals| >= |formals|
  {
    var k := FormalNo(formals, word);
    if IsIdStart(word[0]) && k > 0 then actuals[k - 1] else word
  }

  /** The body with each whole identifier that names a formal replaced by its actual. */
  function Replaced(body: string, formals: seq<string>, actuals: seq<string>): string
    requires |actuals| >= |formals|
    decreases |body|
  {
    if body == "" then ""
    else if !IsIdChar(body[0]) then body[..1] + Replaced(body[1..], formals, actuals)
    else
      var e := RunEnd(body, 1);
      Meaning(body[..e], formals, actuals) + Replaced(body[e..], formals, actuals)
  }

  // ---- what a definition means ----

  function Total(pattern: seq<Ref>): nat {
    if pattern == [] then 0 else Total(pattern[..|pattern| - 1]) + pattern[|pattern| - 1].nchars
  }

  predicate PatternOk(d: Definition) {
    Total(d.pattern) <= |d.expansion| && forall r :: r in d.pattern ==> 1 <= r.argno <= d.nargs
  }

  /** The text a pattern stands for, up to and including its last argument. */
  function Filled(d: Definition, n: nat, actuals: seq<string>): string
    requires PatternOk(d) && n <= |d.pattern| && |actuals| >= d.nargs
    decreases n
  {
    if n == 0 then ""
    else
      TotalGrows(d.pattern, n - 1, n);
      TotalGrows(d.pattern, n, |d.pattern|);
      assert d.pattern[..|d.pattern|] == d.pattern;
      assert d.pattern[n - 1] in d.pattern;
      Filled(d, n - 1, actuals) + d.expansion[Total(d.pattern[..n - 1])..Total(d.pattern[..n])]
        + actuals[d.pattern[n - 1].argno - 1]
  }

  lemma {:induction false} TotalGrows(pattern: seq<Ref>, i: nat, j: nat)
    requires i <= j <= |pattern|
    ensures Total(pattern[..i]) <= Total(pattern[..j])
    ensures i < |pattern| ==> Total(pattern[..i + 1]) == Total(pattern[..i]) + pattern[i].nchars
    decreases j - i
  {
    if i < |pattern| { assert pattern[..i + 1][..i] == pattern[..i]; }
    if i < j { TotalGrows(pattern, i + 1, j); }
  }

  /** The expansion of a call. */
  function Instance(d: Definition, actuals: seq<string>): string
    requires PatternOk(d) && |actuals| >= d.nargs
  {
    Filled(d, |d.pattern|, actuals) + d.expansion[Total(d.pattern)..]
  }

  function ArgTotal(d: Definition, n: nat, actuals: seq<string>): nat
    requires PatternOk(d) && n <= |d.pattern| && |actuals| >= d.nargs
  {
    if n == 0 then 0
    else
      assert d.pattern[n - 1] in d.pattern;
      ArgTotal(d, n - 1, actuals) + |actuals[d.pattern[n - 1].argno - 1]|
  }

  /** The rescan buffer needs the text of the definition plus the arguments, and no more. */
  lemma {:induction false} FilledLength(d: Definition, n: nat, actuals: seq<string>)
    requires PatternOk(d) && n <= |d.pattern| && |actuals| >= d.nargs
    ensures Total(d.pattern[..n]) <= |d.expansion|
    ensures |Filled(d, n, actuals)| == Total(d.pattern[..n]) + ArgTotal(d, n, actuals)
    ensures ArgTotal(d, n, actuals) <= ArgTotal(d, |d.pattern|, actuals)
    decreases n
  {
    assert d.pattern[..|d.pattern|] == d.pattern;
    TotalGrows(d.pattern, n, |d.pattern|);
    ArgsGrow(d, n, actuals);
    if n > 0 {
      FilledLength(d, n - 1, actuals);
      TotalGrows(d.pattern, n - 1, n);
    }
  }

  lemma {:induction false} ArgsGrow(d: Definition, n: nat, actuals: seq<string>)
    requires PatternOk(d) && n <= |d.pattern| && |actuals| >= d.nargs
    ensures ArgTotal(d, n, actuals) <= ArgTotal(d, |d.pattern|, actuals)
    decreases |d.pattern| - n
  {
    if n < |d.pattern| { ArgsGrow(d, n + 1, actuals); }
  }

  // ---- macroexpand ----

  method BCopy(src: string, from: nat, n: nat, dst: array<char>, at: nat)
    requires from + n <= |src| && at + n <= dst.Length
    modifies dst
    ensures dst[..at + n] == old(dst[..at]) + src[from..from + n]
  {
    var k := 0;
    while k < n
      invariant 0 <= k <= n
      invariant dst[..at + k] == old(dst[..at]) + src[from..from + k]
    {
      dst[at + k] := src[from + k];
      k := k + 1;
    }
  }

  method BufferLength(d: Definition, actuals: seq<string>) returns (n: nat)
    requires PatternOk(d) && |actuals| >= d.nargs
    ensures n == |d.expansion| + 1 + ArgTotal(d, |d.pattern|, actuals)
  {
    n := |d.expansion| + 1;
    var i := 0;
    while i < |d.pattern|
      invariant 0 <= i <= |d.pattern| && n == |d.expansion| + 1 + ArgTotal(d, i, actuals)
    {
      RefOk(d, i);
      n := n + |actuals[d.pattern[i].argno - 1]|;
      i := i + 1;
    }
  }

  /** A piece of the text, then the argument that follows it. */
  method AppendPiece(d: Definition, actuals: seq<string>, i: nat, xbuf: array<char>, totlen0: nat, offset0: nat)
    returns (totlen: nat, offset: nat)
    requires PatternOk(d) && |actuals| >= d.nargs && i < |d.pattern|
    requires offset0 == Total(d.pattern[..i]) && totlen0 == offset0 + ArgTotal(d, i, actuals) <= xbuf.Length
    requires xbuf[..totlen0] == Filled(d, i, actuals)
    requires xbuf.Length == |d.expansion| + 1 + ArgTotal(d, |d.pattern|, actuals)
    modifies xbuf
    ensures offset == Total(d.pattern[..i + 1]) <= |d.expansion|
    ensures totlen == offset + ArgTotal(d, i + 1, actuals) < xbuf.Length
    ensures xbuf[..totlen] == Filled(d, i + 1, actuals)
  {
    RefOk(d, i);
    FilledStep(d, i, actuals);
    FilledLength(d, i + 1, actuals);
    hide Total, Filled, PatternOk;
    var ap := d.pattern[i];
    BCopy(d.expansion, offset0, ap.nchars, xbuf, totlen0);
    totlen := totlen0 + ap.nchars;
    offset := offset0 + ap.nchars;
    if ap.argno > 0 {
      ghost var before := xbuf[..totlen];
      BCopy(actuals[ap.argno - 1], 0, |actuals[ap.argno - 1]|, xbuf, totlen);
      assert actuals[ap.argno - 1][0..|actuals[ap.argno - 1]|] == actuals[ap.argno - 1];
      totlen := totlen + |actuals[ap.argno - 1]|;
    }
  }

  /** The pattern instantiation in macroexpand.  The buffer is never overrun, so the branch the code calls
      impossible is. */
  method Instantiate(d: Definition, actuals: seq<string>) returns (xbuf: array<char>, totlen: nat, impossible: bool)
    requires PatternOk(d) && |actuals| >= d.nargs
    ensures !impossible && totlen < xbuf.Length
    ensures xbuf[..totlen] == Instance(d, actuals)
    ensures xbuf.Length == |d.expansion| + 1 + ArgTotal(d, |d.pattern|, actuals)
  {
    hide Total, Filled, PatternOk, ArgTotal;
    var xbufLen := BufferLength(d, actuals);
    xbuf := new char[xbufLen];
    var offset: nat := 0;
    totlen, impossible := 0, false;
    var i: nat := 0;
    Start(d, actuals);
    while i < |d.pattern|
      invariant i <= |d.pattern| && offset == Total(d.pattern[..i]) <= |d.expansion|
      invariant fresh(xbuf) && xbuf.Length == xbufLen && !impossible
      invariant totlen == offset + ArgTotal(d, i, actuals) < xbufLen
      invariant xbuf[..totlen] == Filled(d, i, actuals)
    {
      totlen, offset := AppendPiece(d, actuals, i, xbuf, totlen, offset);
      if totlen > xbufLen {
        impossible := true;
        return;
      }
      i := i + 1;
    }
    assert d.pattern[..i] == d.pattern;
    ghost var filled := xbuf[..totlen];
    if offset < |d.expansion| {
      BCopy(d.expansion, offset, |d.expansion| - offset, xbuf, totlen);
      totlen := totlen + (|d.expansion| - offset);
      assert d.expansion[offset..offset + (|d.expansion| - offset)] == d.expansion[offset..];
    } else {
      assert d.expansion[offset..] == "" && filled + "" == filled;
    }
    assert xbuf[..totlen] == filled + d.expansion[offset..];
  }

  lemma RefOk(d: Definition, i: nat)
    requires PatternOk(d) && i < |d.pattern|
    ensures 1 <= d.pattern[i].argno <= d.nargs
  {
    assert d.pattern[i] in d.pattern;
  }

  lemma Start(d: Definition, actuals: seq<string>)
    requires PatternOk(d) && |actuals| >= d.nargs
    ensures Total(d.pattern[..0]) == 0 && Filled(d, 0, actuals) == "" && ArgTotal(d, 0, actuals) == 0
  {
  }

  lemma FilledStep(d: Definition, i: nat, actuals: seq<string>)
    requires PatternOk(d) && i < |d.pattern| && |actuals| >= d.nargs && 1 <= d.pattern[i].argno <= d.nargs
    ensures Total(d.pattern[..i + 1]) == Total(d.pattern[..i]) + d.pattern[i].nchars <= |d.expansion|
    ensures Filled(d, i + 1, actuals)
      == Filled(d, i, actuals) + d.expansion[Total(d.pattern[..i])..Total(d.pattern[..i + 1])]
        + actuals[d.pattern[i].argno - 1]
  {
    TotalGrows(d.pattern, i, i + 1);
    TotalGrows(d.pattern, i + 1, |d.pattern|);
    assert d.pattern[..|d.pattern|] == d.pattern;
  }

  // ---- collect_expansion ----

  lemma {:induction false} RunEndShift(s: string, p: nat, i: nat)
    requires p + i <= |s|
    ensures RunEnd(s[p..], i) + p == RunEnd(s, p + i)
    decreases |s| - p - i
  {
    if p + i < |s| && IsIdChar(s[p + i]) { RunEndShift(s, p, i + 1); }
  }

  /** What is still to come when the characters before p have been read; p may lie inside a word. */
  function Rest(body: string, p: nat, formals: seq<string>, actuals: seq<string>): string
    requires p <= |body| && |actuals| >= |formals|
  {
    if p > 0 && IsIdChar(body[p - 1]) then
      body[p..RunEnd(body, p)] + Replaced(body[RunEnd(body, p)..], formals, actuals)
    else Replaced(body[p..], formals, actuals)
  }

  lemma ReplacedWord(t: string, formals: seq<string>, actuals: seq<string>)
    requires |actuals| >= |formals| && |t| > 0 && IsIdChar(t[0])
    ensures var e := RunEnd(t, 1);
      Replaced(t, formals, actuals) == Meaning(t[..e], formals, actuals) + Replaced(t[e..], formals, actuals)
  {
  }

  lemma ReplacedChar(t: string, formals: seq<string>, actuals: seq<string>)
    requires |actuals| >= |formals| && |t| > 0 && !IsIdChar(t[0])
    ensures Replaced(t, formals, actuals) == [t[0]] + Replaced(t[1..], formals, actuals)
  {
    assert t[..1] == [t[0]];
  }

  /** Where no word is being read. */
  lemma RestOutside(body: string, p: nat, formals: seq<string>, actuals: seq<string>)
    requires p <= |body| && |actuals| >= |formals|
    requires p == 0 || !IsIdChar(body[p - 1]) || p == |body| || !IsIdChar(body[p])
    ensures Rest(body, p, formals, actuals) == Replaced(body[p..], formals, actuals)
  {
    hide Replaced;
    if p > 0 && IsIdChar(body[p - 1]) {
      assert RunEnd(body, p) == p && body[p..p] == "";
    }
  }

  /** At the start of a word. */
  lemma RestWord(body: string, p: nat, formals: seq<string>, actuals: seq<string>)
    requires p < |body| && |actuals| >= |formals| && IsIdChar(body[p]) && (p == 0 || !IsIdChar(body[p - 1]))
    ensures var e := RunEnd(body, p);
      p < e && Rest(body, p, formals, actuals)
        == Meaning(body[p..e], formals, actuals) + Rest(body, e, formals, actuals)
  {
    var e := RunEnd(body, p);
    assert RunEnd(body, p + 1) == e;
    RunEndShift(body, p, 1);
    assert e < |body| ==> !IsIdChar(body[e]);
    RestIs(body, p, e, formals, actuals);
    hide Replaced, Rest, Meaning, RunEnd, IsIdChar;
    RestOutside(body, p, formals, actuals);
    RestOutside(body, e, formals, actuals);
  }

  lemma RestIs(body: string, p: nat, e: nat, formals: seq<string>, actuals: seq<string>)
    requires p < e <= |body| && |actuals| >= |formals| && IsIdChar(body[p]) && RunEnd(body[p..], 1) + p == e
    ensures Replaced(body[p..], formals, actuals)
      == Meaning(body[p..e], formals, actuals) + Replaced(body[e..], formals, actuals)
  {
    hide Replaced, Meaning, RunEnd;
    assert body[p..][..e - p] == body[p..e] && body[p..][e - p..] == body[e..];
    ReplacedWord(body[p..], formals, actuals);
  }

  lemma InsideWord(body: string, p: nat, formals: seq<string>, actuals: seq<string>)
    requires 0 < p < |body| && |actuals| >= |formals| && IsIdChar(body[p - 1]) && IsIdChar(body[p])
    ensures Rest(body, p, formals, actuals) == [body[p]] + Rest(body, p + 1, formals, actuals)
  {
    var e := RunEnd(body, p);
    assert e == RunEnd(body, p + 1);
    hide Replaced, Rest, RunEnd;
    RestInside(body, p, formals, actuals);
    RestInside(body, p + 1, formals, actuals);
    FirstOfWord(body, p, e);
    Assoc([body[p]], body[p + 1..e], Replaced(body[e..], formals, actuals));
  }

  lemma WordKept(body: string, p: nat, formals: seq<string>, actuals: seq<string>)
    requires p < |body| && |actuals| >= |formals| && IsIdChar(body[p]) && (p == 0 || !IsIdChar(body[p - 1]))
    requires var word := body[p..RunEnd(body, p)]; !IsIdStart(body[p]) || FormalNo(formals, word) == 0
    ensures Rest(body, p, formals, actuals) == [body[p]] + Rest(body, p + 1, formals, actuals)
  {
    var e := RunEnd(body, p);
    assert RunEnd(body, p + 1) == e && RunEnd(body, e) == e;
    hide Replaced, RunEnd, FormalNo, Rest, Meaning, IsIdStart;
    RestWord(body, p, formals, actuals);
    RestOutside(body, e, formals, actuals);
    RestInside(body, p + 1, formals, actuals);
    MeaningKept(body, p, e, formals, actuals);
    Assoc([body[p]], body[p + 1..e], Replaced(body[e..], formals, actuals));
  }

  lemma Assoc(a: string, b: string, c: string)
    ensures (a + b) + c == a + (b + c)
  {
  }

  lemma MeaningKept(body: string, p: nat, e: nat, formals: seq<string>, actuals: seq<string>)
    requires p < e <= |body| && |actuals| >= |formals|
    requires !IsIdStart(body[p]) || FormalNo(formals, body[p..e]) == 0
    ensures Meaning(body[p..e], formals, actuals) == [body[p]] + body[p + 1..e]
  {
    FirstOfWord(body, p, e);
  }

  lemma FirstOfWord(body: string, p: nat, e: nat)
    requires p < e <= |body|
    ensures body[p..e][0] == body[p] && body[p..e] == [body[p]] + body[p + 1..e]
  {
  }

  lemma RestInside(body: string, p: nat, formals: seq<string>, actuals: seq<string>)
    requires 0 < p <= |body| && |actuals| >= |formals| && IsIdChar(body[p - 1])
    ensures Rest(body, p, formals, actuals) == body[p..RunEnd(body, p)]
      + Replaced(body[RunEnd(body, p)..], formals, actuals)
  {
  }

  /** A character that is copied. */
  lemma RestChar(body: string, p: nat, formals: seq<string>, actuals: seq<string>)
    requires p < |body| && |actuals| >= |formals|
    requires IsIdChar(body[p]) && (p == 0 || !IsIdChar(body[p - 1])) ==>
      var word := body[p..RunEnd(body, p)]; !IsIdStart(body[p]) || FormalNo(formals, word) == 0
    ensures Rest(body, p, formals, actuals) == [body[p]] + Rest(body, p + 1, formals, actuals)
  {
    hide FormalNo, Rest, Replaced;
    if !IsIdChar(body[p]) {
      RestOutside(body, p, formals, actuals);
      RestOutside(body, p + 1, formals, actuals);
      ReplacedChar(body[p..], formals, actuals);
      assert body[p..][1..] == body[p + 1..];
    } else if p == 0 || !IsIdChar(body[p - 1]) {
      WordKept(body, p, formals, actuals);
    } else {
      InsideWord(body, p, formals, actuals);
    }
  }

  lemma FilledUnfold(d: Definition, n: nat, actuals: seq<string>)
    requires PatternOk(d) && 0 < n <= |d.pattern| && |actuals| >= d.nargs
    ensures 1 <= d.pattern[n - 1].argno <= d.nargs
    ensures Total(d.pattern[..n - 1]) <= Total(d.pattern[..n]) <= |d.expansion|
    ensures Filled(d, n, actuals)
      == Filled(d, n - 1, actuals) + d.expansion[Total(d.pattern[..n - 1])..Total(d.pattern[..n])]
        + actuals[d.pattern[n - 1].argno - 1]
  {
    RefOk(d, n - 1);
    FilledStep(d, n - 1, actuals);
  }

  lemma SamePiece(s: string, t: string, i: nat, j: nat)
    requires s <= t && i <= j <= |s|
    ensures t[i..j] == s[i..j]
  {
  }

  lemma {:induction false} FilledMore(d: Definition, d': Definition, n: nat, actuals: seq<string>)
    requires PatternOk(d) && PatternOk(d') && |actuals| >= d.nargs == d'.nargs
    requires d.expansion <= d'.expansion && d.pattern <= d'.pattern && n <= |d.pattern|
    ensures Filled(d', n, actuals) == Filled(d, n, actuals)
    decreases n
  {
    hide PatternOk, Total;
    if n > 0 {
      FilledMore(d, d', n - 1, actuals);
      assert d'.pattern[..n] == d.pattern[..n] && d'.pattern[..n - 1] == d.pattern[..n - 1];
      FilledUnfold(d, n, actuals);
      FilledUnfold(d', n, actuals);
      hide Filled;
      SamePiece(d.expansion, d'.expansion, Total(d.pattern[..n - 1]), Total(d.pattern[..n]));
    } else {
      Start(d, actuals);
      Start(d', actuals);
    }
  }

  lemma InstanceChar(d: Definition, c: char, actuals: seq<string>)
    requires PatternOk(d) && |actuals| >= d.nargs
    ensures var d' := d.(expansion := d.expansion + [c]);
      PatternOk(d') && Instance(d', actuals) == Instance(d, actuals) + [c]
  {
    var d' := d.(expansion := d.expansion + [c]);
    assert PatternOk(d');
    FilledMore(d, d', |d.pattern|, actuals);
    hide Filled, Total;
  }

  /** The pattern with one more reference, to be put after all the text there is. */
  function WithRef(d: Definition, k: nat): Definition
    requires PatternOk(d)
  {
    d.(pattern := d.pattern + [Ref(|d.expansion| - Total(d.pattern), k)])
  }

  lemma WithRefOk(d: Definition, k: nat)
    requires PatternOk(d) && 1 <= k <= d.nargs
    ensures PatternOk(WithRef(d, k)) && Total(WithRef(d, k).pattern) == |d.expansion|
    ensures WithRef(d, k).pattern[..|d.pattern|] == d.pattern
  {
    TotalSnoc(d.pattern, Ref(|d.expansion| - Total(d.pattern), k));
  }

  lemma InstanceRef(d: Definition, k: nat, actuals: seq<string>)
    requires PatternOk(d) && |actuals| >= d.nargs && 1 <= k <= d.nargs
    ensures PatternOk(WithRef(d, k)) && Instance(WithRef(d, k), actuals) == Instance(d, actuals) + actuals[k - 1]
  {
    var n, d' := |d.pattern|, WithRef(d, k);
    WithRefOk(d, k);
    FilledMore(d, d', n, actuals);
    FilledUnfold(d', n + 1, actuals);
    assert d'.pattern[..n + 1] == d'.pattern;
    hide Filled, Total, PatternOk;
    assert d.expansion[|d.expansion|..] == "";
    assert d.expansion[Total(d.pattern)..|d.expansion|] == d.expansion[Total(d.pattern)..];
  }

  /** With any actuals, what has been compiled and what is still to come make up the whole. */
  ghost predicate Compiled(d: Definition, body: string, p: nat, formals: seq<string>) {
    && PatternOk(d) && d.nargs == |formals| && p <= |body|
    && forall actuals: seq<string> :: |actuals| >= |formals| ==>
         Instance(d, actuals) + Rest(body, p, formals, actuals) == Replaced(body, formals, actuals)
  }

  lemma CompiledStart(body: string, formals: seq<string>)
    ensures Compiled(Definition(|formals|, "", []), body, 0, formals)
  {
    var d := Definition(|formals|, "", []);
    forall actuals: seq<string> | |actuals| >= |formals|
      ensures Instance(d, actuals) + Rest(body, 0, formals, actuals) == Replaced(body, formals, actuals)
    {
      assert body[0..] == body;
    }
  }

  lemma CompiledChar(d: Definition, body: string, p: nat, formals: seq<string>)
    requires p < |body| && Compiled(d, body, p, formals)
    requires IsIdChar(body[p]) && (p == 0 || !IsIdChar(body[p - 1])) ==>
      var word := body[p..RunEnd(body, p)]; !IsIdStart(body[p]) || FormalNo(formals, word) == 0
    ensures Compiled(d.(expansion := d.expansion + [body[p]]), body, p + 1, formals)
  {
    hide Instance, Rest, Replaced, FormalNo, RunEnd, PatternOk;
    var d' := d.(expansion := d.expansion + [body[p]]);
    InstanceChar(d, body[p], seq(|formals|, _ => ""));
    forall actuals: seq<string> | |actuals| >= |formals|
      ensures Instance(d', actuals) + Rest(body, p + 1, formals, actuals) == Replaced(body, formals, actuals)
    {
      InstanceChar(d, body[p], actuals);
      RestChar(body, p, formals, actuals);
    }
  }

  lemma CompiledFormal(d: Definition, body: string, p: nat, formals: seq<string>, k: nat)
    requires p < |body| && Compiled(d, body, p, formals)
    requires IsIdStart(body[p]) && (p == 0 || !IsIdChar(body[p - 1]))
    requires 0 < k == FormalNo(formals, body[p..RunEnd(body, p)])
    ensures Compiled(WithRef(d, k), body, RunEnd(body, p), formals)
  {
    hide Instance, Rest, Replaced, FormalNo, PatternOk;
    var d' := WithRef(d, k);
    var e := RunEnd(body, p);
    InstanceRef(d, k, seq(|formals|, _ => ""));
    forall actuals: seq<string> | |actuals| >= |formals|
      ensures Instance(d', actuals) + Rest(body, e, formals, actuals) == Replaced(body, formals, actuals)
    {
      InstanceRef(d, k, actuals);
      RestWord(body, p, formals, actuals);
      assert body[p..e][0] == body[p];
    }
  }

  /** The length of the word at p; the character at the end of the body stops the scan. */
  method WordLength(buf: string, size: nat, p: nat) returns (n: nat)
    requires p < size < |buf| && !IsIdChar(buf[size])
    ensures p + n <= size && p + n == RunEnd(buf[..size], p)
  {
    n := 0;
    while IsIdChar(buf[p + n])
      invariant p + n <= size && RunEnd(buf[..size], p) == RunEnd(buf[..size], p + n)
      decreases size - p - n
    {
      n := n + 1;
    }
  }

  /** The list of formals is searched from the last one back. */
  method FindFormal(formals: seq<string>, word: string) returns (argno: nat)
    ensures argno == FormalNo(formals, word)
  {
    argno := |formals|;
    assert formals[..argno] == formals;
    while argno > 0
      invariant argno <= |formals| && FormalNo(formals, word) == FormalNo(formals[..argno], word)
    {
      assert formals[..argno][..argno - 1] == formals[..argno - 1];
      if |formals[argno - 1]| == |word| && formals[argno - 1] == word { return; }
      argno := argno - 1;
    }
  }

  /** The formal that starts at p, if a word starts there and is one. */
  method FormalAt(buf: string, size: nat, p: nat, formals: seq<string>) returns (argno: nat, idLen: nat)
    requires p < size < |buf| && !IsIdChar(buf[size])
    ensures var body := buf[..size]; var start := p == 0 || !IsIdChar(body[p - 1]);
      && (argno > 0 ==> IsIdStart(body[p]) && start && argno == FormalNo(formals, body[p..RunEnd(body, p)]))
      && (argno > 0 ==> idLen > 0 && p + idLen == RunEnd(body, p) && argno <= |formals|)
      && (argno == 0 && start && IsIdStart(body[p]) ==> FormalNo(formals, body[p..RunEnd(body, p)]) == 0)
  {
    hide FormalNo, RunEnd;
    argno, idLen := 0, 0;
    if IsIdStart(buf[p]) && (p == 0 || !IsIdChar(buf[p - 1])) {
      idLen := WordLength(buf, size, p);
      assert buf[p..p + idLen] == buf[..size][p..p + idLen];
      argno := FindFormal(formals, buf[p..p + idLen]);
      FormalBound(formals, buf[p..p + idLen]);
      WordNotEmpty(buf[..size], p);
    }
  }

  /** One round of the loop: a formal is noted, or a character is copied. */
  method CollectStep(buf: string, size: nat, formals: seq<string>, defn0: Definition, p0: nat, lastp0: nat)
    returns (defn: Definition, p: nat, lastp: nat)
    requires p0 < size < |buf| && !IsIdChar(buf[size]) && lastp0 <= p0
    requires Compiled(defn0, buf[..size], p0, formals) && p0 - lastp0 == |defn0.expansion| - Total(defn0.pattern)
    ensures p0 < p <= size && lastp <= p && Compiled(defn, buf[..size], p, formals)
    ensures p - lastp == |defn.expansion| - Total(defn.pattern)
    ensures |defn.expansion| - |defn0.expansion| <= p - p0
  {
    hide Compiled, FormalNo, PatternOk, RunEnd, Total, Instance, Replaced, IsIdStart;
    defn, lastp := defn0, lastp0;
    CompiledOk(defn, buf[..size], p0, formals);
    var argno, idLen := FormalAt(buf, size, p0, formals);
    if argno > 0 {
      CompiledFormal(defn, buf[..size], p0, formals, argno);
      TotalSnoc(defn.pattern, Ref(p0 - lastp, argno));
      defn := defn.(pattern := defn.pattern + [Ref(p0 - lastp, argno)]);
      p := p0 + idLen;
      lastp := p;
    } else {
      CompiledChar(defn, buf[..size], p0, formals);
      defn := defn.(expansion := defn.expansion + [buf[p0]]);
      p := p0 + 1;
    }
  }

  /** collect_expansion: instantiating the result is replacing whole identifiers. */
  method CollectExpansion(buf: string, size: nat, formals: seq<string>) returns (defn: Definition)
    requires size < |buf| && !IsIdChar(buf[size])
    ensures PatternOk(defn) && defn.nargs == |formals| && |defn.expansion| <= size
    ensures forall actuals: seq<string> :: |actuals| >= |formals| ==>
      Instance(defn, actuals) == Replaced(buf[..size], formals, actuals)
  {
    hide Compiled, PatternOk, Total, Instance, Replaced;
    defn := Definition(|formals|, "", []);
    var lastp: nat, p: nat := 0, 0;
    CompiledStart(buf[..size], formals);
    NoTotal();
    while p < size
      invariant lastp <= p <= size
      invariant p - lastp == |defn.expansion| - Total(defn.pattern) && |defn.expansion| <= p
      invariant Compiled(defn, buf[..size], p, formals)
      decreases size - p
    {
      defn, p, lastp := CollectStep(buf, size, formals, defn, p, lastp);
    }
    CompiledOk(defn, buf[..size], p, formals);
    Finished(defn, buf[..size], formals);
  }

  lemma NoTotal()
    ensures Total([]) == 0
  {
  }

  lemma CompiledOk(d: Definition, body: string, p: nat, formals: seq<string>)
    requires Compiled(d, body, p, formals)
    ensures PatternOk(d) && Total(d.pattern) <= |d.expansion| && d.nargs == |formals|
  {
  }

  lemma FormalBound(formals: seq<string>, word: string)
    ensures FormalNo(formals, word) <= |formals|
  {
  }

  lemma WordNotEmpty(body: string, p: nat)
    requires p < |body| && IsIdStart(body[p])
    ensures RunEnd(body, p) > p
  {
  }

  lemma TotalSnoc(pattern: seq<Ref>, r: Ref)
    ensures Total(pattern + [r]) == Total(pattern) + r.nchars
  {
    assert (pattern + [r])[..|pattern|] == pattern;
  }

  lemma NothingLeft(body: string, formals: seq<string>, actuals: seq<string>)
    requires |actuals| >= |formals|
    ensures Rest(body, |body|, formals, actuals) == ""
  {
    RestOutside(body, |body|, formals, actuals);
    assert body[|body|..] == "";
  }

  lemma FinishedFor(d: Definition, body: string, formals: seq<string>, actuals: seq<string>)
    requires Compiled(d, body, |body|, formals) && |actuals| >= |formals|
    ensures Instance(d, actuals) == Replaced(body, formals, actuals)
  {
    hide Instance, Rest, Replaced;
    NothingLeft(body, formals, actuals);
    assert Instance(d, actuals) + Rest(body, |body|, formals, actuals) == Replaced(body, formals, actuals);
    assert Instance(d, actuals) + "" == Instance(d, actuals);
  }

  lemma Finished(d: Definition, body: string, formals: seq<string>)
    requires Compiled(d, body, |body|, formals)
    ensures PatternOk(d)
    ensures forall actuals: seq<string> :: |actuals| >= |formals| ==>
      Instance(d, actuals) == Replaced(body, formals, actuals)
  {
    CompiledOk(d, body, |body|, formals);
    hide Instance, PatternOk, Rest, Replaced, Compiled;
    forall actuals: seq<string> | |actuals| >= |formals|
      ensures Instance(d, actuals) == Replaced(body, formals, actuals)
    {
      FinishedFor(d, body, formals, actuals);
    }
  }

  /** A macro call: compile, then instantiate. */
  method Expand(buf: string, size: nat, formals: seq<string>, actuals: seq<string>) returns (text: string)
    requires size < |buf| && !IsIdChar(buf[size]) && |actuals| >= |formals|
    ensures text == Replaced(buf[..size], formals, actuals)
  {
    var defn := CollectExpansion(buf, size, formals);
    var xbuf, totlen, impossible := Instantiate(defn, actuals);
    text := xbuf[..totlen];
  }

  // ---- compare_defs ----

  /** strncmp finds no difference: equal up to the first NUL, if there is one. */
  predicate SameString(s: string, t: string)
    decreases |s|
  {
    |s| == |t| && (s == "" || (s[0] == t[0] && (s[0] == '\0' || SameString(s[1..], t[1..]))))
  }

  /** Where the string ends for C. */
  function NulAt(s: string): (n: nat)
    ensures n <= |s|
  {
    if s == "" || s[0] == '\0' then 0 else 1 + NulAt(s[1..])
  }

  /** Strings of one length pass for the same exactly when they agree up to and including the first NUL. */
  lemma {:induction false} SameStringIs(s: string, t: string)
    ensures SameString(s, t) <==>
            |s| == |t| && s[..NulAt(s)] == t[..NulAt(s)] && (NulAt(s) < |s| ==> s[NulAt(s)] == t[NulAt(s)])
    decreases |s|
  {
    if |s| == |t| && s != "" && s[0] != '\0' {
      var n := NulAt(s[1..]);
      SameStringIs(s[1..], t[1..]);
      assert s[..n + 1] == [s[0]] + s[1..][..n] && t[..n + 1] == [t[0]] + t[1..][..n];
    }
  }

  /** compare_defs finds no difference.  Only the common part of the two pattern lists is looked at. */
  predicate Passes(d1: Definition, d2: Definition) {
    && d1.nargs == d2.nargs && SameString(d1.expansion, d2.expansion)
    && forall i: nat :: i < |d1.pattern| && i < |d2.pattern| ==> d1.pattern[i] == d2.pattern[i]
  }

  /** compare_defs: 0 if it takes the definitions to be the same. */
  method CompareDefs(d1: Definition, d2: Definition) returns (differ: int)
    ensures differ == 0 || differ == 1
    ensures differ == 0 <==> Passes(d1, d2)
  {
    if d1.nargs != d2.nargs || |d1.expansion| != |d2.expansion| { return 1; }
    if !SameString(d1.expansion, d2.expansion) { return 1; }
    var i := 0;
    while i < |d1.pattern| && i < |d2.pattern|
      invariant 0 <= i <= |d1.pattern| && i <= |d2.pattern|
      invariant forall k: nat :: k < i ==> d1.pattern[k] == d2.pattern[k]
    {
      if d1.pattern[i].nchars != d2.pattern[i].nchars || d1.pattern[i].argno != d2.pattern[i].argno { return 1; }
      i := i + 1;
    }
    return 0;
  }

  function Behind(s: string, n: nat): string { if n <= |s| then s[n..] else "" }

  /** Two definitions are the same if and only if compare_defs says so, the pattern lists have the same length, and
      the texts agree behind a NUL too, if they hold one. */
  lemma SameDefinition(d1: Definition, d2: Definition)
    ensures d1 == d2 <==>
      && Passes(d1, d2) && |d1.pattern| == |d2.pattern|
      && Behind(d1.expansion, NulAt(d1.expansion)) == Behind(d2.expansion, NulAt(d1.expansion))
  {
    var e1, e2 := d1.expansion, d2.expansion;
    SameStringIs(e1, e2);
    if |e1| == |e2| {
      var n := NulAt(e1);
      assert e1 == e1[..n] + e1[n..] && e2 == e2[..n] + e2[n..];
    }
  }

  // ---- a definition is known from what it expands to ----

  /** With empty arguments a definition expands to its text. */
  lemma {:induction false} FilledEmpty(d: Definition, n: nat)
    requires PatternOk(d) && d.nargs == 1 && n <= |d.pattern|
    ensures Total(d.pattern[..n]) <= |d.expansion| && Filled(d, n, [""]) == d.expansion[..Total(d.pattern[..n])]
    decreases n
  {
    FilledLength(d, n, [""]);
    if n == 0 {
      assert d.pattern[..0] == [];
    } else {
      FilledEmpty(d, n - 1);
      FilledUnfold(d, n, [""]);
    }
  }

  lemma EmptyInstance(d: Definition)
    requires PatternOk(d) && d.nargs == 1
    ensures Instance(d, [""]) == d.expansion
  {
    FilledEmpty(d, |d.pattern|);
    assert d.pattern[..|d.pattern|] == d.pattern;
  }

  /** With arguments of one character its length tells how many references there are. */
  lemma {:induction false} CountRefs(d: Definition, n: nat)
    requires PatternOk(d) && d.nargs == 1 && n <= |d.pattern|
    ensures ArgTotal(d, n, ["a"]) == n
    decreases n
  {
    if n > 0 {
      assert d.pattern[n - 1] in d.pattern;
      CountRefs(d, n - 1);
    }
  }

  lemma InstanceLength(d: Definition)
    requires PatternOk(d) && d.nargs == 1
    ensures |Instance(d, ["a"])| == |d.expansion| + |d.pattern|
  {
    FilledLength(d, |d.pattern|, ["a"]);
    CountRefs(d, |d.pattern|);
    assert d.pattern[..|d.pattern|] == d.pattern;
  }

  lemma WithOneRef(d: Definition)
    requires PatternOk(d) && d.nargs == 1 && d.expansion == "+" && |d.pattern| == 1
    ensures Instance(d, ["a"]) == if d.pattern[0].nchars == 0 then "a+" else "+a"
  {
    assert d.pattern[..0] == [] && d.pattern[..1] == d.pattern;
    TotalGrows(d.pattern, 0, 1);
    FilledUnfold(d, 1, ["a"]);
    assert Filled(d, 0, ["a"]) == "";
  }

  lemma OneRef(d: Definition)
    requires PatternOk(d) && d.nargs == 1 && Instance(d, [""]) == "+" && Instance(d, ["a"]) == "a+"
    ensures d == Definition(1, "+", [Ref(0, 1)])
  {
    EmptyInstance(d);
    InstanceLength(d);
    WithOneRef(d);
    RefOk(d, 0);
    hide Instance, PatternOk;
    assert "a+"[0] == 'a' && "+a"[0] == '+';
    assert d.pattern[0] == Ref(0, 1);
    assert d.pattern == [d.pattern[0]];
  }

  lemma WithTwoRefs(d: Definition)
    requires PatternOk(d) && d.nargs == 1 && d.expansion == "+" && |d.pattern| == 2
    ensures Instance(d, ["a"])
      == if d.pattern[0].nchars > 0 then "+aa" else if d.pattern[1].nchars > 0 then "a+a" else "aa+"
    ensures d.pattern[0].nchars + d.pattern[1].nchars <= 1
  {
    assert d.pattern[..0] == [] && d.pattern[..2] == d.pattern;
    TotalGrows(d.pattern, 0, 2);
    TotalGrows(d.pattern, 1, 2);
    FilledUnfold(d, 1, ["a"]);
    FilledUnfold(d, 2, ["a"]);
    assert Filled(d, 0, ["a"]) == "";
  }

  lemma TwoRefs(d: Definition)
    requires PatternOk(d) && d.nargs == 1 && Instance(d, [""]) == "+" && Instance(d, ["a"]) == "a+a"
    ensures d == Definition(1, "+", [Ref(0, 1), Ref(1, 1)])
  {
    EmptyInstance(d);
    InstanceLength(d);
    WithTwoRefs(d);
    RefOk(d, 0);
    RefOk(d, 1);
    hide Instance, PatternOk;
    assert "a+a"[0] == 'a' && "+aa"[0] == '+' && "a+a"[1] == '+' && "aa+"[1] == 'a';
    assert d.pattern[0] == Ref(0, 1) && d.pattern[1] == Ref(1, 1);
    assert d.pattern == [d.pattern[0], d.pattern[1]];
  }

  /** The bodies of f(x) = x+ and f(x) = x+x compile to definitions that pass for the same. */
  method CompareDefsFails() returns (d1: Definition, d2: Definition, differ: int)
    ensures PatternOk(d1) && PatternOk(d2) && d1.nargs == d2.nargs == 1
    ensures forall a: seq<string> :: |a| >= 1 ==>
      Instance(d1, a) == Replaced("x+", ["x"], a) && Instance(d2, a) == Replaced("x+x", ["x"], a)
    ensures Instance(d1, ["a"]) == "a+" && Instance(d2, ["a"]) == "a+a" && differ == 0
  {
    hide Instance, Replaced, PatternOk, Passes;
    assert "x+\n"[..2] == "x+" && "x+x\n"[..3] == "x+x";
    d1 := CollectExpansion("x+\n", 2, ["x"]);
    d2 := CollectExpansion("x+x\n", 3, ["x"]);
    Bodies("a");
    Bodies("");
    assert "" + "+" == "+" && "" + "+" + "" == "+" && "a" + "+" == "a+" && "a" + "+" + "a" == "a+a";
    assert Instance(d1, [""]) == "+" && Instance(d1, ["a"]) == "a+" && Instance(d2, [""]) == "+"
      && Instance(d2, ["a"]) == "a+a";
    OneRef(d1);
    TwoRefs(d2);
    PassForTheSame();
    differ := CompareDefs(d1, d2);
  }

  lemma PassForTheSame()
    ensures Passes(Definition(1, "+", [Ref(0, 1)]), Definition(1, "+", [Ref(0, 1), Ref(1, 1)]))
  {
  }

  lemma Bodies(a: string)
    ensures Replaced("x+", ["x"], [a]) == a + "+" && Replaced("x+x", ["x"], [a]) == a + "+" + a
  {
    ReplacedX("+", a);
    ReplacedX("+x", a);
    ReplacedX("", a);
    ReplacedChar("+", ["x"], [a]);
    ReplacedChar("+x", ["x"], [a]);
    assert "x" + "+" == "x+" && "x" + "+x" == "x+x" && "x" + "" == "x" && "+"[1..] == "" && "+x"[1..] == "x";
  }

  /** A formal that is not followed by a word. */
  lemma ReplacedX(rest: string, a: string)
    requires rest == "" || !IsIdChar(rest[0])
    ensures Replaced("x" + rest, ["x"], [a]) == a + Replaced(rest, ["x"], [a])
  {
    var t := "x" + rest;
    assert RunEnd(t, 1) == 1 && t[..1] == "x" && t[1..] == rest;
    assert FormalNo(["x"], "x") == 1;
    ReplacedWord(t, ["x"], [a]);
  }
}
