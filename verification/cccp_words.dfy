// What a macro call means, word by word.

module MacroWords {
  import opened MacroExpansion

  /** A digit, a capital letter, an underscore or a small letter of ASCII. */
  predicate WordChar(c: char) {
    var n := c as int;
    48 <= n <= 57 || 65 <= n <= 90 || n == 95 || 97 <= n <= 122
  }

  /** A text is made of words and of other characters. */
  datatype Piece = Word(s: string) | Other(c: char)

  predicate PieceOk(p: Piece) {
    match p
    case Word(s) => s != "" && forall i :: 0 <= i < |s| ==> WordChar(s[i])
    case Other(c) => !WordChar(c)
  }

  /** Between two words there is another character. */
  predicate PiecesOk(ps: seq<Piece>) {
    && (forall i :: 0 <= i < |ps| ==> PieceOk(ps[i]))
    && forall i :: 0 < i < |ps| ==> ps[i - 1].Other? || ps[i].Other?
  }

  function Spelled(p: Piece): string { if p.Word? then p.s else [p.c] }

  function TextOf(ps: seq<Piece>): string { if ps == [] then "" else Spelled(ps[0]) + TextOf(ps[1..]) }

  function Join(ss: seq<string>): string { if ss == [] then "" else ss[0] + Join(ss[1..]) }

  /** Formal number i is the last one with this name. */
  predicate LastNamed(formals: seq<string>, name: string, i: nat) {
    i < |formals| && formals[i] == name && forall j :: i < j < |formals| ==> formals[j] != name
  }

  /** The name of a formal stands for its actual, unless it begins with a digit; anything else for itself. */
  predicate StandsFor(p: Piece, formals: seq<string>, actuals: seq<string>, text: string)
    requires |actuals| >= |formals| && PieceOk(p)
  {
    if p.Word? && p.s in formals && !(48 <= p.s[0] as int <= 57) then
      exists i: nat :: i < |formals| && LastNamed(formals, p.s, i) && text == actuals[i]
    else text == Spelled(p)
  }

  lemma CharsAre(c: char)
    ensures IsIdChar(c) <==> WordChar(c)
    ensures IsIdStart(c) <==> WordChar(c) && !(48 <= c as int <= 57)
  {
  }

  lemma {:induction false} WordEnds(s: string, rest: string, p: nat)
    requires p <= |s| && (forall i :: 0 <= i < |s| ==> WordChar(s[i])) && (rest == "" || !WordChar(rest[0]))
    ensures RunEnd(s + rest, p) == |s|
    decreases |s| - p
  {
    if p < |s| {
      CharsAre(s[p]);
      WordEnds(s, rest, p + 1);
    } else if rest != "" {
      CharsAre(rest[0]);
    }
  }

  lemma LastIs(formals: seq<string>, name: string, i: nat)
    requires LastNamed(formals, name, i)
    ensures FormalNo(formals, name) == i + 1
  {
    var k := FormalNo(formals, name);
    assert formals[i] == name;
    assert k > 0 && formals[k - 1] == name;
  }

  lemma MeaningIs(p: Piece, formals: seq<string>, actuals: seq<string>, text: string)
    requires |actuals| >= |formals| && PieceOk(p) && p.Word? && StandsFor(p, formals, actuals, text)
    ensures Meaning(p.s, formals, actuals) == text
  {
    CharsAre(p.s[0]);
    var k := FormalNo(formals, p.s);
    if p.s in formals && !(48 <= p.s[0] as int <= 57) {
      var i: nat :| LastNamed(formals, p.s, i) && text == actuals[i];
      LastIs(formals, p.s, i);
    }
  }

  lemma FirstOfRest(ps: seq<Piece>)
    requires PiecesOk(ps) && ps != []
    ensures PieceOk(ps[0]) && PiecesOk(ps[1..])
    ensures ps[0].Word? ==> TextOf(ps[1..]) == "" || !WordChar(TextOf(ps[1..])[0])
  {
    if |ps| > 1 { assert ps[1..][0] == ps[1] && PieceOk(ps[1]); }
  }

  /** A macro call puts out its body with every word that names a formal replaced by the actual, and nothing else
      changed. */
  lemma {:induction false} WordsReplaced(ps: seq<Piece>, texts: seq<string>, formals: seq<string>, actuals: seq<string>)
    requires |actuals| >= |formals| && PiecesOk(ps) && |texts| == |ps|
    requires forall i :: 0 <= i < |ps| ==> StandsFor(ps[i], formals, actuals, texts[i])
    ensures Replaced(TextOf(ps), formals, actuals) == Join(texts)
    decreases |ps|
  {
    if ps != [] {
      var p, rest := ps[0], TextOf(ps[1..]);
      FirstOfRest(ps);
      WordsReplaced(ps[1..], texts[1..], formals, actuals);
      assert StandsFor(p, formals, actuals, texts[0]);
      hide Replaced, StandsFor, PiecesOk, Meaning, RunEnd;
      match p {
        case Word(s) =>
          WordEnds(s, rest, 1);
          CharsAre(s[0]);
          ReplacedWord(s + rest, formals, actuals);
          assert (s + rest)[..|s|] == s && (s + rest)[|s|..] == rest;
          MeaningIs(p, formals, actuals, texts[0]);
        case Other(c) =>
          CharsAre(c);
          ReplacedChar([c] + rest, formals, actuals);
          OtherStands(p, formals, actuals, texts[0]);
      }
    }
  }

  lemma OtherStands(p: Piece, formals: seq<string>, actuals: seq<string>, text: string)
    requires |actuals| >= |formals| && PieceOk(p) && p.Other? && StandsFor(p, formals, actuals, text)
    ensures text == [p.c]
  {
  }
}
