// Texts and the files that hold them.

module TextFiles {
  import opened Conversion

  /** A line end, an ASCII character, or another character with its bytes in the file and in the buffer. */
  datatype Item = Line | Plain(c: nat) | Char(file: seq<nat>, text: seq<nat>)

  function LineEnd(eol: Eol): seq<nat> { if eol.EolCrLf? then [CR, LF] else if eol.EolCr? then [CR] else [LF] }

  function InFile(eol: Eol, item: Item): seq<nat> {
    match item
    case Line => LineEnd(eol)
    case Plain(c) => [c]
    case Char(file, _) => file
  }

  function InBuffer(item: Item): seq<nat> {
    match item
    case Line => [LF]
    case Plain(c) => [c]
    case Char(_, text) => text
  }

  function FileText(eol: Eol, items: seq<Item>): seq<nat> {
    if items == [] then [] else InFile(eol, items[0]) + FileText(eol, items[1..])
  }

  function BufferText(items: seq<Item>): seq<nat> {
    if items == [] then [] else InBuffer(items[0]) + BufferText(items[1..])
  }

  /** Where a CR ends the line there is no other CR. */
  predicate PlainOk(eol: Eol, c: nat) { c < 0x80 && c != LF && (eol.EolCr? ==> c != CR) }

  function Held(cr: bool): seq<nat> { if cr then [CR] else [] }

  /** Whether a CR is held back after the item. */
  function HeldAfter(eol: Eol, item: Item): bool { eol.EolCrLf? && item == Plain(CR) }

  lemma TextsOf(eol: Eol, items: seq<Item>)
    requires items != []
    ensures FileText(eol, items) == InFile(eol, items[0]) + FileText(eol, items[1..])
    ensures BufferText(items) == InBuffer(items[0]) + BufferText(items[1..])
  {
  }

  lemma HeldMeans(eol: Eol, x: Item)
    ensures HeldAfter(eol, x) ==> eol.EolCrLf?
  {
  }

  lemma NothingHeld(s: seq<nat>)
    ensures Held(false) + s == s
  {
  }
}
