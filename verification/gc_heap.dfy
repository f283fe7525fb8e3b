// The storage of the Lisp interpreter as src/alloc.c sees it: slots (Lisp_Object variables)
// numbered like memory words, cells that own consecutive slots, string blocks that hold a
// size word followed by the bytes of each small string, and large strings of their own.

module LispHeap {

  // sizeof (Lisp_Object) on the 32-bit machines the allocator is written for.
  const WORD: nat := 4
  // 8184 minus sizeof (struct string_block_head): two pointers and one word.
  const STRING_BLOCK_SIZE: nat := 8172
  const STRING_BLOCK_OUTSIZE: nat := 1024
  // (1016 - sizeof pointer) / sizeof (struct Lisp_Cons)
  const CONS_BLOCK_SIZE: nat := 126

  /** STRING_FULLSIZE: header word, bytes and NUL, rounded up to a word boundary. */
  function FullSize(size: nat): (r: nat)
    ensures r % WORD == 0
    ensures size + WORD + 1 <= r < size + 2 * WORD + 1
  {
    (size + 2 * WORD) / WORD * WORD
  }

  /** The address of a slot, as stored in a size field.  Every address is larger than any
      size of a small string: that is how the end of a reference chain is recognised. */
  function Addr(slot: nat): nat { STRING_BLOCK_SIZE + 1 + slot }

  function SlotAt(addr: nat): nat
    requires addr > STRING_BLOCK_SIZE
  {
    addr - STRING_BLOCK_SIZE - 1
  }

  datatype Kind = ConsKind | VectorKind | SymbolKind

  /** Where a small string starts: a string block and a byte offset inside it. */
  datatype StrLoc = StrLoc(block: nat, offset: nat)

  datatype Val =
    | Int(n: int)
    | Obj(id: nat)          // a cons, vector or symbol; its kind stands for the type tag
    | Small(loc: StrLoc)    // a string inside a string block
    | Large(index: nat)     // a string with a block of its own
    | Raw(bits: nat)        // machine bits stored by XFASTINT: a size or an address

  /** A Lisp_Object variable: its mark bit and the rest. */
  datatype Word = Word(mark: bool, val: Val)

  /** A cons, vector or symbol: it owns the slots base .. base + len.
      `next` is the obarray link of a symbol, -1 for none. */
  datatype Cell = Cell(kind: Kind, base: nat, len: nat, next: int)

  datatype Block = Block(next: int, pos: nat, chars: seq<nat>)

  /** `tagged` is the MARKBIT and `flagged` the ARRAY_MARK_FLAG of the size word. */
  datatype LargeString = LargeString(size: nat, tagged: bool, flagged: bool, chars: seq<nat>)

  predicate SlotOf(objs: seq<Cell>, o: nat, p: nat) {
    o < |objs| && objs[o].base <= p < objs[o].base + objs[o].len
  }

  /** The slot whose mark bit marks the cell; vectors are marked in their size field. */
  function MarkSlot(c: Cell): int {
    match c.kind
    case ConsKind => c.base
    case SymbolKind => c.base + 3
    case VectorKind => -1
  }

  /** malloc gives a block of CONS_BLOCK_SIZE cells with whatever contents it happens to have. */
  function FreshCells(base: nat, n: nat): seq<Cell> {
    seq(n, (i: nat) => Cell(ConsKind, base + 2 * i, 2, -1))
  }

  function FreshOwners(first: nat, n: nat): seq<int> {
    seq(2 * n, (i: nat) => first + i / 2)
  }

  /** Cells own disjoint ranges of slots; a slot no cell owns (owner -1) is a root variable. */
  ghost predicate LayoutOk(objs: seq<Cell>, owner: seq<int>) {
    && (forall o: nat, p: nat :: SlotOf(objs, o, p) ==> p < |owner| && owner[p] == o)
    && (forall p: nat :: p < |owner| && owner[p] != -1 ==> owner[p] >= 0 && SlotOf(objs, owner[p], p))
    && (forall o: nat :: o < |objs| ==> objs[o].base + objs[o].len <= |owner|)
    && (forall o: nat :: o < |objs| && objs[o].kind.ConsKind? ==> objs[o].len == 2)
    && (forall o: nat :: o < |objs| && objs[o].kind.SymbolKind? ==> objs[o].len == 4)
  }

  /** The `next` field of block number r of a chain. */
  function LinkAfter(chain: seq<nat>, r: nat): int { if r + 1 < |chain| then chain[r + 1] else -1 }

  function NextOffset(offs: seq<nat>, hi: nat, j: nat): nat
  {
    if j < |offs| then offs[j] else hi
  }

  /** String number j ends where the next one starts. */
  predicate Adjacent(chars: seq<nat>, offs: seq<nat>, hi: nat, j: nat) {
    && j < |offs| && offs[j] < |chars|
    && offs[j] + FullSize(chars[offs[j]]) == NextOffset(offs, hi, j + 1)
  }

  /** Strings start at `offs` and fill the bytes below `hi`, each one right after the other. */
  ghost predicate Tiling(chars: seq<nat>, offs: seq<nat>, hi: nat) {
    && hi <= |chars|
    && NextOffset(offs, hi, 0) == 0
    && (forall j: nat :: j < |offs| ==> Adjacent(chars, offs, hi, j))
  }

  lemma {:induction false} TilingBelow(chars: seq<nat>, offs: seq<nat>, hi: nat, i: nat, j: nat)
    requires Tiling(chars, offs, hi) && i <= j <= |offs|
    ensures NextOffset(offs, hi, i) <= NextOffset(offs, hi, j) <= hi
    ensures i < j ==> offs[i] < |chars| && offs[i] + FullSize(chars[offs[i]]) <= NextOffset(offs, hi, j)
    decreases |offs| - i
  {
    if i < |offs| {
      assert Adjacent(chars, offs, hi, i);
      TilingBelow(chars, offs, hi, i + 1, if i < j then j else i + 1);
    }
  }

  /** Everything a collection starts from. */
  datatype Snapshot = Snapshot(
    mem: seq<Word>, objs: seq<Cell>, owner: seq<int>, blocks: seq<Block>,
    strs: set<StrLoc>,     // where the small strings start
    chain: seq<nat>,       // the string blocks, in the order their `next` fields link them
    offs: seq<seq<nat>>,   // per block of the chain, where its strings start
    large: seq<LargeString>,
    largeLive: set<nat>,   // the large strings in use
    live: set<nat>,        // cells that are allocated and not on a free list
    nil: nat)
  {
    ghost predicate LiveSlot(p: nat) {
      p < |mem| && |owner| == |mem| && (owner[p] == -1 || owner[p] in live)
    }

    ghost predicate ValOk(v: Val) {
      match v
      case Int(_) => true
      case Obj(id) => id in live
      case Small(loc) => loc in strs
      case Large(k) => k in largeLive
      case Raw(_) => false
    }

    ghost predicate ChainShape() {
      && |chain| > 0 && |offs| == |chain|
      && (forall r: nat, q: nat :: r < q < |chain| ==> chain[r] != chain[q])
      && (forall r: nat :: r < |chain| ==> chain[r] < |blocks|)
      && (forall r: nat :: r < |chain| ==> |blocks[chain[r]].chars| == STRING_BLOCK_SIZE)
    }

    ghost predicate ChainLinks()
      requires ChainShape()
    {
      forall r: nat :: r < |chain| ==> blocks[chain[r]].next == LinkAfter(chain, r)
    }

    /** Block number r of the chain holds consecutive strings and nothing else. */
    ghost predicate ChainTiled()
      requires ChainShape()
    {
      forall r: nat :: r < |chain| ==> Tiling(blocks[chain[r]].chars, offs[r], blocks[chain[r]].pos)
    }

    ghost predicate IsStart(s: StrLoc)
      requires ChainShape()
    {
      exists r: nat, j: nat :: r < |chain| && j < |offs[r]| && s == StrLoc(chain[r], offs[r][j])
    }

    ghost predicate StartsOk()
      requires ChainShape()
    {
      forall s :: s in strs <==> IsStart(s)
    }

    ghost predicate BlocksTiled() {
      ChainShape() && ChainLinks() && ChainTiled() && StartsOk()
    }

    ghost predicate StringsOk() {
      forall s :: s in strs ==>
        && s.block < |blocks| && s.offset < |blocks[s.block].chars|
        && blocks[s.block].chars[s.offset] <= STRING_BLOCK_SIZE
    }

    ghost predicate CellsOk() {
      && (forall o: nat :: o in live ==> o < |objs|)
      && (forall o: nat :: o in live && objs[o].kind.SymbolKind? && objs[o].next != -1
            ==> objs[o].next >= 0 && objs[o].next in live && objs[objs[o].next].kind.SymbolKind?)
      && nil in live && objs[nil].kind.SymbolKind?
    }

    /** The heap between collections. */
    ghost predicate Sound() {
      && |owner| == |mem|
      && LayoutOk(objs, owner)
      && CellsOk()
      && StringsOk()
      && (forall p: nat :: LiveSlot(p) ==> ValOk(mem[p].val) && !mem[p].mark)
      && (forall k: nat :: k in largeLive ==> k < |large|)
    }

    /** Between collections no size word of a large string carries a flag; a collection starts by
        setting the MARKBIT of all of them. */
    ghost predicate Tagged(tag: bool) {
      && (forall k: nat :: k in largeLive && k < |large| ==> large[k].tagged == tag)
      && (forall k: nat :: k < |large| ==> !large[k].flagged)
    }

    ghost predicate Ready() { Sound() && Tagged(true) }

    function Size(s: StrLoc): nat
      requires s.block < |blocks| && s.offset < |blocks[s.block].chars|
    {
      blocks[s.block].chars[s.offset]
    }

    /** A cdr that holds nil is not followed: the collector relies on nil being a root. */
    ghost predicate Skipped(p: nat)
      requires p < |mem| && |owner| == |mem| && LayoutOk(objs, owner)
    {
      owner[p] != -1 && objs[owner[p]].kind.ConsKind? && p == objs[owner[p]].base + 1
      && mem[p].val == Obj(nil)
    }

    /** Cell `o` leads to cell `t` through one of its slots or its obarray link. */
    ghost predicate Edge(o: nat, t: nat)
    {
      o < |objs| &&
      ((exists p: nat :: SlotOf(objs, o, p) && p < |mem| && mem[p].val == Obj(t))
       || (objs[o].kind.SymbolKind? && objs[o].next == t))
    }

    ghost predicate ReachIn(o: nat, t: nat, n: nat)
      decreases n
    {
      if n == 0 then o == t else exists m: nat :: Edge(o, m) && ReachIn(m, t, n - 1)
    }

    ghost predicate Reach(o: nat, t: nat) { exists n: nat :: ReachIn(o, t, n) }

    ghost predicate ReachFrom(v: Val, t: nat) { v.Obj? && Reach(v.id, t) }
  }

  lemma ReachSelf(h: Snapshot, o: nat)
    ensures h.Reach(o, o)
  {
    assert h.ReachIn(o, o, 0);
  }

  lemma ReachStep(h: Snapshot, o: nat, m: nat, t: nat)
    requires h.Edge(o, m) && h.Reach(m, t)
    ensures h.Reach(o, t)
  {
    var n: nat :| h.ReachIn(m, t, n);
    assert h.ReachIn(o, t, n + 1);
  }

  lemma {:induction false} ReachTrans(h: Snapshot, o: nat, m: nat, t: nat, n: nat)
    requires h.ReachIn(o, m, n) && h.Reach(m, t)
    ensures h.Reach(o, t)
    decreases n
  {
    if n == 0 {
    } else {
      var k: nat :| h.Edge(o, k) && h.ReachIn(k, m, n - 1);
      ReachTrans(h, k, m, t, n - 1);
      ReachStep(h, o, k, t);
    }
  }
}
