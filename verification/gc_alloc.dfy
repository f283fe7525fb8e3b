// Allocation: Fcons takes a cell from the free list or from the newest cons block, make_uninit_string
// carves strings out of string blocks.

module Alloc {
  import opened LispHeap
  import opened MarkState
  import opened LispStore
  import opened MarkRoots
  import opened Sweep

  ghost predicate CellListOk(objs: seq<Cell>, mem: seq<Word>, live: set<nat>, kind: Kind, link: nat,
                             cells: seq<nat>, head: nat, free: seq<nat>)
  {
    && NoDup(cells)
    && (forall c :: c in cells ==> c < |objs| && objs[c].kind == kind)
    && FreeChain(objs, mem, link, head, free) && NoDup(free)
    && (forall c :: c in free ==> c in cells)
    && (forall o: nat :: o < |objs| && objs[o].kind == kind ==> (o in live <==> o in cells && o !in free))
  }

  ghost predicate VectorsOk(objs: seq<Cell>, live: set<nat>, vectors: seq<nat>) {
    && NoDup(vectors)
    && (forall o: nat :: o < |objs| && objs[o].kind.VectorKind? ==> (o in live <==> o in vectors))
    && (forall o :: o in vectors ==> o < |objs| && objs[o].kind.VectorKind?)
  }

  ghost predicate ConsesOk(h: Heap)
    reads h
  {
    && ConsBlocksOk(h.objs, h.consBlocks, h.consBlockIndex)
    && CellListOk(h.objs, h.mem, h.live, ConsKind, 0, AllocConses(h.consBlocks, h.consBlockIndex), h.consFreeList,
        h.freeConses)
  }

  ghost predicate SymbolsOk(h: Heap)
    reads h
  {
    && CellListOk(h.objs, h.mem, h.live, SymbolKind, 1, h.symbols, h.symbolFreeList, h.freeSymbols)
    && FreeUnmarked(h.objs, h.mem, h.freeSymbols)
  }

  /** The plist slot of a free symbol, where its mark would be, is not marked. */
  ghost predicate FreeUnmarked(objs: seq<Cell>, mem: seq<Word>, free: seq<nat>) {
    forall c :: c in free && c < |objs| && objs[c].base + 3 < |mem| ==> !mem[objs[c].base + 3].mark
  }

  ghost predicate StringBlocksOk(h: Heap)
    reads h
  {
    && h.Now().BlocksTiled()
    && h.firstStringBlock == h.blockChain[0]
    && h.currentStringBlock == h.blockChain[|h.blockChain| - 1]
    && h.freed !! (set b | b in h.blockChain)
    && (forall b :: b in h.freed ==> b < |h.blocks|)
  }

  ghost predicate FlagsClear(h: Heap)
    reads h
  {
    && |h.vflag| == |h.objs| && NoDup(h.largeStringBlocks)
    && (forall o: nat :: o in h.allVectors && o < |h.vflag| ==> !h.vflag[o])
  }

  /** The heap between collections. */
  ghost predicate Valid(h: Heap)
    reads h
  {
    && h.Now().Sound() && h.Now().Tagged(false)
    && StringBlocksOk(h)
    && RootsOk(h.owner, h.staticvec, h.gcprolist) && NilIsRoot(h.Now())
    && FlagsClear(h) && ConsesOk(h) && SymbolsOk(h) && VectorsOk(h.objs, h.live, h.allVectors)
  }

  /** A cell that a program can still get at. */
  ghost predicate Reachable(h: Snapshot, t: nat) { exists p: nat :: RootReaches(h, p, t) }

  lemma {:induction false} ReachLive(h: Snapshot, o: nat, t: nat, n: nat)
    requires h.Sound() && o in h.live && h.ReachIn(o, t, n)
    ensures t in h.live
    decreases n
  {
    if n > 0 {
      var m: nat :| h.Edge(o, m) && h.ReachIn(m, t, n - 1);
      EdgeLive(h, o, m);
      ReachLive(h, m, t, n - 1);
    }
  }

  lemma EdgeLive(h: Snapshot, o: nat, t: nat)
    requires h.Sound() && o in h.live && h.Edge(o, t)
    ensures t in h.live
  {
    if exists p: nat :: SlotOf(h.objs, o, p) && p < |h.mem| && h.mem[p].val == Obj(t) {
      var p: nat :| SlotOf(h.objs, o, p) && p < |h.mem| && h.mem[p].val == Obj(t);
      assert h.LiveSlot(p);
    }
  }

  /** Whatever can be reached is allocated and not on a free list. */
  lemma ReachableIsLive(h: Snapshot, t: nat)
    requires h.Sound() && Reachable(h, t)
    ensures t in h.live
  {
    hide Snapshot.Sound;
    var p: nat :| RootReaches(h, p, t);
    RootValue(h, p);
    var n := Steps(h, h.mem[p].val.id, t);
    ReachLive(h, h.mem[p].val.id, t, n);
  }

  lemma RootValue(h: Snapshot, p: nat)
    requires h.Sound() && p < |h.mem| && h.owner[p] == -1 && h.mem[p].val.Obj?
    ensures h.mem[p].val.id in h.live
  {
    assert h.LiveSlot(p);
  }

  // ---- Fcons ----

  /** The heap after cell c, which was not live, has been given two fields. */
  lemma SoundWithCons(h: Snapshot, c: nat, car: Val, cdr: Val, h': Snapshot)
    requires h.Sound() && c < |h.objs| && h.objs[c].kind.ConsKind? && c !in h.live
    requires h.ValOk(car) && h.ValOk(cdr)
    requires h.objs[c].base + 1 < |h.mem|
    requires h' == h.(mem := h.mem[h.objs[c].base := Word(false, car)][h.objs[c].base + 1 := Word(false, cdr)],
                      live := h.live + {c})
    ensures h'.Sound()
    ensures forall p: nat :: h.LiveSlot(p) ==> h'.mem[p] == h.mem[p]
    ensures NilIsRoot(h) ==> NilIsRoot(h')
  {
    var a, b := h.objs[c].base, h.objs[c].base + 1;
    assert SlotOf(h.objs, c, a) && SlotOf(h.objs, c, b);
    assert h'.CellsOk();
    forall p: nat | h'.LiveSlot(p)
      ensures h'.ValOk(h'.mem[p].val) && !h'.mem[p].mark
    {
      if p != a && p != b {
        assert h.LiveSlot(p);
      }
    }
    if NilIsRoot(h) {
      var p: nat :| p < |h.mem| && h.owner[p] == -1 && h.mem[p].val == Obj(h.nil);
      assert h'.mem[p] == h.mem[p];
    }
  }

  /** A free list is not disturbed by writing to the slots of a cell that is not on it. */
  lemma FreeChainElsewhere(objs: seq<Cell>, owner: seq<int>, mem: seq<Word>, mem': seq<Word>, kind: Kind, link: nat,
                           head: nat, free: seq<nat>, c: nat)
    requires LayoutOk(objs, owner) && |owner| == |mem| == |mem'|
    requires FreeChain(objs, mem, link, head, free) && c !in free
    requires forall p: nat :: p < |mem| && owner[p] != c ==> mem'[p] == mem[p]
    ensures FreeChain(objs, mem', link, head, free)
  {
    forall d | d in free && d < |objs| && objs[d].base + link < |mem|
      ensures mem'[objs[d].base + link] == mem[objs[d].base + link]
    {
      LinkInside(objs, mem, link, head, free, d);
      assert SlotOf(objs, d, objs[d].base + link);
    }
    FreeChainFrame(objs, mem, mem', link, head, free);
  }

  lemma {:induction false} LinkInside(objs: seq<Cell>, mem: seq<Word>, link: nat, head: nat, free: seq<nat>, d: nat)
    requires FreeChain(objs, mem, link, head, free) && d in free
    ensures d < |objs| && link < objs[d].len
    decreases |free|
  {
    if d != free[0] {
      LinkInside(objs, mem, link, mem[objs[free[0]].base + link].val.bits, free[1..], d);
    }
  }

  /** Cell c, of another kind or not on the list, has been filled in and become live. */
  lemma CellListElsewhere(objs: seq<Cell>, owner: seq<int>, mem: seq<Word>, mem': seq<Word>, live: set<nat>,
                          kind: Kind, link: nat, cells: seq<nat>, head: nat, free: seq<nat>, c: nat)
    requires LayoutOk(objs, owner) && |owner| == |mem| == |mem'|
    requires CellListOk(objs, mem, live, kind, link, cells, head, free)
    requires c < |objs| && objs[c].kind != kind
    requires forall p: nat :: p < |mem| && owner[p] != c ==> mem'[p] == mem[p]
    ensures CellListOk(objs, mem', live + {c}, kind, link, cells, head, free)
  {
    FreeChainElsewhere(objs, owner, mem, mem', kind, link, head, free, c);
  }

  lemma PopFree(objs: seq<Cell>, owner: seq<int>, mem: seq<Word>, mem': seq<Word>, live: set<nat>,
                kind: Kind, link: nat, cells: seq<nat>, head: nat, free: seq<nat>)
    requires LayoutOk(objs, owner) && |owner| == |mem| == |mem'|
    requires CellListOk(objs, mem, live, kind, link, cells, head, free) && head != 0
    requires forall p: nat :: p < |mem| && owner[p] != head - 1 ==> mem'[p] == mem[p]
    ensures free != [] && free[0] == head - 1 && head - 1 < |objs| && objs[head - 1].kind == kind && head - 1 !in live
    ensures objs[head - 1].base + link < |mem| && mem[objs[head - 1].base + link].val.Raw?
    ensures CellListOk(objs, mem', live + {head - 1}, kind, link, cells, mem[objs[head - 1].base + link].val.bits,
        free[1..])
  {
    var c := free[0];
    assert c in free && c !in free[1..];
    FreeChainElsewhere(objs, owner, mem, mem', kind, link, mem[objs[c].base + link].val.bits, free[1..], c);
    assert forall d :: d in free <==> d == c || d in free[1..];
  }

  lemma TakeNew(objs: seq<Cell>, owner: seq<int>, mem: seq<Word>, mem': seq<Word>, live: set<nat>,
                blocks: seq<nat>, lim: nat, head: nat, free: seq<nat>)
    requires LayoutOk(objs, owner) && |owner| == |mem| == |mem'|
    requires ConsBlocksOk(objs, blocks, lim) && lim < CONS_BLOCK_SIZE
    requires CellListOk(objs, mem, live, ConsKind, 0, AllocConses(blocks, lim), head, free)
    requires forall p: nat :: p < |mem| && owner[p] != blocks[|blocks| - 1] + lim ==> mem'[p] == mem[p]
    ensures var c := blocks[|blocks| - 1] + lim;
      && c < |objs| && objs[c].kind.ConsKind? && c !in live
      && CellListOk(objs, mem', live + {c}, ConsKind, 0, AllocConses(blocks, lim + 1), head, free)
  {
    var n := |blocks| - 1;
    var c := blocks[n] + lim;
    var older := AllocConses(blocks[..n], CONS_BLOCK_SIZE);
    assert Row(blocks[n], lim + 1) == Row(blocks[n], lim) + [c];
    AllocDistinct(objs, blocks, lim + 1);
    if c in AllocConses(blocks, lim) {
      var b := AllocIn(blocks, lim, c);
      assert false;
    }
    assert forall d :: d in AllocConses(blocks, lim + 1) <==> d == c || d in AllocConses(blocks, lim);
    FreeChainElsewhere(objs, owner, mem, mem', ConsKind, 0, head, free, c);
  }

  lemma LayoutGrows(objs: seq<Cell>, owner: seq<int>)
    requires LayoutOk(objs, owner)
    ensures LayoutOk(objs + FreshCells(|owner|, CONS_BLOCK_SIZE), owner + FreshOwners(|objs|, CONS_BLOCK_SIZE))
  {
    var objs', owner' := objs + FreshCells(|owner|, CONS_BLOCK_SIZE), owner + FreshOwners(|objs|, CONS_BLOCK_SIZE);
    forall o: nat, p: nat | SlotOf(objs', o, p)
      ensures p < |owner'| && owner'[p] == o
    {
      if o < |objs| {
        assert SlotOf(objs, o, p);
      } else {
        assert objs'[o] == Cell(ConsKind, |owner| + 2 * (o - |objs|), 2, -1);
      }
    }
    forall p: nat | p < |owner'| && owner'[p] != -1
      ensures owner'[p] >= 0 && SlotOf(objs', owner'[p], p)
    {
      if p < |owner| {
        assert SlotOf(objs, owner[p], p);
      } else {
        var i := p - |owner|;
        assert owner'[p] == |objs| + i / 2;
        assert objs'[|objs| + i / 2] == Cell(ConsKind, |owner| + 2 * (i / 2), 2, -1);
      }
    }
  }

  /** A new cons block changes nothing a program can see. */
  lemma SoundGrows(h: Snapshot, mem': seq<Word>, h': Snapshot)
    requires h.Sound() && |mem'| == 2 * CONS_BLOCK_SIZE
    requires h' == h.(mem := h.mem + mem', objs := h.objs + FreshCells(|h.owner|, CONS_BLOCK_SIZE),
                      owner := h.owner + FreshOwners(|h.objs|, CONS_BLOCK_SIZE))
    ensures h'.Sound()
    ensures NilIsRoot(h) ==> NilIsRoot(h')
    ensures forall p: nat :: h.LiveSlot(p) ==> h'.mem[p] == h.mem[p]
  {
    LayoutGrows(h.objs, h.owner);
    assert h'.CellsOk();
    forall p: nat | h'.LiveSlot(p)
      ensures h'.ValOk(h'.mem[p].val) && !h'.mem[p].mark
    {
      assert p < |h.mem|;
      assert h.LiveSlot(p);
    }
    if NilIsRoot(h) {
      var p: nat :| p < |h.mem| && h.owner[p] == -1 && h.mem[p].val == Obj(h.nil);
      assert h'.mem[p] == h.mem[p] && h'.owner[p] == -1;
    }
  }

  lemma CellListGrows(objs: seq<Cell>, mem: seq<Word>, more: seq<Word>, fresh': seq<Cell>, live: set<nat>, kind: Kind,
                      link: nat,
                      cells: seq<nat>, head: nat, free: seq<nat>)
    requires CellListOk(objs, mem, live, kind, link, cells, head, free)
    requires forall i :: 0 <= i < |fresh'| ==> fresh'[i].kind.ConsKind?
    requires forall o: nat :: o in live ==> o < |objs|
    ensures CellListOk(objs + fresh', mem + more, live, kind, link, cells, head, free)
  {
    FreeChainMore(objs, objs + fresh', mem, mem + more, link, head, free);
  }

  lemma {:induction false} FreeChainMore(objs: seq<Cell>, objs': seq<Cell>, mem: seq<Word>, mem': seq<Word>, link: nat,
                                         head: nat, free: seq<nat>)
    requires FreeChain(objs, mem, link, head, free) && objs <= objs' && mem <= mem'
    ensures FreeChain(objs', mem', link, head, free)
    decreases |free|
  {
    if free != [] {
      FreeChainMore(objs, objs', mem, mem', link, mem[objs[free[0]].base + link].val.bits, free[1..]);
    }
  }

  lemma FreeUnmarkedGrows(objs: seq<Cell>, mem: seq<Word>, more: seq<Word>, fresh': seq<Cell>, live: set<nat>,
                          cells: seq<nat>, head: nat, free: seq<nat>, owner: seq<int>)
    requires CellListOk(objs, mem, live, SymbolKind, 1, cells, head, free) && LayoutOk(objs, owner) && |owner| == |mem|
    requires FreeUnmarked(objs, mem, free)
    ensures FreeUnmarked(objs + fresh', mem + more, free)
  {
    forall c | c in free && c < |objs + fresh'| && (objs + fresh')[c].base + 3 < |mem + more|
      ensures !(mem + more)[(objs + fresh')[c].base + 3].mark
    {
      assert c < |objs| && objs[c].kind == SymbolKind;
    }
  }

  lemma VectorsGrow(objs: seq<Cell>, fresh': seq<Cell>, live: set<nat>, vectors: seq<nat>)
    requires VectorsOk(objs, live, vectors)
    requires forall i :: 0 <= i < |fresh'| ==> fresh'[i].kind.ConsKind?
    requires forall o: nat :: o in live ==> o < |objs|
    ensures VectorsOk(objs + fresh', live, vectors)
  {
  }

  lemma SameBlocks(h: Snapshot, h': Snapshot)
    requires h.BlocksTiled()
    requires h'.blocks == h.blocks && h'.chain == h.chain && h'.offs == h.offs && h'.strs == h.strs
    ensures h'.BlocksTiled()
  {
  }

  lemma ConsBlocksGrow(objs: seq<Cell>, blocks: seq<nat>, slots: nat)
    requires ConsBlocksOk(objs, blocks, CONS_BLOCK_SIZE)
    ensures ConsBlocksOk(objs + FreshCells(slots, CONS_BLOCK_SIZE), blocks + [|objs|], 0)
    ensures AllocConses(blocks + [|objs|], 0) == AllocConses(blocks, CONS_BLOCK_SIZE)
  {
    assert (blocks + [|objs|])[..|blocks|] == blocks;
    assert Row(|objs|, 0) == [];
  }

  lemma CellsBounded(h: Snapshot)
    requires h.Sound()
    ensures forall o: nat :: o in h.live ==> o < |h.objs|
    ensures |h.owner| == |h.mem|
  {
  }

  method NewConsBlock(h: Heap, junk: seq<Word>)
    requires Valid(h) && h.consBlockIndex == CONS_BLOCK_SIZE && |junk| == 2 * CONS_BLOCK_SIZE
    modifies h`mem, h`objs, h`vflag, h`owner, h`consBlocks, h`consBlockIndex
    ensures Valid(h) && h.consBlockIndex == 0
    ensures h.Now() == old(h.Now()).(mem := h.mem, objs := h.objs, owner := h.owner)
    ensures h.mem == old(h.mem) + junk && old(h.objs) <= h.objs && old(h.owner) <= h.owner
    ensures forall p: nat :: p < |h.owner| && p >= |old(h.owner)| ==> h.owner[p] !in old(h.live) && h.owner[p] != -1
  {
    hide Snapshot.Sound, Snapshot.BlocksTiled, ConsBlocksOk, CellListOk, VectorsOk, AllocConses, NilIsRoot,
         LayoutOk, FreeUnmarked;
    ghost var h0 := h.Now();
    CellsBounded(h0);
    LayoutOf(h0);
    var base := |h.objs|;
    var cells := FreshCells(|h.mem|, CONS_BLOCK_SIZE);
    h.objs := h.objs + cells;
    h.owner := h.owner + FreshOwners(base, CONS_BLOCK_SIZE);
    h.mem := h.mem + junk;
    h.vflag := h.vflag + seq(CONS_BLOCK_SIZE, _ => false);
    h.consBlocks := h.consBlocks + [base];
    h.consBlockIndex := 0;
    SoundGrows(h0, junk, h.Now());
    SameBlocks(h0, h.Now());
    ConsBlocksGrow(h0.objs, old(h.consBlocks), |h0.mem|);
    CellListGrows(h0.objs, h0.mem, junk, cells, h.live, ConsKind, 0, AllocConses(old(h.consBlocks), CONS_BLOCK_SIZE),
                  h.consFreeList, h.freeConses);
    CellListGrows(h0.objs, h0.mem, junk, cells, h.live, SymbolKind, 1, h.symbols, h.symbolFreeList, h.freeSymbols);
    FreeUnmarkedGrows(h0.objs, h0.mem, junk, cells, h.live, h.symbols, h.symbolFreeList, h.freeSymbols, h0.owner);
    VectorsGrow(h0.objs, cells, h.live, h.allVectors);
  }

  lemma ConsSlots(h: Snapshot, c: nat)
    requires h.Sound() && c < |h.objs| && h.objs[c].kind.ConsKind?
    ensures |h.owner| == |h.mem| && LayoutOk(h.objs, h.owner)
    ensures h.objs[c].base + 1 < |h.mem| && h.owner[h.objs[c].base] == c && h.owner[h.objs[c].base + 1] == c
  {
    assert SlotOf(h.objs, c, h.objs[c].base) && SlotOf(h.objs, c, h.objs[c].base + 1);
  }

  lemma NotReachable(h: Snapshot, c: nat)
    requires h.Sound() && c !in h.live
    ensures !Reachable(h, c)
  {
    if Reachable(h, c) { ReachableIsLive(h, c); }
  }

  /** What a call of Fcons does to the rest of the heap: nothing. */
  ghost predicate ConsAdded(h: Snapshot, c: nat, car: Val, cdr: Val, h': Snapshot) {
    && c !in h.live && h'.live == h.live + {c} && c < |h'.objs| && h'.objs[c].kind.ConsKind?
    && h.objs <= h'.objs && |h.mem| <= |h'.mem|
    && h'.objs[c].base + 1 < |h'.mem|
    && h'.mem[h'.objs[c].base] == Word(false, car) && h'.mem[h'.objs[c].base + 1] == Word(false, cdr)
    && (forall p: nat :: h.LiveSlot(p) ==> p < |h'.mem| && h'.mem[p] == h.mem[p])
    && h'.blocks == h.blocks && h'.large == h.large && h'.strs == h.strs && h'.largeLive == h.largeLive
    && h'.nil == h.nil
    && h.owner <= h'.owner && (forall p: nat :: |h.owner| <= p < |h'.owner| ==> h'.owner[p] != -1)
  }

  lemma VectorsWithCons(objs: seq<Cell>, live: set<nat>, vectors: seq<nat>, c: nat)
    requires VectorsOk(objs, live, vectors) && c < |objs| && objs[c].kind.ConsKind?
    ensures VectorsOk(objs, live + {c}, vectors)
  {
  }

  lemma LayoutOf(h: Snapshot)
    requires h.Sound()
    ensures LayoutOk(h.objs, h.owner) && |h.owner| == |h.mem|
  {
  }

  /** Fills in a cons cell that is neither live nor, any longer, free. */
  method FillCons(h: Heap, c: nat, car: Val, cdr: Val)
    requires h.Now().Sound() && h.Now().Tagged(false) && h.Now().BlocksTiled() && NilIsRoot(h.Now())
    requires c < |h.objs| && h.objs[c].kind.ConsKind? && c !in h.live
    requires h.Now().ValOk(car) && h.Now().ValOk(cdr)
    requires SymbolsOk(h) && VectorsOk(h.objs, h.live, h.allVectors)
    modifies h`mem, h`live
    ensures h.Now().Sound() && h.Now().Tagged(false) && h.Now().BlocksTiled() && NilIsRoot(h.Now())
    ensures h.live == old(h.live) + {c} && SymbolsOk(h) && VectorsOk(h.objs, h.live, h.allVectors)
    ensures ConsAdded(old(h.Now()), c, car, cdr, h.Now())
    ensures LayoutOk(h.objs, h.owner) && |h.owner| == |h.mem| == |old(h.mem)|
    ensures forall p: nat :: p < |h.mem| && h.owner[p] != c ==> h.mem[p] == old(h.mem)[p]
  {
    hide Snapshot.Sound, Snapshot.BlocksTiled, CellListOk, VectorsOk, NilIsRoot, LayoutOk;
    ghost var h0 := h.Now();
    ConsSlots(h0, c);
    h.mem := h.mem[h.objs[c].base := Word(false, car)];
    h.mem := h.mem[h.objs[c].base + 1 := Word(false, cdr)];
    h.live := h.live + {c};
    SoundWithCons(h0, c, car, cdr, h.Now());
    SameBlocks(h0, h.Now());
    CellListElsewhere(h.objs, h.owner, h0.mem, h.mem, h0.live, SymbolKind, 1, h.symbols, h.symbolFreeList,
                      h.freeSymbols, c);
    VectorsWithCons(h.objs, h0.live, h.allVectors, c);
  }

  lemma ConsAddedLater(h0: Snapshot, h1: Snapshot, c: nat, car: Val, cdr: Val, h2: Snapshot)
    requires ConsAdded(h1, c, car, cdr, h2) && |h0.owner| == |h0.mem|
    requires h1 == h0.(mem := h1.mem, objs := h1.objs, owner := h1.owner)
    requires h0.mem <= h1.mem && h0.objs <= h1.objs && h0.owner <= h1.owner && |h1.owner| == |h1.mem|
    requires forall p: nat :: |h0.owner| <= p < |h1.owner| ==> h1.owner[p] != -1
    ensures ConsAdded(h0, c, car, cdr, h2)
  {
    forall p: nat | h0.LiveSlot(p)
      ensures p < |h2.mem| && h2.mem[p] == h0.mem[p]
    {
      assert h1.LiveSlot(p);
    }
    forall p: nat | |h0.owner| <= p < |h2.owner|
      ensures h2.owner[p] != -1
    {
      if p < |h1.owner| { assert h2.owner[p] == h1.owner[p]; }
    }
  }

  /** The head of the free list is taken. */
  method ConsFromFreeList(h: Heap, car: Val, cdr: Val) returns (val: nat)
    requires Valid(h) && h.Now().ValOk(car) && h.Now().ValOk(cdr) && h.consFreeList != 0
    modifies h`mem, h`consFreeList, h`freeConses, h`live
    ensures Valid(h)
    ensures ConsAdded(old(h.Now()), val, car, cdr, h.Now())
  {
    hide Snapshot.Sound, Snapshot.BlocksTiled, ConsBlocksOk, CellListOk, VectorsOk, AllocConses, NilIsRoot,
         FreeChain, LayoutOk, ConsAdded;
    ghost var h0 := h.Now();
    LayoutOf(h0);
    ghost var cells := AllocConses(h.consBlocks, h.consBlockIndex);
    val := h.consFreeList - 1;
    ghost var head, free := h.consFreeList, h.freeConses;
    PopFree(h.objs, h.owner, h.mem, h.mem, h.live, ConsKind, 0, cells, head, free);
    h.consFreeList := h.mem[h.objs[val].base].val.bits;
    h.freeConses := h.freeConses[1..];
    FillCons(h, val, car, cdr);
    PopFree(h.objs, h.owner, h0.mem, h.mem, h0.live, ConsKind, 0, cells, head, free);
  }

  /** The next unused cell of the newest block is taken. */
  method ConsFromBlock(h: Heap, car: Val, cdr: Val) returns (val: nat)
    requires Valid(h) && h.Now().ValOk(car) && h.Now().ValOk(cdr) && h.consBlockIndex < CONS_BLOCK_SIZE
    modifies h`mem, h`consBlockIndex, h`live
    ensures Valid(h)
    ensures ConsAdded(old(h.Now()), val, car, cdr, h.Now())
  {
    hide Snapshot.Sound, Snapshot.BlocksTiled, ConsBlocksOk, CellListOk, VectorsOk, AllocConses, NilIsRoot,
         FreeChain, LayoutOk, ConsAdded;
    ghost var h0, lim := h.Now(), h.consBlockIndex;
    LayoutOf(h0);
    LastBlock(h.objs, h.consBlocks, lim);
    TakeNew(h.objs, h.owner, h.mem, h.mem, h.live, h.consBlocks, lim, h.consFreeList, h.freeConses);
    val := h.consBlocks[|h.consBlocks| - 1] + h.consBlockIndex;
    h.consBlockIndex := h.consBlockIndex + 1;
    FillCons(h, val, car, cdr);
    TakeNew(h.objs, h.owner, h0.mem, h.mem, h0.live, h.consBlocks, lim, h.consFreeList, h.freeConses);
  }

  /** Fcons: the new cell is one no program could get at. */
  method Fcons(h: Heap, car: Val, cdr: Val, junk: seq<Word>) returns (val: nat)
    requires Valid(h) && h.Now().ValOk(car) && h.Now().ValOk(cdr) && |junk| == 2 * CONS_BLOCK_SIZE
    modifies h`mem, h`objs, h`vflag, h`owner, h`consBlocks, h`consBlockIndex, h`consFreeList, h`freeConses, h`live
    ensures Valid(h)
    ensures ConsAdded(old(h.Now()), val, car, cdr, h.Now())
    ensures !Reachable(old(h.Now()), val)
  {
    hide Snapshot.Sound, Valid, NilIsRoot, Reachable, ConsAdded;
    ghost var h0 := h.Now();
    ValidSound(h);
    if h.consFreeList != 0 {
      val := ConsFromFreeList(h, car, cdr);
    } else {
      BlockIndex(h);
      if h.consBlockIndex == CONS_BLOCK_SIZE {
        NewConsBlock(h, junk);
      }
      ghost var h1 := h.Now();
      ValidSound(h);
      val := ConsFromBlock(h, car, cdr);
      ConsAddedLater(h0, h1, val, car, cdr, h.Now());
    }
    ConsAddedMeans(h0, val, car, cdr, h.Now());
    NotReachable(h0, val);
  }

  lemma ValidSound(h: Heap)
    requires Valid(h)
    ensures h.Now().Sound() && |h.owner| == |h.mem|
  {
  }

  lemma BlockIndex(h: Heap)
    requires Valid(h)
    ensures h.consBlockIndex <= CONS_BLOCK_SIZE
  {
  }

  lemma LastBlock(objs: seq<Cell>, blocks: seq<nat>, lim: nat)
    requires ConsBlocksOk(objs, blocks, lim)
    ensures |blocks| > 0 && lim <= CONS_BLOCK_SIZE
    ensures lim < CONS_BLOCK_SIZE ==> ConsBlocksOk(objs, blocks, lim + 1)
  {
  }

  lemma ConsAddedMeans(h: Snapshot, c: nat, car: Val, cdr: Val, h': Snapshot)
    requires ConsAdded(h, c, car, cdr, h')
    ensures c !in h.live
  {
  }
}
