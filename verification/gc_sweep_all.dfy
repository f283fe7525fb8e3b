// gc_sweep: strings are compacted, then cells, vectors and large strings that are not marked are freed.

module SweepAll {
  import opened LispHeap
  import opened MarkState
  import opened LispStore
  import opened Compaction
  import opened BlockChain
  import opened Sweep
  import opened FreeBlocks
  import opened Alloc

  /** What the sweep relies on besides marking: the allocator's lists describe the heap that was marked. */
  ghost predicate ListsOk(h: Heap)
    reads h
  {
    var s := h.snap;
    && ConsBlocksOk(s.objs, h.consBlocks, h.consBlockIndex)
    && CellListOk(s.objs, s.mem, s.live, ConsKind, 0, AllocConses(h.consBlocks, h.consBlockIndex), h.consFreeList,
        h.freeConses)
    && CellListOk(s.objs, s.mem, s.live, SymbolKind, 1, h.symbols, h.symbolFreeList, h.freeSymbols)
    && FreeUnmarked(s.objs, s.mem, h.freeSymbols)
    && VectorsOk(s.objs, s.live, h.allVectors)
    && NoDup(h.largeStringBlocks) && s.largeLive == SetOf(h.largeStringBlocks)
    && s.BlocksTiled() && h.firstStringBlock == s.chain[0]
  }

  // ---- which cells carry a mark ----

  lemma {:induction false} LinkUnmarked(objs: seq<Cell>, mem: seq<Word>, link: nat, head: nat, free: seq<nat>, c: nat)
    requires FreeChain(objs, mem, link, head, free) && c in free
    ensures c < |objs| && objs[c].base + link < |mem| && !mem[objs[c].base + link].mark
    decreases |free|
  {
    if c != free[0] {
      LinkUnmarked(objs, mem, link, mem[objs[free[0]].base + link].val.bits, free[1..], c);
    }
  }

  /** Compaction does not change mark bits: a cell is marked in memory exactly when it is in the marked set. */
  lemma MarkedInMemory(h: Snapshot, st: GcState, mem: seq<Word>, reloc: map<StrLoc, StrLoc>, c: nat)
    requires Inv(h, st) && Relocated(h, st, mem, reloc)
    requires c < |h.objs| && !h.objs[c].kind.VectorKind?
    requires c !in h.live && 0 <= MarkSlot(h.objs[c]) < |h.mem| ==> !h.mem[MarkSlot(h.objs[c])].mark
    ensures 0 <= MarkSlot(h.objs[c]) < |mem| && (mem[MarkSlot(h.objs[c])].mark <==> c in st.marked)
  {
    hide ChainsOk, BlocksOk, LargeOk, Snapshot.Sound;
    var p := MarkSlot(h.objs[c]);
    MarkSlotOwned(h, c);
    OwnersOf(h, st);
    if c in h.live {
      MarkOfLive(h, st, c, p);
    } else {
      DeadSlot(h, st, c, p);
    }
  }

  lemma MarkOfLive(h: Snapshot, st: GcState, c: nat, p: nat)
    requires Inv(h, st) && c in h.live && c < |h.objs| && p < |h.mem| == |h.owner| && h.owner[p] == c
      && p == MarkSlot(h.objs[c])
    ensures p < |st.mem| && (st.mem[p].mark <==> c in st.marked)
  {
    assert h.LiveSlot(p);
  }

  lemma DeadSlot(h: Snapshot, st: GcState, c: nat, p: nat)
    requires Inv(h, st) && c !in h.live && p < |h.mem| == |h.owner| && h.owner[p] == c
    ensures p < |st.mem| && st.mem[p] == h.mem[p] && c !in st.marked
  {
    assert !h.LiveSlot(p);
  }

  lemma ConsMarks(h: Snapshot, st: GcState, mem: seq<Word>, reloc: map<StrLoc, StrLoc>, cells: seq<nat>, head: nat,
                  free: seq<nat>)
    requires Inv(h, st) && Relocated(h, st, mem, reloc)
    requires CellListOk(h.objs, h.mem, h.live, ConsKind, 0, cells, head, free)
    ensures forall c :: c in cells && c < |h.objs| ==>
      0 <= MarkSlot(h.objs[c]) < |mem| && (mem[MarkSlot(h.objs[c])].mark <==> c in st.marked)
  {
    forall c | c in cells && c < |h.objs|
      ensures 0 <= MarkSlot(h.objs[c]) < |mem| && (mem[MarkSlot(h.objs[c])].mark <==> c in st.marked)
    {
      hide Inv, Relocated, FreeChain, NoDup;
      if c !in h.live { LinkUnmarked(h.objs, h.mem, 0, head, free, c); }
      MarkedInMemory(h, st, mem, reloc, c);
    }
  }

  lemma SymbolMarks(h: Snapshot, st: GcState, mem: seq<Word>, reloc: map<StrLoc, StrLoc>, cells: seq<nat>, head: nat,
                    free: seq<nat>)
    requires Inv(h, st) && Relocated(h, st, mem, reloc)
    requires CellListOk(h.objs, h.mem, h.live, SymbolKind, 1, cells, head, free) && FreeUnmarked(h.objs, h.mem, free)
    ensures forall c :: c in cells && c < |h.objs| ==>
      0 <= MarkSlot(h.objs[c]) < |mem| && (mem[MarkSlot(h.objs[c])].mark <==> c in st.marked)
  {
    forall c | c in cells && c < |h.objs|
      ensures 0 <= MarkSlot(h.objs[c]) < |mem| && (mem[MarkSlot(h.objs[c])].mark <==> c in st.marked)
    {
      hide Inv, Relocated, FreeChain, NoDup;
      MarkedInMemory(h, st, mem, reloc, c);
    }
  }

  // ---- the lists afterwards ----

  lemma SweptCells(objs: seq<Cell>, owner: seq<int>, mem0: seq<Word>, mem: seq<Word>, M: set<nat>, live: set<nat>,
                   kind: Kind, link: nat, cells: seq<nat>, head: nat, list: seq<nat>)
    requires LayoutOk(objs, owner) && |owner| == |mem0| && M <= live
    requires Sweeping(objs, owner, mem0, mem, M, kind, link, cells, head, list) && NoDup(cells)
    requires forall o: nat :: o < |objs| && objs[o].kind == kind && o in live ==> o in cells
    ensures CellListOk(objs, mem, M, kind, link, cells, head, list)
  {
    hide FreeChain, LayoutOk, Swept;
  }

  lemma CellListLive(objs: seq<Cell>, mem: seq<Word>, live: set<nat>, kind: Kind, link: nat, cells: seq<nat>, head: nat,
                     free: seq<nat>)
    requires CellListOk(objs, mem, live, kind, link, cells, head, free)
    ensures NoDup(cells) && forall o: nat :: o < |objs| && objs[o].kind == kind && o in live ==> o in cells
    ensures forall c :: c in cells ==> c < |objs| && objs[c].kind == kind
    ensures forall c :: c in free ==> c in cells
  {
  }

  /** A free list lies in slots of its own kind of cell. */
  lemma CellListFrame(objs: seq<Cell>, owner: seq<int>, mem: seq<Word>, mem': seq<Word>, live: set<nat>,
                      kind: Kind, link: nat, cells: seq<nat>, head: nat, free: seq<nat>)
    requires LayoutOk(objs, owner) && |owner| == |mem| == |mem'|
    requires CellListOk(objs, mem, live, kind, link, cells, head, free)
    requires forall p: nat :: p < |mem| && 0 <= owner[p] < |objs| && objs[owner[p]].kind == kind ==> mem'[p] == mem[p]
    ensures CellListOk(objs, mem', live, kind, link, cells, head, free)
  {
    forall d | d in free && d < |objs| && objs[d].base + link < |mem|
      ensures mem'[objs[d].base + link] == mem[objs[d].base + link]
    {
      LinkInside(objs, mem, link, head, free, d);
      assert SlotOf(objs, d, objs[d].base + link);
    }
    FreeChainFrame(objs, mem, mem', link, head, free);
  }

  lemma FreeUnmarkedAfter(objs: seq<Cell>, owner: seq<int>, mem0: seq<Word>, mem: seq<Word>, M: set<nat>,
                          cells: seq<nat>, head: nat, list: seq<nat>)
    requires LayoutOk(objs, owner) && |owner| == |mem0|
    requires Sweeping(objs, owner, mem0, mem, M, SymbolKind, 1, cells, head, list)
    ensures FreeUnmarked(objs, mem, list)
  {
    forall c | c in list && c < |objs| && objs[c].base + 3 < |mem|
      ensures !mem[objs[c].base + 3].mark
    {
      assert SlotOf(objs, c, MarkSlot(objs[c]));
    }
  }

  /** The slots of roots and marked cells after both cell sweeps: as compaction left them, mark bits of
      cells cleared. */
  ghost predicate Unmarked(h: Snapshot, M: set<nat>, mem0: seq<Word>, mem: seq<Word>) {
    && |mem| == |mem0| == |h.mem| == |h.owner|
    && forall p: nat :: p < |h.mem| && (h.owner[p] == -1 || h.owner[p] in M) ==>
         mem[p].val == mem0[p].val && (mem[p].mark <==> mem0[p].mark && !IsCellMark(h, p))
  }

  /** Slot p is where a cons or symbol keeps its mark. */
  ghost predicate IsCellMark(h: Snapshot, p: nat)
    requires p < |h.owner|
  {
    0 <= h.owner[p] < |h.objs| && p == MarkSlot(h.objs[h.owner[p]])
  }

  lemma BothSwept(h: Snapshot, M: set<nat>, mem0: seq<Word>, mem1: seq<Word>, mem2: seq<Word>, conses: seq<nat>,
                  symbols: seq<nat>)
    requires LayoutOk(h.objs, h.owner) && |h.owner| == |mem0| == |mem1| == |h.mem| && M <= h.live
    requires Swept(h.objs, h.owner, mem0, mem1, M, set c | c in conses)
    requires Swept(h.objs, h.owner, mem1, mem2, M, set c | c in symbols)
    requires forall o: nat :: o < |h.objs| && h.objs[o].kind == ConsKind && o in h.live ==> o in conses
    requires forall o: nat :: o < |h.objs| && h.objs[o].kind == SymbolKind && o in h.live ==> o in symbols
    requires forall c :: c in conses ==> c < |h.objs| && h.objs[c].kind == ConsKind
    requires forall c :: c in symbols ==> c < |h.objs| && h.objs[c].kind == SymbolKind
    ensures Unmarked(h, M, mem0, mem2)
  {
    forall p: nat | p < |h.mem| && (h.owner[p] == -1 || h.owner[p] in M)
      ensures mem2[p].val == mem0[p].val && (mem2[p].mark <==> mem0[p].mark && !IsCellMark(h, p))
    {
      if h.owner[p] != -1 {
        assert SlotOf(h.objs, h.owner[p], p);
        var o: nat := h.owner[p];
        match h.objs[o].kind
        case ConsKind => assert o in conses && o !in symbols;
        case SymbolKind => assert o in symbols && o !in conses;
        case VectorKind => assert o !in symbols && o !in conses;
      }
    }
  }

  lemma OwnersOf(h: Snapshot, st: GcState)
    requires Inv(h, st)
    ensures LayoutOk(h.objs, h.owner) && |h.owner| == |h.mem| == |st.mem| && st.marked <= h.live
    ensures |st.vflag| == |h.objs| && |st.large| == |h.large|
    ensures forall k: nat :: k in h.largeLive ==> k < |h.large|
  {
  }

  lemma FlaggedVectors(h: Snapshot, st: GcState, vectors: seq<nat>)
    requires Inv(h, st) && VectorsOk(h.objs, h.live, vectors)
    ensures NoDup(vectors) && forall o :: o in vectors ==> o < |st.vflag| && (st.vflag[o] <==> o in st.marked)
  {
  }

  lemma VectorsAfter(objs: seq<Cell>, live: set<nat>, M: set<nat>, vectors: seq<nat>)
    requires VectorsOk(objs, live, vectors) && M <= live
    ensures VectorsOk(objs, M, Only(vectors, M))
  {
    OnlyHas(vectors, M);
  }

  lemma SymbolsElsewhere(h: Snapshot, mem: seq<Word>, mem': seq<Word>, M: set<nat>, conses: seq<nat>, symbols: seq<nat>)
    requires LayoutOk(h.objs, h.owner) && |h.owner| == |mem|
      && Swept(h.objs, h.owner, mem, mem', M, set c | c in conses)
    requires forall c :: c in conses ==> c < |h.objs| && h.objs[c].kind == ConsKind
    requires forall c :: c in symbols ==> c < |h.objs| && h.objs[c].kind == SymbolKind
    requires forall c :: c in symbols && c < |h.objs| ==>
      0 <= MarkSlot(h.objs[c]) < |mem| && (mem[MarkSlot(h.objs[c])].mark <==> c in M)
    ensures forall c :: c in symbols && c < |h.objs| ==>
      0 <= MarkSlot(h.objs[c]) < |mem'| && (mem'[MarkSlot(h.objs[c])].mark <==> c in M)
  {
    forall c | c in symbols && c < |h.objs|
      ensures 0 <= MarkSlot(h.objs[c]) < |mem'| && (mem'[MarkSlot(h.objs[c])].mark <==> c in M)
    {
      assert SlotOf(h.objs, c, MarkSlot(h.objs[c]));
    }
  }

  lemma ConsesElsewhere(h: Snapshot, mem: seq<Word>, mem': seq<Word>, M: set<nat>, live: set<nat>, symbols: seq<nat>,
                        cells: seq<nat>, head: nat, free: seq<nat>)
    requires LayoutOk(h.objs, h.owner) && |h.owner| == |mem|
      && Swept(h.objs, h.owner, mem, mem', M, set c | c in symbols)
    requires forall c :: c in symbols ==> c < |h.objs| && h.objs[c].kind == SymbolKind
    requires CellListOk(h.objs, mem, live, ConsKind, 0, cells, head, free)
    ensures CellListOk(h.objs, mem', live, ConsKind, 0, cells, head, free)
  {
    hide CellListOk;
    CellListFrame(h.objs, h.owner, mem, mem', live, ConsKind, 0, cells, head, free);
  }

  /** The conses and the symbols. */
  method SweepCells(h: Heap, ghost st: GcState, ghost reloc: map<StrLoc, StrLoc>)
    requires ListsOk(h) && Inv(h.snap, st) && Relocated(h.snap, st, h.mem, reloc) && h.objs == h.snap.objs
      && h.owner == h.snap.owner
    modifies h`mem, h`consFreeList, h`freeConses, h`totalConses, h`totalFreeConses, h`symbolFreeList, h`freeSymbols
    ensures Unmarked(h.snap, st.marked, old(h.mem), h.mem)
    ensures CellListOk(h.objs, h.mem, st.marked, ConsKind, 0, AllocConses(h.consBlocks, h.consBlockIndex),
        h.consFreeList, h.freeConses)
    ensures CellListOk(h.objs, h.mem, st.marked, SymbolKind, 1, h.symbols, h.symbolFreeList, h.freeSymbols)
    ensures FreeUnmarked(h.objs, h.mem, h.freeSymbols)
    ensures h.totalFreeConses == |h.freeConses|
    ensures h.totalConses + h.totalFreeConses == |AllocConses(h.consBlocks, h.consBlockIndex)|
  {
    hide Inv, CellListOk, Relocated, VectorsOk, Snapshot.BlocksTiled, LayoutOk, AllocConses, FreeUnmarked, Swept,
         FreeChain, NoDup,
         ConsBlocksOk;
    ghost var s, M := h.snap, st.marked;
    ghost var conses := AllocConses(h.consBlocks, h.consBlockIndex);
    OwnersOf(s, st);
    CellListLive(s.objs, s.mem, s.live, ConsKind, 0, conses, h.consFreeList, h.freeConses);
    CellListLive(s.objs, s.mem, s.live, SymbolKind, 1, h.symbols, h.symbolFreeList, h.freeSymbols);
    ConsMarks(s, st, h.mem, reloc, conses, h.consFreeList, h.freeConses);
    SymbolMarks(s, st, h.mem, reloc, h.symbols, h.symbolFreeList, h.freeSymbols);
    RelocatedLength(s, st, h.mem, reloc);
    ghost var mem0 := h.mem;
    SweepConses(h, M);
    ghost var mem1 := h.mem;
    SweptCells(s.objs, s.owner, mem0, mem1, M, s.live, ConsKind, 0, conses, h.consFreeList, h.freeConses);
    SymbolsElsewhere(s, mem0, mem1, M, conses, h.symbols);
    SweptLength(s.objs, s.owner, mem0, mem1, M, set c | c in conses);
    SweepSymbols(h, M);
    SweptCells(s.objs, s.owner, mem1, h.mem, M, s.live, SymbolKind, 1, h.symbols, h.symbolFreeList, h.freeSymbols);
    ConsesElsewhere(s, mem1, h.mem, M, M, h.symbols, conses, h.consFreeList, h.freeConses);
    FreeUnmarkedAfter(s.objs, s.owner, mem1, h.mem, M, h.symbols, h.symbolFreeList, h.freeSymbols);
    BothSwept(s, M, mem0, mem1, h.mem, conses, h.symbols);
  }

  lemma RelocatedLength(h: Snapshot, st: GcState, mem: seq<Word>, reloc: map<StrLoc, StrLoc>)
    requires Relocated(h, st, mem, reloc)
    ensures |mem| == |h.mem|
  {
  }

  lemma SweptLength(objs: seq<Cell>, owner: seq<int>, mem0: seq<Word>, mem: seq<Word>, M: set<nat>, done: set<nat>)
    requires LayoutOk(objs, owner) && |owner| == |mem0| && Swept(objs, owner, mem0, mem, M, done)
    ensures |mem| == |mem0|
  {
  }
}
