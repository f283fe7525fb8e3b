// Fgarbage_collect, and what follows for a program that runs on.

module GarbageCollection {
  import opened LispHeap
  import opened MarkState
  import opened LispStore
  import opened MarkObjects
  import opened MarkRoots
  import opened Placement
  import opened Compaction
  import opened BlockChain
  import opened CompactStrings
  import opened Sweep
  import opened FreeBlocks
  import opened Alloc
  import opened StringAlloc
  import opened AfterCompaction
  import opened SweepAll
  import opened Collect

  lemma SymbolLinks(h: Snapshot, st: GcState, o: nat)
    requires Inv(h, st) && RootsDone(h, st, Roots(h)) && o in st.marked && o < |h.objs|
    requires h.objs[o].kind.SymbolKind? && h.objs[o].next != -1
    ensures h.objs[o].next >= 0 && h.objs[o].next in st.marked && h.objs[o].next < |h.objs|
    ensures h.objs[h.objs[o].next].kind.SymbolKind?
  {
    hide MarksOk, ValsOk, BlocksOk, ChainsOk, LargeOk;
    assert Done(h, o, st.marked, st.visited);
  }

  lemma CellsAfter(h: Snapshot, st: GcState, h': Snapshot)
    requires AllMarked(h, st)
    requires h'.objs == h.objs && h'.owner == h.owner && h'.nil == h.nil && h'.live == st.marked
    ensures h'.CellsOk()
  {
    hide MarksOk, ValsOk, BlocksOk, ChainsOk, LargeOk, RootsDone, NilIsRoot, Snapshot.BlocksTiled;
    forall o: nat | o in h'.live && h'.objs[o].kind.SymbolKind? && h'.objs[o].next != -1
      ensures h'.objs[o].next >= 0 && h'.objs[o].next in h'.live && h'.objs[h'.objs[o].next].kind.SymbolKind?
    {
      SymbolLinks(h, st, o);
    }
  }

  lemma StringsAfter(h: Snapshot, st: GcState, reloc: map<StrLoc, StrLoc>, h': Snapshot)
    requires AllMarked(h, st) && StringsMoved(h, st.chains, reloc, h')
    ensures h'.StringsOk()
  {
    hide Inv, RootsDone, NilIsRoot, Snapshot.BlocksTiled, Snapshot.ChainShape, RelocOk, Tiling,
         AllMoved, ShapeKept, Linked, AllLive, Sizes, OffsAt, SameString;
    forall t | t in h'.strs
      ensures t.block < |h'.blocks| && t.offset < |h'.blocks[t.block].chars|
      ensures h'.blocks[t.block].chars[t.offset] <= STRING_BLOCK_SIZE
    {
      var s :| s in reloc && reloc[s] == t;
      RelocSame(h, st.chains, h', reloc, s);
      SameStringInside(h, s, h', t);
    }
  }

  lemma SameStringInside(h: Snapshot, s: StrLoc, h': Snapshot, t: StrLoc)
    requires SameString(h, s, h', t)
    ensures t.block < |h'.blocks| && t.offset < |h'.blocks[t.block].chars|
  {
  }

  /** The value of a slot that survives refers only to what survives. */
  lemma ValueAfter(h: Snapshot, st: GcState, reloc: map<StrLoc, StrLoc>, h': Snapshot, p: nat)
    requires AllMarked(h, st) && Collected(h, reloc, h') && h'.live == st.marked && Survives(h, st.marked, p)
    ensures h'.ValOk(Renamed(h.mem[p].val, reloc))
  {
    hide Inv, RootsDone, NilIsRoot, Snapshot.BlocksTiled, SameString, Reachable, Survives, Snapshot.LiveSlot;
    SurvivorSlot(h, st, p);
    SurvivorInside(h, st.marked, p);
    match h.mem[p].val
    case Int(_) =>
    case Obj(_) =>
    case Small(s) => assert RefersTo(h, h'.live, Small(s));
    case Large(k) => assert RefersTo(h, h'.live, Large(k));
    case Raw(_) =>
  }

  lemma SurvivorInside(h: Snapshot, M: set<nat>, p: nat)
    requires Survives(h, M, p)
    ensures p < |h.mem|
  {
  }

  lemma SoundAgain(h: Snapshot, st: GcState, reloc: map<StrLoc, StrLoc>, h': Snapshot)
    requires AllMarked(h, st) && StringsMoved(h, st.chains, reloc, h') && Collected(h, reloc, h')
      && h'.live == st.marked
    ensures h'.Sound() && NilIsRoot(h')
  {
    hide Inv, RootsDone, NilIsRoot, Snapshot.BlocksTiled, Snapshot.ChainShape, StringsMoved, SameString, Reachable,
         RefersTo, LayoutOk,
         Renamed, Snapshot.ValOk, Snapshot.CellsOk, Snapshot.StringsOk;
    OwnersOf(h, st);
    CellsAfter(h, st, h');
    StringsAfter(h, st, reloc, h');
    forall p: nat | h'.LiveSlot(p)
      ensures h'.ValOk(h'.mem[p].val) && !h'.mem[p].mark
    {
      assert Survives(h, h'.live, p);
      ValueAfter(h, st, reloc, h', p);
    }
    NilStays(h, reloc, h');
  }

  lemma NilStays(h: Snapshot, reloc: map<StrLoc, StrLoc>, h': Snapshot)
    requires NilIsRoot(h) && Collected(h, reloc, h')
    ensures NilIsRoot(h')
  {
    hide SameString, Reachable, RefersTo;
    var p: nat :| p < |h.mem| && h.owner[p] == -1 && h.mem[p].val == Obj(h.nil);
    assert Survives(h, h'.live, p);
    assert h'.mem[p].val == Obj(h'.nil);
  }

  // ---- the collector ----

  lemma RootSlots(owner: seq<int>, statics: seq<nat>, gcpros: seq<nat>)
    requires RootsOk(owner, statics, gcpros)
    ensures forall p :: p in gcpros ==> p < |owner| && owner[p] == -1
  {
  }

  lemma ShapeOfBlocks(h: Snapshot)
    requires h.BlocksTiled()
    ensures h.ChainShape() && ShapeKept(h, h.blocks)
  {
    forall k: nat | k < |h.chain|
      ensures h.blocks[h.chain[k]].pos <= STRING_BLOCK_SIZE
    {
      TilingAt(h, k);
    }
  }

  /** The collection starts from the heap as it is now: nothing is marked yet. */
  ghost method Begin(h: Heap, h0: Snapshot)
    requires h0.Sound() && h0.Tagged(false) && NilIsRoot(h0) && IsTagged(h0, h.Now())
    requires StringBlocksOk(h) && FlagsClear(h) && ConsesOk(h) && SymbolsOk(h)
      && VectorsOk(h.objs, h.live, h.allVectors)
    modifies h`snap, h`marked, h`visited, h`chains, h`rootmarks
    ensures h.snap == h.Now() && h.Marking() && h.marked == {} && h.visited == {} && h.rootmarks == {}
    ensures NilIsRoot(h.snap) && ListsOk(h) && h.snap.ChainShape() && ShapeKept(h.snap, h.snap.blocks)
  {
    hide Inv, Snapshot.Sound, Snapshot.Tagged, Snapshot.Ready, CellListOk, VectorsOk, Snapshot.BlocksTiled, AllocConses,
         FreeUnmarked,
         ConsBlocksOk, NoDup, NilIsRoot, ShapeKept, RootsOk, Snapshot.ChainShape, LayoutOk, IsTagged;
    h.snap := h.Now();
    TaggedReady(h0, h.snap);
    h.marked, h.visited, h.chains, h.rootmarks := {}, {}, Unthreaded(h.strs), {};
    ShapeOfBlocks(h.snap);
    ClearVectors(h.snap, h.allVectors, h.vflag);
    NothingMarked(h.snap, h.State());
  }

  /** Tags the large strings and starts a collection in which nothing is marked yet. */
  method Prepare(h: Heap)
    requires Valid(h)
    modifies h`large, h`snap, h`marked, h`visited, h`chains, h`rootmarks
    ensures IsTagged(old(h.Now()), h.snap) && h.snap == h.Now()
    ensures h.Marking() && h.marked == {} && h.visited == {} && h.rootmarks == {}
    ensures NilIsRoot(h.snap) && ListsOk(h) && h.snap.ChainShape() && ShapeKept(h.snap, h.snap.blocks)
  {
    hide Snapshot.Sound, Snapshot.Tagged, CellListOk, VectorsOk, Snapshot.BlocksTiled, AllocConses, FreeUnmarked,
         ConsBlocksOk, NoDup, NilIsRoot, ShapeKept, RootsOk, Snapshot.ChainShape, LayoutOk, Heap.Marking, ListsOk;
    ghost var h0 := h.Now();
    ValidLarge(h);
    TagLarge(h);
    SameBlocks(h0, h.Now());
    Begin(h, h0);
  }

  lemma ValidLarge(h: Heap)
    requires Valid(h)
    ensures forall k :: k in h.largeStringBlocks ==> k < |h.large|
  {
    forall k | k in h.largeStringBlocks
      ensures k < |h.large|
    {
      assert k in h.Now().largeLive;
    }
  }

  lemma ClearVectors(h: Snapshot, vectors: seq<nat>, vflag: seq<bool>)
    requires VectorsOk(h.objs, h.live, vectors) && |vflag| == |h.objs|
    requires forall o: nat :: o in vectors && o < |vflag| ==> !vflag[o]
    ensures forall o: nat :: o < |h.objs| && h.objs[o].kind.VectorKind? && o in h.live ==> !vflag[o]
  {
  }

  lemma AllMarkedNow(h: Snapshot, st: GcState)
    requires Inv(h, st) && RootsDone(h, st, Roots(h)) && NilIsRoot(h) && h.BlocksTiled()
    ensures AllMarked(h, st)
  {
    hide RootsDone, NilIsRoot;
    InvReady(h, st);
    MarkedIsReachable(h, st);
    Ranks(h);
  }

  lemma InvReady(h: Snapshot, st: GcState)
    requires Inv(h, st)
    ensures h.Ready()
  {
  }

  lemma MemoryCleared(h: Snapshot, st: GcState, reloc: map<StrLoc, StrLoc>, mem1: seq<Word>, mem2: seq<Word>,
                      mem3: seq<Word>, gcpros: seq<nat>)
    requires Relocated(h, st, mem1, reloc) && Unmarked(h, st.marked, mem1, mem2) && |mem3| == |mem2|
    requires forall p: nat :: p < |mem3| ==> mem3[p] == if p in gcpros then mem2[p].(mark := false) else mem2[p]
    requires forall p :: p in st.rootmarks ==> p in gcpros
    ensures MemoryAfter(h, st, reloc, mem1, mem2, mem3)
  {
    hide Relocated, Unmarked;
  }

  /** The lists of free cells are not disturbed when root slots are unmarked. */
  lemma CellsStay(h: Heap, h0: Snapshot, M: set<nat>, mem: seq<Word>, gcpros: seq<nat>, statics: seq<nat>)
    requires LayoutOk(h0.objs, h0.owner) && |h0.owner| == |mem| == |h.mem| && RootsOk(h0.owner, statics, gcpros)
    requires CellListOk(h0.objs, mem, M, ConsKind, 0, AllocConses(h.consBlocks, h.consBlockIndex), h.consFreeList,
        h.freeConses)
    requires CellListOk(h0.objs, mem, M, SymbolKind, 1, h.symbols, h.symbolFreeList, h.freeSymbols)
    requires FreeUnmarked(h0.objs, mem, h.freeSymbols)
    requires forall p: nat :: p < |mem| ==> h.mem[p] == if p in gcpros then mem[p].(mark := false) else mem[p]
    ensures CellsSwept(h, h0, M)
  {
    hide CellListOk, LayoutOk, AllocConses;
    RootSlots(h0.owner, statics, gcpros);
    CellListFrame(h0.objs, h0.owner, mem, h.mem, M, ConsKind, 0, AllocConses(h.consBlocks, h.consBlockIndex),
                  h.consFreeList, h.freeConses);
    CellListFrame(h0.objs, h0.owner, mem, h.mem, M, SymbolKind, 1, h.symbols, h.symbolFreeList, h.freeSymbols);
  }

  lemma MovedTogether(h: Snapshot, st: GcState, mem1: seq<Word>, reloc: map<StrLoc, StrLoc>, h': Snapshot)
    requires h.ChainShape() && Compacted(h, st, mem1, h'.blocks, reloc, h'.chain)
    requires h'.offs == NewOffs(Sizes(h, AllLive(h, st.chains)), |h'.chain|)
    requires h'.strs == (set s | s in reloc :: reloc[s])
    ensures StringsMoved(h, st.chains, reloc, h') && Relocated(h, st, mem1, reloc)
  {
    hide AllMoved, RelocOk, Relocated, ShapeKept, Linked, Tiling, AllLive;
  }

  lemma StillApart(chain: seq<nat>, n: nat, freed: set<nat>, blocks: nat)
    requires Distinct(chain) && n <= |chain| && freed !! SetOf(chain)
    requires forall i: nat :: i < |chain| ==> chain[i] < blocks
    requires forall b :: b in freed ==> b < blocks
    ensures freed + SetOf(chain[n..]) !! SetOf(chain[..n])
    ensures forall b :: b in freed + SetOf(chain[n..]) ==> b < blocks
  {
  }

  /** gc_sweep and the unmarking of the roots. */
  method SweepAndUnmark(h: Heap, ghost st: GcState)
    returns (ghost reloc: map<StrLoc, StrLoc>, ghost mem1: seq<Word>, ghost mem2: seq<Word>)
    requires h.Marking() && ListsOk(h) && h.owner == h.snap.owner && ShapeKept(h.snap, h.snap.blocks) && st == h.State()
    requires RootsOk(h.owner, h.staticvec, h.gcprolist)
    requires forall p :: p in h.rootmarks ==> p in h.gcprolist
    modifies h`mem, h`blocks, h`currentStringBlock, h`totalStringSize, h`freed, h`consFreeList, h`freeConses,
             h`totalConses, h`totalFreeConses, h`symbolFreeList, h`freeSymbols, h`allVectors, h`vflag, h`large,
             h`largeStringBlocks, h`blockChain
    ensures h.snap.ChainShape() && Compacted(h.snap, st, mem1, h.blocks, reloc, h.blockChain)
    ensures MemoryAfter(h.snap, st, reloc, mem1, mem2, h.mem)
    ensures CellsSwept(h, h.snap, st.marked) && BlocksSwept(h, h.snap, st, old(h.largeStringBlocks))
    ensures |h.blockChain| > 0 && h.currentStringBlock == h.blockChain[|h.blockChain| - 1]
    ensures h.blockChain <= h.snap.chain && h.freed == old(h.freed) + SetOf(h.snap.chain[|h.blockChain|..])
    ensures h.totalFreeConses == |h.freeConses|
    ensures h.totalConses + h.totalFreeConses == |AllocConses(h.consBlocks, h.consBlockIndex)|
    ensures h.totalStringSize ==
      Sum(Sizes(h.snap, AllLive(h.snap, st.chains))) + TotalSize(h.large, h.largeStringBlocks)
  {
    hide Inv, CellListOk, VectorsOk, Snapshot.BlocksTiled, LayoutOk, AllocConses, FreeUnmarked, LargeSwept, Flagged,
         ConsBlocksOk, Compacted, ShapeKept, Unmarked, AllLive, TotalSize, Sum, NoDup, SetOf, RootsOk, Relocated,
         MemoryAfter, Sizes, Snapshot.ChainShape;
    ghost var s := h.snap;
    SnapKnown(h);
    reloc, mem1 := GcSweep(h, st);
    mem2 := h.mem;
    UnmarkedLength(s, st.marked, mem1, mem2);
    RootSlots(h.owner, h.staticvec, h.gcprolist);
    UnmarkRoots(h);
    CompactedParts(s, st, mem1, h.blocks, reloc, h.blockChain);
    MemoryCleared(s, st, reloc, mem1, mem2, h.mem, h.gcprolist);
    CellsStay(h, s, st.marked, mem2, h.gcprolist, h.staticvec);
  }

  /** The ghost state that goes with the heap after the sweep. */
  ghost method Conclude(h: Heap, st: GcState, reloc: map<StrLoc, StrLoc>, mem1: seq<Word>, mem2: seq<Word>,
                        list: seq<nat>)
    requires AllMarked(h.snap, st) && MemoryAfter(h.snap, st, reloc, mem1, mem2, h.mem)
    requires h.snap.ChainShape() && Compacted(h.snap, st, mem1, h.blocks, reloc, h.blockChain)
    requires h.objs == h.snap.objs && h.owner == h.snap.owner && h.nil == h.snap.nil
    requires h.snap.largeLive == SetOf(list) && BlocksSwept(h, h.snap, st, list)
    modifies h`live, h`strs, h`offs
    ensures h.live == st.marked && h.Now().Tagged(false)
    ensures Collected(h.snap, reloc, h.Now()) && StringsMoved(h.snap, st.chains, reloc, h.Now())
  {
    hide VectorsOk, NewOffs, Compacted, AllLive, NoDup, SetOf, StringsMoved, Collected, MemoryAfter, LargeSwept,
         Flagged, Sizes,
         AllMarked, Snapshot.ChainShape, Snapshot.Tagged;
    h.live := st.marked;
    h.strs := (set s | s in reloc :: reloc[s]);
    h.offs := NewOffs(Sizes(h.snap, AllLive(h.snap, st.chains)), |h.blockChain|);
    MovedTogether(h.snap, st, mem1, reloc, h.Now());
    LargeNow(h);
    CollectionIs(h.snap, st, reloc, mem1, mem2, list, h.Now());
  }

  lemma SnapKnown(h: Heap)
    requires h.Marking()
    ensures h.objs == h.snap.objs && h.nil == h.snap.nil && LayoutOk(h.snap.objs, h.snap.owner)
      && |h.snap.owner| == |h.mem| == |h.snap.mem|
    ensures Inv(h.snap, h.State())
  {
    OwnersOf(h.snap, h.State());
  }

  lemma LargeNow(h: Heap)
    ensures h.Now().largeLive == SetOf(h.largeStringBlocks)
  {
  }

  lemma UnmarkedLength(h: Snapshot, M: set<nat>, mem0: seq<Word>, mem: seq<Word>)
    requires Unmarked(h, M, mem0, mem)
    ensures |mem| == |mem0| == |h.mem| == |h.owner|
  {
  }

  lemma FirstStays(s: seq<nat>, chain: seq<nat>)
    requires |s| > 0 && s <= chain
    ensures s[0] == chain[0] && s == chain[..|s|]
  {
  }

  lemma ChainKnown(h: Snapshot)
    requires h.BlocksTiled()
    ensures Distinct(h.chain) && forall i: nat :: i < |h.chain| ==> h.chain[i] < |h.blocks|
  {
  }

  lemma NewBlocks(h: Snapshot, st: GcState, reloc: map<StrLoc, StrLoc>, h': Snapshot)
    requires h.ChainShape() && StringsMoved(h, st.chains, reloc, h')
    ensures |h'.blocks| == |h.blocks|
  {
  }

  /** The allocator's invariant holds again. */
  lemma ValidAgain(h: Heap, st: GcState, reloc: map<StrLoc, StrLoc>, list: seq<nat>, freed: set<nat>)
    requires AllMarked(h.snap, st) && h.snap.ChainShape()
    requires h.live == st.marked && h.Now().Tagged(false)
    requires Collected(h.snap, reloc, h.Now()) && StringsMoved(h.snap, st.chains, reloc, h.Now())
    requires CellsSwept(h, h.snap, st.marked) && BlocksSwept(h, h.snap, st, list)
    requires |h.blockChain| > 0 && h.currentStringBlock == h.blockChain[|h.blockChain| - 1]
    requires h.blockChain <= h.snap.chain && h.freed == freed + SetOf(h.snap.chain[|h.blockChain|..])
    requires freed !! SetOf(h.snap.chain) && (forall b :: b in freed ==> b < |h.blocks|)
    requires h.objs == h.snap.objs && h.owner == h.snap.owner && h.nil == h.snap.nil
    requires h.firstStringBlock == h.snap.chain[0] && RootsOk(h.owner, h.staticvec, h.gcprolist)
    requires ConsBlocksOk(h.objs, h.consBlocks, h.consBlockIndex)
    ensures Valid(h)
  {
    hide Inv, AllMarked, Collected, StringsMoved, CellListOk, VectorsOk, FreeUnmarked, RootsOk, ConsBlocksOk,
         LargeSwept, Flagged,
         Snapshot.Sound, Snapshot.Tagged, Snapshot.BlocksTiled, Snapshot.ChainShape, NilIsRoot, NoDup, AllocConses,
         Distinct;
    AllMarkedMeans(h.snap, st);
    SoundAgain(h.snap, st, reloc, h.Now());
    TiledAgain(h.snap, st.chains, reloc, h.Now());
    FirstStays(h.blockChain, h.snap.chain);
    ChainKnown(h.snap);
    NewBlocks(h.snap, st, reloc, h.Now());
    StillApart(h.snap.chain, |h.blockChain|, freed, |h.blocks|);
  }

  lemma AllMarkedMeans(h: Snapshot, st: GcState)
    requires AllMarked(h, st)
    ensures h.BlocksTiled() && Inv(h, st)
  {
  }

  /** Tagging and marking. */
  method MarkPhase(h: Heap)
    requires Valid(h)
    modifies h`mem, h`blocks, h`vflag, h`large, h`snap, h`marked, h`visited, h`chains, h`rootmarks
    ensures IsTagged(old(h.Now()), h.snap) && h.Marking() && ListsOk(h) && h.snap.ChainShape()
      && ShapeKept(h.snap, h.snap.blocks)
    ensures AllMarked(h.snap, h.State())
    ensures forall p :: p in h.rootmarks ==> p in h.gcprolist
  {
    hide Snapshot.Sound, Inv, CellListOk, VectorsOk, Snapshot.BlocksTiled, LayoutOk, AllocConses, FreeUnmarked,
         RootsDone,
         ConsBlocksOk, ShapeKept, NoDup, RootsOk, AllMarked, IsTagged, Roots, NilIsRoot, Snapshot.Tagged, SetOf;
    ValidRoots(h);
    Prepare(h);
    TaggedOwner(h);
    MarkAllRoots(h);
    AllMarkedNow(h.snap, h.State());
  }

  lemma ValidRoots(h: Heap)
    requires Valid(h)
    ensures RootsOk(h.owner, h.staticvec, h.gcprolist)
  {
  }

  lemma TaggedOwner(h: Heap)
    requires h.snap == h.Now()
    ensures h.snap.owner == h.owner
  {
  }

  /** Sweeping, after which the heap is in order again. */
  method SweepPhase(h: Heap) returns (ghost reloc: map<StrLoc, StrLoc>)
    requires h.Marking() && ListsOk(h) && h.snap.ChainShape() && ShapeKept(h.snap, h.snap.blocks)
    requires AllMarked(h.snap, h.State())
    requires h.owner == h.snap.owner && RootsOk(h.owner, h.staticvec, h.gcprolist)
    requires forall p :: p in h.rootmarks ==> p in h.gcprolist
    requires h.freed !! SetOf(h.snap.chain) && (forall b :: b in h.freed ==> b < |h.blocks|)
    modifies h`mem, h`blocks, h`currentStringBlock, h`totalStringSize, h`freed, h`consFreeList, h`freeConses,
             h`totalConses, h`totalFreeConses, h`symbolFreeList, h`freeSymbols, h`allVectors, h`vflag, h`large,
             h`largeStringBlocks, h`blockChain, h`live, h`strs, h`offs
    ensures Valid(h)
    ensures Collected(h.snap, reloc, h.Now())
    ensures h.blockChain <= h.snap.chain && h.freed == old(h.freed) + SetOf(h.snap.chain[|h.blockChain|..])
    ensures h.totalFreeConses == |h.freeConses|
    ensures h.totalConses + h.totalFreeConses == |AllocConses(h.consBlocks, h.consBlockIndex)|
  {
    hide Valid, Inv, CellListOk, VectorsOk, Snapshot.BlocksTiled, LayoutOk, AllocConses, FreeUnmarked,
         ConsBlocksOk, Compacted, ShapeKept, AllLive, TotalSize, Sum, NoDup, RootsOk, Sizes, Snapshot.ChainShape,
         AllMarked, Collected, StringsMoved, MemoryAfter, LargeSwept, Flagged, Snapshot.Tagged, Snapshot.Sound,
         SetOf;
    ghost var st, freed, list := h.State(), h.freed, h.largeStringBlocks;
    SnapKnown(h);
    BlockCount(h.snap, st);
    ghost var mem1, mem2;
    reloc, mem1, mem2 := SweepAndUnmark(h, st);
    Conclude(h, st, reloc, mem1, mem2, list);
    NewBlocks(h.snap, st, reloc, h.Now());
    ValidAgain(h, st, reloc, list, freed);
  }

  lemma BlockCount(h: Snapshot, st: GcState)
    requires Inv(h, st)
    ensures |st.blocks| == |h.blocks|
  {
  }

  lemma FreedBlocks(h: Heap)
    requires Valid(h)
    ensures h.freed !! SetOf(h.blockChain) && forall b :: b in h.freed ==> b < |h.blocks|
  {
  }

  lemma TaggedChain(h: Snapshot, h': Snapshot)
    requires IsTagged(h, h')
    ensures h'.chain == h.chain && h'.owner == h.owner && h'.blocks == h.blocks
  {
  }

  /** Fgarbage_collect. */
  method GarbageCollect(h: Heap) returns (ghost reloc: map<StrLoc, StrLoc>)
    requires Valid(h)
    modifies h`mem, h`blocks, h`currentStringBlock, h`totalStringSize, h`freed, h`consFreeList, h`freeConses,
             h`totalConses, h`totalFreeConses, h`symbolFreeList, h`freeSymbols, h`allVectors, h`vflag, h`large,
             h`largeStringBlocks, h`blockChain, h`live, h`strs, h`offs,
             h`snap, h`marked, h`visited, h`chains, h`rootmarks
    ensures Valid(h)
    ensures Collected(old(h.Now()), reloc, h.Now())
    ensures h.blockChain <= old(h.blockChain) && h.freed == old(h.freed) + SetOf(old(h.blockChain)[|h.blockChain|..])
    ensures h.totalFreeConses == |h.freeConses|
    ensures h.totalConses + h.totalFreeConses == |AllocConses(h.consBlocks, h.consBlockIndex)|
  {
    hide Valid, Inv, ListsOk, AllocConses, AllMarked, Collected, IsTagged, SetOf, Snapshot.ChainShape, ShapeKept,
         RootsOk;
    ghost var h0 := h.Now();
    ValidRoots(h);
    FreedBlocks(h);
    MarkPhase(h);
    ghost var h1 := h.snap;
    TaggedChain(h0, h1);
    SnapKnown(h);
    BlockCount(h1, h.State());
    reloc := SweepPhase(h);
    TagInvisible(h0, h1, reloc, h.Now());
  }
}
