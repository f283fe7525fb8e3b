// Fgarbage_collect: mark, sweep, and what a program can tell afterwards.

module Collect {
  import opened LispHeap
  import opened MarkState
  import opened LispStore
  import opened MarkObjects
  import opened MarkRoots
  import opened Placement
  import opened Compaction
  import opened BlockChain
  import opened CompactStrings
  import opened Sweep
  import opened FreeBlocks
  import opened Alloc
  import opened StringAlloc
  import opened AfterCompaction
  import opened SweepAll

  function Renamed(v: Val, reloc: map<StrLoc, StrLoc>): Val {
    if v.Small? && v.loc in reloc then Small(reloc[v.loc]) else v
  }

  ghost predicate Survives(h: Snapshot, M: set<nat>, p: nat) {
    p < |h.mem| && p < |h.owner| && (h.owner[p] == -1 || h.owner[p] in M)
  }

  /** A large string is referred to from a slot that survives. */
  ghost predicate RefersTo(h: Snapshot, M: set<nat>, v: Val) {
    exists p: nat :: Survives(h, M, p) && h.mem[p].val == v
  }

  function Clean(s: LargeString): LargeString { s.(tagged := false, flagged := false) }

  /** What a collection does: exactly the reachable cells stay; every slot of theirs and every root
      holds what it held, with small strings renamed by an injective map that keeps length and bytes;
      exactly the strings such a slot refers to stay. */
  ghost predicate Collected(h: Snapshot, reloc: map<StrLoc, StrLoc>, h': Snapshot) {
    && h'.objs == h.objs && h'.owner == h.owner && h'.nil == h.nil && |h'.mem| == |h.mem| == |h.owner|
    && h'.live <= h.live
    && (forall t: nat :: t in h'.live <==> Reachable(h, t))
    && (forall p: nat :: Survives(h, h'.live, p) ==> h'.mem[p] == Word(false, Renamed(h.mem[p].val, reloc)))
    && (forall s :: s in reloc <==> RefersTo(h, h'.live, Small(s)))
    && (forall s, t :: s in reloc && t in reloc && s != t ==> reloc[s] != reloc[t])
    && (forall s :: s in reloc ==> s in h.strs && SameString(h, s, h', reloc[s]))
    && h'.strs == (set s | s in reloc :: reloc[s])
    && (forall k: nat :: k in h'.largeLive <==> RefersTo(h, h'.live, Large(k)))
    && |h'.large| == |h.large|
    && (forall k: nat :: k in h'.largeLive ==> k < |h.large| && h'.large[k] == Clean(h.large[k]))
  }

  // ---- survivors ----

  lemma SurvivorSlot(h: Snapshot, st: GcState, p: nat)
    requires Inv(h, st) && RootsDone(h, st, Roots(h)) && h.nil in st.marked && Survives(h, st.marked, p)
    ensures h.LiveSlot(p) && !h.mem[p].val.Raw?
    ensures h.mem[p].val.Obj? ==> h.mem[p].val.id in st.marked
    ensures h.mem[p].val.Small? || h.mem[p].val.Large? ==> p in st.visited
  {
    hide MarksOk, ValsOk, BlocksOk, ChainsOk, LargeOk;
    assert h.LiveSlot(p);
    if h.owner[p] == -1 {
      assert p in Roots(h);
      assert SlotDone(h, p, st.marked, st.visited);
    } else {
      var o: nat := h.owner[p];
      assert SlotOf(h.objs, o, p);
      assert Done(h, o, st.marked, st.visited);
      if !h.Skipped(p) { assert SlotDone(h, p, st.marked, st.visited); }
    }
  }

  lemma VisitedSurvives(h: Snapshot, st: GcState, p: nat)
    requires Inv(h, st) && p in st.visited
    ensures Survives(h, st.marked, p)
  {
    assert h.LiveSlot(p);
  }

  /** A string is referred to by a slot that survives exactly when its chain is not empty. */
  lemma LiveStrings(h: Snapshot, st: GcState, s: StrLoc)
    requires Inv(h, st) && RootsDone(h, st, Roots(h)) && h.nil in st.marked
    ensures s in h.strs && Live(st.chains, s) <==> RefersTo(h, st.marked, Small(s))
  {
    hide Inv, RootsDone, Snapshot.LiveSlot;
    if s in h.strs && Live(st.chains, s) {
      var p := ChainSlot(h, st, s);
      VisitedSurvives(h, st, p);
    }
    if RefersTo(h, st.marked, Small(s)) {
      var p: nat :| Survives(h, st.marked, p) && h.mem[p].val == Small(s);
      SurvivorSlot(h, st, p);
      VisitedChain(h, st, p, s);
    }
  }

  lemma ChainSlot(h: Snapshot, st: GcState, s: StrLoc) returns (p: nat)
    requires Inv(h, st) && s in h.strs && Live(st.chains, s)
    ensures p in st.visited && p < |h.mem| && h.mem[p].val == Small(s)
  {
    p := st.chains[s][0];
    assert p in st.chains[s];
  }

  lemma VisitedChain(h: Snapshot, st: GcState, p: nat, s: StrLoc)
    requires Inv(h, st) && p in st.visited && h.LiveSlot(p) && h.mem[p].val == Small(s)
    ensures s in h.strs && Live(st.chains, s)
  {
    hide MarksOk, LargeOk;
    assert p in st.chains[s];
  }

  lemma LiveLarge(h: Snapshot, st: GcState, k: nat)
    requires Inv(h, st) && RootsDone(h, st, Roots(h)) && h.nil in st.marked
    ensures k in h.largeLive && k < |st.large| && st.large[k].flagged <==> RefersTo(h, st.marked, Large(k))
  {
    hide Inv, RootsDone, Snapshot.LiveSlot;
    if k < |st.large| && st.large[k].flagged {
      var p := FlagSlot(h, st, k);
      VisitedSurvives(h, st, p);
    }
    if RefersTo(h, st.marked, Large(k)) {
      var p: nat :| Survives(h, st.marked, p) && h.mem[p].val == Large(k);
      SurvivorSlot(h, st, p);
      VisitedFlag(h, st, p, k);
    }
  }

  lemma FlagSlot(h: Snapshot, st: GcState, k: nat) returns (p: nat)
    requires Inv(h, st) && k < |st.large| && st.large[k].flagged
    ensures p in st.visited && p < |h.mem| && h.mem[p].val == Large(k)
  {
    p :| p in st.visited && h.mem[p].val == Large(k);
  }

  lemma VisitedFlag(h: Snapshot, st: GcState, p: nat, k: nat)
    requires Inv(h, st) && p in st.visited && h.LiveSlot(p) && h.mem[p].val == Large(k)
    ensures k in h.largeLive && k < |st.large| && st.large[k].flagged
  {
  }

  /** The value and the mark bit of a surviving slot after the sweep. */
  lemma SurvivorAfter(h: Snapshot, st: GcState, reloc: map<StrLoc, StrLoc>, mem1: seq<Word>, mem: seq<Word>, p: nat)
    requires Inv(h, st) && RootsDone(h, st, Roots(h)) && h.nil in st.marked && Survives(h, st.marked, p)
    requires Relocated(h, st, mem1, reloc) && Unmarked(h, st.marked, mem1, mem)
    requires forall s :: s in reloc <==> RefersTo(h, st.marked, Small(s))
    ensures p < |mem| && mem[p].val == Renamed(h.mem[p].val, reloc)
    ensures mem[p].mark <==> p in st.rootmarks
  {
    hide Inv, RootsDone, Snapshot.LiveSlot;
    SurvivorSlot(h, st, p);
    SlotState(h, st, p);
    if h.mem[p].val.Small? { assert RefersTo(h, st.marked, Small(h.mem[p].val.loc)); }
  }

  lemma SlotState(h: Snapshot, st: GcState, p: nat)
    requires Inv(h, st) && h.LiveSlot(p) && Survives(h, st.marked, p)
    ensures p < |st.mem| && (!(p in st.visited && h.mem[p].val.Small?) ==> st.mem[p].val == h.mem[p].val)
    ensures st.mem[p].mark && !IsCellMark(h, p) ==> p in st.rootmarks
    ensures p in st.rootmarks ==> st.mem[p].mark && !IsCellMark(h, p)
  {
    hide BlocksOk, ChainsOk, LargeOk;
  }

  // ---- the sweep ----

  ghost function Flagged(large: seq<LargeString>): set<nat> { set k: nat | k < |large| && large[k].flagged }

  ghost predicate CellsSwept(h: Heap, h0: Snapshot, M: set<nat>)
    reads h
  {
    && CellListOk(h0.objs, h.mem, M, ConsKind, 0, AllocConses(h.consBlocks, h.consBlockIndex), h.consFreeList,
        h.freeConses)
    && CellListOk(h0.objs, h.mem, M, SymbolKind, 1, h.symbols, h.symbolFreeList, h.freeSymbols)
    && FreeUnmarked(h0.objs, h.mem, h.freeSymbols)
  }

  ghost predicate BlocksSwept(h: Heap, h0: Snapshot, st: GcState, list0: seq<nat>)
    reads h
  {
    && VectorsOk(h0.objs, st.marked, h.allVectors) && |h.vflag| == |h0.objs|
    && (forall o :: o in h.allVectors ==> o < |h.vflag| && !h.vflag[o])
    && NoDup(h.largeStringBlocks) && SetOf(h.largeStringBlocks) == SetOf(list0) * Flagged(st.large)
    && LargeSwept(st.large, h.large, list0)
  }

  method SweepVectorsAndLarge(h: Heap, ghost st: GcState)
    requires Inv(h.snap, st) && h.vflag == st.vflag && h.large == st.large
    requires VectorsOk(h.snap.objs, h.snap.live, h.allVectors)
    requires NoDup(h.largeStringBlocks) && h.snap.largeLive == SetOf(h.largeStringBlocks)
    modifies h`totalStringSize, h`allVectors, h`vflag, h`large, h`largeStringBlocks
    ensures BlocksSwept(h, h.snap, st, old(h.largeStringBlocks))
    ensures h.totalStringSize == old(h.totalStringSize) + TotalSize(h.large, h.largeStringBlocks)
  {
    hide Inv, VectorsOk, LargeSwept, TotalSize, Flagged, NoDup, SetOf, Only;
    ghost var s, M := h.snap, st.marked;
    OwnersOf(s, st);
    FlaggedVectors(s, st, h.allVectors);
    VectorsAfter(s.objs, s.live, M, h.allVectors);
    SweepVectors(h, M);
    FlaggedLarge(s, st, h.largeStringBlocks);
    OnlyLarge(h.largeStringBlocks, Flagged(st.large));
    SweepLarge(h, Flagged(st.large));
  }

  /** `mem1` is the memory between compaction and the sweep of the cells. */
  method CompactAndSweepCells(h: Heap, ghost st: GcState)
    returns (ghost reloc: map<StrLoc, StrLoc>, ghost mem1: seq<Word>)
    requires h.Marking() && ListsOk(h) && h.owner == h.snap.owner && ShapeKept(h.snap, h.snap.blocks) && st == h.State()
    modifies h`mem, h`blocks, h`currentStringBlock, h`totalStringSize, h`freed, h`consFreeList, h`freeConses,
             h`totalConses, h`totalFreeConses, h`symbolFreeList, h`freeSymbols, h`blockChain
    ensures h.snap.ChainShape() && Compacted(h.snap, st, mem1, h.blocks, reloc, h.blockChain)
    ensures Unmarked(h.snap, st.marked, mem1, h.mem) && CellsSwept(h, h.snap, st.marked)
    ensures |h.blockChain| > 0 && h.currentStringBlock == h.blockChain[|h.blockChain| - 1]
    ensures h.blockChain <= h.snap.chain && h.freed == old(h.freed) + SetOf(h.snap.chain[|h.blockChain|..])
    ensures h.totalFreeConses == |h.freeConses|
    ensures h.totalConses + h.totalFreeConses == |AllocConses(h.consBlocks, h.consBlockIndex)|
    ensures h.totalStringSize == Sum(Sizes(h.snap, AllLive(h.snap, st.chains)))
  {
    hide Inv, CellListOk, VectorsOk, Snapshot.BlocksTiled, LayoutOk, AllocConses, FreeUnmarked, FreeChain,
         ConsBlocksOk, Compacted, ShapeKept, Unmarked, Relocated, AllLive, Sum, NoDup, SetOf;
    ghost var s := h.snap;
    h.totalStringSize := 0;
    ghost var chain;
    reloc, chain := CompactStrings.CompactStrings(h);
    h.blockChain := chain;
    mem1 := h.mem;
    CompactedParts(s, st, h.mem, h.blocks, reloc, chain);
    SweepCells(h, st, reloc);
  }

  method GcSweep(h: Heap, ghost st: GcState) returns (ghost reloc: map<StrLoc, StrLoc>, ghost mem1: seq<Word>)
    requires h.Marking() && ListsOk(h) && h.owner == h.snap.owner && ShapeKept(h.snap, h.snap.blocks) && st == h.State()
    modifies h`mem, h`blocks, h`currentStringBlock, h`totalStringSize, h`freed, h`consFreeList, h`freeConses,
             h`totalConses, h`totalFreeConses, h`symbolFreeList, h`freeSymbols, h`allVectors, h`vflag, h`large,
             h`largeStringBlocks, h`blockChain
    ensures h.snap.ChainShape() && Compacted(h.snap, st, mem1, h.blocks, reloc, h.blockChain)
    ensures Unmarked(h.snap, st.marked, mem1, h.mem) && CellsSwept(h, h.snap, st.marked)
    ensures BlocksSwept(h, h.snap, st, old(h.largeStringBlocks))
    ensures |h.blockChain| > 0 && h.currentStringBlock == h.blockChain[|h.blockChain| - 1]
    ensures h.blockChain <= h.snap.chain && h.freed == old(h.freed) + SetOf(h.snap.chain[|h.blockChain|..])
    ensures h.totalFreeConses == |h.freeConses|
    ensures h.totalConses + h.totalFreeConses == |AllocConses(h.consBlocks, h.consBlockIndex)|
    ensures h.totalStringSize ==
      Sum(Sizes(h.snap, AllLive(h.snap, st.chains))) + TotalSize(h.large, h.largeStringBlocks)
  {
    hide Inv, CellListOk, VectorsOk, Snapshot.BlocksTiled, AllocConses, FreeUnmarked, Snapshot.ChainShape,
         ConsBlocksOk, Compacted, ShapeKept, Unmarked, BlocksSwept, AllLive, TotalSize, Sum, NoDup, SetOf;
    reloc, mem1 := CompactAndSweepCells(h, st);
    SweepVectorsAndLarge(h, st);
  }

  lemma CompactedParts(h: Snapshot, st: GcState, mem: seq<Word>, blocks: seq<Block>, reloc: map<StrLoc, StrLoc>,
                       chain: seq<nat>)
    requires h.ChainShape() && Compacted(h, st, mem, blocks, reloc, chain)
    ensures Relocated(h, st, mem, reloc) && chain <= h.chain && |chain| > 0
    ensures RelocOk(h, AllLive(h, st.chains), reloc)
  {
  }

  lemma FlaggedLarge(h: Snapshot, st: GcState, list: seq<nat>)
    requires Inv(h, st) && h.largeLive == SetOf(list)
    ensures forall k :: k in list ==> k < |st.large| && (st.large[k].flagged <==> k in Flagged(st.large))
  {
    hide MarksOk, ValsOk, BlocksOk, ChainsOk;
    forall k | k in list
      ensures k < |st.large|
    {
      assert k in SetOf(list);
    }
  }

  lemma OnlyLarge(list: seq<nat>, F: set<nat>)
    requires NoDup(list)
    ensures NoDup(Only(list, F)) && SetOf(Only(list, F)) == SetOf(list) * F
  {
    OnlyHas(list, F);
  }

  // ---- before marking ----

  ghost function Unthreaded(strs: set<StrLoc>): map<StrLoc, seq<nat>> { map s | s in strs :: [] }

  lemma NothingMarked(h: Snapshot, st: GcState)
    requires h.Ready() && st == GcState(h.mem, h.blocks, st.vflag, h.large, {}, {}, Unthreaded(h.strs), {})
    requires |st.vflag| == |h.objs|
    requires forall o: nat :: o < |h.objs| && h.objs[o].kind.VectorKind? && o in h.live ==> !st.vflag[o]
    ensures Inv(h, st)
  {
  }

  /** The heap with the large strings in use tagged. */
  ghost predicate IsTagged(h: Snapshot, h': Snapshot) {
    && h' == h.(large := h'.large) && |h'.large| == |h.large|
    && forall k: nat :: k < |h.large| ==> h'.large[k] == h.large[k].(tagged := k in h.largeLive || h.large[k].tagged)
  }

  lemma TaggedReady(h: Snapshot, h': Snapshot)
    requires h.Sound() && h.Tagged(false) && IsTagged(h, h')
    ensures h'.Ready()
    ensures NilIsRoot(h) ==> NilIsRoot(h')
  {
    assert h'.CellsOk();
    assert h'.StringsOk();
    forall p: nat | h'.LiveSlot(p)
      ensures h'.ValOk(h'.mem[p].val) && !h'.mem[p].mark
    {
      assert h.LiveSlot(p);
    }
    if NilIsRoot(h) {
      var p: nat :| p < |h.mem| && h.owner[p] == -1 && h.mem[p].val == Obj(h.nil);
      assert h'.owner[p] == -1 && h'.mem[p].val == Obj(h'.nil);
    }
  }

  lemma {:induction false} SameReach(h: Snapshot, h': Snapshot, o: nat, t: nat, n: nat)
    requires h'.objs == h.objs && h'.mem == h.mem && h.ReachIn(o, t, n)
    ensures h'.ReachIn(o, t, n)
    decreases n
  {
    if n > 0 {
      var m: nat :| h.Edge(o, m) && h.ReachIn(m, t, n - 1);
      SameReach(h, h', m, t, n - 1);
      assert h'.Edge(o, m);
    }
  }

  lemma SameReachable(h: Snapshot, h': Snapshot, t: nat)
    requires h'.objs == h.objs && h'.mem == h.mem && h'.owner == h.owner && Reachable(h, t)
    ensures Reachable(h', t)
  {
    var p: nat :| RootReaches(h, p, t);
    var n := Steps(h, h.mem[p].val.id, t);
    SameReach(h, h', h.mem[p].val.id, t, n);
    assert RootReaches(h', p, t);
  }

  lemma TagInvisible(h: Snapshot, h1: Snapshot, reloc: map<StrLoc, StrLoc>, h': Snapshot)
    requires IsTagged(h, h1) && Collected(h1, reloc, h')
    ensures Collected(h, reloc, h')
  {
    hide Reachable, SameString;
    forall t: nat
      ensures t in h'.live <==> Reachable(h, t)
    {
      if Reachable(h, t) { SameReachable(h, h1, t); }
      if Reachable(h1, t) { SameReachable(h1, h, t); }
    }
    forall v
      ensures RefersTo(h1, h'.live, v) <==> RefersTo(h, h'.live, v)
    {
      SameReferences(h, h1, h'.live, v);
      SameReferences(h1, h, h'.live, v);
    }
    forall s | s in reloc
      ensures s in h.strs && SameString(h, s, h', reloc[s])
    {
      SameBytes(h, h1, s, h', reloc[s]);
    }
    assert forall p: nat :: Survives(h, h'.live, p) ==> Survives(h1, h'.live, p);
  }

  lemma SameReferences(h: Snapshot, h1: Snapshot, M: set<nat>, v: Val)
    requires h1.mem == h.mem && h1.owner == h.owner
    ensures RefersTo(h, M, v) ==> RefersTo(h1, M, v)
  {
    if RefersTo(h, M, v) {
      var p: nat :| Survives(h, M, p) && h.mem[p].val == v;
      assert Survives(h1, M, p);
    }
  }

  lemma SameBytes(h: Snapshot, h1: Snapshot, s: StrLoc, h': Snapshot, t: StrLoc)
    requires h1.blocks == h.blocks && SameString(h1, s, h', t)
    ensures SameString(h, s, h', t)
  {
  }

  // ---- after the sweep ----

  /** Marking from all roots is over. */
  ghost predicate AllMarked(h: Snapshot, st: GcState) {
    && Inv(h, st) && RootsDone(h, st, Roots(h)) && NilIsRoot(h) && h.BlocksTiled() && h.ChainShape()
    && h.nil in st.marked
  }

  /** How memory comes about: strings are relocated, cells unmarked, GCPRO slots unmarked. */
  ghost predicate MemoryAfter(h: Snapshot, st: GcState, reloc: map<StrLoc, StrLoc>, mem1: seq<Word>, mem2: seq<Word>,
                              mem3: seq<Word>) {
    && Relocated(h, st, mem1, reloc) && Unmarked(h, st.marked, mem1, mem2) && |mem3| == |mem2|
    && (forall p: nat :: p < |mem3| ==> mem3[p].val == mem2[p].val)
    && (forall p: nat :: p < |mem3| && mem3[p].mark ==> mem2[p].mark && p !in st.rootmarks)
  }

  lemma FinalDomain(h: Snapshot, st: GcState, reloc: map<StrLoc, StrLoc>)
    requires AllMarked(h, st) && RelocOk(h, AllLive(h, st.chains), reloc)
    ensures forall s :: s in reloc <==> RefersTo(h, st.marked, Small(s))
  {
    hide Inv, RootsDone, NilIsRoot, Snapshot.BlocksTiled, Snapshot.ChainShape, RelocOk, RefersTo, AllLive, Live;
    RelocDomain(h, st.chains, reloc);
    forall s
      ensures s in reloc <==> RefersTo(h, st.marked, Small(s))
    {
      LiveStrings(h, st, s);
    }
  }

  lemma FinalSlots(h: Snapshot, st: GcState, reloc: map<StrLoc, StrLoc>, mem1: seq<Word>, mem2: seq<Word>,
                   mem3: seq<Word>)
    requires AllMarked(h, st) && MemoryAfter(h, st, reloc, mem1, mem2, mem3)
    requires forall s :: s in reloc <==> RefersTo(h, st.marked, Small(s))
    ensures |mem3| == |h.mem| == |h.owner|
    ensures forall p: nat :: Survives(h, st.marked, p) ==> mem3[p] == Word(false, Renamed(h.mem[p].val, reloc))
  {
    hide Inv, RootsDone, NilIsRoot, Snapshot.BlocksTiled, Snapshot.ChainShape, RefersTo, Relocated;
    forall p: nat | Survives(h, st.marked, p)
      ensures mem3[p] == Word(false, Renamed(h.mem[p].val, reloc))
    {
      SurvivorAfter(h, st, reloc, mem1, mem2, p);
    }
  }

  lemma FinalLarge(h: Snapshot, st: GcState, list: seq<nat>, h': Snapshot)
    requires AllMarked(h, st) && h.largeLive == SetOf(list)
    requires h'.largeLive == SetOf(list) * Flagged(st.large) && LargeSwept(st.large, h'.large, list)
    ensures forall k: nat :: k in h'.largeLive <==> RefersTo(h, st.marked, Large(k))
    ensures |h'.large| == |h.large|
    ensures forall k: nat :: k in h'.largeLive ==> k < |h.large| && h'.large[k] == Clean(h.large[k])
    ensures h'.Tagged(false)
  {
    hide RootsDone, NilIsRoot, Snapshot.BlocksTiled, Snapshot.ChainShape, RefersTo, ChainsOk, BlocksOk, MarksOk, ValsOk;
    LargeBefore(h, st);
    forall k: nat
      ensures k in h'.largeLive <==> RefersTo(h, st.marked, Large(k))
    {
      hide Inv;
      LiveLarge(h, st, k);
    }
  }

  lemma LargeBefore(h: Snapshot, st: GcState)
    requires Inv(h, st)
    ensures |st.large| == |h.large|
      && forall k: nat :: k < |h.large| ==> st.large[k] == h.large[k].(flagged := st.large[k].flagged)
    ensures forall k: nat :: k < |h.large| && st.large[k].flagged ==> k in h.largeLive
    ensures forall k: nat :: k in h.largeLive ==> k < |h.large|
  {
    forall k: nat | k < |h.large| && st.large[k].flagged
      ensures k in h.largeLive
    {
      var p := FlagSlot(h, st, k);
      assert h.LiveSlot(p);
    }
  }

  lemma CollectionIs(h: Snapshot, st: GcState, reloc: map<StrLoc, StrLoc>, mem1: seq<Word>, mem2: seq<Word>,
                     list: seq<nat>, h': Snapshot)
    requires AllMarked(h, st) && MemoryAfter(h, st, reloc, mem1, mem2, h'.mem) && StringsMoved(h, st.chains, reloc, h')
    requires h.largeLive == SetOf(list)
    requires h'.largeLive == SetOf(list) * Flagged(st.large) && LargeSwept(st.large, h'.large, list)
    requires h'.objs == h.objs && h'.owner == h.owner && h'.nil == h.nil && h'.live == st.marked
    ensures Collected(h, reloc, h') && h'.Tagged(false)
  {
    hide Inv, RootsDone, NilIsRoot, Snapshot.BlocksTiled, Snapshot.ChainShape, RefersTo, MemoryAfter, RelocOk, Tiling,
         AllMoved, ShapeKept, Linked, AllLive, Sizes, Cursor, OffsAt, SetOf, Flagged, LargeSwept, Survives,
         Snapshot.Tagged, SameString,
         Renamed;
    FinalDomain(h, st, reloc);
    FinalSlots(h, st, reloc, mem1, mem2, h'.mem);
    FinalLarge(h, st, list, h');
    MarkedExactly(h, st);
    forall s, t | s in reloc && t in reloc && s != t
      ensures reloc[s] != reloc[t]
    {
      RelocInjective(h, AllLive(h, st.chains), reloc, s, t);
    }
    RelocDomain(h, st.chains, reloc);
    forall s | s in reloc
      ensures SameString(h, s, h', reloc[s])
    {
      RelocSame(h, st.chains, h', reloc, s);
    }
  }

  lemma MarkedExactly(h: Snapshot, st: GcState)
    requires AllMarked(h, st)
    ensures st.marked <= h.live && forall t: nat :: t in st.marked <==> Reachable(h, t)
  {
    hide Inv, RootsDone, NilIsRoot, Snapshot.BlocksTiled, RootReaches;
    MarkedLive(h, st);
    MarkedIsReachable(h, st);
  }
}
