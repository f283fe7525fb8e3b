// What a program does to its variables: it assigns to them, and it protects variables of its own from the
// collector while a function runs (GCPRO).

module GcVariables {
  import opened LispHeap
  import opened LispStore
  import opened MarkRoots
  import opened Sweep
  import opened Alloc

  /** The first static variable is Qnil. */
  ghost predicate NilFirst(h: Heap)
    reads h
  {
    |h.staticvec| > 0 && h.staticvec[0] < |h.mem| && h.mem[h.staticvec[0]].val == Obj(h.nil)
  }

  lemma SoundWithStore(h: Snapshot, p: nat, v: Val, h': Snapshot)
    requires h.Sound() && h.LiveSlot(p) && h.ValOk(v) && h' == h.(mem := h.mem[p := Word(false, v)])
    ensures h'.Sound()
  {
    assert h'.CellsOk();
    forall q: nat | h'.LiveSlot(q)
      ensures h'.ValOk(h'.mem[q].val) && !h'.mem[q].mark
    {
      if q != p { assert h.LiveSlot(q); }
    }
  }

  lemma ListWithStore(objs: seq<Cell>, owner: seq<int>, mem: seq<Word>, live: set<nat>, kind: Kind, link: nat,
                      cells: seq<nat>, head: nat, free: seq<nat>, p: nat, v: Val)
    requires LayoutOk(objs, owner) && |owner| == |mem| && p < |mem| && (owner[p] == -1 || owner[p] in live)
    requires CellListOk(objs, mem, live, kind, link, cells, head, free)
    ensures CellListOk(objs, mem[p := Word(false, v)], live, kind, link, cells, head, free)
  {
    forall d | d in free && d < |objs| && objs[d].base + link < |mem|
      ensures mem[p := Word(false, v)][objs[d].base + link] == mem[objs[d].base + link]
    {
      LinkInside(objs, mem, link, head, free, d);
      assert SlotOf(objs, d, objs[d].base + link);
    }
    FreeChainFrame(objs, mem, mem[p := Word(false, v)], link, head, free);
  }

  /** A program assigns to a slot of its own: a static variable, or a field of a live cell. */
  method Assign(h: Heap, p: nat, v: Val)
    requires Valid(h) && NilFirst(h) && h.Now().LiveSlot(p) && h.Now().ValOk(v) && p != h.staticvec[0]
    modifies h`mem
    ensures Valid(h) && NilFirst(h) && h.mem == old(h.mem)[p := Word(false, v)]
  {
    hide Snapshot.Sound, Snapshot.BlocksTiled, CellListOk, VectorsOk, RootsOk, ConsBlocksOk, LayoutOk;
    ghost var h0 := h.Now();
    LayoutOf(h0);
    FirstRoot(h);
    h.mem := h.mem[p := Word(false, v)];
    SoundWithStore(h0, p, v, h.Now());
    SameBlocks(h0, h.Now());
    ListWithStore(h.objs, h.owner, h0.mem, h.live, ConsKind, 0, AllocConses(h.consBlocks, h.consBlockIndex),
                  h.consFreeList, h.freeConses, p, v);
    ListWithStore(h.objs, h.owner, h0.mem, h.live, SymbolKind, 1, h.symbols, h.symbolFreeList, h.freeSymbols, p, v);
    assert h.mem[h.staticvec[0]].val == Obj(h.nil);
  }

  lemma FirstRoot(h: Heap)
    requires Valid(h) && |h.staticvec| > 0
    ensures h.staticvec[0] < |h.owner| && h.owner[h.staticvec[0]] == -1
  {
  }

  // ---- GCPRO ----

  lemma SoundWithRoot(h: Snapshot, v: Val, h': Snapshot)
    requires h.Sound() && h.ValOk(v)
    requires h' == h.(mem := h.mem + [Word(false, v)], owner := h.owner + [-1])
    ensures h'.Sound() && (NilIsRoot(h) ==> NilIsRoot(h'))
  {
    LayoutWithRoot(h.objs, h.owner);
    assert h'.CellsOk();
    forall q: nat | h'.LiveSlot(q)
      ensures h'.ValOk(h'.mem[q].val) && !h'.mem[q].mark
    {
      if q < |h.mem| { assert h.LiveSlot(q); }
    }
    if NilIsRoot(h) {
      var p: nat :| p < |h.mem| && h.owner[p] == -1 && h.mem[p].val == Obj(h.nil);
      assert h'.mem[p] == h.mem[p] && h'.owner[p] == -1;
    }
  }

  lemma LayoutWithRoot(objs: seq<Cell>, owner: seq<int>)
    requires LayoutOk(objs, owner)
    ensures LayoutOk(objs, owner + [-1])
  {
    forall p: nat | p < |owner + [-1]| && (owner + [-1])[p] != -1
      ensures (owner + [-1])[p] >= 0 && SlotOf(objs, (owner + [-1])[p], p)
    {
      assert p < |owner|;
    }
  }

  lemma RootsWithRoot(owner: seq<int>, statics: seq<nat>, gcpros: seq<nat>)
    requires RootsOk(owner, statics, gcpros)
    ensures RootsOk(owner + [-1], statics, [|owner|] + gcpros)
  {
    var gcpros' := [|owner|] + gcpros;
    forall p: nat | p < |owner + [-1]| && (owner + [-1])[p] == -1
      ensures p in statics || p in gcpros'
    {
      if p < |owner| { assert p in statics || p in gcpros; } else { assert gcpros'[0] == p; }
    }
  }

  /** A variable of a function, with its first value, joins the roots. */
  method Gcpro(h: Heap, v: Val)
    requires Valid(h) && NilFirst(h) && h.Now().ValOk(v)
    modifies h`mem, h`owner, h`gcprolist
    ensures Valid(h) && NilFirst(h) && h.gcprolist == [|old(h.mem)|] + old(h.gcprolist)
    ensures h.Now() == old(h.Now()).(mem := old(h.mem) + [Word(false, v)], owner := old(h.owner) + [-1])
  {
    hide Snapshot.Sound, Snapshot.BlocksTiled, CellListOk, VectorsOk, RootsOk, ConsBlocksOk, LayoutOk, NilIsRoot,
         FreeUnmarked,
         AllocConses;
    ghost var h0 := h.Now();
    LayoutOf(h0);
    CellsBounded(h0);
    h.gcprolist := [|h.mem|] + h.gcprolist;
    h.mem := h.mem + [Word(false, v)];
    h.owner := h.owner + [-1];
    SoundWithRoot(h0, v, h.Now());
    SameBlocks(h0, h.Now());
    RootsWithRoot(h0.owner, h.staticvec, old(h.gcprolist));
    assert h.objs + [] == h.objs;
    CellListGrows(h.objs, h0.mem, [Word(false, v)], [], h.live, ConsKind, 0,
                  AllocConses(h.consBlocks, h.consBlockIndex), h.consFreeList, h.freeConses);
    CellListGrows(h.objs, h0.mem, [Word(false, v)], [], h.live, SymbolKind, 1, h.symbols, h.symbolFreeList,
                  h.freeSymbols);
    FreeUnmarkedGrows(h.objs, h0.mem, [Word(false, v)], [], h.live, h.symbols, h.symbolFreeList, h.freeSymbols,
                      h0.owner);
  }

  /** The same variable may be protected again. */
  method GcproAgain(h: Heap, p: nat)
    requires Valid(h) && NilFirst(h) && p in h.gcprolist
    modifies h`gcprolist
    ensures Valid(h) && NilFirst(h) && h.gcprolist == [p] + old(h.gcprolist) && h.Now() == old(h.Now())
  {
    hide Snapshot.Sound, Snapshot.BlocksTiled, CellListOk, VectorsOk, RootsOk, ConsBlocksOk, LayoutOk, NilIsRoot,
         FreeUnmarked,
         AllocConses;
    RootsTwice(h.owner, h.staticvec, h.gcprolist, p);
    h.gcprolist := [p] + h.gcprolist;
  }

  lemma RootsTwice(owner: seq<int>, statics: seq<nat>, gcpros: seq<nat>, p: nat)
    requires RootsOk(owner, statics, gcpros) && p in gcpros
    ensures RootsOk(owner, statics, [p] + gcpros)
  {
    var gcpros' := [p] + gcpros;
    forall q: nat | q < |owner| && owner[q] == -1
      ensures q in statics || q in gcpros'
    {
      assert q in gcpros ==> q in gcpros';
    }
  }

  /** The cell that stands for the memory of a variable whose function has returned: it is never live. */
  function Abandoned(p: nat): Cell { Cell(VectorKind, p, 1, -1) }

  lemma LayoutWithout(objs: seq<Cell>, owner: seq<int>, p: nat)
    requires LayoutOk(objs, owner) && p < |owner| && owner[p] == -1
    ensures LayoutOk(objs + [Abandoned(p)], owner[p := |objs|])
  {
    var objs', owner' := objs + [Abandoned(p)], owner[p := |objs|];
    forall o: nat, q: nat | SlotOf(objs', o, q)
      ensures q < |owner'| && owner'[q] == o
    {
      if o < |objs| { assert SlotOf(objs, o, q); }
    }
    forall q: nat | q < |owner'| && owner'[q] != -1
      ensures owner'[q] >= 0 && SlotOf(objs', owner'[q], q)
    {
      if q != p { assert SlotOf(objs, owner[q], q); }
    }
  }

  lemma SoundWithout(h: Snapshot, p: nat, h': Snapshot)
    requires h.Sound() && p < |h.owner| && h.owner[p] == -1
    requires h' == h.(objs := h.objs + [Abandoned(p)], owner := h.owner[p := |h.objs|])
    ensures h'.Sound()
  {
    LayoutWithout(h.objs, h.owner, p);
    assert h'.CellsOk();
    forall q: nat | h'.LiveSlot(q)
      ensures h'.ValOk(h'.mem[q].val) && !h'.mem[q].mark
    {
      assert q != p && h.LiveSlot(q);
    }
  }

  lemma RootsWithout(owner: seq<int>, statics: seq<nat>, gcpros: seq<nat>, o: nat)
    requires gcpros != [] && RootsOk(owner, statics, gcpros)
    ensures gcpros[0] < |owner| && owner[gcpros[0]] == -1 && gcpros[0] !in statics
    ensures gcpros[0] in gcpros[1..] ==> RootsOk(owner, statics, gcpros[1..])
    ensures gcpros[0] !in gcpros[1..] ==> RootsOk(owner[gcpros[0] := o], statics, gcpros[1..])
  {
    var p, rest := gcpros[0], gcpros[1..];
    assert gcpros == [p] + rest;
    forall i: nat | i < |rest|
      ensures rest[i] < |owner| && owner[rest[i]] == -1 && rest[i] !in statics
    {
      assert rest[i] == gcpros[i + 1];
    }
  }

  lemma ListWithDead(objs: seq<Cell>, mem: seq<Word>, c: Cell, live: set<nat>, kind: Kind, link: nat,
                     cells: seq<nat>, head: nat, free: seq<nat>)
    requires CellListOk(objs, mem, live, kind, link, cells, head, free) && c.kind != kind
    ensures CellListOk(objs + [c], mem, live, kind, link, cells, head, free)
  {
    FreeChainMore(objs, objs + [c], mem, mem, link, head, free);
  }

  lemma DeadListed(objs: seq<Cell>, mem: seq<Word>, c: Cell, live: set<nat>, vectors: seq<nat>, blocks: seq<nat>,
                   lim: nat)
    requires forall o: nat :: o in live ==> o < |objs|
    ensures VectorsOk(objs, live, vectors) && c.kind.VectorKind? ==> VectorsOk(objs + [c], live, vectors)
    ensures ConsBlocksOk(objs, blocks, lim) ==> ConsBlocksOk(objs + [c], blocks, lim)
  {
  }

  lemma UnmarkedWithDead(objs: seq<Cell>, mem: seq<Word>, c: Cell, cells: seq<nat>, free: seq<nat>, live: set<nat>,
                         head: nat)
    requires CellListOk(objs, mem, live, SymbolKind, 1, cells, head, free) && FreeUnmarked(objs, mem, free)
    ensures FreeUnmarked(objs + [c], mem, free)
  {
  }

  /** The memory of variable p, which is no longer listed, is given up. */
  method Abandon(h: Heap, p: nat, ghost gcpros: seq<nat>)
    requires h.Now().Sound() && h.Now().Tagged(false) && StringBlocksOk(h) && NilFirst(h)
    requires FlagsClear(h) && ConsesOk(h) && SymbolsOk(h) && VectorsOk(h.objs, h.live, h.allVectors)
    requires RootsOk(h.owner, h.staticvec, gcpros) && gcpros != [] && gcpros[0] == p && h.gcprolist == gcpros[1..]
      && p !in h.gcprolist
    modifies h`objs, h`vflag, h`owner
    ensures Valid(h) && NilFirst(h) && p < |old(h.owner)|
    ensures h.Now() == old(h.Now()).(objs := old(h.objs) + [Abandoned(p)], owner := old(h.owner)[p := |old(h.objs)|])
  {
    hide Snapshot.Sound, Snapshot.BlocksTiled, CellListOk, VectorsOk, RootsOk, ConsBlocksOk, LayoutOk, NilIsRoot,
         FreeUnmarked,
         AllocConses;
    ghost var h0 := h.Now();
    CellsBounded(h0);
    RootsWithout(h.owner, h.staticvec, gcpros, |h.objs|);
    NilSlot(h, gcpros);
    h.objs := h.objs + [Abandoned(p)];
    h.vflag := h.vflag + [false];
    h.owner := h.owner[p := |h0.objs|];
    SoundWithout(h0, p, h.Now());
    SameBlocks(h0, h.Now());
    NilStays(h, p);
    ListWithDead(h0.objs, h.mem, Abandoned(p), h.live, ConsKind, 0, AllocConses(h.consBlocks, h.consBlockIndex),
                 h.consFreeList, h.freeConses);
    ListWithDead(h0.objs, h.mem, Abandoned(p), h.live, SymbolKind, 1, h.symbols, h.symbolFreeList, h.freeSymbols);
    UnmarkedWithDead(h0.objs, h.mem, Abandoned(p), h.symbols, h.freeSymbols, h.live, h.symbolFreeList);
    DeadListed(h0.objs, h.mem, Abandoned(p), h.live, h.allVectors, h.consBlocks, h.consBlockIndex);
    VectorFlags(h0.objs, h.live, h.allVectors);
  }

  lemma NilSlot(h: Heap, gcpros: seq<nat>)
    requires NilFirst(h) && RootsOk(h.owner, h.staticvec, gcpros)
    ensures h.staticvec[0] < |h.owner| && h.owner[h.staticvec[0]] == -1
  {
  }

  /** UNGCPRO: the variable protected last leaves the roots, unless it is protected more than once. */
  method Ungcpro(h: Heap)
    requires Valid(h) && NilFirst(h) && h.gcprolist != []
    modifies h`gcprolist, h`objs, h`vflag, h`owner
    ensures Valid(h) && NilFirst(h) && h.gcprolist == old(h.gcprolist)[1..]
    ensures var p := old(h.gcprolist)[0];
      h.Now() == if p in h.gcprolist then old(h.Now())
                 else old(h.Now()).(objs := old(h.objs) + [Abandoned(p)], owner := h.owner)
    ensures var p := old(h.gcprolist)[0];
      p !in h.gcprolist ==> p < |old(h.owner)| && h.owner == old(h.owner)[p := |old(h.objs)|]
  {
    hide Snapshot.Sound, Snapshot.Tagged, Snapshot.BlocksTiled, CellListOk, VectorsOk, RootsOk, ConsBlocksOk, LayoutOk,
         NilIsRoot,
         FreeUnmarked, AllocConses;
    ghost var gcpros := h.gcprolist;
    RootsWithout(h.owner, h.staticvec, gcpros, |h.objs|);
    var p := h.gcprolist[0];
    h.gcprolist := h.gcprolist[1..];
    if p !in h.gcprolist { Abandon(h, p, gcpros); }
  }

  lemma NilStays(h: Heap, p: nat)
    requires NilFirst(h) && |h.owner| == |h.mem| && h.owner[h.staticvec[0]] == -1
    ensures NilIsRoot(h.Now())
  {
  }

  lemma VectorFlags(objs: seq<Cell>, live: set<nat>, vectors: seq<nat>)
    requires VectorsOk(objs, live, vectors)
    ensures forall o :: o in vectors ==> o < |objs|
  {
  }
}
