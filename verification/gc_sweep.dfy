// gc_sweep for cells: the unmarked ones go onto a free list threaded through one of their slots,
// the marked ones lose their mark bit.

module Sweep {
  import opened LispHeap
  import opened MarkState
  import opened LispStore

  /** A free list: slot number `link` of each free cell holds 1 + the next one, 0 ends it. */
  ghost predicate FreeChain(objs: seq<Cell>, mem: seq<Word>, link: nat, head: nat, list: seq<nat>)
    decreases |list|
  {
    if list == [] then head == 0
    else
      var c := list[0];
      && c < |objs| && objs[c].base + link < |mem| && link < objs[c].len
      && head == c + 1
      && mem[objs[c].base + link].val.Raw? && !mem[objs[c].base + link].mark
      && FreeChain(objs, mem, link, mem[objs[c].base + link].val.bits, list[1..])
  }

  lemma {:induction false} FreeChainFrame(objs: seq<Cell>, mem: seq<Word>, mem': seq<Word>, link: nat, head: nat,
                                          list: seq<nat>)
    requires FreeChain(objs, mem, link, head, list) && |mem'| >= |mem|
    requires forall c :: c in list && c < |objs| && objs[c].base + link < |mem| ==>
      mem'[objs[c].base + link] == mem[objs[c].base + link]
    ensures FreeChain(objs, mem', link, head, list)
    decreases |list|
  {
    if list != [] {
      FreeChainFrame(objs, mem, mem', link, mem[objs[list[0]].base + link].val.bits, list[1..]);
    }
  }

  /** Cells in `done` have been swept: the marked ones are unmarked, and no other cell has changed. */
  ghost predicate Swept(objs: seq<Cell>, owner: seq<int>, mem0: seq<Word>, mem: seq<Word>, M: set<nat>, done: set<nat>)
    requires LayoutOk(objs, owner) && |owner| == |mem0|
  {
    && |mem| == |mem0|
    && (forall p: nat :: p < |mem0| && (owner[p] == -1 || owner[p] !in done) ==> mem[p] == mem0[p])
    && (forall p: nat :: p < |mem0| && owner[p] != -1 && owner[p] in done && owner[p] in M ==>
          mem[p] == if p == MarkSlot(objs[owner[p]]) then mem0[p].(mark := false) else mem0[p])
    && (forall p: nat :: p < |mem0| && owner[p] != -1 && owner[p] in done && p == MarkSlot(objs[owner[p]]) ==>
      !mem[p].mark)
  }

  ghost predicate Sweeping(objs: seq<Cell>, owner: seq<int>, mem0: seq<Word>, mem: seq<Word>, M: set<nat>,
                           kind: Kind, link: nat, done: seq<nat>, head: nat, list: seq<nat>)
    requires LayoutOk(objs, owner) && |owner| == |mem0|
  {
    && Swept(objs, owner, mem0, mem, M, set c | c in done)
    && FreeChain(objs, mem, link, head, list)
    && NoDup(list)
    && (forall c: nat :: c in list <==> c in done && c !in M)
    && (forall c: nat :: c in done ==> c < |objs| && objs[c].kind == kind)
  }

  predicate LinkSlotOk(kind: Kind, link: nat) {
    (kind.ConsKind? && link == 0) || (kind.SymbolKind? && link == 1)
  }

  lemma FreeOne(objs: seq<Cell>, owner: seq<int>, mem0: seq<Word>, mem: seq<Word>, M: set<nat>,
                kind: Kind, link: nat, done: seq<nat>, head: nat, list: seq<nat>, c: nat, mem': seq<Word>)
    requires LayoutOk(objs, owner) && |owner| == |mem0| && LinkSlotOk(kind, link)
    requires Sweeping(objs, owner, mem0, mem, M, kind, link, done, head, list)
    requires c < |objs| && objs[c].kind == kind && c !in done && c !in M && objs[c].base + link < |mem|
    requires 0 <= MarkSlot(objs[c]) < |mem0| && !mem0[MarkSlot(objs[c])].mark
    requires mem' == mem[objs[c].base + link := Word(false, Raw(head))]
    ensures Sweeping(objs, owner, mem0, mem', M, kind, link, done + [c], c + 1, [c] + list)
  {
    assert SlotOf(objs, c, objs[c].base + link) && SlotOf(objs, c, MarkSlot(objs[c]));
    forall d | d in list && d < |objs| && objs[d].base + link < |mem|
      ensures mem'[objs[d].base + link] == mem[objs[d].base + link]
    {
      assert SlotOf(objs, d, objs[d].base + link);
    }
    FreeChainFrame(objs, mem, mem', link, head, list);
    assert ([c] + list)[1..] == list;
  }

  lemma KeepOne(objs: seq<Cell>, owner: seq<int>, mem0: seq<Word>, mem: seq<Word>, M: set<nat>,
                kind: Kind, link: nat, done: seq<nat>, head: nat, list: seq<nat>, c: nat, mem': seq<Word>)
    requires LayoutOk(objs, owner) && |owner| == |mem0| && LinkSlotOk(kind, link)
    requires Sweeping(objs, owner, mem0, mem, M, kind, link, done, head, list)
    requires c < |objs| && objs[c].kind == kind && c !in done && c in M && 0 <= MarkSlot(objs[c]) < |mem|
    requires mem' == mem[MarkSlot(objs[c]) := mem[MarkSlot(objs[c])].(mark := false)]
    ensures Sweeping(objs, owner, mem0, mem', M, kind, link, done + [c], head, list)
  {
    assert SlotOf(objs, c, MarkSlot(objs[c]));
    forall d | d in list && d < |objs| && objs[d].base + link < |mem|
      ensures mem'[objs[d].base + link] == mem[objs[d].base + link]
    {
      assert SlotOf(objs, d, objs[d].base + link);
    }
    FreeChainFrame(objs, mem, mem', link, head, list);
  }

  /** Sweeps one cons or symbol; `head` is the free list so far. */
  method SweepCell(h: Heap, c: nat, kind: Kind, link: nat, head: nat, ghost mem0: seq<Word>, ghost M: set<nat>,
                   ghost done: seq<nat>, ghost list: seq<nat>)
    returns (head': nat, used: bool, ghost list': seq<nat>)
    requires LayoutOk(h.objs, h.owner) && |h.owner| == |mem0| && LinkSlotOk(kind, link)
    requires Sweeping(h.objs, h.owner, mem0, h.mem, M, kind, link, done, head, list)
    requires c < |h.objs| && h.objs[c].kind == kind && c !in done
    requires 0 <= MarkSlot(h.objs[c]) < |mem0| && (mem0[MarkSlot(h.objs[c])].mark <==> c in M)
    modifies h`mem
    ensures Sweeping(h.objs, h.owner, mem0, h.mem, M, kind, link, done + [c], head', list')
    ensures used <==> c in M
    ensures |list'| == |list| + (if used then 0 else 1)
  {
    assert SlotOf(h.objs, c, h.objs[c].base + link) && SlotOf(h.objs, c, MarkSlot(h.objs[c]));
    var mem1 := h.mem;
    hide FreeChain;
    var p := MarkSlot(h.objs[c]);
    if !h.mem[p].mark {
      h.mem := h.mem[h.objs[c].base + link := Word(false, Raw(head))];
      FreeOne(h.objs, h.owner, mem0, mem1, M, kind, link, done, head, list, c, h.mem);
      head', used, list' := c + 1, false, [c] + list;
    } else {
      h.mem := h.mem[p := h.mem[p].(mark := false)];
      KeepOne(h.objs, h.owner, mem0, mem1, M, kind, link, done, head, list, c, h.mem);
      head', used, list' := head, true, list;
    }
  }

  // ---- conses ----

  function Row(base: nat, n: nat): (r: seq<nat>)
    ensures |r| == n && forall i :: 0 <= i < n ==> r[i] == base + i
  {
    seq(n, i => base + i)
  }

  /** The allocated cons cells in the order they are swept: the newest block first, up to
      cons_block_index; the older blocks are full. */
  function AllocConses(blocks: seq<nat>, lim: nat): seq<nat> {
    if blocks == [] then []
    else Row(blocks[|blocks| - 1], lim) + AllocConses(blocks[..|blocks| - 1], CONS_BLOCK_SIZE)
  }

  /** Cons blocks are disjoint runs of cons cells. */
  ghost predicate ConsBlocksOk(objs: seq<Cell>, blocks: seq<nat>, lim: nat) {
    && |blocks| > 0 && lim <= CONS_BLOCK_SIZE
    && (forall b: nat :: b < |blocks| ==> blocks[b] + CONS_BLOCK_SIZE <= |objs|)
    && (forall b: nat, d: nat :: b < d < |blocks| ==> blocks[b] + CONS_BLOCK_SIZE <= blocks[d])
    && (forall b: nat, c: nat :: b < |blocks| && blocks[b] <= c < blocks[b] + CONS_BLOCK_SIZE ==>
      objs[c].kind == ConsKind)
  }

  lemma {:induction false} AllocIn(blocks: seq<nat>, lim: nat, c: nat) returns (b: nat)
    requires lim <= CONS_BLOCK_SIZE && c in AllocConses(blocks, lim)
    ensures b < |blocks| && blocks[b] <= c < blocks[b] + CONS_BLOCK_SIZE
    ensures b == |blocks| - 1 ==> c < blocks[b] + lim
    decreases |blocks|
  {
    var n := |blocks| - 1;
    if c in Row(blocks[n], lim) {
      b := n;
    } else {
      b := AllocIn(blocks[..n], CONS_BLOCK_SIZE, c);
    }
  }

  /** Every allocated cell is swept once. */
  lemma {:induction false} AllocDistinct(objs: seq<Cell>, blocks: seq<nat>, lim: nat)
    requires ConsBlocksOk(objs, blocks, lim)
    ensures NoDup(AllocConses(blocks, lim))
    ensures forall c :: c in AllocConses(blocks, lim) ==> c < |objs| && objs[c].kind == ConsKind
    decreases |blocks|
  {
    var n := |blocks| - 1;
    var older := AllocConses(blocks[..n], CONS_BLOCK_SIZE);
    if n > 0 {
      AllocDistinct(objs, blocks[..n], CONS_BLOCK_SIZE);
    }
    var row := Row(blocks[n], lim);
    forall i: nat, j: nat | i < |row| && j < |older|
      ensures row[i] != older[j]
    {
      var b := AllocIn(blocks[..n], CONS_BLOCK_SIZE, older[j]);
      assert blocks[b] + CONS_BLOCK_SIZE <= blocks[n];
    }
  }

  /** Each of these cells is listed once, and its mark bit says whether it is in M. */
  ghost predicate Sweepable(objs: seq<Cell>, mem: seq<Word>, M: set<nat>, kind: Kind, cells: seq<nat>) {
    && NoDup(cells)
    && (forall c :: c in cells ==> c < |objs| && objs[c].kind == kind)
    && (forall c :: c in cells && c < |objs| ==>
          0 <= MarkSlot(objs[c]) < |mem| && (mem[MarkSlot(objs[c])].mark <==> c in M))
  }

  /** The cells of one block. */
  method SweepRow(h: Heap, base: nat, lim: nat, head0: nat, ghost mem0: seq<Word>, ghost M: set<nat>,
                  ghost cells: seq<nat>, ghost k0: nat, ghost list0: seq<nat>)
    returns (head: nat, used: nat, free: nat, ghost list: seq<nat>)
    requires LayoutOk(h.objs, h.owner) && |h.owner| == |mem0|
    requires k0 + lim <= |cells| && cells[k0..k0 + lim] == Row(base, lim) && Sweepable(h.objs, mem0, M, ConsKind, cells)
    requires Sweeping(h.objs, h.owner, mem0, h.mem, M, ConsKind, 0, cells[..k0], head0, list0)
    modifies h`mem
    ensures Sweeping(h.objs, h.owner, mem0, h.mem, M, ConsKind, 0, cells[..k0 + lim], head, list)
    ensures used + free == lim && |list| == |list0| + free
  {
    hide FreeChain, Swept, Sweeping, LayoutOk;
    head, used, free, list := head0, 0, 0, list0;
    var i := 0;
    while i < lim
      invariant i <= lim
      invariant Sweeping(h.objs, h.owner, mem0, h.mem, M, ConsKind, 0, cells[..k0 + i], head, list)
      invariant used + free == i && |list| == |list0| + free
    {
      ghost var k := k0 + i;
      assert cells[k] == cells[k0..k0 + lim][i] == base + i;
      assert cells[..k + 1] == cells[..k] + [cells[k]];
      assert cells[k] in cells && cells[k] !in cells[..k];
      var isUsed;
      head, isUsed, list := SweepCell(h, base + i, ConsKind, 0, head, mem0, M, cells[..k], list);
      if isUsed { used := used + 1; } else { free := free + 1; }
      i := i + 1;
    }
  }

  /** One block, and where that leaves the cells still to come. */
  method SweepBlock(h: Heap, b: nat, lim: nat, head0: nat, ghost mem0: seq<Word>, ghost M: set<nat>,
                    ghost cells: seq<nat>, ghost k: nat, ghost list0: seq<nat>)
    returns (head: nat, used: nat, free: nat, ghost list: seq<nat>)
    requires LayoutOk(h.objs, h.owner) && |h.owner| == |mem0| && b < |h.consBlocks| && k <= |cells|
    requires cells[k..] == AllocConses(h.consBlocks[..b + 1], lim) && Sweepable(h.objs, mem0, M, ConsKind, cells)
    requires Sweeping(h.objs, h.owner, mem0, h.mem, M, ConsKind, 0, cells[..k], head0, list0)
    modifies h`mem
    ensures k + lim <= |cells| && cells[k + lim..] == AllocConses(h.consBlocks[..b], CONS_BLOCK_SIZE)
    ensures Sweeping(h.objs, h.owner, mem0, h.mem, M, ConsKind, 0, cells[..k + lim], head, list)
    ensures used + free == lim && |list| == |list0| + free
  {
    hide FreeChain, Swept, Sweeping, Sweepable, LayoutOk, AllocConses, Row;
    NextRow(h.consBlocks, b, lim, cells, k);
    head, used, free, list := SweepRow(h, h.consBlocks[b], lim, head0, mem0, M, cells, k, list0);
  }

  /** The free list is rebuilt from all unmarked cells, each of them once. */
  method SweepConses(h: Heap, ghost M: set<nat>)
    requires LayoutOk(h.objs, h.owner) && |h.owner| == |h.mem|
    requires ConsBlocksOk(h.objs, h.consBlocks, h.consBlockIndex)
    requires forall c :: c in AllocConses(h.consBlocks, h.consBlockIndex) && c < |h.objs| ==>
      0 <= MarkSlot(h.objs[c]) < |h.mem| && (h.mem[MarkSlot(h.objs[c])].mark <==> c in M)
    modifies h`mem, h`consFreeList, h`freeConses, h`totalConses, h`totalFreeConses
    ensures Sweeping(h.objs, h.owner, old(h.mem), h.mem, M, ConsKind, 0,
                     AllocConses(h.consBlocks, h.consBlockIndex), h.consFreeList, h.freeConses)
    ensures h.totalFreeConses == |h.freeConses|
    ensures h.totalConses + h.totalFreeConses == |AllocConses(h.consBlocks, h.consBlockIndex)|
  {
    ghost var mem0, cells := h.mem, AllocConses(h.consBlocks, h.consBlockIndex);
    AllocDistinct(h.objs, h.consBlocks, h.consBlockIndex);
    ghost var k: nat := 0;
    var head: nat, lim: nat, numUsed: nat, numFree: nat := 0, h.consBlockIndex, 0, 0;
    ghost var list: seq<nat> := [];
    StartSweep(h.objs, h.owner, mem0, M, ConsKind, 0);
    assert cells[..0] == [];
    var b: nat := |h.consBlocks|;
    assert cells[0..] == cells && h.consBlocks[..b] == h.consBlocks;
    assert Sweepable(h.objs, mem0, M, ConsKind, cells);
    hide FreeChain, Swept, Sweeping, Sweepable, LayoutOk, AllocConses, ConsBlocksOk, Row, NoDup, MarkSlot;
    while b > 0
      invariant b <= |h.consBlocks| && k <= |cells|
      invariant cells[k..] == AllocConses(h.consBlocks[..b], lim)
      invariant lim <= CONS_BLOCK_SIZE
      invariant Sweeping(h.objs, h.owner, mem0, h.mem, M, ConsKind, 0, cells[..k], head, list)
      invariant numFree == |list| && numUsed + numFree == k
    {
      b := b - 1;
      var used, free;
      head, used, free, list := SweepBlock(h, b, lim, head, mem0, M, cells, k, list);
      numUsed, numFree := numUsed + used, numFree + free;
      k := k + lim;
      lim := CONS_BLOCK_SIZE;
    }
    LastRow(h.consBlocks, lim, cells, k);
    h.consFreeList := head;
    h.freeConses := list;
    h.totalConses, h.totalFreeConses := numUsed, numFree;
  }

  lemma NextRow(blocks: seq<nat>, b: nat, lim: nat, cells: seq<nat>, k: nat)
    requires b < |blocks| && k <= |cells| && cells[k..] == AllocConses(blocks[..b + 1], lim)
    ensures k + lim <= |cells| && cells[k..k + lim] == Row(blocks[b], lim)
    ensures cells[k + lim..] == AllocConses(blocks[..b], CONS_BLOCK_SIZE)
  {
    assert blocks[..b + 1][..b] == blocks[..b];
    var row, older := Row(blocks[b], lim), AllocConses(blocks[..b], CONS_BLOCK_SIZE);
    assert cells[k..] == row + older;
    assert cells[k..k + lim] == cells[k..][..lim];
    assert cells[k + lim..] == cells[k..][lim..];
  }

  lemma LastRow(blocks: seq<nat>, lim: nat, cells: seq<nat>, k: nat)
    requires k <= |cells| && cells[k..] == AllocConses(blocks[..0], lim)
    ensures k == |cells| && cells[..k] == cells
  {
    assert blocks[..0] == [];
  }

  lemma StartSweep(objs: seq<Cell>, owner: seq<int>, mem: seq<Word>, M: set<nat>, kind: Kind, link: nat)
    requires LayoutOk(objs, owner) && |owner| == |mem|
    ensures Sweeping(objs, owner, mem, mem, M, kind, link, [], 0, [])
  {
  }

  method SweepSymbols(h: Heap, ghost M: set<nat>)
    requires LayoutOk(h.objs, h.owner) && |h.owner| == |h.mem|
    requires NoDup(h.symbols)
    requires forall c :: c in h.symbols ==> c < |h.objs| && h.objs[c].kind == SymbolKind
    requires forall c :: c in h.symbols && c < |h.objs| ==>
      0 <= MarkSlot(h.objs[c]) < |h.mem| && (h.mem[MarkSlot(h.objs[c])].mark <==> c in M)
    modifies h`mem, h`symbolFreeList, h`freeSymbols
    ensures Sweeping(h.objs, h.owner, old(h.mem), h.mem, M, SymbolKind, 1, h.symbols, h.symbolFreeList, h.freeSymbols)
  {
    hide FreeChain, Swept, Sweeping;
    ghost var mem0, list: seq<nat> := h.mem, [];
    var head, k := 0, 0;
    StartSweep(h.objs, h.owner, mem0, M, SymbolKind, 1);
    assert h.symbols[..0] == [];
    while k < |h.symbols|
      invariant k <= |h.symbols|
      invariant Sweeping(h.objs, h.owner, mem0, h.mem, M, SymbolKind, 1, h.symbols[..k], head, list)
    {
      assert h.symbols[..k + 1] == h.symbols[..k] + [h.symbols[k]];
      assert h.symbols[k] in h.symbols && h.symbols[k] !in h.symbols[..k];
      var used;
      head, used, list := SweepCell(h, h.symbols[k], SymbolKind, 1, head, mem0, M, h.symbols[..k], list);
      k := k + 1;
    }
    assert h.symbols[..k] == h.symbols;
    h.symbolFreeList := head;
    h.freeSymbols := list;
  }
}
