// What marking keeps: mark bits stand for a growing set of cells, and every visited slot
// that refers to a small string hangs on that string's reference chain.

module MarkState {
  import opened LispHeap

  /** The part of the heap a collection rewrites, with the sets it stands for. */
  datatype GcState = GcState(
    mem: seq<Word>, blocks: seq<Block>, vflag: seq<bool>, large: seq<LargeString>,
    marked: set<nat>,                  // cells marked so far
    visited: set<nat>,                 // slots mark_object has looked at
    chains: map<StrLoc, seq<nat>>,     // per string, its referring slots, last one first
    rootmarks: set<nat>)               // root slots whose own mark bit is set

  /** A reference chain: the size word leads from slot to slot, and the size proper lives
      in the last slot. */
  ghost predicate Chain(mem: seq<Word>, head: nat, ps: seq<nat>, size: nat)
    decreases |ps|
  {
    if ps == [] then head == size
    else
      && ps[0] < |mem| && head == Addr(ps[0]) && mem[ps[0]].val.Raw?
      && Chain(mem, mem[ps[0]].val.bits, ps[1..], size)
  }

  ghost predicate NoDup(ps: seq<nat>) { forall i, j :: 0 <= i < j < |ps| ==> ps[i] != ps[j] }

  lemma {:induction false} ChainFrame(mem: seq<Word>, mem': seq<Word>, head: nat, ps: seq<nat>, size: nat)
    requires Chain(mem, head, ps, size)
    requires |mem'| == |mem|
    requires forall p :: p in ps && p < |mem| ==> mem'[p].val == mem[p].val
    ensures Chain(mem', head, ps, size)
    decreases |ps|
  {
    if ps == [] {
    } else {
      ChainFrame(mem, mem', mem[ps[0]].val.bits, ps[1..], size);
    }
  }

  ghost predicate MarkBit(h: Snapshot, st: GcState, p: nat)
    requires p < |h.owner| && LayoutOk(h.objs, h.owner)
  {
    p in st.rootmarks
    || (h.owner[p] != -1 && h.owner[p] in st.marked && p == MarkSlot(h.objs[h.owner[p]]))
  }

  ghost predicate Threaded(h: Snapshot, st: GcState, p: nat)
    requires p < |h.mem|
  {
    p in st.visited && h.mem[p].val.Small?
  }

  ghost predicate ShapeOk(h: Snapshot, st: GcState) {
    && |st.mem| == |h.mem| && |st.vflag| == |h.objs| && |st.large| == |h.large|
    && |st.blocks| == |h.blocks|
    && st.marked <= h.live && st.chains.Keys == h.strs
    && (forall p: nat :: p in st.visited ==> h.LiveSlot(p) && (h.owner[p] == -1 || h.owner[p] in st.marked))
    && (forall p: nat :: p in st.rootmarks ==> h.LiveSlot(p) && h.owner[p] == -1)
  }

  ghost predicate MarksOk(h: Snapshot, st: GcState)
    requires h.Ready() && ShapeOk(h, st)
  {
    && (forall p: nat :: h.LiveSlot(p) ==> (st.mem[p].mark <==> MarkBit(h, st, p)))
    && (forall o: nat :: o < |h.objs| && h.objs[o].kind.VectorKind? && o in h.live
          ==> (st.vflag[o] <==> o in st.marked))
  }

  ghost predicate ValsOk(h: Snapshot, st: GcState)
    requires h.Ready() && ShapeOk(h, st)
  {
    && (forall p: nat :: p < |h.mem| && !Threaded(h, st, p) ==> st.mem[p].val == h.mem[p].val)
    && (forall p: nat :: p < |h.mem| && !h.LiveSlot(p) ==> st.mem[p] == h.mem[p])
  }

  ghost predicate BlocksOk(h: Snapshot, st: GcState)
    requires h.Ready() && ShapeOk(h, st)
  {
    && (forall b: nat :: b < |h.blocks| ==>
          && st.blocks[b].next == h.blocks[b].next && st.blocks[b].pos == h.blocks[b].pos
          && |st.blocks[b].chars| == |h.blocks[b].chars|)
    && (forall b: nat, i: nat :: b < |h.blocks| && i < |h.blocks[b].chars| && StrLoc(b, i) !in h.strs
          ==> st.blocks[b].chars[i] == h.blocks[b].chars[i])
  }

  ghost predicate ChainsOk(h: Snapshot, st: GcState)
    requires h.Ready() && ShapeOk(h, st) && BlocksOk(h, st)
  {
    && (forall s :: s in h.strs ==>
          Chain(st.mem, st.blocks[s.block].chars[s.offset], st.chains[s], h.Size(s)))
    && (forall s, p: nat :: s in h.strs ==>
          (p in st.chains[s] <==> p in st.visited && h.mem[p].val == Small(s)))
    && (forall s :: s in h.strs ==> NoDup(st.chains[s]))
  }

  ghost predicate LargeOk(h: Snapshot, st: GcState)
    requires h.Ready() && ShapeOk(h, st)
  {
    && (forall k: nat :: k < |h.large| ==> st.large[k] == h.large[k].(flagged := st.large[k].flagged))
    && (forall k: nat :: k < |h.large| && st.large[k].flagged ==>
          exists p: nat :: p in st.visited && h.mem[p].val == Large(k))
    && (forall p: nat :: p in st.visited && h.mem[p].val.Large? ==> st.large[h.mem[p].val.index].flagged)
  }

  ghost predicate Inv(h: Snapshot, st: GcState) {
    && h.Ready() && ShapeOk(h, st) && MarksOk(h, st) && ValsOk(h, st)
    && BlocksOk(h, st) && ChainsOk(h, st) && LargeOk(h, st)
  }

  ghost predicate MayVisit(h: Snapshot, st: GcState, p: nat) {
    h.LiveSlot(p) && p !in st.visited && (h.owner[p] == -1 || h.owner[p] in st.marked)
  }

  lemma LargeFrame(h: Snapshot, st: GcState, p: nat, st': GcState)
    requires h.Ready() && ShapeOk(h, st) && LargeOk(h, st) && ShapeOk(h, st')
    requires p < |h.mem| && (h.mem[p].val.Large? ==> h.mem[p].val.index < |h.large|)
    requires st'.visited == st.visited + {p}
    requires st'.large == if h.mem[p].val.Large?
      then st.large[h.mem[p].val.index := st.large[h.mem[p].val.index].(flagged := true)] else st.large
    ensures LargeOk(h, st')
  {
    forall j: nat | j < |h.large| && st'.large[j].flagged
      ensures exists q: nat :: q in st'.visited && h.mem[q].val == Large(j)
    {
      if st.large[j].flagged {
        var q: nat :| q in st.visited && h.mem[q].val == Large(j);
        assert q in st'.visited;
      } else {
        assert p in st'.visited;
      }
    }
  }

  lemma ChainsFrame(h: Snapshot, st: GcState, st': GcState)
    requires h.Ready() && ShapeOk(h, st) && BlocksOk(h, st) && ChainsOk(h, st)
    requires ShapeOk(h, st') && BlocksOk(h, st')
    requires st.visited <= st'.visited
    requires forall p: nat :: p in st'.visited && p !in st.visited ==> !h.mem[p].val.Small?
    requires st'.chains == st.chains && st'.blocks == st.blocks
    requires forall p: nat :: p < |h.mem| ==> st'.mem[p].val == st.mem[p].val
    ensures ChainsOk(h, st')
  {
    forall s | s in h.strs
      ensures Chain(st'.mem, st'.blocks[s.block].chars[s.offset], st'.chains[s], h.Size(s))
    {
      ChainFrame(st.mem, st'.mem, st.blocks[s.block].chars[s.offset], st.chains[s], h.Size(s));
    }
  }

  /** A slot that does not refer to a small string is left as it is. */
  lemma VisitPlain(h: Snapshot, st: GcState, p: nat, st': GcState)
    requires Inv(h, st) && MayVisit(h, st, p)
    requires !h.mem[p].val.Small? && (h.mem[p].val.Large? ==> h.mem[p].val.index < |h.large|)
    requires st' == st.(visited := st.visited + {p}, large := if h.mem[p].val.Large?
      then st.large[h.mem[p].val.index := st.large[h.mem[p].val.index].(flagged := true)] else st.large)
    ensures Inv(h, st')
  {
    assert ShapeOk(h, st');
    assert MarksOk(h, st') && ValsOk(h, st') && BlocksOk(h, st');
    ChainsFrame(h, st, st');
    LargeFrame(h, st, p, st');
  }

  lemma SlotTarget(h: Snapshot, st: GcState, p: nat)
    requires Inv(h, st) && h.LiveSlot(p)
    ensures p < |st.mem| == |h.mem| && !h.mem[p].val.Raw?
    ensures h.mem[p].val.Obj? ==> h.mem[p].val.id in h.live
    ensures h.mem[p].val.Large? ==> h.mem[p].val.index < |st.large| == |h.large| && st.large[h.mem[p].val.index].tagged
    ensures h.mem[p].val.Small? ==> var s := h.mem[p].val.loc;
      s in h.strs && s in st.chains && s.block < |st.blocks| && s.offset < |st.blocks[s.block].chars|
    ensures p !in st.visited ==> st.mem[p].val == h.mem[p].val
  {
  }

  /** The size word after a slot has been threaded in front of the chain. */
  function SetHeader(blocks: seq<Block>, s: StrLoc, n: nat): seq<Block>
    requires s.block < |blocks| && s.offset < |blocks[s.block].chars|
  {
    var b := blocks[s.block];
    blocks[s.block := b.(chars := b.chars[s.offset := n])]
  }

  /** Threading puts the slot in front of its string's chain and changes no other chain. */
  lemma VisitSmallChains(h: Snapshot, st: GcState, p: nat, s: StrLoc, st': GcState)
    requires h.Ready() && ShapeOk(h, st) && BlocksOk(h, st) && ChainsOk(h, st)
    requires ShapeOk(h, st') && BlocksOk(h, st')
    requires p < |h.mem| && p !in st.visited && h.mem[p].val == Small(s) && s in h.strs
    requires st'.visited == st.visited + {p}
    requires st'.mem == st.mem[p := Word(st.mem[p].mark, Raw(st.blocks[s.block].chars[s.offset]))]
    requires st'.blocks == SetHeader(st.blocks, s, Addr(p))
    requires st'.chains == st.chains[s := [p] + st.chains[s]]
    ensures ChainsOk(h, st')
  {
    assert forall r, q: nat :: r in h.strs ==>
      (q in st'.chains[r] <==> q in st'.visited && h.mem[q].val == Small(r));
    forall r | r in h.strs
      ensures Chain(st'.mem, st'.blocks[r.block].chars[r.offset], st'.chains[r], h.Size(r))
      ensures NoDup(st'.chains[r])
    {
      hide Snapshot.Ready, ShapeOk, BlocksOk, ChainsOk;
      VisitSmallChain(h, st, p, s, r, st');
    }
  }

  lemma VisitSmallChain(h: Snapshot, st: GcState, p: nat, s: StrLoc, r: StrLoc, st': GcState)
    requires h.Ready() && ShapeOk(h, st) && BlocksOk(h, st) && ChainsOk(h, st)
    requires ShapeOk(h, st') && BlocksOk(h, st')
    requires p < |h.mem| && p !in st.visited && s in h.strs && r in h.strs
    requires st'.mem == st.mem[p := Word(st.mem[p].mark, Raw(st.blocks[s.block].chars[s.offset]))]
    requires st'.blocks == SetHeader(st.blocks, s, Addr(p))
    requires st'.chains == st.chains[s := [p] + st.chains[s]]
    ensures Chain(st'.mem, st'.blocks[r.block].chars[r.offset], st'.chains[r], h.Size(r))
    ensures NoDup(st'.chains[r])
  {
    assert p !in st.chains[r];
    ChainFrame(st.mem, st'.mem, st.blocks[r.block].chars[r.offset], st.chains[r], h.Size(r));
    if r == s {
      assert st'.chains[r][1..] == st.chains[r];
    }
  }

  lemma VisitSmall(h: Snapshot, st: GcState, p: nat, s: StrLoc, st': GcState)
    requires Inv(h, st) && MayVisit(h, st, p)
    requires h.mem[p].val == Small(s) && s in h.strs
    requires st' == st.(visited := st.visited + {p},
                        mem := st.mem[p := Word(st.mem[p].mark, Raw(st.blocks[s.block].chars[s.offset]))],
                        blocks := SetHeader(st.blocks, s, Addr(p)),
                        chains := st.chains[s := [p] + st.chains[s]])
    ensures Inv(h, st')
  {
    assert ShapeOk(h, st');
    assert BlocksOk(h, st');
    VisitSmallChains(h, st, p, s, st');
  }

  /** The memory and vector flags after the mark bit of a cell has been set. */
  function SetMark(mem: seq<Word>, c: Cell): seq<Word>
    requires !c.kind.VectorKind? ==> 0 <= MarkSlot(c) < |mem|
  {
    if c.kind.VectorKind? then mem else mem[MarkSlot(c) := mem[MarkSlot(c)].(mark := true)]
  }

  lemma MarkSlotOwned(h: Snapshot, o: nat)
    requires h.Ready() && o < |h.objs| && !h.objs[o].kind.VectorKind?
    ensures 0 <= MarkSlot(h.objs[o]) < |h.mem| && h.owner[MarkSlot(h.objs[o])] == o
    ensures SlotOf(h.objs, o, MarkSlot(h.objs[o]))
  {
    assert SlotOf(h.objs, o, MarkSlot(h.objs[o]));
  }

  lemma MarkCellMarks(h: Snapshot, st: GcState, o: nat, st': GcState)
    requires h.Ready() && ShapeOk(h, st) && MarksOk(h, st) && ShapeOk(h, st')
    requires o in h.live && o !in st.marked && st'.marked == st.marked + {o}
    requires st'.rootmarks == st.rootmarks
    requires !h.objs[o].kind.VectorKind? ==> 0 <= MarkSlot(h.objs[o]) < |h.mem|
    requires st'.mem == SetMark(st.mem, h.objs[o])
    requires st'.vflag == if h.objs[o].kind.VectorKind? then st.vflag[o := true] else st.vflag
    ensures MarksOk(h, st')
  {
    if !h.objs[o].kind.VectorKind? { MarkSlotOwned(h, o); }
  }

  /** Setting the mark bit of a cell that had none. */
  lemma MarkCell(h: Snapshot, st: GcState, o: nat, st': GcState)
    requires Inv(h, st) && o in h.live && o !in st.marked
    requires !h.objs[o].kind.VectorKind? ==> 0 <= MarkSlot(h.objs[o]) < |h.mem|
    requires st' == st.(mem := SetMark(st.mem, h.objs[o]),
                        vflag := if h.objs[o].kind.VectorKind? then st.vflag[o := true] else st.vflag,
                        marked := st.marked + {o})
    ensures Inv(h, st')
  {
    assert ShapeOk(h, st');
    if !h.objs[o].kind.VectorKind? { MarkSlotOwned(h, o); }
    MarkCellMarks(h, st, o, st');
    ChainsFrame(h, st, st');
  }
}
