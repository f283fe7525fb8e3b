// mark_object: depth-first marking with the car-first and cdr-first shortcuts.

module MarkObjects {
  import opened LispHeap
  import opened MarkState
  import opened LispStore

  ghost predicate SlotDone(h: Snapshot, p: nat, M: set<nat>, V: set<nat>)
    requires p < |h.mem|
  {
    p in V && (h.mem[p].val.Obj? ==> h.mem[p].val.id in M)
  }

  /** All slots of a marked cell have been visited, except a cdr holding nil. */
  ghost predicate Done(h: Snapshot, o: nat, M: set<nat>, V: set<nat>)
    requires h.Ready() && o < |h.objs|
  {
    && (forall p: nat :: SlotOf(h.objs, o, p) && !h.Skipped(p) ==> SlotDone(h, p, M, V))
    && (h.objs[o].kind.SymbolKind? && h.objs[o].next != -1 ==> h.objs[o].next in M)
  }

  /** One walk, started at slot `start`, from (M0, V0) to (M1, V1): what it marked is complete
      and reachable from `start`, and it visited no other slots.  `ex` are cells still being
      worked on, `ps` and `po` the slot and the cell that are about to be looked at. */
  ghost predicate Walk(h: Snapshot, start: nat, M0: set<nat>, V0: set<nat>, M1: set<nat>, V1: set<nat>,
                       ex: set<nat>, ps: set<nat>, po: set<nat>)
    requires h.Ready() && h.LiveSlot(start)
  {
    && M0 <= M1 <= h.live && V0 <= V1 && po <= h.live
    && (forall p: nat :: p in V1 ==> p < |h.mem|)
    && (forall o: nat :: o in M1 && o !in M0 && o !in ex ==> Done(h, o, M1 + po, V1 + ps))
    && (forall p: nat :: p in V1 && p !in V0 && h.mem[p].val.Obj? ==> h.mem[p].val.id in M1 + po)
    && (forall p: nat :: (p in V1 || p in ps) && p !in V0 ==>
          p == start || (p < |h.mem| && h.owner[p] != -1 && h.owner[p] in M1 && h.owner[p] !in M0))
    && (forall t: nat :: (t in M1 || t in po) && t !in M0 ==> h.ReachFrom(h.mem[start].val, t))
  }

  ghost predicate SlotsDone(h: Snapshot, lo: nat, hi: nat, M: set<nat>, V: set<nat>)
    requires hi <= |h.mem|
  {
    forall p: nat :: lo <= p < hi ==> SlotDone(h, p, M, V)
  }

  /** A call on slot `q` of cell `o` extends the walk that is working on `o`. */
  lemma ExtendWalk(h: Snapshot, start: nat, o: nat, q: nat, M0: set<nat>, V0: set<nat>,
                   M1: set<nat>, V1: set<nat>, M2: set<nat>, V2: set<nat>)
    requires h.Ready() && h.LiveSlot(start) && h.LiveSlot(q)
    requires Walk(h, start, M0, V0, M1, V1, {o}, {}, {})
    requires o in M1 && o !in M0 && SlotOf(h.objs, o, q)
    requires Walk(h, q, M1, V1, M2, V2, {}, {}, {})
    ensures Walk(h, start, M0, V0, M2, V2, {o}, {}, {})
  {
    forall t: nat | t in M2 && t !in M0
      ensures h.ReachFrom(h.mem[start].val, t)
    {
      if t !in M1 {
        assert h.Edge(o, h.mem[q].val.id);
        ReachStep(h, o, h.mem[q].val.id, t);
        var s := h.mem[start].val.id;
        var n: nat :| h.ReachIn(s, o, n);
        ReachTrans(h, s, o, t, n);
      }
    }
    forall c: nat | c in M2 && c !in M0 && c != o
      ensures Done(h, c, M2, V2)
    {
      if c in M1 { assert Done(h, c, M1 + {}, V1 + {}); } else { assert Done(h, c, M2 + {}, V2 + {}); }
    }
    assert M2 + {} == M2 && V2 + {} == V2;
    assert forall p: nat :: p in V2 && p !in V0 && h.mem[p].val.Obj? ==> h.mem[p].val.id in M2;
  }

  /** Finishing a cell: all its slots are done, apart from those about to be looked at. */
  lemma FinishCell(h: Snapshot, start: nat, o: nat, M0: set<nat>, V0: set<nat>, M: set<nat>, V: set<nat>,
                   ps: set<nat>, po: set<nat>)
    requires h.Ready() && h.LiveSlot(start)
    requires Walk(h, start, M0, V0, M, V, {o}, {}, {}) && o in M && o !in M0
    requires Done(h, o, M + po, V + ps)
    requires forall p :: p in ps ==> SlotOf(h.objs, o, p)
    requires forall t :: t in po ==> h.Edge(o, t) && t in h.live
    ensures Walk(h, start, M0, V0, M, V, {}, ps, po)
  {
    forall t: nat | t in po
      ensures h.ReachFrom(h.mem[start].val, t)
    {
      ReachSelf(h, t);
      ReachStep(h, o, t, t);
      var s := h.mem[start].val.id;
      var n: nat :| h.ReachIn(s, o, n);
      ReachTrans(h, s, o, t, n);
    }
    forall c: nat | c in M && c !in M0
      ensures Done(h, c, M + po, V + ps)
    {
      if c != o { assert Done(h, c, M + {}, V + {}); }
    }
  }

  /** The slot or cell that was pending has been looked at. */
  lemma Settle(h: Snapshot, start: nat, M0: set<nat>, V0: set<nat>, M: set<nat>, V: set<nat>,
               ps: set<nat>, po: set<nat>, M': set<nat>, V': set<nat>, ex: set<nat>)
    requires h.Ready() && h.LiveSlot(start)
    requires Walk(h, start, M0, V0, M, V, {}, ps, po)
    requires V' == V + ps && M' == M + po && (forall o :: o in po && o !in M ==> o in ex)
    requires forall p: nat :: p in ps ==> p < |h.mem| && (h.mem[p].val.Obj? ==> h.mem[p].val.id in M + po)
    ensures Walk(h, start, M0, V0, M', V', ex, {}, {})
  {
    assert M' + {} == M' && V' + {} == V';
  }

  lemma MayVisitLive(h: Snapshot, st: GcState, p: nat)
    requires MayVisit(h, st, p)
    ensures h.LiveSlot(p) && p !in st.visited && p < |h.mem|
  {
  }

  function ThreadedWord(w: Word, header: nat): Word { Word(w.mark, Raw(header)) }

  /** The ghost side of threading a slot. */
  ghost method NoteThreaded(h: Heap, st: GcState, p: nat, loc: StrLoc)
    requires Inv(h.snap, st) && MayVisit(h.snap, st, p) && h.snap.mem[p].val == Small(loc)
    requires h.objs == h.snap.objs && h.nil == h.snap.nil && loc in st.chains && p < |st.mem|
    requires loc.block < |st.blocks| && loc.offset < |st.blocks[loc.block].chars|
    requires h.mem == st.mem[p := ThreadedWord(st.mem[p], st.blocks[loc.block].chars[loc.offset])]
    requires h.blocks == SetHeader(st.blocks, loc, Addr(p))
    requires h.vflag == st.vflag && h.large == st.large && h.marked == st.marked && h.visited == st.visited
    requires h.chains == st.chains && h.rootmarks == st.rootmarks
    modifies h`visited, h`chains
    ensures h.Marking() && h.visited == st.visited + {p}
  {
    hide Inv, Snapshot.Ready, MayVisit, SetHeader;
    MayVisitLive(h.snap, st, p);
    SlotTarget(h.snap, st, p);
    h.chains := h.chains[loc := [p] + h.chains[loc]];
    h.visited := h.visited + {p};
    VisitSmall(h.snap, st, p, loc, h.State());
  }

  /** A small string: the slot goes in front of the chain that starts at the size word. */
  method ThreadSlot(h: Heap, objptr: nat, loc: StrLoc)
    requires h.Marking() && MayVisit(h.snap, h.State(), objptr)
    requires h.snap.mem[objptr].val == Small(loc)
    modifies h`mem, h`blocks, h`visited, h`chains
    ensures h.Marking()
    ensures h.visited == old(h.visited) + {objptr}
  {
    hide Inv, Snapshot.Ready, MayVisit, SetHeader, Snapshot.LiveSlot;
    ghost var st := h.State();
    MayVisitLive(h.snap, st, objptr);
    SlotTarget(h.snap, st, objptr);
    var size := h.blocks[loc.block].chars[loc.offset];
    h.mem := h.mem[objptr := ThreadedWord(h.mem[objptr], size)];
    h.blocks := SetHeader(h.blocks, loc, Addr(objptr));
    NoteThreaded(h, st, objptr, loc);
  }

  /** A large string is only flagged. */
  method FlagLarge(h: Heap, objptr: nat, k: nat)
    requires h.Marking() && MayVisit(h.snap, h.State(), objptr)
    requires h.snap.mem[objptr].val == Large(k)
    modifies h`large, h`visited
    ensures h.Marking()
    ensures h.visited == old(h.visited) + {objptr}
  {
    ghost var st := h.State();
    hide Inv, Snapshot.Ready;
    SlotTarget(h.snap, st, objptr);
    h.large := h.large[k := h.large[k].(flagged := true)];
    h.visited := h.visited + {objptr};
    VisitPlain(h.snap, st, objptr, h.State());
  }

  /** Any other slot is only recorded as visited. */
  ghost method NoteVisit(h: Heap, p: nat)
    requires h.Marking() && MayVisit(h.snap, h.State(), p)
    requires !h.snap.mem[p].val.Small? && !h.snap.mem[p].val.Large?
    modifies h`visited
    ensures h.Marking()
    ensures h.visited == old(h.visited) + {p}
  {
    hide Inv, Snapshot.Ready;
    var st := h.State();
    h.visited := h.visited + {p};
    VisitPlain(h.snap, st, p, h.State());
  }

  predicate IsMarked(h: Heap, o: nat)
    reads h
    requires o < |h.objs| == |h.vflag|
    requires !h.objs[o].kind.VectorKind? ==> 0 <= MarkSlot(h.objs[o]) < |h.mem|
  {
    if h.objs[o].kind.VectorKind? then h.vflag[o] else h.mem[MarkSlot(h.objs[o])].mark
  }

  lemma IsMarkedMeaning(h: Heap, o: nat)
    requires h.Marking() && o in h.snap.live
    ensures o < |h.objs| == |h.vflag|
    ensures !h.objs[o].kind.VectorKind? ==> 0 <= MarkSlot(h.objs[o]) < |h.mem|
    ensures IsMarked(h, o) <==> o in h.marked
  {
    if !h.objs[o].kind.VectorKind? { MarkSlotOwned(h.snap, o); }
  }

  method SetMarkBit(h: Heap, o: nat)
    requires h.Marking() && o in h.snap.live && o !in h.marked
    modifies h`mem, h`vflag, h`marked
    ensures h.Marking() && h.marked == old(h.marked) + {o}
    ensures forall p: nat :: SlotOf(h.snap.objs, o, p) ==>
      p !in h.visited && p < |h.mem| && h.mem[p].val == h.snap.mem[p].val
  {
    ghost var st := h.State();
    IsMarkedMeaning(h, o);
    if h.objs[o].kind.VectorKind? {
      h.vflag := h.vflag[o := true];
    } else {
      var p := MarkSlot(h.objs[o]);
      h.mem := h.mem[p := h.mem[p].(mark := true)];
    }
    h.marked := h.marked + {o};
    MarkCell(h.snap, st, o, h.State());
  }

  lemma SmallerRest(live: set<nat>, M: set<nat>, M': set<nat>)
    requires M <= M' <= live
    ensures |live - M'| <= |live - M|
    ensures M != M' ==> |live - M'| < |live - M|
  {
    assert live - M == (live - M') + (M' - M);
    if M != M' {
      var x :| x in M' - M;
      assert |M' - M| >= 1;
    }
  }

  /** Slots of a marked cell that are still to be visited. */
  lemma FreshSlot(h: Snapshot, st: GcState, o: nat, p: nat)
    requires Inv(h, st) && o in h.live && SlotOf(h.objs, o, p)
    ensures h.LiveSlot(p) && p < |h.mem| == |h.owner| && h.owner[p] == o
    ensures o !in st.marked ==> p !in st.visited
  {
  }

  lemma LayoutKnown(h: Snapshot, st: GcState)
    requires Inv(h, st)
    ensures |h.owner| == |h.mem| && LayoutOk(h.objs, h.owner)
  {
  }

  /** After a walk from slot `q` of a marked cell `o`, no other slot of `o` is newly visited. */
  lemma OtherSlots(h: Snapshot, o: nat, q: nat, M1: set<nat>, V1: set<nat>, M2: set<nat>, V2: set<nat>, p: nat)
    requires h.Ready() && h.LiveSlot(q) && Walk(h, q, M1, V1, M2, V2, {}, {}, {})
    requires o in M1 && o in h.live && SlotOf(h.objs, o, p) && p != q
    ensures p in V2 <==> p in V1
  {
    assert h.owner[p] == o;
  }

  lemma DoneStays(h: Snapshot, lo: nat, hi: nat, M: set<nat>, V: set<nat>, M': set<nat>, V': set<nat>)
    requires hi <= |h.mem| && SlotsDone(h, lo, hi, M, V) && M <= M' && V <= V'
    ensures SlotsDone(h, lo, hi, M', V')
  {
    forall p: nat | lo <= p < hi
      ensures SlotDone(h, p, M', V')
    {
      assert SlotDone(h, p, M, V);
    }
  }

  lemma NextSlot(h: Snapshot, start: nat, o: nat, lo: nat, i: nat, M0: set<nat>, V0: set<nat>,
                 M: set<nat>, V: set<nat>, M': set<nat>, V': set<nat>)
    requires h.Ready() && h.LiveSlot(start) && h.LiveSlot(i) && lo <= i < |h.mem| && M <= h.live
    requires o in M && o !in M0 && SlotOf(h.objs, o, i)
    requires Walk(h, start, M0, V0, M, V, {o}, {}, {}) && SlotsDone(h, lo, i, M, V)
    requires Walk(h, i, M, V, M', V', {}, {}, {}) && SlotDone(h, i, M', V')
    ensures M <= M' && V <= V'
    ensures Walk(h, start, M0, V0, M', V', {o}, {}, {}) && SlotsDone(h, lo, i + 1, M', V')
    ensures forall p: nat :: SlotOf(h.objs, o, p) && p != i ==> (p in V' <==> p in V)
  {
    hide Snapshot.Ready, Done, Walk, SlotDone, Snapshot.LiveSlot;
    WalkGrows(h, i, M, V, M', V');
    ExtendWalk(h, start, o, i, M0, V0, M, V, M', V');
    DoneStays(h, lo, i, M, V, M', V');
    forall p: nat | SlotOf(h.objs, o, p) && p != i
      ensures p in V' <==> p in V
    {
      OtherSlots(h, o, i, M, V, M', V', p);
    }
  }

  /** mark_object on consecutive slots lo .. hi of the cell being worked on. */
  method MarkSlots(h: Heap, ghost start: nat, ghost o: nat, lo: nat, hi: nat, ghost M0: set<nat>, ghost V0: set<nat>)
    requires h.Marking() && h.snap.LiveSlot(start)
    requires Walk(h.snap, start, M0, V0, h.marked, h.visited, {o}, {}, {})
    requires o in h.marked && o !in M0 && lo <= hi <= |h.snap.mem|
    requires forall p: nat :: lo <= p < hi ==> SlotOf(h.snap.objs, o, p) && p !in h.visited
    modifies h`mem, h`blocks, h`vflag, h`large, h`marked, h`visited, h`chains
    ensures h.Marking()
    ensures Walk(h.snap, start, M0, V0, h.marked, h.visited, {o}, {}, {})
    ensures SlotsDone(h.snap, lo, hi, h.marked, h.visited)
    ensures old(h.marked) <= h.marked && old(h.visited) <= h.visited
    ensures forall p: nat :: SlotOf(h.snap.objs, o, p) && !(lo <= p < hi) ==> (p in h.visited <==> p in old(h.visited))
    decreases |h.snap.live - h.marked|, 1
  {
    hide Inv, Snapshot.Ready, Done, Walk, SlotDone, Snapshot.LiveSlot;
    ghost var snap := h.snap;
    ghost var M1 := h.marked;
    MarkedLive(snap, h.State());
    var i := lo;
    while i < hi
      invariant lo <= i <= hi && h.Marking() && h.snap == snap
      invariant M1 <= h.marked <= snap.live && old(h.visited) <= h.visited
      invariant Walk(snap, start, M0, V0, h.marked, h.visited, {o}, {}, {})
      invariant SlotsDone(snap, lo, i, h.marked, h.visited)
      invariant forall p: nat :: SlotOf(snap.objs, o, p) && !(lo <= p < i) ==> (p in h.visited <==> p in old(h.visited))
    {
      ghost var M, V := h.marked, h.visited;
      FreshSlot(snap, h.State(), o, i);
      MayVisitSlot(snap, h.State(), o, i);
      SmallerRest(snap.live, M1, M);
      MarkObject(h, i);
      MarkedLive(snap, h.State());
      NextSlot(snap, start, o, lo, i, M0, V0, M, V, h.marked, h.visited);
      i := i + 1;
    }
  }

  lemma MarkedLive(h: Snapshot, st: GcState)
    requires Inv(h, st)
    ensures h.Ready() && st.marked <= h.live
    ensures forall o: nat :: o in h.live ==> o < |h.objs|
  {
  }

  lemma MayVisitSlot(h: Snapshot, st: GcState, o: nat, p: nat)
    requires Inv(h, st) && o in st.marked && SlotOf(h.objs, o, p) && p !in st.visited
    ensures MayVisit(h, st, p) && h.LiveSlot(p)
  {
  }

  lemma WalkGrows(h: Snapshot, start: nat, M0: set<nat>, V0: set<nat>, M1: set<nat>, V1: set<nat>)
    requires h.Ready() && h.LiveSlot(start) && Walk(h, start, M0, V0, M1, V1, {}, {}, {})
    ensures M0 <= M1 && V0 <= V1
  {
  }

  ghost function Target(v: Val): set<nat> { if v.Obj? then {v.id} else {} }

  ghost function Pending(pending: bool, p: nat): set<nat> { if pending then {p} else {} }

  /** The MARKBIT of a string's size word, which tells large strings from small ones. */
  method SizeTagged(h: Heap, ghost p: nat, obj: Val) returns (tagged: bool)
    requires h.Marking() && MayVisit(h.snap, h.State(), p) && obj == h.snap.mem[p].val
    requires obj.Small? || obj.Large?
    ensures tagged <==> obj.Large?
  {
    hide Inv, Snapshot.Ready;
    SlotTarget(h.snap, h.State(), p);
    match obj
    case Large(k) => tagged := h.large[k].tagged;
    case _ => tagged := false;
  }

  /** Looks at one reference: handles a string, and marks a cell that was not marked yet.
      `isNew` says that the contents of that cell are still to be marked. */
  method VisitReference(h: Heap, ghost start: nat, objptr: nat, obj: Val, ghost pending: bool,
                        ghost M0: set<nat>, ghost V0: set<nat>)
    returns (isNew: bool)
    requires h.Marking() && h.snap.LiveSlot(start)
    requires Walk(h.snap, start, M0, V0, h.marked, h.visited, {}, Pending(pending, objptr), Target(obj))
    requires pending ==> MayVisit(h.snap, h.State(), objptr) && objptr < |h.snap.mem| && obj == h.snap.mem[objptr].val
    requires !pending ==> obj.Obj?
    requires Target(obj) <= h.snap.live && M0 <= h.marked
    modifies h`mem, h`blocks, h`vflag, h`large, h`marked, h`visited, h`chains
    ensures h.Marking()
    ensures h.marked == old(h.marked) + Target(obj) && h.visited == old(h.visited) + Pending(pending, objptr)
    ensures isNew ==> obj.Obj? && obj.id !in old(h.marked) && obj.id < |h.objs|
    ensures isNew ==> Walk(h.snap, start, M0, V0, h.marked, h.visited, {obj.id}, {}, {})
    ensures isNew ==> forall p: nat :: SlotOf(h.snap.objs, obj.id, p) ==> p !in h.visited
    ensures !isNew ==> Walk(h.snap, start, M0, V0, h.marked, h.visited, {}, {}, {})
  {
    hide Inv, Snapshot.Ready, Done, Walk, Snapshot.LiveSlot, MayVisit;
    ghost var snap, M, V := h.snap, h.marked, h.visited;
    MarkedLive(snap, h.State());
    if pending { PendingSlot(snap, h.State(), objptr); }
    if obj.Small? || obj.Large? {
      var tagged := SizeTagged(h, objptr, obj);
      if tagged {
        FlagLarge(h, objptr, obj.index);
      } else {
        ThreadSlot(h, objptr, obj.loc);
      }
    } else if pending {
      NoteVisit(h, objptr);
    }
    isNew := false;
    if obj.Obj? {
      IsMarkedMeaning(h, obj.id);
      isNew := !IsMarked(h, obj.id);
      if isNew {
        SetMarkBit(h, obj.id);
      }
    }
    assert h.marked == M + Target(obj) && h.visited == V + Pending(pending, objptr);
    Settle(snap, start, M0, V0, M, V, Pending(pending, objptr), Target(obj), h.marked, h.visited,
           if isNew then {obj.id} else {});
  }

  method MarkObject(h: Heap, objptr0: nat)
    requires h.Marking() && MayVisit(h.snap, h.State(), objptr0)
    modifies h`mem, h`blocks, h`vflag, h`large, h`marked, h`visited, h`chains
    ensures h.Marking()
    ensures Walk(h.snap, objptr0, old(h.marked), old(h.visited), h.marked, h.visited, {}, {}, {})
    ensures SlotDone(h.snap, objptr0, h.marked, h.visited)
    decreases |h.snap.live - h.marked|, 0
  {
    hide Inv, Snapshot.Ready, Done, Walk, SlotDone, Snapshot.LiveSlot, MayVisit;
    ghost var snap, M0, V0 := h.snap, h.marked, h.visited;
    var objptr := objptr0;
    MarkedLive(snap, h.State());
    StartWalk(snap, h.State(), objptr0);
    var obj := h.mem[objptr].val;
    ghost var pending := true;
    while true
      invariant h.Marking() && h.snap == snap
      invariant M0 <= h.marked <= snap.live
      invariant Walk(snap, objptr0, M0, V0, h.marked, h.visited, {}, Pending(pending, objptr), Target(obj))
      invariant Target(obj) <= snap.live
      invariant pending ==> MayVisit(snap, h.State(), objptr) && objptr < |snap.mem| && obj == snap.mem[objptr].val
      invariant !pending ==> obj.Obj?
      invariant SlotDone(snap, objptr0, h.marked + Target(obj), h.visited + Pending(pending, objptr))
      decreases |snap.live - h.marked|
    {
      ghost var M := h.marked;
      var isNew := VisitReference(h, objptr0, objptr, obj, pending, M0, V0);
      if !isNew {
        return;
      }
      MarkedLive(snap, h.State());
      SmallerRest(snap.live, M0, h.marked);
      SmallerRest(snap.live, M, h.marked);
      ghost var M1, V1 := h.marked, h.visited;
      var o := obj.id;
      var more, slot := MarkInside(h, objptr0, o, M0, V0);
      GrowDone(snap, objptr0, M1, V1, h.marked, h.visited);
      MarkedLive(snap, h.State());
      SmallerRest(snap.live, M1, h.marked);
      if !more {
        return;
      }
      if h.objs[o].kind.SymbolKind? {
        obj := Obj(h.objs[o].next);
        pending := false;
      } else {
        objptr := slot;
        obj := h.mem[objptr].val;
        pending := true;
      }
      GrowDone(snap, objptr0, h.marked, h.visited, h.marked + Target(obj), h.visited + Pending(pending, objptr));
    }
  }

  /** Marks through a just marked cell.  `more` says that something is left for the caller's
      loop: the obarray link of a symbol, or slot `slot` of a cons. */
  method MarkInside(h: Heap, ghost start: nat, o: nat, ghost M0: set<nat>, ghost V0: set<nat>)
    returns (more: bool, slot: nat)
    requires h.Marking() && h.snap.LiveSlot(start)
    requires Walk(h.snap, start, M0, V0, h.marked, h.visited, {o}, {}, {})
    requires o in h.marked && o !in M0 && o in h.snap.live && o < |h.objs|
    requires forall p: nat :: SlotOf(h.snap.objs, o, p) ==> p !in h.visited
    modifies h`mem, h`blocks, h`vflag, h`large, h`marked, h`visited, h`chains
    ensures h.Marking() && old(h.marked) <= h.marked && old(h.visited) <= h.visited
    ensures !more ==> Walk(h.snap, start, M0, V0, h.marked, h.visited, {}, {}, {})
    ensures more && h.objs[o].kind.SymbolKind? ==>
      && h.objs[o].next >= 0 && {h.objs[o].next} <= h.snap.live
      && Walk(h.snap, start, M0, V0, h.marked, h.visited, {}, {}, {h.objs[o].next})
    ensures more && !h.objs[o].kind.SymbolKind? ==>
      && MayVisit(h.snap, h.State(), slot) && slot < |h.snap.mem| == |h.mem|
      && h.mem[slot].val == h.snap.mem[slot].val && Target(h.mem[slot].val) <= h.snap.live
      && Walk(h.snap, start, M0, V0, h.marked, h.visited, {}, {slot}, Target(h.snap.mem[slot].val))
    decreases |h.snap.live - h.marked|, 3
  {
    hide Inv, Snapshot.Ready, Done, Walk, SlotDone, Snapshot.LiveSlot, SlotsDone, MayVisit;
    more, slot := false, 0;
    ghost var snap := h.snap;
    MarkedLive(snap, h.State());
    CellShape(snap, h.State(), o);
    var c := h.objs[o];
    match c.kind
    case VectorKind =>
      MarkSlots(h, start, o, c.base, c.base + c.len, M0, V0);
      FinishSlots(snap, start, o, M0, V0, h.marked, h.visited, {});
    case SymbolKind =>
      // name, value, function, plist
      MarkSlots(h, start, o, c.base, c.base + 4, M0, V0);
      more := c.next != -1;
      FinishSlots(snap, start, o, M0, V0, h.marked, h.visited, if more then {c.next} else {});
    case ConsKind =>
      more := true;
      slot := MarkConsButOne(h, start, o, M0, V0);
  }

  /** Marks through one slot of a isNew cons and returns the other one, which mark_object
      then handles without recursion.  A nil cdr is not followed at all; a cdr that is a list of
      one integer is followed first. */
  method MarkConsButOne(h: Heap, ghost start: nat, o: nat, ghost M0: set<nat>, ghost V0: set<nat>)
    returns (objptr: nat)
    requires h.Marking() && h.snap.LiveSlot(start)
    requires Walk(h.snap, start, M0, V0, h.marked, h.visited, {o}, {}, {})
    requires o in h.marked && o !in M0 && o in h.snap.live && o < |h.objs| && h.objs[o].kind.ConsKind?
    requires forall p: nat :: SlotOf(h.snap.objs, o, p) ==> p !in h.visited
    modifies h`mem, h`blocks, h`vflag, h`large, h`marked, h`visited, h`chains
    ensures h.Marking() && old(h.marked) <= h.marked && old(h.visited) <= h.visited
    ensures MayVisit(h.snap, h.State(), objptr) && objptr < |h.snap.mem| == |h.mem|
    ensures h.mem[objptr].val == h.snap.mem[objptr].val && Target(h.mem[objptr].val) <= h.snap.live
    ensures Walk(h.snap, start, M0, V0, h.marked, h.visited, {}, {objptr}, Target(h.snap.mem[objptr].val))
    decreases |h.snap.live - h.marked|, 2
  {
    hide Inv, Snapshot.Ready, Done, Walk, Snapshot.LiveSlot, MayVisit;
    ghost var snap := h.snap;
    CellShape(snap, h.State(), o);
    MarkedLive(snap, h.State());
    var car, cdr := h.objs[o].base, h.objs[o].base + 1;
    assert SlotOf(snap.objs, o, car) && SlotOf(snap.objs, o, cdr);
    UnvisitedSlot(snap, h.State(), o, cdr);
    var cdrval := h.mem[cdr].val;
    if cdrval == Obj(h.nil) {
      LayoutKnown(snap, h.State());
      assert snap.Skipped(cdr) by { FreshSlot(snap, h.State(), o, cdr); }
      objptr := car;
    } else {
      var intNil := IsIntNil(h, cdrval);
      if intNil {
        MarkSlots(h, start, o, cdr, cdr + 1, M0, V0);
        assert SlotDone(snap, cdr, h.marked, h.visited);
        objptr := car;
      } else {
        MarkSlots(h, start, o, car, car + 1, M0, V0);
        assert SlotDone(snap, car, h.marked, h.visited);
        objptr := cdr;
      }
    }
    UnvisitedSlot(snap, h.State(), o, objptr);
    FinishBut(snap, start, o, objptr, M0, V0, h.marked, h.visited);
  }

  /** The cdr is a list of one integer, as in every compiled function. */
  method IsIntNil(h: Heap, v: Val) returns (r: bool)
    requires h.Marking() && (v.Obj? ==> v.id in h.snap.live)
    ensures r ==> v.Obj?
  {
    r := false;
    if v.Obj? {
      CellShape(h.snap, h.State(), v.id);
      var d := h.objs[v.id];
      if d.kind.ConsKind? {
        var car := h.mem[d.base].val;
        r := (car.Int? || car.Raw?) && h.mem[d.base + 1].val == Obj(h.nil);
      }
    }
  }

  lemma UnvisitedSlot(h: Snapshot, st: GcState, o: nat, p: nat)
    requires Inv(h, st) && o in st.marked && SlotOf(h.objs, o, p) && p !in st.visited
    ensures MayVisit(h, st, p) && p < |h.mem| == |st.mem| && st.mem[p].val == h.mem[p].val
    ensures Target(h.mem[p].val) <= h.live
  {
  }

  lemma FinishSlots(h: Snapshot, start: nat, o: nat, M0: set<nat>, V0: set<nat>, M: set<nat>, V: set<nat>, po: set<nat>)
    requires h.Ready() && h.LiveSlot(start) && o in M && o !in M0 && o < |h.objs|
    requires Walk(h, start, M0, V0, M, V, {o}, {}, {})
    requires h.objs[o].base + h.objs[o].len <= |h.mem|
    requires SlotsDone(h, h.objs[o].base, h.objs[o].base + h.objs[o].len, M, V)
    requires po == if h.objs[o].kind.SymbolKind? && h.objs[o].next != -1 then {h.objs[o].next} else {}
    ensures po <= h.live
    ensures Walk(h, start, M0, V0, M, V, {}, {}, po)
  {
    assert V + {} == V;
    forall p: nat | SlotOf(h.objs, o, p)
      ensures SlotDone(h, p, M + po, V + {})
    {
      assert SlotDone(h, p, M, V);
    }
    FinishCell(h, start, o, M0, V0, M, V, {}, po);
  }

  lemma FinishBut(h: Snapshot, start: nat, o: nat, q: nat, M0: set<nat>, V0: set<nat>, M: set<nat>, V: set<nat>)
    requires h.Ready() && h.LiveSlot(start) && o in M && o !in M0 && o < |h.objs| && h.objs[o].kind.ConsKind?
    requires Walk(h, start, M0, V0, M, V, {o}, {}, {})
    requires SlotOf(h.objs, o, q) && q < |h.mem|
    requires forall p: nat :: SlotOf(h.objs, o, p) && p != q ==> p < |h.mem| && (h.Skipped(p) || SlotDone(h, p, M, V))
    ensures Walk(h, start, M0, V0, M, V, {}, {q}, Target(h.mem[q].val))
  {
    var po := Target(h.mem[q].val);
    assert forall t :: t in po ==> h.Edge(o, t) && t in h.live;
    forall p: nat | SlotOf(h.objs, o, p) && !h.Skipped(p)
      ensures SlotDone(h, p, M + po, V + {q})
    {
      if p != q { assert SlotDone(h, p, M, V); }
    }
    FinishCell(h, start, o, M0, V0, M, V, {q}, po);
  }

  lemma PendingSlot(h: Snapshot, st: GcState, p: nat)
    requires Inv(h, st) && MayVisit(h, st, p)
    ensures p < |st.mem| == |h.mem| && !h.mem[p].val.Raw?
    ensures h.mem[p].val.Obj? ==> h.mem[p].val.id in h.live
  {
  }

  lemma CellShape(h: Snapshot, st: GcState, o: nat)
    requires Inv(h, st) && o in h.live
    ensures o < |h.objs| && h.objs[o].base + h.objs[o].len <= |h.mem|
    ensures forall p: nat :: h.objs[o].base <= p < h.objs[o].base + h.objs[o].len ==> SlotOf(h.objs, o, p)
    ensures h.objs[o].kind.ConsKind? ==> h.objs[o].len == 2
    ensures h.objs[o].kind.SymbolKind? ==> h.objs[o].len == 4
    ensures h.objs[o].kind.SymbolKind? && h.objs[o].next != -1 ==> h.objs[o].next >= 0 && h.objs[o].next in h.live
  {
    var c := h.objs[o];
    if c.len > 0 { assert SlotOf(h.objs, o, c.base + c.len - 1); }
  }

  lemma GrowDone(h: Snapshot, p: nat, M: set<nat>, V: set<nat>, M': set<nat>, V': set<nat>)
    requires p < |h.mem| && SlotDone(h, p, M, V) && M <= M' && V <= V'
    ensures SlotDone(h, p, M', V')
  {
  }

  lemma StartWalk(h: Snapshot, st: GcState, p: nat)
    requires Inv(h, st) && MayVisit(h, st, p)
    ensures h.Ready() && h.LiveSlot(p)
    ensures Walk(h, p, st.marked, st.visited, st.marked, st.visited, {}, {p}, Target(h.mem[p].val))
    ensures SlotDone(h, p, st.marked + Target(h.mem[p].val), st.visited + {p})
    ensures Target(h.mem[p].val) <= h.live
    ensures p < |st.mem| && st.mem[p].val == h.mem[p].val
  {
    if h.mem[p].val.Obj? { ReachSelf(h, h.mem[p].val.id); }
  }
}
