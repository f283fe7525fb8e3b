// Marking from the roots: what is marked in the end is exactly what can be reached from them.

module MarkRoots {
  import opened LispHeap
  import opened MarkState
  import opened LispStore
  import opened MarkObjects

  /** staticpro registers a slot once; a GCPRO slot may be registered many times. */
  ghost predicate RootsOk(owner: seq<int>, statics: seq<nat>, gcpros: seq<nat>) {
    && (forall i: nat :: i < |statics| ==> statics[i] < |owner| && owner[statics[i]] == -1)
    && NoDup(statics)
    && (forall i: nat :: i < |gcpros| ==> gcpros[i] < |owner| && owner[gcpros[i]] == -1 && gcpros[i] !in statics)
    && (forall p: nat :: p < |owner| && owner[p] == -1 ==> p in statics || p in gcpros)
  }

  ghost predicate RootReaches(h: Snapshot, p: nat, t: nat) {
    p < |h.mem| && |h.owner| == |h.mem| && h.owner[p] == -1 && h.ReachFrom(h.mem[p].val, t)
  }

  /** The roots in R have been marked from, and no others have been visited. */
  ghost predicate RootsDone(h: Snapshot, st: GcState, R: set<nat>)
    requires h.Ready()
  {
    && (forall p: nat :: p in R ==> h.LiveSlot(p) && h.owner[p] == -1 && SlotDone(h, p, st.marked, st.visited))
    && (forall o: nat :: o in st.marked ==> o < |h.objs| && Done(h, o, st.marked, st.visited))
    && (forall t: nat :: t in st.marked ==> exists p: nat :: p in R && RootReaches(h, p, t))
    && (forall p: nat :: p in st.visited ==> p < |h.mem| && (h.owner[p] == -1 ==> p in R))
  }

  lemma WalkSettled(h: Snapshot, p: nat, M: set<nat>, V: set<nat>, M': set<nat>, V': set<nat>)
    requires h.Ready() && h.LiveSlot(p) && Walk(h, p, M, V, M', V', {}, {}, {})
    requires forall o: nat :: o in h.live ==> o < |h.objs|
    ensures M <= M' <= h.live && V <= V'
    ensures forall o: nat :: o in M' && o !in M ==> o < |h.objs| && Done(h, o, M', V')
    ensures forall t: nat :: t in M' && t !in M ==> h.ReachFrom(h.mem[p].val, t)
    ensures forall q: nat :: q in V' && q !in V ==> q < |h.mem| == |h.owner| && (h.owner[q] == -1 ==> q == p)
  {
    hide Snapshot.Ready, Done;
    assert M' + {} == M' && V' + {} == V';
  }

  lemma RootStep(h: Snapshot, st: GcState, st': GcState, R: set<nat>, p: nat)
    requires h.Ready() && RootsDone(h, st, R) && h.LiveSlot(p) && h.owner[p] == -1
    requires Walk(h, p, st.marked, st.visited, st'.marked, st'.visited, {}, {}, {})
    requires SlotDone(h, p, st'.marked, st'.visited)
    requires forall o: nat :: o in h.live ==> o < |h.objs|
    ensures RootsDone(h, st', R + {p})
  {
    hide Snapshot.Ready, Walk, Done, SlotDone, RootReaches, Snapshot.ReachFrom;
    var M, V, M', V' := st.marked, st.visited, st'.marked, st'.visited;
    WalkSettled(h, p, M, V, M', V');
    forall o: nat | o in M'
      ensures o < |h.objs| && Done(h, o, M', V')
    {
      if o in M { DoneGrows(h, o, M, V, M', V'); }
    }
    forall t: nat | t in M'
      ensures exists q: nat :: q in R + {p} && RootReaches(h, q, t)
    {
      RootFor(h, M, M', R, p, t);
    }
    forall q: nat | q in R + {p}
      ensures h.LiveSlot(q) && h.owner[q] == -1 && SlotDone(h, q, M', V')
    {
      if q != p { GrowDone(h, q, M, V, M', V'); }
    }
  }

  lemma RootFor(h: Snapshot, M: set<nat>, M': set<nat>, R: set<nat>, p: nat, t: nat)
    requires h.Ready() && h.LiveSlot(p) && h.owner[p] == -1 && t in M'
    requires forall t: nat :: t in M ==> exists q: nat :: q in R && RootReaches(h, q, t)
    requires forall t: nat :: t in M' && t !in M ==> h.ReachFrom(h.mem[p].val, t)
    ensures exists q: nat :: q in R + {p} && RootReaches(h, q, t)
  {
    hide Snapshot.Ready, RootReaches, Snapshot.ReachFrom;
    if t in M {
      var q: nat :| q in R && RootReaches(h, q, t);
      assert q in R + {p};
    } else {
      RootReachesNow(h, p, t);
      assert p in R + {p};
    }
  }

  lemma RootReachesNow(h: Snapshot, p: nat, t: nat)
    requires h.Ready() && h.LiveSlot(p) && h.owner[p] == -1 && h.ReachFrom(h.mem[p].val, t)
    ensures RootReaches(h, p, t)
  {
  }

  lemma DoneGrows(h: Snapshot, o: nat, M: set<nat>, V: set<nat>, M': set<nat>, V': set<nat>)
    requires h.Ready() && o < |h.objs| && Done(h, o, M, V) && M <= M' && V <= V'
    ensures Done(h, o, M', V')
  {
    forall p: nat | SlotOf(h.objs, o, p) && !h.Skipped(p)
      ensures SlotDone(h, p, M', V')
    {
      assert SlotDone(h, p, M, V);
    }
  }

  /** Setting the mark bit of a GCPRO slot. */
  lemma MarkRootSlot(h: Snapshot, st: GcState, p: nat, st': GcState)
    requires Inv(h, st) && h.LiveSlot(p) && h.owner[p] == -1
    requires st' == st.(mem := st.mem[p := st.mem[p].(mark := true)], rootmarks := st.rootmarks + {p})
    ensures Inv(h, st')
  {
    assert ShapeOk(h, st');
    ChainsFrame(h, st, st');
  }

  method MarkFrom(h: Heap, p: nat, ghost R: set<nat>)
    requires h.Marking() && RootsDone(h.snap, h.State(), R)
    requires h.snap.LiveSlot(p) && h.snap.owner[p] == -1 && p !in R
    modifies h`mem, h`blocks, h`vflag, h`large, h`marked, h`visited, h`chains
    ensures h.Marking() && RootsDone(h.snap, h.State(), R + {p})
  {
    hide Inv, Snapshot.Ready, Walk, SlotDone, Done, RootReaches;
    ghost var st := h.State();
    MarkedLive(h.snap, st);
    RootMayVisit(h.snap, st, p, R);
    MarkObject(h, p);
    RootStep(h.snap, st, h.State(), R, p);
  }

  lemma RootMayVisit(h: Snapshot, st: GcState, p: nat, R: set<nat>)
    requires Inv(h, st) && RootsDone(h, st, R) && h.LiveSlot(p) && h.owner[p] == -1 && p !in R
    ensures MayVisit(h, st, p)
  {
  }

  ghost function Slots(s: seq<nat>): set<nat> { set p | p in s }

  lemma SlotsSnoc(s: seq<nat>, i: nat)
    requires i < |s|
    ensures Slots(s[..i + 1]) == Slots(s[..i]) + {s[i]}
  {
    assert s[..i + 1] == s[..i] + [s[i]];
  }

  method MarkStatics(h: Heap)
    requires h.Marking() && h.marked == {} && h.visited == {} && h.rootmarks == {}
    requires RootsOk(h.snap.owner, h.staticvec, h.gcprolist)
    modifies h`mem, h`blocks, h`vflag, h`large, h`marked, h`visited, h`chains
    ensures h.Marking() && RootsDone(h.snap, h.State(), Slots(h.staticvec))
  {
    hide Inv, Snapshot.Ready, Walk, SlotDone, Done, RootReaches, RootsDone, Slots;
    ghost var snap := h.snap;
    MarkedLive(snap, h.State());
    NothingDone(snap, h.State());
    NoSlots(h.staticvec);
    var i := 0;
    while i < |h.staticvec|
      invariant h.Marking() && h.snap == snap && h.rootmarks == {}
      invariant i <= |h.staticvec|
      invariant RootsDone(snap, h.State(), Slots(h.staticvec[..i]))
    {
      RootSlotLive(snap, h.State(), h.staticvec[i]);
      NotYet(h.staticvec, i);
      MarkFrom(h, h.staticvec[i], Slots(h.staticvec[..i]));
      SlotsSnoc(h.staticvec, i);
      i := i + 1;
    }
    assert h.staticvec[..i] == h.staticvec;
  }

  lemma NoSlots(s: seq<nat>)
    ensures Slots(s[..0]) == {}
  {
  }

  lemma NotYet(s: seq<nat>, i: nat)
    requires NoDup(s) && i < |s|
    ensures s[i] !in Slots(s[..i])
  {
  }

  /** Slots protected by GCPRO may be listed repeatedly: the mark bit of the slot tells. */
  method MarkGcpros(h: Heap)
    requires h.Marking() && h.rootmarks == {} && RootsDone(h.snap, h.State(), Slots(h.staticvec))
    requires RootsOk(h.snap.owner, h.staticvec, h.gcprolist)
    modifies h`mem, h`blocks, h`vflag, h`large, h`marked, h`visited, h`chains, h`rootmarks
    ensures h.Marking() && RootsDone(h.snap, h.State(), Slots(h.staticvec) + h.rootmarks)
    ensures h.rootmarks == Slots(h.gcprolist)
  {
    hide Inv, Snapshot.Ready, Walk, SlotDone, Done, RootReaches, RootsDone, Slots;
    ghost var snap, R0 := h.snap, Slots(h.staticvec);
    MarkedLive(snap, h.State());
    NoSlots(h.gcprolist);
    assert R0 + {} == R0;
    var i := 0;
    while i < |h.gcprolist|
      invariant snap.Ready() && h.Marking() && h.snap == snap && i <= |h.gcprolist|
      invariant h.rootmarks == Slots(h.gcprolist[..i])
      invariant RootsDone(snap, h.State(), R0 + h.rootmarks)
    {
      GcproRoots(snap.owner, h.staticvec, h.gcprolist, i);
      MarkGcpro(h, h.gcprolist[i], R0);
      SlotsSnoc(h.gcprolist, i);
      i := i + 1;
    }
    assert h.gcprolist[..i] == h.gcprolist;
  }

  method MarkGcpro(h: Heap, p: nat, ghost R0: set<nat>)
    requires h.Marking() && RootsDone(h.snap, h.State(), R0 + h.rootmarks)
    requires p < |h.snap.owner| && h.snap.owner[p] == -1 && p !in R0
    modifies h`mem, h`blocks, h`vflag, h`large, h`marked, h`visited, h`chains, h`rootmarks
    ensures h.Marking() && RootsDone(h.snap, h.State(), R0 + h.rootmarks)
    ensures h.rootmarks == old(h.rootmarks) + {p}
  {
    hide Inv, Snapshot.Ready, Walk, SlotDone, Done, RootReaches, RootsDone;
    ghost var R := R0 + h.rootmarks;
    RootSlotLive(h.snap, h.State(), p);
    RootMarkMeans(h.snap, h.State(), p);
    if h.mem[p].mark {
      assert h.rootmarks + {p} == h.rootmarks;
    } else {
      MarkFrom(h, p, R);
      ghost var st := h.State();
      RootSlotLive(h.snap, st, p);
      h.mem := h.mem[p := h.mem[p].(mark := true)];
      h.rootmarks := h.rootmarks + {p};
      MarkRootSlot(h.snap, st, p, h.State());
      SameDone(h.snap, st, h.State(), R + {p});
      assert R + {p} == R0 + h.rootmarks;
    }
  }

  lemma AllRoots(h: Snapshot, statics: seq<nat>, gcpros: seq<nat>)
    requires RootsOk(h.owner, statics, gcpros)
    ensures Slots(statics) + Slots(gcpros) == Roots(h)
    ensures forall p :: p in Slots(gcpros) ==> p in gcpros
  {
  }

  lemma GcproRoots(owner: seq<int>, statics: seq<nat>, gcpros: seq<nat>, i: nat)
    requires RootsOk(owner, statics, gcpros) && i < |gcpros|
    ensures gcpros[i] < |owner| && owner[gcpros[i]] == -1 && gcpros[i] !in Slots(statics)
  {
  }

  method MarkAllRoots(h: Heap)
    requires h.Marking() && h.marked == {} && h.visited == {} && h.rootmarks == {}
    requires RootsOk(h.snap.owner, h.staticvec, h.gcprolist)
    modifies h`mem, h`blocks, h`vflag, h`large, h`marked, h`visited, h`chains, h`rootmarks
    ensures h.Marking() && RootsDone(h.snap, h.State(), Roots(h.snap))
    ensures forall p :: p in h.rootmarks ==> p in h.gcprolist
  {
    hide Inv, Snapshot.Ready, RootsDone, RootsOk, Slots, Roots;
    MarkStatics(h);
    MarkGcpros(h);
    AllRoots(h.snap, h.staticvec, h.gcprolist);
  }

  lemma NothingDone(h: Snapshot, st: GcState)
    requires h.Ready() && st.marked == {} && st.visited == {}
    ensures RootsDone(h, st, {})
  {
  }

  lemma SameDone(h: Snapshot, st: GcState, st': GcState, R: set<nat>)
    requires h.Ready() && RootsDone(h, st, R) && st'.marked == st.marked && st'.visited == st.visited
    ensures RootsDone(h, st', R)
  {
  }

  lemma RootSlotLive(h: Snapshot, st: GcState, p: nat)
    requires Inv(h, st) && p < |h.owner| && h.owner[p] == -1
    ensures h.LiveSlot(p) && p < |st.mem| == |h.mem|
  {
  }

  lemma RootMarkMeans(h: Snapshot, st: GcState, p: nat)
    requires Inv(h, st) && p < |h.owner| && h.owner[p] == -1
    ensures p < |st.mem|
    ensures st.mem[p].mark <==> p in st.rootmarks
  {
    assert h.LiveSlot(p);
  }

  ghost function Roots(h: Snapshot): set<nat> { set p: nat | p < |h.owner| && h.owner[p] == -1 }

  /** Qnil is registered by staticpro, so some root holds nil. */
  ghost predicate NilIsRoot(h: Snapshot) {
    |h.owner| == |h.mem| && exists p: nat :: p < |h.mem| && h.owner[p] == -1 && h.mem[p].val == Obj(h.nil)
  }

  lemma EdgeFromMarked(h: Snapshot, st: GcState, o: nat, t: nat)
    requires h.Ready() && RootsDone(h, st, Roots(h)) && h.nil in st.marked
    requires o in st.marked && h.Edge(o, t)
    ensures t in st.marked
  {
    assert Done(h, o, st.marked, st.visited);
    if exists p: nat :: SlotOf(h.objs, o, p) && p < |h.mem| && h.mem[p].val == Obj(t) {
      var p: nat :| SlotOf(h.objs, o, p) && p < |h.mem| && h.mem[p].val == Obj(t);
      if !h.Skipped(p) {
        assert SlotDone(h, p, st.marked, st.visited);
      }
    }
  }

  lemma {:induction false} ReachFromMarked(h: Snapshot, st: GcState, o: nat, t: nat, n: nat)
    requires h.Ready() && RootsDone(h, st, Roots(h)) && h.nil in st.marked
    requires o in st.marked && h.ReachIn(o, t, n)
    ensures t in st.marked
    decreases n
  {
    hide Snapshot.Ready, RootsDone, Snapshot.Edge;
    if n > 0 {
      var m: nat :| h.Edge(o, m) && h.ReachIn(m, t, n - 1);
      EdgeFromMarked(h, st, o, m);
      ReachFromMarked(h, st, m, t, n - 1);
    }
  }

  /** Marking is exact: the marked cells are the cells reachable from the roots, although a nil cdr
      is never followed. */
  lemma MarkedIsReachable(h: Snapshot, st: GcState)
    requires h.Ready() && RootsDone(h, st, Roots(h)) && NilIsRoot(h)
    ensures h.nil in st.marked
    ensures forall t: nat :: t in st.marked <==> exists p: nat :: RootReaches(h, p, t)
  {
    hide Snapshot.Ready, SlotDone, Snapshot.Reach, Snapshot.ReachIn;
    var r: nat :| r < |h.mem| && h.owner[r] == -1 && h.mem[r].val == Obj(h.nil);
    RootTarget(h, st, r);
    forall t: nat | exists p: nat :: RootReaches(h, p, t)
      ensures t in st.marked
    {
      var p: nat :| RootReaches(h, p, t);
      RootTarget(h, st, p);
      var o := h.mem[p].val.id;
      var n := Steps(h, o, t);
      ReachFromMarked(h, st, o, t, n);
    }
  }

  lemma RootTarget(h: Snapshot, st: GcState, p: nat)
    requires h.Ready() && RootsDone(h, st, Roots(h)) && p < |h.mem| == |h.owner| && h.owner[p] == -1
      && h.mem[p].val.Obj?
    ensures h.mem[p].val.id in st.marked
  {
    assert p in Roots(h);
    assert SlotDone(h, p, st.marked, st.visited);
  }

  lemma Steps(h: Snapshot, o: nat, t: nat) returns (n: nat)
    requires h.Reach(o, t)
    ensures h.ReachIn(o, t, n)
  {
    n :| h.ReachIn(o, t, n);
  }
}
