// A program that runs on top of the collector: it conses, makes strings and stores references
// in its variables, and collections may happen at any time.

module GcRuns {
  import opened LispHeap
  import opened LispStore
  import opened MarkRoots
  import opened Sweep
  import opened Alloc
  import opened StringAlloc
  import opened Collect
  import opened GarbageCollection
  import opened GcVariables

  // ---- what a program can tell after a collection ----

  /** Two slots hold the same reference after a collection exactly when they did before. */
  lemma SharingKept(h: Snapshot, reloc: map<StrLoc, StrLoc>, h': Snapshot, p: nat, q: nat)
    requires Collected(h, reloc, h') && Survives(h, h'.live, p) && Survives(h, h'.live, q)
    ensures h'.mem[p].val == h'.mem[q].val <==> h.mem[p].val == h.mem[q].val
  {
    hide SameString, Reachable;
    if h.mem[p].val.Small? { assert RefersTo(h, h'.live, Small(h.mem[p].val.loc)); }
    if h.mem[q].val.Small? { assert RefersTo(h, h'.live, Small(h.mem[q].val.loc)); }
  }

  /** The string in a slot has the length and the bytes it had before. */
  lemma StringKept(h: Snapshot, reloc: map<StrLoc, StrLoc>, h': Snapshot, p: nat)
    requires Collected(h, reloc, h') && Survives(h, h'.live, p)
    ensures h.mem[p].val.Small? ==>
      h'.mem[p].val.Small? && h'.mem[p].val.loc in h'.strs && SameString(h, h.mem[p].val.loc, h', h'.mem[p].val.loc)
    ensures h.mem[p].val.Large? ==>
      && h'.mem[p].val == h.mem[p].val && h.mem[p].val.index in h'.largeLive
      && h.mem[p].val.index < |h.large| == |h'.large|
      && h'.large[h.mem[p].val.index].size == h.large[h.mem[p].val.index].size
      && h'.large[h.mem[p].val.index].chars == h.large[h.mem[p].val.index].chars
    ensures h.mem[p].val.Int? || h.mem[p].val.Obj? ==> h'.mem[p].val == h.mem[p].val
  {
    hide SameString, Reachable;
    assert RefersTo(h, h'.live, h.mem[p].val);
  }

  lemma EdgeKept(h: Snapshot, reloc: map<StrLoc, StrLoc>, h': Snapshot, o: nat, t: nat)
    requires Collected(h, reloc, h') && LayoutOk(h.objs, h.owner) && o in h'.live
    ensures h'.Edge(o, t) <==> h.Edge(o, t)
  {
    hide SameString, Reachable, RefersTo;
    forall p: nat | SlotOf(h.objs, o, p)
      ensures p < |h.mem| && (h'.mem[p].val == Obj(t) <==> h.mem[p].val == Obj(t))
    {
      assert Survives(h, h'.live, p);
    }
  }

  lemma {:induction false} ReachKept(h: Snapshot, reloc: map<StrLoc, StrLoc>, h': Snapshot, o: nat, t: nat, n: nat)
    requires Collected(h, reloc, h') && h.Sound() && o in h'.live && h.ReachIn(o, t, n)
    requires forall o, m: nat :: o in h'.live && h.Edge(o, m) ==> m in h'.live
    ensures h'.ReachIn(o, t, n)
    decreases n
  {
    hide Snapshot.Sound, Collected, Snapshot.Edge;
    if n > 0 {
      var m: nat :| h.Edge(o, m) && h.ReachIn(m, t, n - 1);
      LayoutOf(h);
      EdgeKept(h, reloc, h', o, m);
      ReachKept(h, reloc, h', m, t, n - 1);
    }
  }

  lemma RootStays(h: Snapshot, reloc: map<StrLoc, StrLoc>, h': Snapshot, p: nat)
    requires Collected(h, reloc, h') && p < |h.mem| && p < |h.owner| && h.owner[p] == -1 && h.mem[p].val.Obj?
    ensures p < |h'.mem| == |h'.owner| && h'.owner[p] == -1 && h'.mem[p].val == h.mem[p].val
  {
    assert Survives(h, h'.live, p);
  }

  lemma ReachableSteps(h: Snapshot, h': Snapshot, reloc: map<StrLoc, StrLoc>, o: nat, m: nat)
    requires Collected(h, reloc, h') && o in h'.live && h.Edge(o, m)
    ensures m in h'.live
  {
    hide SameString, Snapshot.Edge, Snapshot.ReachIn, Snapshot.Reach;
    assert Reachable(h, o);
    var p: nat :| RootReaches(h, p, o);
    ReachSelf(h, m);
    ReachStep(h, o, m, m);
    var n := Steps(h, h.mem[p].val.id, o);
    ReachTrans(h, h.mem[p].val.id, o, m, n);
    assert RootReaches(h, p, m);
  }

  /** A collection frees nothing that a program can reach, and does not make anything else reachable:
      collecting again would free no more cells. */
  lemma ReachableKept(h: Snapshot, reloc: map<StrLoc, StrLoc>, h': Snapshot, t: nat)
    requires h.Sound() && h'.Sound() && Collected(h, reloc, h')
    ensures Reachable(h', t) <==> Reachable(h, t)
  {
    hide Snapshot.Sound, SameString, Collected, Snapshot.ReachIn, Snapshot.Reach, Snapshot.Edge;
    LiveIsReachable(h, reloc, h', t);
    if Reachable(h', t) { ReachableIsLive(h', t); }
    if Reachable(h, t) {
      var p: nat :| RootReaches(h, p, t);
      var n := Steps(h, h.mem[p].val.id, t);
      ReachSelf(h, h.mem[p].val.id);
      assert RootReaches(h, p, h.mem[p].val.id);
      LiveIsReachable(h, reloc, h', h.mem[p].val.id);
      forall o, m: nat | o in h'.live && h.Edge(o, m)
        ensures m in h'.live
      {
        ReachableSteps(h, h', reloc, o, m);
      }
      ReachKept(h, reloc, h', h.mem[p].val.id, t, n);
      RootStays(h, reloc, h', p);
      ReachIs(h', h.mem[p].val.id, t, n);
      assert RootReaches(h', p, t);
    }
  }

  lemma ReachIs(h: Snapshot, o: nat, t: nat, n: nat)
    requires h.ReachIn(o, t, n)
    ensures h.Reach(o, t)
  {
  }

  lemma LiveIsReachable(h: Snapshot, reloc: map<StrLoc, StrLoc>, h': Snapshot, t: nat)
    requires Collected(h, reloc, h')
    ensures t in h'.live <==> Reachable(h, t)
  {
  }

  // ---- the start ----

  lemma StartLayout(h: Heap, statics: nat)
    requires statics > 0
    requires h.objs == [Cell(SymbolKind, 0, 4, -1)] + FreshCells(4 + statics, CONS_BLOCK_SIZE)
    requires h.owner == seq(4, _ => 0) + seq(statics, _ => -1) + FreshOwners(1, CONS_BLOCK_SIZE)
    ensures LayoutOk(h.objs, h.owner)
  {
    var first, owner0 := [Cell(SymbolKind, 0, 4, -1)], seq(4, _ => 0) + seq(statics, _ => -1);
    assert LayoutOk(first, owner0);
    LayoutGrows(first, owner0);
  }

  method Start(statics: nat) returns (h: Heap)
    requires statics > 0
    ensures fresh(h) && Valid(h) && NilFirst(h) && |h.staticvec| == statics
  {
    hide LayoutOk, CellListOk;
    h := new Heap(statics);
    StartLayout(h, statics);
    StartConses(h);
    StartSymbols(h);
    StartBlocks(h.Now());
    StartRoots(h, statics);
    assert h.Now().Sound();
    assert h.staticvec[0] == 4 && h.mem[4].val == Obj(0) && h.owner[4] == -1;
  }

  lemma StartConses(h: Heap)
    requires h.consBlocks == [1] && h.consBlockIndex == 0 && h.consFreeList == 0 && h.freeConses == [] && h.live == {0}
    requires |h.objs| == 1 + CONS_BLOCK_SIZE && h.objs[0].kind.SymbolKind?
    requires forall o: nat :: 1 <= o < |h.objs| ==> h.objs[o].kind.ConsKind?
    ensures ConsesOk(h)
  {
    assert AllocConses([], CONS_BLOCK_SIZE) == [];
    assert h.consBlocks[..0] == [];
    assert AllocConses(h.consBlocks, 0) == [];
  }

  lemma StartSymbols(h: Heap)
    requires h.symbols == [0] && h.symbolFreeList == 0 && h.freeSymbols == [] && h.live == {0}
    requires |h.objs| == 1 + CONS_BLOCK_SIZE && h.objs[0].kind.SymbolKind?
    requires forall o: nat :: 1 <= o < |h.objs| ==> h.objs[o].kind.ConsKind?
    ensures SymbolsOk(h)
  {
  }

  lemma StartBlocks(h: Snapshot)
    requires h.blocks == [Block(-1, 0, seq(STRING_BLOCK_SIZE, _ => 0))] && h.chain == [0] && h.offs == [[]]
      && h.strs == {}
    ensures h.BlocksTiled()
  {
    assert h.ChainShape();
  }

  lemma StartRoots(h: Heap, statics: nat)
    requires h.owner == seq(4, _ => 0) + seq(statics, _ => -1) + FreshOwners(1, CONS_BLOCK_SIZE)
    requires h.staticvec == seq(statics, (i: nat) => 4 + i) && h.gcprolist == []
    ensures RootsOk(h.owner, h.staticvec, h.gcprolist)
  {
    forall p: nat | p < |h.owner| && h.owner[p] == -1
      ensures p in h.staticvec
    {
      assert h.staticvec[p - 4] == p;
    }
  }

  // ---- runs ----

  /** What a program can ask for; operands are numbers of variables, the static ones first and then those
      protected by GCPRO. */
  datatype Op =
    | Cons(car: nat, cdr: nat, into: nat)
    | Car(of: nat, into: nat)
    | Cdr(of: nat, into: nat)
    | SetCar(of: nat, from: nat)
    | SetCdr(of: nat, from: nat)
    | NewString(length: int, into: nat)
    | Protect(from: nat)         // a function starts: a new variable of its own, protected by GCPRO
    | ProtectAgain(i: nat)       // a variable protected already is protected once more
    | Unprotect                  // UNGCPRO
    | Collect

  /** The heap and the roots a program can name. */
  datatype Config = Config(heap: Snapshot, statics: seq<nat>, gcpros: seq<nat>)
  {
    function Vars(): seq<nat> { statics + gcpros }

    predicate IsVar(i: nat) { i < |Vars()| && Vars()[i] < |heap.mem| }

    /** Variable 0 is Qnil, which programs do not assign to. */
    predicate Writable(i: nat) { i > 0 && IsVar(i) }

    function Value(i: nat): Val
      requires IsVar(i)
    {
      heap.mem[Vars()[i]].val
    }

    /** The variable refers to a cons. */
    predicate HoldsCons(i: nat) {
      && IsVar(i) && Value(i).Obj? && Value(i).id < |heap.objs| && heap.objs[Value(i).id].kind.ConsKind?
      && heap.objs[Value(i).id].base + 1 < |heap.mem|
    }

    /** The slot of its car. */
    function CarSlot(i: nat): nat
      requires HoldsCons(i)
    {
      heap.objs[Value(i).id].base
    }
  }

  ghost function Here(h: Heap): Config
    reads h
  {
    Config(h.Now(), h.staticvec, h.gcprolist)
  }

  /** One slot has been assigned to. */
  ghost predicate Stored(a: Config, p: nat, v: Val, b: Config) {
    p < |a.heap.mem| && b == a.(heap := a.heap.(mem := a.heap.mem[p := Word(false, v)]))
  }

  ghost predicate ConsDone(a: Config, c: nat, car: Val, cdr: Val, p: nat, b: Config) {
    exists m: Snapshot :: ConsAdded(a.heap, c, car, cdr, m) && Stored(a.(heap := m), p, Obj(c), b)
  }

  ghost predicate StringDone(a: Config, length: nat, p: nat, b: Config) {
    exists v: Val, m: Snapshot :: StringAdded(a.heap, v, length, m) && Stored(a.(heap := m), p, v, b)
  }

  ghost predicate CollectDone(a: Config, b: Config) {
    exists reloc: map<StrLoc, StrLoc> :: Collected(a.heap, reloc, b.heap) && b == a.(heap := b.heap)
  }

  ghost predicate ProtectDone(a: Config, v: Val, b: Config) {
    && b.heap == a.heap.(mem := a.heap.mem + [Word(false, v)], owner := a.heap.owner + [-1])
    && b.statics == a.statics && b.gcpros == [|a.heap.mem|] + a.gcpros
  }

  ghost predicate UnprotectDone(a: Config, b: Config)
    requires a.gcpros != []
  {
    var p := a.gcpros[0];
    && b.statics == a.statics && b.gcpros == a.gcpros[1..]
    && (if p in b.gcpros then b.heap == a.heap
        else p < |a.heap.owner| &&
             b.heap == a.heap.(objs := a.heap.objs + [Abandoned(p)], owner := a.heap.owner[p := |a.heap.objs|]))
  }

  /** What one operation does; `cell` is the cell Fcons has handed out, -1 if it was not called.  An operation
      on what is not there does nothing. */
  ghost predicate Did(op: Op, a: Config, b: Config, cell: int) {
    match op
    case Cons(car, cdr, into) =>
      if a.IsVar(car) && a.IsVar(cdr) && a.Writable(into)
      then cell >= 0 && ConsDone(a, cell, a.Value(car), a.Value(cdr), a.Vars()[into], b) && !Reachable(a.heap, cell)
      else cell == -1 && b == a
    case Car(of, into) =>
      cell == -1 && if a.HoldsCons(of) && a.Writable(into)
                    then Stored(a, a.Vars()[into], a.heap.mem[a.CarSlot(of)].val, b) else b == a
    case Cdr(of, into) =>
      cell == -1 && if a.HoldsCons(of) && a.Writable(into)
                    then Stored(a, a.Vars()[into], a.heap.mem[a.CarSlot(of) + 1].val, b) else b == a
    case SetCar(of, from) =>
      cell == -1 && if a.HoldsCons(of) && a.IsVar(from) then Stored(a, a.CarSlot(of), a.Value(from), b) else b == a
    case SetCdr(of, from) =>
      cell == -1 && if a.HoldsCons(of) && a.IsVar(from) then Stored(a, a.CarSlot(of) + 1, a.Value(from), b) else b == a
    case NewString(length, into) =>
      cell == -1 && if length >= 0 && a.Writable(into) then StringDone(a, length, a.Vars()[into], b) else b == a
    case Protect(from) => cell == -1 && if a.IsVar(from) then ProtectDone(a, a.Value(from), b) else b == a
    case ProtectAgain(i) =>
      cell == -1 && b == if i < |a.gcpros| then a.(gcpros := [a.gcpros[i]] + a.gcpros) else a
    case Unprotect => cell == -1 && if a.gcpros != [] then UnprotectDone(a, b) else b == a
    case Collect => cell == -1 && CollectDone(a, b)
  }

  /** Every variable is a root that holds a valid reference, and only variable 0 is Qnil. */
  lemma VariableOk(h: Heap, i: nat)
    requires Valid(h) && NilFirst(h) && i < |Here(h).Vars()|
    ensures Here(h).IsVar(i) && h.Now().LiveSlot(Here(h).Vars()[i]) && h.Now().ValOk(Here(h).Value(i))
    ensures i > 0 ==> Here(h).Vars()[i] != h.staticvec[0]
  {
    hide Snapshot.BlocksTiled, CellListOk, VectorsOk, ConsBlocksOk, LayoutOk;
    var p := Here(h).Vars()[i];
    if i < |h.staticvec| { assert p == h.staticvec[i]; } else { assert p == h.gcprolist[i - |h.staticvec|]; }
    assert h.Now().LiveSlot(p);
  }

  lemma FieldOk(h: Heap, c: nat)
    requires Valid(h) && NilFirst(h) && c in h.live
    ensures c < |h.objs|
    ensures h.objs[c].kind.ConsKind? ==> var b := h.objs[c].base;
      b + 1 < |h.mem| && h.Now().LiveSlot(b) && h.Now().LiveSlot(b + 1) && h.Now().ValOk(h.mem[b].val)
        && h.Now().ValOk(h.mem[b + 1].val)
    ensures h.objs[c].kind.ConsKind? ==> h.staticvec[0] != h.objs[c].base && h.staticvec[0] != h.objs[c].base + 1
  {
    hide Snapshot.BlocksTiled, CellListOk, VectorsOk, ConsBlocksOk;
    if h.objs[c].kind.ConsKind? {
      ConsSlots(h.Now(), c);
      FirstRoot(h);
      assert h.Now().LiveSlot(h.objs[c].base) && h.Now().LiveSlot(h.objs[c].base + 1);
    }
  }

  /** The slot of a variable. */
  method SlotOfVar(h: Heap, i: nat) returns (found: bool, p: nat)
    requires Valid(h) && NilFirst(h)
    ensures found == (i < |Here(h).Vars()|) == Here(h).IsVar(i) && (found ==> p == Here(h).Vars()[i])
    ensures found ==>
      p < |h.mem| && h.Now().LiveSlot(p) && h.Now().ValOk(h.mem[p].val) && (i > 0 ==> p != h.staticvec[0])
  {
    hide Valid, Snapshot.LiveSlot, Snapshot.ValOk;
    if i < |Here(h).Vars()| { VariableOk(h, i); }
    if i < |h.staticvec| {
      return true, h.staticvec[i];
    } else if i - |h.staticvec| < |h.gcprolist| {
      return true, h.gcprolist[i - |h.staticvec|];
    } else {
      return false, 0;
    }
  }

  /** The cons a variable refers to, if it refers to one. */
  method ConsIn(h: Heap, i: nat) returns (found: bool, c: nat)
    requires Valid(h) && NilFirst(h)
    ensures found == Here(h).HoldsCons(i)
    ensures found ==> c in h.live && c < |h.objs| && h.objs[c].kind.ConsKind? && h.objs[c].base == Here(h).CarSlot(i)
  {
    hide Valid, Snapshot.Sound, Snapshot.LiveSlot, NilFirst;
    var known, p := SlotOfVar(h, i);
    if !known { return false, 0; }
    var v := h.mem[p].val;
    if !v.Obj? { return false, 0; }
    FieldOk(h, v.id);
    return h.objs[v.id].kind.ConsKind?, v.id;
  }

  lemma NilStaysFirst(h: Snapshot, reloc: map<StrLoc, StrLoc>, h': Snapshot, p: nat)
    requires Collected(h, reloc, h') && p < |h.owner| && h.owner[p] == -1 && h.mem[p].val == Obj(h.nil)
    ensures p < |h'.mem| && h'.mem[p].val == Obj(h'.nil)
  {
    RootStays(h, reloc, h', p);
  }

  lemma ConsKeepsSlot(h: Snapshot, c: nat, car: Val, cdr: Val, h': Snapshot, p: nat)
    requires ConsAdded(h, c, car, cdr, h') && h.LiveSlot(p)
    ensures c in h'.live && h'.ValOk(Obj(c)) && p < |h'.mem| && h'.mem[p] == h.mem[p] && h'.nil == h.nil
  {
  }

  lemma StringKeepsSlots(h: Snapshot, v: Val, length: nat, h': Snapshot)
    requires StringAdded(h, v, length, h')
    ensures h'.mem == h.mem && h'.nil == h.nil && h'.ValOk(v)
  {
  }

  method ConsStep(h: Heap, op: Op, junk: seq<Word>) returns (ghost cell: int)
    requires Valid(h) && NilFirst(h) && op.Cons? && |junk| == 2 * CONS_BLOCK_SIZE
    modifies h
    ensures Valid(h) && NilFirst(h) && Did(op, old(Here(h)), Here(h), cell)
  {
    hide Valid, Snapshot.Sound, Snapshot.LiveSlot, Snapshot.ValOk, ConsAdded, Reachable;
    var ok1, p1 := SlotOfVar(h, op.car);
    var ok2, p2 := SlotOfVar(h, op.cdr);
    var ok3, p3 := SlotOfVar(h, op.into);
    if !ok1 || !ok2 || !ok3 || op.into == 0 { return -1; }
    VariableOk(h, 0);
    ghost var a := Here(h);
    var car, cdr := h.mem[p1].val, h.mem[p2].val;
    var c := Fcons(h, car, cdr, junk);
    ConsKeepsSlot(a.heap, c, car, cdr, h.Now(), h.staticvec[0]);
    VariableOk(h, op.into);
    ghost var m := h.Now();
    Assign(h, p3, Obj(c));
    assert Stored(a.(heap := m), p3, Obj(c), Here(h));
    return c;
  }

  method FieldStep(h: Heap, op: Op)
    requires Valid(h) && NilFirst(h) && (op.Car? || op.Cdr? || op.SetCar? || op.SetCdr?)
    modifies h`mem
    ensures Valid(h) && NilFirst(h) && Did(op, old(Here(h)), Here(h), -1)
  {
    hide Valid, Snapshot.Sound, Snapshot.LiveSlot, Snapshot.ValOk, NilFirst;
    var found, c := ConsIn(h, op.of);
    if !found { return; }
    FieldOk(h, c);
    match op
    case Car(of, into) =>
      var known, p := SlotOfVar(h, into);
      if known && into > 0 { Assign(h, p, h.mem[h.objs[c].base].val); }
    case Cdr(of, into) =>
      var known, p := SlotOfVar(h, into);
      if known && into > 0 { Assign(h, p, h.mem[h.objs[c].base + 1].val); }
    case SetCar(of, from) =>
      var known, p := SlotOfVar(h, from);
      if known { Assign(h, h.objs[c].base, h.mem[p].val); }
    case SetCdr(of, from) =>
      var known, p := SlotOfVar(h, from);
      if known { Assign(h, h.objs[c].base + 1, h.mem[p].val); }
  }

  method StringStep(h: Heap, length: int, into: nat, bytes: seq<nat>)
    requires Valid(h) && NilFirst(h) && |bytes| >= STRING_BLOCK_SIZE && |bytes| > length
    modifies h
    ensures Valid(h) && NilFirst(h) && Did(NewString(length, into), old(Here(h)), Here(h), -1)
  {
    hide Valid, Snapshot.Sound, Snapshot.LiveSlot, Snapshot.ValOk, StringAdded;
    var known, p := SlotOfVar(h, into);
    if !known || into == 0 { return; }
    ghost var a := Here(h);
    var r := MakeUninitString(h, length, bytes);
    match r
    case Aborted =>
    case Made(v) =>
      StringKeepsSlots(a.heap, v, length, h.Now());
      VariableOk(h, into);
      ghost var m := h.Now();
      Assign(h, p, v);
      assert Stored(a.(heap := m), p, v, Here(h));
  }

  method CollectStep(h: Heap)
    requires Valid(h) && NilFirst(h)
    modifies h
    ensures Valid(h) && NilFirst(h) && Did(Collect, old(Here(h)), Here(h), -1)
  {
    hide Valid, Snapshot.Sound, Snapshot.LiveSlot, Snapshot.ValOk, Collected;
    ghost var h0 := h.Now();
    FirstRoot(h);
    ghost var reloc := GarbageCollect(h);
    NilStaysFirst(h0, reloc, h.Now(), h.staticvec[0]);
  }

  method ProtectStep(h: Heap, op: Op)
    requires Valid(h) && NilFirst(h) && (op.Protect? || op.ProtectAgain? || op.Unprotect?)
    modifies h`mem, h`owner, h`gcprolist, h`objs, h`vflag
    ensures Valid(h) && NilFirst(h) && Did(op, old(Here(h)), Here(h), -1)
  {
    hide Valid, Snapshot.Sound, Snapshot.LiveSlot, Snapshot.ValOk, NilFirst;
    match op
    case Protect(from) =>
      var known, p := SlotOfVar(h, from);
      if known { Gcpro(h, h.mem[p].val); }
    case ProtectAgain(i) =>
      if i < |h.gcprolist| { GcproAgain(h, h.gcprolist[i]); }
    case Unprotect =>
      if h.gcprolist != [] { Ungcpro(h); }
  }

  method DoOp(h: Heap, op: Op, junk: seq<Word>, bytes: seq<nat>) returns (ghost cell: int)
    requires Valid(h) && NilFirst(h) && |junk| == 2 * CONS_BLOCK_SIZE && |bytes| >= STRING_BLOCK_SIZE
    requires op.NewString? ==> op.length < |bytes|
    modifies h
    ensures Valid(h) && NilFirst(h) && Did(op, old(Here(h)), Here(h), cell)
  {
    hide Valid, NilFirst, Did;
    cell := -1;
    match op {
      case Cons(_, _, _) => cell := ConsStep(h, op, junk);
      case NewString(length, into) => StringStep(h, length, into, bytes);
      case Collect => CollectStep(h);
      case Protect(_) => ProtectStep(h, op);
      case ProtectAgain(_) => ProtectStep(h, op);
      case Unprotect => ProtectStep(h, op);
      case Car(_, _) => FieldStep(h, op);
      case Cdr(_, _) => FieldStep(h, op);
      case SetCar(_, _) => FieldStep(h, op);
      case SetCdr(_, _) => FieldStep(h, op);
    }
  }

  /** However a program conses, stores, protects variables and collects: `trace` lists the configurations it
      goes through, each the outcome of the operation between them, and `cells` what Fcons has handed out.  The
      heap stays in order, and no cell that was handed out could still be reached just before. */
  method Run(h: Heap, ops: seq<Op>, junk: seq<Word>, bytes: seq<nat>)
    returns (ghost trace: seq<Config>, ghost cells: seq<int>)
    requires Valid(h) && NilFirst(h) && |junk| == 2 * CONS_BLOCK_SIZE && |bytes| >= STRING_BLOCK_SIZE
    requires forall op :: op in ops && op.NewString? ==> op.length < |bytes|
    modifies h
    ensures Valid(h) && NilFirst(h)
    ensures |trace| == |ops| + 1 && |cells| == |ops| && trace[0] == old(Here(h)) && trace[|ops|] == Here(h)
    ensures forall i: nat :: i < |ops| ==> Did(ops[i], trace[i], trace[i + 1], cells[i])
    ensures forall i: nat :: i < |ops| && cells[i] >= 0 ==> ops[i].Cons? && !Reachable(trace[i].heap, cells[i])
    ensures forall i: nat :: i <= |ops| ==> trace[i].heap.Sound()
  {
    hide Valid, NilFirst, Did, Reachable, Snapshot.Sound;
    trace, cells := [Here(h)], [];
    ValidSound(h);
    var i := 0;
    while i < |ops|
      invariant i <= |ops| && Valid(h) && NilFirst(h)
      invariant |trace| == i + 1 && |cells| == i && trace[0] == old(Here(h)) && trace[i] == Here(h)
      invariant forall k: nat :: k < i ==> Did(ops[k], trace[k], trace[k + 1], cells[k])
      invariant forall k: nat :: k < i && cells[k] >= 0 ==> ops[k].Cons? && !Reachable(trace[k].heap, cells[k])
      invariant forall k: nat :: k <= i ==> trace[k].heap.Sound()
    {
      assert ops[i] in ops;
      ghost var cell := DoOp(h, ops[i], junk, bytes);
      ValidSound(h);
      if cell >= 0 { HandedOut(ops[i], trace[i], Here(h), cell); }
      trace, cells := trace + [Here(h)], cells + [cell];
      i := i + 1;
    }
  }

  lemma HandedOut(op: Op, a: Config, b: Config, cell: int)
    requires Did(op, a, b, cell) && cell >= 0
    ensures op.Cons? && !Reachable(a.heap, cell)
  {
  }
}
