// The allocator's global variables, gathered in one object.

module LispStore {
  import opened LispHeap
  import opened MarkState

  class Heap {
    var mem: seq<Word>                 // every Lisp_Object variable
    var objs: seq<Cell>
    var vflag: seq<bool>               // ARRAY_MARK_FLAG of the vectors' size fields
    var blocks: seq<Block>             // string blocks by identity; a chain links them
    var firstStringBlock: nat
    var currentStringBlock: nat
    var large: seq<LargeString>
    var largeStringBlocks: seq<nat>    // the chain of large strings, newest first
    var consBlocks: seq<nat>           // first cell of every cons block, oldest first
    var consBlockIndex: nat
    var consFreeList: nat              // 0, or 1 + the first free cell
    var symbols: seq<nat>              // allocated symbol cells, in sweep order
    var symbolFreeList: nat
    var allVectors: seq<nat>           // the chain of vectors
    var staticvec: seq<nat>            // root slots registered by staticpro
    var gcprolist: seq<nat>            // root slots protected by GCPRO; repeats are allowed
    var nil: nat                       // Qnil
    var totalStringSize: nat
    var totalConses: nat
    var totalFreeConses: nat

    ghost var owner: seq<int>
    ghost var freed: set<nat>          // string blocks given back with free
    ghost var strs: set<StrLoc>
    ghost var blockChain: seq<nat>     // the string blocks in chain order
    ghost var offs: seq<seq<nat>>      // per block of the chain, where its strings start
    ghost var freeConses: seq<nat>     // the cells on the free lists
    ghost var freeSymbols: seq<nat>
    ghost var live: set<nat>

    // The collection in progress.
    ghost var snap: Snapshot
    ghost var marked: set<nat>
    ghost var visited: set<nat>
    ghost var chains: map<StrLoc, seq<nat>>
    ghost var rootmarks: set<nat>

    /** The state after initialization: one empty cons block, one empty string block, and the symbol nil,
        which a static variable (slot 4) holds.  Its name is left out. */
    constructor (statics: nat)
      requires statics > 0
      ensures mem == seq(4, _ => Word(false, Int(0))) + seq(statics, _ => Word(false, Obj(0)))
                     + seq(2 * CONS_BLOCK_SIZE, _ => Word(false, Int(0)))
      ensures objs == [Cell(SymbolKind, 0, 4, -1)] + FreshCells(4 + statics, CONS_BLOCK_SIZE)
      ensures owner == seq(4, _ => 0) + seq(statics, _ => -1) + FreshOwners(1, CONS_BLOCK_SIZE)
      ensures vflag == seq(1 + CONS_BLOCK_SIZE, _ => false)
      ensures blocks == [Block(-1, 0, seq(STRING_BLOCK_SIZE, _ => 0))] && firstStringBlock == currentStringBlock == 0
      ensures large == [] && largeStringBlocks == [] && consBlocks == [1] && consBlockIndex == 0 && consFreeList == 0
      ensures symbols == [0] && symbolFreeList == 0 && allVectors == [] && gcprolist == [] && nil == 0
      ensures staticvec == seq(statics, (i: nat) => 4 + i)
      ensures freed == {} && strs == {} && blockChain == [0] && offs == [[]] && freeConses == [] && freeSymbols == []
        && live == {0}
    {
      mem := seq(4, _ => Word(false, Int(0))) + seq(statics, _ => Word(false, Obj(0)))
             + seq(2 * CONS_BLOCK_SIZE, _ => Word(false, Int(0)));
      objs := [Cell(SymbolKind, 0, 4, -1)] + FreshCells(4 + statics, CONS_BLOCK_SIZE);
      owner := seq(4, _ => 0) + seq(statics, _ => -1) + FreshOwners(1, CONS_BLOCK_SIZE);
      vflag := seq(1 + CONS_BLOCK_SIZE, _ => false);
      blocks := [Block(-1, 0, seq(STRING_BLOCK_SIZE, _ => 0))];
      firstStringBlock, currentStringBlock := 0, 0;
      large, largeStringBlocks := [], [];
      consBlocks, consBlockIndex, consFreeList := [1], 0, 0;
      symbols, symbolFreeList, allVectors, gcprolist, nil := [0], 0, [], [], 0;
      staticvec := seq(statics, (i: nat) => 4 + i);
      totalStringSize, totalConses, totalFreeConses := 0, 0, 0;
      freed, strs, blockChain, offs, freeConses, freeSymbols, live := {}, {}, [0], [[]], [], [], {0};
    }

    ghost function Now(): Snapshot
      reads this
    {
      Snapshot(mem, objs, owner, blocks, strs, blockChain, offs, large, (set k | k in largeStringBlocks), live, nil)
    }

    ghost function State(): GcState
      reads this
    {
      GcState(mem, blocks, vflag, large, marked, visited, chains, rootmarks)
    }

    ghost predicate Marking()
      reads this
    {
      Inv(snap, State()) && objs == snap.objs && nil == snap.nil
    }
  }
}
