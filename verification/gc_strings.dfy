// make_uninit_string: carves a string out of the current block, gives it a block of its own, or starts
// a new current block.

module StringAlloc {
  import opened LispHeap
  import opened MarkState
  import opened LispStore
  import opened MarkRoots
  import opened Compaction
  import opened BlockChain
  import opened Sweep
  import opened Alloc

  datatype MaybeVal = Aborted | Made(val: Val)

  /** String s of heap h and string t of heap h' have the same length and bytes, and both end in their NUL. */
  ghost predicate SameString(h: Snapshot, s: StrLoc, h': Snapshot, t: StrLoc) {
    && s.block < |h.blocks| && s.offset < |h.blocks[s.block].chars|
    && t.block < |h'.blocks| && t.offset < |h'.blocks[t.block].chars|
    && h'.Size(t) == h.Size(s)
    && s.offset + FullSize(h.Size(s)) <= |h.blocks[s.block].chars|
    && t.offset + FullSize(h.Size(s)) <= |h'.blocks[t.block].chars|
    && Text(h'.blocks[t.block].chars, t.offset, h.Size(s)) == Text(h.blocks[s.block].chars, s.offset, h.Size(s))
  }

  /** A small string of this length lies inside its block and ends in NUL. */
  ghost predicate SmallMade(h: Snapshot, s: StrLoc, length: nat) {
    && s in h.strs && s.block < |h.blocks| && s.offset + FullSize(length) <= |h.blocks[s.block].chars|
    && h.Size(s) == length
    && h.blocks[s.block].chars[s.offset + WORD + length] == 0
  }

  ghost predicate LargeMade(h: Snapshot, k: nat, length: nat) {
    && k in h.largeLive && k < |h.large| && h.large[k].size == length
    && |h.large[k].chars| == length + 1 && h.large[k].chars[length] == 0
  }

  /** What a call of make_uninit_string does: one new string, and nothing else is touched. */
  ghost predicate StringAdded(h: Snapshot, v: Val, length: nat, h': Snapshot) {
    && (v.Small? || v.Large?)
    && (v.Small? ==> v.loc !in h.strs && h'.strs == h.strs + {v.loc} && SmallMade(h', v.loc, length))
    && (v.Small? ==> h'.large == h.large && h'.largeLive == h.largeLive)
    && (v.Large? ==>
        v.index !in h.largeLive && h'.largeLive == h.largeLive + {v.index} && LargeMade(h', v.index, length))
    && (v.Large? ==> h.large <= h'.large && h'.strs == h.strs)
    && (forall s :: s in h.strs ==> SameString(h, s, h', s))
    && h'.mem == h.mem && h'.objs == h.objs && h'.owner == h.owner && h'.live == h.live && h'.nil == h.nil
  }

  // ---- in the current block ----

  /** The contents of a block after a string of this length has been started at `pos`. */
  function WithString(chars: seq<nat>, pos: nat, length: nat): (r: seq<nat>)
    requires pos + FullSize(length) <= |chars|
    ensures |r| == |chars| && r[..pos] == chars[..pos]
    ensures r[pos] == length && r[pos + WORD + length] == 0
  {
    chars[pos := length][pos + WORD + length := 0]
  }

  lemma LastBlockOf(h: Snapshot)
    requires h.BlocksTiled()
    ensures h.ChainShape() && |h.chain| == |h.offs| > 0
    ensures var cur := h.chain[|h.chain| - 1];
      cur < |h.blocks| && |h.blocks[cur].chars| == STRING_BLOCK_SIZE && h.blocks[cur].pos <= STRING_BLOCK_SIZE
      && h.blocks[cur].next == -1
  {
    TilingAt(h, |h.chain| - 1);
    assert h.blocks[h.chain[|h.chain| - 1]].next == LinkAfter(h.chain, |h.chain| - 1);
  }

  lemma TilingAt(h: Snapshot, r: nat)
    requires h.BlocksTiled() && r < |h.chain|
    ensures |h.offs| == |h.chain| && h.chain[r] < |h.blocks|
    ensures Tiling(h.blocks[h.chain[r]].chars, h.offs[r], h.blocks[h.chain[r]].pos)
  {
  }

  /** Where a small string is. */
  lemma StartOf(h: Snapshot, s: StrLoc) returns (r: nat, j: nat)
    requires h.BlocksTiled() && s in h.strs
    ensures h.ChainShape() && r < |h.chain| && j < |h.offs[r]| && s == StrLoc(h.chain[r], h.offs[r][j])
    ensures s.block < |h.blocks| && s.offset < |h.blocks[s.block].chars|
    ensures s.offset + FullSize(h.Size(s)) <= h.blocks[s.block].pos <= STRING_BLOCK_SIZE == |h.blocks[s.block].chars|
  {
    assert h.IsStart(s);
    r, j :| r < |h.chain| && j < |h.offs[r]| && s == StrLoc(h.chain[r], h.offs[r][j]);
    var b := h.blocks[h.chain[r]];
    TilingAt(h, r);
    assert Adjacent(b.chars, h.offs[r], b.pos, j);
    TilingBelow(b.chars, h.offs[r], b.pos, j, |h.offs[r]|);
  }

  lemma StringStays(h: Snapshot, h': Snapshot, s: StrLoc)
    requires h.BlocksTiled() && s in h.strs
    requires s.block < |h.blocks| <= |h'.blocks|
    requires var c, c' := h.blocks[s.block].chars, h'.blocks[s.block].chars;
      |c'| == |c| && h.blocks[s.block].pos <= |c| && c'[..h.blocks[s.block].pos] == c[..h.blocks[s.block].pos]
    ensures SameString(h, s, h', s)
  {
    hide Snapshot.BlocksTiled;
    var r, j := StartOf(h, s);
    TextBelow(h'.blocks[s.block].chars, h.blocks[s.block].chars, s.offset, h.Size(s), h.blocks[s.block].pos);
  }

  /** The strings of the heap with a string appended to the current block. */
  function AppendedTo(blocks: seq<Block>, cur: nat, length: nat): seq<Block>
    requires cur < |blocks| && blocks[cur].pos + FullSize(length) <= |blocks[cur].chars|
  {
    var b := blocks[cur];
    blocks[cur := b.(pos := b.pos + FullSize(length), chars := WithString(b.chars, b.pos, length))]
  }

  ghost predicate IsAppended(h: Snapshot, length: nat, h': Snapshot) {
    && |h.chain| > 0 && |h.offs| == |h.chain|
    && var t := |h.chain| - 1;
       var cur := h.chain[t];
       && cur < |h.blocks| && h.blocks[cur].pos + FullSize(length) <= |h.blocks[cur].chars|
       && h' == h.(blocks := AppendedTo(h.blocks, cur, length),
                   offs := h.offs[t := h.offs[t] + [h.blocks[cur].pos]],
                   strs := h.strs + {StrLoc(cur, h.blocks[cur].pos)})
  }

  lemma AppendTiles(h: Snapshot, length: nat, h': Snapshot)
    requires h.BlocksTiled() && IsAppended(h, length, h')
    ensures h'.BlocksTiled()
    ensures StrLoc(h.chain[|h.chain| - 1], h.blocks[h.chain[|h.chain| - 1]].pos) !in h.strs
  {
    var t := |h.chain| - 1;
    var cur := h.chain[t];
    var pos := h.blocks[cur].pos;
    LastBlockOf(h);
    assert h'.ChainShape();
    forall r: nat | r < |h'.chain|
      ensures Tiling(h'.blocks[h'.chain[r]].chars, h'.offs[r], h'.blocks[h'.chain[r]].pos)
    {
      hide Tiling;
      TilingAt(h, r);
      if r == t { TilingSnoc(h.blocks[cur].chars, h.offs[t], pos, h'.blocks[cur].chars, length); }
    }
    if StrLoc(cur, pos) in h.strs {
      var r, j := StartOf(h, StrLoc(cur, pos));
      assert false;
    }
    AppendStarts(h, length, h');
  }

  lemma AppendStarts(h: Snapshot, length: nat, h': Snapshot)
    requires h.BlocksTiled() && IsAppended(h, length, h') && h'.ChainShape()
    ensures h'.StartsOk()
  {
    hide Snapshot.ChainLinks, Snapshot.ChainTiled;
    var t := |h.chain| - 1;
    forall s | s in h'.strs
      ensures h'.IsStart(s)
    {
      if s in h.strs {
        assert h.IsStart(s);
        var r: nat, j: nat :| r < |h.chain| && j < |h.offs[r]| && s == StrLoc(h.chain[r], h.offs[r][j]);
        assert j < |h'.offs[r]| && s == StrLoc(h'.chain[r], h'.offs[r][j]);
      } else {
        assert s == StrLoc(h'.chain[t], h'.offs[t][|h.offs[t]|]);
      }
    }
    forall s | h'.IsStart(s)
      ensures s in h'.strs
    {
      var r: nat, j: nat :| r < |h'.chain| && j < |h'.offs[r]| && s == StrLoc(h'.chain[r], h'.offs[r][j]);
      if r < t || j < |h.offs[t]| {
        assert s == StrLoc(h.chain[r], h.offs[r][j]);
        assert h.IsStart(s);
      }
    }
  }

  lemma SmallSizes(h: Snapshot, h': Snapshot, s: StrLoc)
    requires SameString(h, s, h', s) && h.Sound() && s in h.strs
    ensures s.block < |h'.blocks| && s.offset < |h'.blocks[s.block].chars|
      && h'.blocks[s.block].chars[s.offset] <= STRING_BLOCK_SIZE
  {
  }

  /** A new string does not disturb a sound heap. */
  lemma SoundWithString(h: Snapshot, v: Val, length: nat, h': Snapshot)
    requires h.Sound() && StringAdded(h, v, length, h') && (v.Small? ==> length <= STRING_BLOCK_SIZE)
    ensures h'.Sound()
    ensures NilIsRoot(h) ==> NilIsRoot(h')
  {
    hide SameString;
    forall s | s in h'.strs
      ensures s.block < |h'.blocks| && s.offset < |h'.blocks[s.block].chars|
      ensures h'.blocks[s.block].chars[s.offset] <= STRING_BLOCK_SIZE
    {
      if s in h.strs { SmallSizes(h, h', s); }
    }
    assert h'.CellsOk();
    forall p: nat | h'.LiveSlot(p)
      ensures h'.ValOk(h'.mem[p].val) && !h'.mem[p].mark
    {
      assert h.LiveSlot(p);
    }
  }

  lemma AppendKeeps(h: Snapshot, length: nat, h': Snapshot)
    requires h.BlocksTiled() && IsAppended(h, length, h')
    ensures StringAdded(h, Small(StrLoc(h.chain[|h.chain| - 1], h.blocks[h.chain[|h.chain| - 1]].pos)), length, h')
  {
    hide SameString, Snapshot.BlocksTiled;
    AppendTiles(h, length, h');
    LastBlockOf(h);
    forall s | s in h.strs
      ensures SameString(h, s, h', s)
    {
      var r, j := StartOf(h, s);
      StringStays(h, h', s);
    }
  }

  method InCurrentBlock(h: Heap, length: nat) returns (val: Val)
    requires Valid(h) && length <= STRING_BLOCK_SIZE
    requires h.currentStringBlock < |h.blocks|
      && h.blocks[h.currentStringBlock].pos + FullSize(length) <= STRING_BLOCK_SIZE
    modifies h`blocks, h`offs, h`strs
    ensures Valid(h)
    ensures StringAdded(old(h.Now()), val, length, h.Now())
  {
    hide Snapshot.Sound, Snapshot.BlocksTiled, ConsBlocksOk, CellListOk, VectorsOk, AllocConses, NilIsRoot,
         StringAdded, WithString, FreeUnmarked;
    ghost var h0 := h.Now();
    LastBlockOf(h0);
    ghost var t := |h.blockChain| - 1;
    var cur := h.currentStringBlock;
    var b := h.blocks[cur];
    val := Small(StrLoc(cur, b.pos));
    h.blocks := h.blocks[cur := b.(pos := b.pos + FullSize(length), chars := WithString(b.chars, b.pos, length))];
    h.offs := h.offs[t := h.offs[t] + [b.pos]];
    h.strs := h.strs + {val.loc};
    AppendTiles(h0, length, h.Now());
    AppendKeeps(h0, length, h.Now());
    SoundWithString(h0, val, length, h.Now());
  }

  // ---- in a block of its own ----

  method InOwnBlock(h: Heap, length: nat, junk: seq<nat>) returns (val: Val)
    requires Valid(h) && |junk| > length
    modifies h`large, h`largeStringBlocks
    ensures Valid(h)
    ensures StringAdded(old(h.Now()), val, length, h.Now())
  {
    hide Snapshot.BlocksTiled, ConsBlocksOk, CellListOk, VectorsOk, AllocConses, NilIsRoot, FreeUnmarked, SameString,
         LayoutOk;
    ghost var h0 := h.Now();
    var k := |h.large|;
    h.large := h.large + [LargeString(length, false, false, junk[..length] + [0])];
    h.largeStringBlocks := [k] + h.largeStringBlocks;
    val := Large(k);
    LargeAdded(h0, h.largeStringBlocks, length, junk, h.Now());
    SameBlocks(h0, h.Now());
    SoundWithString(h0, val, length, h.Now());
  }

  lemma LargeAdded(h: Snapshot, list: seq<nat>, length: nat, junk: seq<nat>, h': Snapshot)
    requires h.Sound() && h.Tagged(false) && h.BlocksTiled() && |junk| > length
    requires |list| > 0 && list[0] == |h.large| && h.largeLive == (set k | k in list[1..])
    requires h' == h.(large := h.large + [LargeString(length, false, false, junk[..length] + [0])],
                      largeLive := (set k | k in list))
    ensures StringAdded(h, Large(|h.large|), length, h') && h'.Tagged(false)
    ensures NoDup(list[1..]) ==> NoDup(list)
  {
    hide Snapshot.BlocksTiled, SameString;
    assert list == [list[0]] + list[1..];
    forall s | s in h.strs
      ensures SameString(h, s, h', s)
    {
      var r, j := StartOf(h, s);
      StringStays(h, h', s);
    }
  }

  // ---- in a new current block ----

  ghost predicate IsStarted(h: Snapshot, length: nat, junk: seq<nat>, h': Snapshot) {
    && |h.chain| > 0 && |h.offs| == |h.chain| && |junk| == STRING_BLOCK_SIZE && FullSize(length) <= STRING_BLOCK_SIZE
    && var cur := h.chain[|h.chain| - 1];
       && cur < |h.blocks|
       && h' == h.(blocks := SetNext(h.blocks, cur, |h.blocks|)
         + [Block(-1, FullSize(length), WithString(junk, 0, length))],
                   chain := h.chain + [|h.blocks|], offs := h.offs + [[0]], strs := h.strs + {StrLoc(|h.blocks|, 0)})
  }

  lemma StartTiles(h: Snapshot, length: nat, junk: seq<nat>, h': Snapshot)
    requires h.BlocksTiled() && IsStarted(h, length, junk, h')
    ensures h'.BlocksTiled()
  {
    hide Tiling;
    LastBlockOf(h);
    assert h'.ChainShape();
    forall r: nat | r < |h'.chain|
      ensures h'.blocks[h'.chain[r]].next == LinkAfter(h'.chain, r)
    {
      if r < |h.chain| { assert h.blocks[h.chain[r]].next == LinkAfter(h.chain, r); }
    }
    forall r: nat | r < |h'.chain|
      ensures Tiling(h'.blocks[h'.chain[r]].chars, h'.offs[r], h'.blocks[h'.chain[r]].pos)
    {
      if r < |h.chain| {
        TilingAt(h, r);
      } else {
        NoStrings(junk);
        TilingSnoc(junk, [], 0, WithString(junk, 0, length), length);
        assert [] + [0] == [0];
      }
    }
    StartStarts(h, length, junk, h');
  }

  lemma StartStarts(h: Snapshot, length: nat, junk: seq<nat>, h': Snapshot)
    requires h.BlocksTiled() && IsStarted(h, length, junk, h') && h'.ChainShape()
    ensures h'.StartsOk()
  {
    hide Snapshot.ChainLinks, Snapshot.ChainTiled;
    forall s | s in h'.strs
      ensures h'.IsStart(s)
    {
      if s in h.strs {
        assert h.IsStart(s);
        var r: nat, j: nat :| r < |h.chain| && j < |h.offs[r]| && s == StrLoc(h.chain[r], h.offs[r][j]);
        assert j < |h'.offs[r]| && s == StrLoc(h'.chain[r], h'.offs[r][j]);
      } else {
        assert s == StrLoc(h'.chain[|h.chain|], h'.offs[|h.chain|][0]);
      }
    }
    forall s | h'.IsStart(s)
      ensures s in h'.strs
    {
      var r: nat, j: nat :| r < |h'.chain| && j < |h'.offs[r]| && s == StrLoc(h'.chain[r], h'.offs[r][j]);
      if r < |h.chain| {
        assert s == StrLoc(h.chain[r], h.offs[r][j]);
        assert h.IsStart(s);
      }
    }
  }

  lemma StartKeeps(h: Snapshot, length: nat, junk: seq<nat>, h': Snapshot)
    requires h.BlocksTiled() && IsStarted(h, length, junk, h')
    ensures StringAdded(h, Small(StrLoc(|h.blocks|, 0)), length, h')
  {
    hide SameString, Snapshot.BlocksTiled;
    LastBlockOf(h);
    if StrLoc(|h.blocks|, 0) in h.strs {
      var r, j := StartOf(h, StrLoc(|h.blocks|, 0));
      assert false;
    }
    forall s | s in h.strs
      ensures SameString(h, s, h', s)
    {
      var r, j := StartOf(h, s);
      StringStays(h, h', s);
    }
  }

  method InNewBlock(h: Heap, length: nat, junk: seq<nat>) returns (val: Val)
    requires Valid(h) && |junk| == STRING_BLOCK_SIZE && FullSize(length) <= STRING_BLOCK_SIZE
    modifies h`blocks, h`blockChain, h`currentStringBlock, h`offs, h`strs
    ensures Valid(h)
    ensures StringAdded(old(h.Now()), val, length, h.Now())
  {
    hide Snapshot.Sound, Snapshot.BlocksTiled, ConsBlocksOk, CellListOk, VectorsOk, AllocConses, NilIsRoot,
         StringAdded, WithString, FreeUnmarked;
    ghost var h0 := h.Now();
    LastBlockOf(h0);
    var added := |h.blocks|;
    h.blocks := SetNext(h.blocks, h.currentStringBlock, added)
      + [Block(-1, FullSize(length), WithString(junk, 0, length))];
    h.currentStringBlock := added;
    h.blockChain := h.blockChain + [added];
    h.offs := h.offs + [[0]];
    val := Small(StrLoc(added, 0));
    h.strs := h.strs + {val.loc};
    StartTiles(h0, length, junk, h.Now());
    StartKeeps(h0, length, junk, h.Now());
    SoundWithString(h0, val, length, h.Now());
  }

  /** `junk` is what malloc finds in a new block. */
  method MakeUninitString(h: Heap, length: int, junk: seq<nat>) returns (r: MaybeVal)
    requires Valid(h) && |junk| >= STRING_BLOCK_SIZE && |junk| > length
    modifies h`blocks, h`blockChain, h`currentStringBlock, h`offs, h`strs, h`large, h`largeStringBlocks
    ensures Valid(h)
    ensures length < 0 ==> r == Aborted && h.Now() == old(h.Now())
    ensures length >= 0 ==> r.Made? && StringAdded(old(h.Now()), r.val, length, h.Now())
  {
    hide Snapshot.Sound, Snapshot.BlocksTiled, ConsBlocksOk, CellListOk, VectorsOk, AllocConses, NilIsRoot,
         StringAdded, WithString, FreeUnmarked;
    if length < 0 { return Aborted; }
    LastBlockOf(h.Now());
    var fullsize := FullSize(length);
    var val;
    if fullsize <= STRING_BLOCK_SIZE - h.blocks[h.currentStringBlock].pos {
      val := InCurrentBlock(h, length);
    } else if fullsize > STRING_BLOCK_OUTSIZE {
      val := InOwnBlock(h, length, junk);
    } else {
      val := InNewBlock(h, length, junk[..STRING_BLOCK_SIZE]);
    }
    r := Made(val);
  }
}
