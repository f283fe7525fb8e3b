// compact_strings: slides the live strings down, relocates the references to them, and frees the
// string blocks that are left over.

module CompactStrings {
  import opened LispHeap
  import opened MarkState
  import opened LispStore
  import opened Placement
  import opened Compaction
  import opened BlockChain

  /** Compaction has dealt with the first j strings of block r and everything before them. */
  ghost predicate Compacting(h: Snapshot, st: GcState, mem: seq<Word>, blocks: seq<Block>,
                             reloc: map<StrLoc, StrLoc>, r: nat, j: nat)
  {
    && Inv(h, st) && h.BlocksTiled() && ShapeKept(h, st.blocks) && ShapeKept(h, blocks)
    && LinksKept(h, blocks)
    && r < |h.chain| && j <= |h.offs[r]|
    && var l := LiveList(h, st.chains, r, j);
      && AllMoved(h, blocks, l)
      && Unscanned(h, st.blocks, blocks, r, ScanPos(h, r, j))
      && Refilled(h, blocks, Sizes(h, l))
      && Relocated(h, st, mem, reloc)
      && RelocOk(h, l, reloc)
  }

  /** Follows the chain of references to its end, where the size proper is. */
  method ChainEnd(h: Heap, head: nat, ghost ps: seq<nat>, ghost n: nat) returns (size: nat)
    requires Chain(h.mem, head, ps, n) && n <= STRING_BLOCK_SIZE
    ensures size == n
  {
    size := head;
    ghost var i := 0;
    assert ps[0..] == ps;
    while size > STRING_BLOCK_SIZE
      invariant i <= |ps| && Chain(h.mem, size, ps[i..], n)
      decreases |ps| - i
    {
      assert ps[i..][1..] == ps[i + 1..];
      size := h.mem[SlotAt(size)].val.bits;
      i := i + 1;
    }
  }

  /** Points every slot of the chain at the string's new address; returns the size found at the end. */
  method Relink(h: Heap, head: nat, to: StrLoc, ghost ps: seq<nat>, ghost n: nat) returns (size: nat)
    requires Chain(h.mem, head, ps, n) && n <= STRING_BLOCK_SIZE && NoDup(ps)
    modifies h`mem
    ensures size == n
    ensures Relinked(old(h.mem), ps, to, h.mem)
  {
    size := head;
    ghost var i := 0;
    ghost var mem0 := h.mem;
    assert ps[0..] == ps;
    while size > STRING_BLOCK_SIZE
      invariant i <= |ps| && Chain(h.mem, size, ps[i..], n)
      invariant Relinked(mem0, ps[..i], to, h.mem)
      decreases |ps| - i
    {
      assert ps[i..][1..] == ps[i + 1..];
      assert ps[..i + 1] == ps[..i] + [ps[i]];
      var p := SlotAt(size);
      size := h.mem[p].val.bits;
      ghost var mem1 := h.mem;
      h.mem := h.mem[p := Word(h.mem[p].mark, Small(to))];
      ghost var rest := ps[i + 1..];
      assert p !in rest;
      ChainFrame(mem1, h.mem, size, rest, n);
      i := i + 1;
    }
    assert ps[i..] == [];
    assert ps[..i] == ps;
  }

  lemma {:induction false} SourcesBefore(h: Snapshot, chains: map<StrLoc, seq<nat>>, l: seq<Place>, at: Place, i: nat)
    requires h.BlocksTiled() && Scanned(h, chains, l, at) && i < |l|
    ensures AtMost(After(l[i], SizeAt(h, l[i])), at)
    decreases |l| - i
  {
    hide Snapshot.BlocksTiled, SizeAt;
    if i + 1 < |l| {
      SourcesBefore(h, chains, l, at, i + 1);
    }
  }

  /** The next string has not been relocated yet. */
  lemma NotYetMoved(h: Snapshot, chains: map<StrLoc, seq<nat>>, r: nat, j: nat, reloc: map<StrLoc, StrLoc>)
    requires h.BlocksTiled() && r < |h.chain| && j < |h.offs[r]|
    requires RelocOk(h, LiveList(h, chains, r, j), reloc)
    ensures StrLoc(h.chain[r], h.offs[r][j]) !in reloc
  {
    hide Snapshot.BlocksTiled, SizeAt, Scanned, LiveList, ScanPos, Sizes, Dest;
    Ranks(h);
    var s := StrLoc(h.chain[r], h.offs[r][j]);
    var l := LiveList(h, chains, r, j);
    LiveSources(h, chains, r, j);
    StringFits(h, r, j);
    if s in reloc {
      var i: nat :| i < |l| && l[i].rank < |h.chain| && s == Loc(h, l[i]);
      SourcesBefore(h, chains, l, Place(r, ScanPos(h, r, j)), i);
      assert false;
    }
  }

  /** The bytes of a string are not size words, so marking has left them alone. */
  lemma TextUntouched(h: Snapshot, st: GcState, r: nat, j: nat)
    requires Inv(h, st) && h.BlocksTiled() && ShapeKept(h, st.blocks) && r < |h.chain| && j < |h.offs[r]|
    ensures var o := h.offs[r][j]; var n := SizeAt(h, Place(r, o));
      && o + FullSize(n) <= STRING_BLOCK_SIZE
      && Text(st.blocks[h.chain[r]].chars, o, n) == Text(h.blocks[h.chain[r]].chars, o, n)
  {
    hide Snapshot.BlocksTiled, Inv, ShapeKept, SizeAt;
    Ranks(h);
    var o := h.offs[r][j];
    var n := SizeAt(h, Place(r, o));
    StringFits(h, r, j);
    SameLengths(h, st, r);
    var a, b := st.blocks[h.chain[r]].chars, h.blocks[h.chain[r]].chars;
    forall i: nat | o + WORD <= i < o + WORD + n + 1
      ensures a[i] == b[i]
    {
      NotAStart(h, r, j, i);
      OtherUnits(h, st, h.chain[r], i);
    }
    SameText(a, b, o, n);
  }

  lemma SameLengths(h: Snapshot, st: GcState, r: nat)
    requires Inv(h, st) && h.BlocksTiled() && r < |h.chain|
    ensures |st.blocks| == |h.blocks| && h.chain[r] < |h.blocks|
    ensures |st.blocks[h.chain[r]].chars| == |h.blocks[h.chain[r]].chars| == STRING_BLOCK_SIZE
  {
  }

  lemma OtherUnits(h: Snapshot, st: GcState, b: nat, i: nat)
    requires Inv(h, st) && b < |h.blocks| == |st.blocks| && i < |h.blocks[b].chars| == |st.blocks[b].chars|
    requires StrLoc(b, i) !in h.strs
    ensures st.blocks[b].chars[i] == h.blocks[b].chars[i]
  {
  }

  lemma SameText(a: seq<nat>, b: seq<nat>, o: nat, n: nat)
    requires o + FullSize(n) <= |a| == |b|
    requires forall i: nat :: o + WORD <= i < o + WORD + n + 1 ==> a[i] == b[i]
    ensures Text(a, o, n) == Text(b, o, n)
  {
  }

  lemma NotAStart(h: Snapshot, r: nat, j: nat, i: nat)
    requires h.BlocksTiled() && r < |h.chain| && j < |h.offs[r]|
    requires h.offs[r][j] < i < h.offs[r][j] + FullSize(SizeAt(h, Place(r, h.offs[r][j])))
    ensures StrLoc(h.chain[r], i) !in h.strs
  {
    hide Snapshot.BlocksTiled, Tiling, Snapshot.StartsOk;
    TilingOf(h, r);
    Ranks(h);
    Starts(h);
    if StrLoc(h.chain[r], i) in h.strs {
      var k := StartIndex(h, r, i);
      var b := h.blocks[h.chain[r]];
      if k < j {
        TilingBelow(b.chars, h.offs[r], b.pos, k, j);
      } else if k > j {
        TilingBelow(b.chars, h.offs[r], b.pos, j, k);
      }
      assert false;
    }
  }

  lemma TilingOf(h: Snapshot, r: nat)
    requires h.BlocksTiled() && r < |h.chain|
    ensures r < |h.offs| && h.chain[r] < |h.blocks|
    ensures Tiling(h.blocks[h.chain[r]].chars, h.offs[r], h.blocks[h.chain[r]].pos)
    ensures |h.blocks[h.chain[r]].chars| == STRING_BLOCK_SIZE
  {
  }

  lemma Starts(h: Snapshot)
    requires h.BlocksTiled()
    ensures h.ChainShape() && h.StartsOk()
  {
  }

  lemma StartIndex(h: Snapshot, r: nat, i: nat) returns (k: nat)
    requires h.ChainShape() && h.StartsOk() && r < |h.chain| && StrLoc(h.chain[r], i) in h.strs
    ensures k < |h.offs[r]| && h.offs[r][k] == i
  {
    assert h.IsStart(StrLoc(h.chain[r], i));
    var q: nat, k0: nat :| q < |h.chain| && k0 < |h.offs[q]|
      && StrLoc(h.chain[r], i) == StrLoc(h.chain[q], h.offs[q][k0]);
    k := k0;
  }

  lemma StepDead(h: Snapshot, st: GcState, mem: seq<Word>, blocks: seq<Block>, reloc: map<StrLoc, StrLoc>, r: nat,
                 j: nat)
    requires Compacting(h, st, mem, blocks, reloc, r, j) && j < |h.offs[r]|
    requires !Live(st.chains, StrLoc(h.chain[r], h.offs[r][j]))
    ensures Compacting(h, st, mem, blocks, reloc, r, j + 1)
  {
    hide Snapshot.BlocksTiled, Inv, AllMoved, Refilled, RelocOk, Relocated, ShapeKept, SizeAt;
    Ranks(h);
    StringFits(h, r, j);
    assert LiveList(h, st.chains, r, j + 1) == LiveList(h, st.chains, r, j);
    UnscannedSkip(h, st.blocks, blocks, r, ScanPos(h, r, j), ScanPos(h, r, j + 1));
  }

  lemma UnscannedSkip(h: Snapshot, blocks0: seq<Block>, blocks: seq<Block>, r: nat, i: nat, j: nat)
    requires h.BlocksTiled() && ShapeKept(h, blocks0) && ShapeKept(h, blocks)
    requires Unscanned(h, blocks0, blocks, r, i) && i <= j <= STRING_BLOCK_SIZE
    ensures Unscanned(h, blocks0, blocks, r, j)
  {
    SameTail(blocks[h.chain[r]].chars, blocks0[h.chain[r]].chars, i, j);
  }

  lemma StepBlock(h: Snapshot, st: GcState, mem: seq<Word>, blocks: seq<Block>, reloc: map<StrLoc, StrLoc>, r: nat)
    requires r < |h.offs| && Compacting(h, st, mem, blocks, reloc, r, |h.offs[r]|) && r + 1 < |h.chain|
    ensures Compacting(h, st, mem, blocks, reloc, r + 1, 0)
  {
    hide Snapshot.BlocksTiled, Inv, AllMoved, Refilled, RelocOk, Relocated, ShapeKept, SizeAt;
    Ranks(h);
    assert LiveList(h, st.chains, r + 1, 0) == LiveList(h, st.chains, r, |h.offs[r]|);
    assert ScanPos(h, r + 1, 0) <= STRING_BLOCK_SIZE by {
      TilingOf(h, r + 1);
      TilingBelow(h.blocks[h.chain[r + 1]].chars, h.offs[r + 1], h.blocks[h.chain[r + 1]].pos, 0, |h.offs[r + 1]|);
    }
  }

  /** Where the next live string goes, and that it does not pass the scan position. */
  lemma NextPlace(h: Snapshot, chains: map<StrLoc, seq<nat>>, r: nat, j: nat)
    requires h.BlocksTiled() && r < |h.chain| && j < |h.offs[r]|
    ensures var s := Place(r, h.offs[r][j]); var sizes := Sizes(h, LiveList(h, chains, r, j));
      && Fits(sizes) && Cursor(sizes).offset <= STRING_BLOCK_SIZE
      && FullSize(SizeAt(h, s)) <= STRING_BLOCK_SIZE - s.offset
      && AtMost(Cursor(sizes), s) && AtMost(Choose(Cursor(sizes), SizeAt(h, s)), s)
      && Choose(Cursor(sizes), SizeAt(h, s)).offset + FullSize(SizeAt(h, s)) <= STRING_BLOCK_SIZE
  {
    hide Snapshot.BlocksTiled, SizeAt, Cursor, LiveList, ScanPos;
    Ranks(h);
    var s := Place(r, h.offs[r][j]);
    var l := LiveList(h, chains, r, j);
    var sizes, z := Sizes(h, l), SizeAt(h, s);
    LiveSources(h, chains, r, j);
    StringFits(h, r, j);
    var sizes' := sizes + [z];
    WriteBehindRead(sizes', l + [s], |l|);
    assert sizes'[..|l|] == sizes;
    CursorInside(sizes);
  }

  lemma StepLive(h: Snapshot, st: GcState, mem: seq<Word>, blocks: seq<Block>, reloc: map<StrLoc, StrLoc>,
                 r: nat, j: nat, mem': seq<Word>, blocks': seq<Block>)
    requires Compacting(h, st, mem, blocks, reloc, r, j) && j < |h.offs[r]|
    requires Live(st.chains, StrLoc(h.chain[r], h.offs[r][j])) && ShapeKept(h, blocks') && LinksKept(h, blocks')
    requires var s := Place(r, h.offs[r][j]); var at := Cursor(Sizes(h, LiveList(h, st.chains, r, j)));
      var d := Choose(at, SizeAt(h, s));
      && d.rank < |h.chain|
      && MoveOne(h, blocks, at, s, d, blocks')
      && Relinked(mem, st.chains[Loc(h, s)], Loc(h, d), mem')
    ensures var s := Place(r, h.offs[r][j]); var at := Cursor(Sizes(h, LiveList(h, st.chains, r, j)));
      Compacting(h, st, mem', blocks', reloc[Loc(h, s) := Loc(h, Choose(at, SizeAt(h, s)))], r, j + 1)
  {
    hide Snapshot.BlocksTiled, Inv, AllMoved, Refilled, RelocOk, Relocated, ShapeKept, SizeAt, MoveOne, Unscanned,
         Relinked, Cursor, Choose;
    Ranks(h);
    var s := Place(r, h.offs[r][j]);
    var l := LiveList(h, st.chains, r, j);
    var sizes, z := Sizes(h, l), SizeAt(h, s);
    var d := Choose(Cursor(sizes), z);
    NextPlace(h, st.chains, r, j);
    StringFits(h, r, j);
    TextUntouched(h, st, r, j);
    NotYetMoved(h, st.chains, r, j, reloc);
    assert LiveList(h, st.chains, r, j + 1) == l + [s];
    assert Sizes(h, l + [s]) == sizes + [z];
    AllMovedStep(h, st.blocks, blocks, l, s, blocks');
    ChooseAfter(Cursor(sizes), z);
    UnscannedStep(h, st.blocks, blocks, Cursor(sizes), s, d, blocks');
    RefilledStep(h, blocks, sizes, s, blocks');
    RelocatedStep(h, st, mem, reloc, Loc(h, s), Loc(h, d), mem');
    RelocOkStep(h, l, reloc, s);
  }

  lemma ChooseAfter(at: Place, z: nat)
    ensures AtMost(at, Choose(at, z))
  {
  }

  lemma HeaderChain(h: Snapshot, st: GcState, mem: seq<Word>, blocks: seq<Block>, reloc: map<StrLoc, StrLoc>, r: nat,
                    j: nat)
    requires Compacting(h, st, mem, blocks, reloc, r, j) && j < |h.offs[r]|
    ensures var s := StrLoc(h.chain[r], h.offs[r][j]); var n := SizeAt(h, Place(r, h.offs[r][j]));
      && |blocks| == |h.blocks| && s.block < |blocks| && |blocks[s.block].chars| == STRING_BLOCK_SIZE
      && s.offset + FullSize(n) <= STRING_BLOCK_SIZE
      && s in st.chains && n <= STRING_BLOCK_SIZE
      && Chain(mem, blocks[s.block].chars[s.offset], st.chains[s], n) && NoDup(st.chains[s])
      && (blocks[s.block].chars[s.offset] > STRING_BLOCK_SIZE <==> Live(st.chains, s))
  {
    hide Snapshot.BlocksTiled, Inv, AllMoved, Refilled, RelocOk, Relocated, ShapeKept, SizeAt;
    Ranks(h);
    StringFits(h, r, j);
    NotYetMoved(h, st.chains, r, j, reloc);
    var s := StrLoc(h.chain[r], h.offs[r][j]);
    ChainIntact(h, st, mem, reloc, s);
    SizeAtIs(h, Place(r, h.offs[r][j]));
    SameLengths(h, st, r);
    ShapeLengths(h, blocks, r);
    var a, b := blocks[h.chain[r]].chars, st.blocks[h.chain[r]].chars;
    TextAbove(a, b, s.offset, SizeAt(h, Place(r, h.offs[r][j])));
  }

  lemma SizeAtIs(h: Snapshot, p: Place)
    requires h.BlocksTiled() && p.rank < |h.chain| && p.offset < STRING_BLOCK_SIZE
    ensures h.chain[p.rank] < |h.blocks| && p.offset < |h.blocks[h.chain[p.rank]].chars|
    ensures SizeAt(h, p) == h.Size(Loc(h, p))
  {
  }

  lemma ShapeLengths(h: Snapshot, blocks: seq<Block>, r: nat)
    requires h.BlocksTiled() && ShapeKept(h, blocks) && r < |h.chain|
    ensures |blocks| == |h.blocks| && h.chain[r] < |blocks|
    ensures |blocks[h.chain[r]].chars| == STRING_BLOCK_SIZE && blocks[h.chain[r]].pos <= STRING_BLOCK_SIZE
    ensures LinksKept(h, blocks) ==> blocks[h.chain[r]].next == LinkAfter(h.chain, r)
  {
    hide Snapshot.BlocksTiled;
    Ranks(h);
    NextBlock(h, r);
  }

  /** Closing a block, moving the bytes and storing the size in the header is one MoveOne. */
  lemma MoveOneFrom(h: Snapshot, blocks: seq<Block>, at: Place, s: Place, d: Place, blocks1: seq<Block>,
                    blocks': seq<Block>)
    requires h.BlocksTiled() && ShapeKept(h, blocks) && LinksKept(h, blocks)
    requires at.rank < |h.chain| && d.rank < |h.chain| && s.rank < |h.chain| && at.offset <= STRING_BLOCK_SIZE
    requires s.offset + FullSize(SizeAt(h, s)) <= STRING_BLOCK_SIZE
      && d.offset + FullSize(SizeAt(h, s)) <= STRING_BLOCK_SIZE
    requires blocks1 == if d.rank == at.rank then blocks else CloseOut(blocks, h.chain[at.rank], at.offset)
    requires blocks' == SetHeader(CopyString(blocks1, Loc(h, s), Loc(h, d), SizeAt(h, s) + 1 + WORD), Loc(h, d),
        SizeAt(h, s))
    ensures ShapeKept(h, blocks') && LinksKept(h, blocks') && MoveOne(h, blocks, at, s, d, blocks')
  {
    hide Snapshot.BlocksTiled, SizeAt, ShapeKept;
    Ranks(h);
    var n := SizeAt(h, s);
    ShapeLengths(h, blocks, at.rank);
    ShapeLengths(h, blocks, s.rank);
    ShapeLengths(h, blocks, d.rank);
    assert blocks1[h.chain[s.rank]].chars == blocks[h.chain[s.rank]].chars;
    assert blocks1[h.chain[d.rank]].chars == blocks[h.chain[d.rank]].chars;
    CopiedUnits(blocks[h.chain[d.rank]].chars, blocks[h.chain[s.rank]].chars, d.offset, s.offset, n,
                blocks'[h.chain[d.rank]].chars);
    MoveOneShape(h, blocks, blocks');
  }

  lemma MoveOneShape(h: Snapshot, blocks: seq<Block>, blocks': seq<Block>)
    requires h.BlocksTiled() && ShapeKept(h, blocks) && |blocks'| == |blocks|
    requires forall b: nat :: b < |blocks| ==>
      && blocks'[b].next == blocks[b].next && |blocks'[b].chars| == |blocks[b].chars|
      && (blocks[b].pos <= STRING_BLOCK_SIZE ==> blocks'[b].pos <= STRING_BLOCK_SIZE)
    ensures ShapeKept(h, blocks')
  {
  }

  lemma CopiedUnits(c: seq<nat>, src: seq<nat>, d: nat, s: nat, n: nat, c': seq<nat>)
    requires d + FullSize(n) <= |c| && s + FullSize(n) <= |src|
    requires c' == (c[..d] + src[s..s + n + 1 + WORD] + c[d + n + 1 + WORD..])[d := n]
    ensures |c'| == |c| && c'[..d] == c[..d] && c'[d + FullSize(n)..] == c[d + FullSize(n)..]
    ensures c'[d] == n && Text(c', d, n) == Text(src, s, n)
  {
    var m := n + 1 + WORD;
    var c1 := c[..d] + src[s..s + m] + c[d + m..];
    assert |c1| == |c|;
    assert c1[d..d + m] == src[s..s + m];
    assert c1[d + m..] == c[d + m..];
    assert Text(c', d, n) == c1[d..d + m][WORD..];
    assert Text(src, s, n) == src[s..s + m][WORD..];
    assert c'[d + FullSize(n)..] == c1[d + m..][FullSize(n) - m..];
    assert c[d + FullSize(n)..] == c[d + m..][FullSize(n) - m..];
  }

  function Max(a: nat, b: nat): nat { if a > b then a else b }

  /** Moves the write position to a block with room for a string of this size. */
  method FindRoom(h: Heap, toSb: nat, toPos: nat, size: nat, ghost at: Place) returns (sb: nat, pos: nat)
    requires h.snap.BlocksTiled() && ShapeKept(h.snap, h.blocks) && LinksKept(h.snap, h.blocks)
    requires at.rank < |h.snap.chain| && toSb == h.snap.chain[at.rank] && toPos == at.offset <= STRING_BLOCK_SIZE
    requires FullSize(size) <= STRING_BLOCK_SIZE && Choose(at, size).rank < |h.snap.chain|
    modifies h`blocks
    ensures var d := Choose(at, size);
      && sb == h.snap.chain[d.rank] && pos == d.offset
      && h.blocks == if d.rank == at.rank then old(h.blocks)
        else CloseOut(old(h.blocks), h.snap.chain[at.rank], at.offset)
  {
    hide Snapshot.BlocksTiled, ShapeKept;
    ghost var t := at.rank;
    Ranks(h.snap);
    ShapeLengths(h.snap, h.blocks, t);
    sb, pos := toSb, toPos;
    while pos + FullSize(size) > Max(h.blocks[sb].pos, STRING_BLOCK_SIZE)
      invariant t < |h.snap.chain| && sb == h.snap.chain[t] && sb < |h.blocks|
      invariant t == at.rank ==> pos == at.offset && h.blocks == old(h.blocks)
      invariant t != at.rank ==> Place(t, pos) == Place(at.rank + 1, 0) == Choose(at, size)
      invariant t != at.rank ==> h.blocks == CloseOut(old(h.blocks), h.snap.chain[at.rank], at.offset)
      invariant h.blocks[sb].pos <= STRING_BLOCK_SIZE && |h.blocks| == |h.snap.blocks|
      decreases |h.snap.chain| - t
    {
      ShapeLengths(h.snap, old(h.blocks), t);
      ShapeLengths(h.snap, old(h.blocks), t + 1);
      h.blocks := CloseOut(h.blocks, sb, pos);
      sb := h.blocks[sb].next;
      pos := 0;
      t := t + 1;
    }
  }

  lemma CopyInPlace(blocks: seq<Block>, s: StrLoc, n: nat)
    requires s.block < |blocks| && s.offset + n <= |blocks[s.block].chars|
    ensures CopyString(blocks, s, s, n) == blocks
  {
    var c := blocks[s.block].chars;
    assert c[..s.offset] + c[s.offset..s.offset + n] + c[s.offset + n..] == c;
  }

  /** (sb, pos) is the write position the live strings seen so far lead to. */
  ghost predicate WritesAt(h: Snapshot, chains: map<StrLoc, seq<nat>>, r: nat, j: nat, sb: nat, pos: nat) {
    h.ChainShape() && r < |h.chain| && j <= |h.offs[r]|
    && var cur := Cursor(Sizes(h, LiveList(h, chains, r, j)));
       cur.rank < |h.chain| && sb == h.chain[cur.rank] && pos == cur.offset
  }

  lemma WritesAtMeans(h: Snapshot, chains: map<StrLoc, seq<nat>>, r: nat, j: nat, sb: nat, pos: nat)
    requires h.ChainShape() && r < |h.chain| && j <= |h.offs[r]|
    ensures var cur := Cursor(Sizes(h, LiveList(h, chains, r, j)));
      WritesAt(h, chains, r, j, sb, pos)
      <==> cur.rank < |h.chain| && sb == h.chain[cur.rank] && pos == cur.offset
  {
  }

  /** bcopy, left out when the string stays where it is. */
  method MoveBytes(h: Heap, nextstr: StrLoc, newaddr: StrLoc, n: nat)
    requires nextstr.block < |h.blocks| && nextstr.offset + n <= |h.blocks[nextstr.block].chars|
    requires newaddr.block < |h.blocks| && newaddr.offset + n <= |h.blocks[newaddr.block].chars|
    modifies h`blocks
    ensures h.blocks == CopyString(old(h.blocks), nextstr, newaddr, n)
  {
    if nextstr != newaddr {
      h.blocks := CopyString(h.blocks, nextstr, newaddr, n);
    } else {
      CopyInPlace(h.blocks, nextstr, n);
    }
  }

  lemma CursorAfter(h: Snapshot, chains: map<StrLoc, seq<nat>>, r: nat, j: nat)
    requires h.ChainShape() && r < |h.chain| && j < |h.offs[r]|
    requires Live(chains, StrLoc(h.chain[r], h.offs[r][j]))
    ensures var s := Place(r, h.offs[r][j]);
      var at := Cursor(Sizes(h, LiveList(h, chains, r, j)));
      Cursor(Sizes(h, LiveList(h, chains, r, j + 1))) == After(Choose(at, SizeAt(h, s)), SizeAt(h, s))
  {
    hide SizeAt, Cursor, Choose;
    var s := Place(r, h.offs[r][j]);
    var l := LiveList(h, chains, r, j);
    assert LiveList(h, chains, r, j + 1) == l + [s];
    assert Sizes(h, l + [s]) == Sizes(h, l) + [SizeAt(h, s)];
    CursorSnoc(Sizes(h, l), SizeAt(h, s));
  }

  lemma HeaderCopied(blocks: seq<Block>, s: StrLoc, d: StrLoc, n: nat)
    requires s.block < |blocks| && s.offset + n <= |blocks[s.block].chars| && n > 0
    requires d.block < |blocks| && d.offset + n <= |blocks[d.block].chars|
    ensures CopyString(blocks, s, d, n)[d.block].chars[d.offset] == blocks[s.block].chars[s.offset]
    ensures |CopyString(blocks, s, d, n)[d.block].chars| == |blocks[d.block].chars|
    ensures |CopyString(blocks, s, d, n)| == |blocks|
  {
  }

  /** Moves one live string, found at (fromSb, pos), and returns its size. */
  method MoveString(h: Heap, ghost st: GcState, ghost reloc: map<StrLoc, StrLoc>, ghost r: nat, ghost j: nat,
                    fromSb: nat, pos: nat, toSb: nat, toPos: nat)
    returns (size: nat, sb: nat, at: nat, ghost reloc': map<StrLoc, StrLoc>)
    requires Compacting(h.snap, st, h.mem, h.blocks, reloc, r, j) && j < |h.snap.offs[r]|
    requires fromSb == h.snap.chain[r] && pos == h.snap.offs[r][j]
    requires Live(st.chains, StrLoc(fromSb, pos))
    requires WritesAt(h.snap, st.chains, r, j, toSb, toPos)
    modifies h`mem, h`blocks, h`totalStringSize
    ensures size == SizeAt(h.snap, Place(r, pos))
    ensures h.totalStringSize == old(h.totalStringSize) + size
    ensures Compacting(h.snap, st, h.mem, h.blocks, reloc', r, j + 1)
    ensures WritesAt(h.snap, st.chains, r, j + 1, sb, at)
  {
    hide Snapshot.BlocksTiled, Inv, AllMoved, Refilled, RelocOk, Relocated, ShapeKept, SizeAt, MoveOne, Unscanned,
         Relinked, Cursor, Choose, Chain, NoDup, CopyString, LiveList, Sizes, WritesAt;
    ghost var snap, mem0, blocks0 := h.snap, h.mem, h.blocks;
    Ranks(snap);
    ghost var s := Place(r, pos);
    ghost var l := LiveList(snap, st.chains, r, j);
    ghost var cur := Cursor(Sizes(snap, l));
    ghost var z := SizeAt(snap, s);
    ghost var d := Choose(cur, z);
    WritesAtMeans(snap, st.chains, r, j, toSb, toPos);
    HeaderChain(snap, st, h.mem, h.blocks, reloc, r, j);
    NextPlace(snap, st.chains, r, j);
    ShapeLengths(snap, h.blocks, d.rank);
    ghost var ps := st.chains[StrLoc(fromSb, pos)];
    var head := h.blocks[fromSb].chars[pos];
    size := ChainEnd(h, head, ps, z);
    h.totalStringSize := h.totalStringSize + size;
    sb, at := FindRoom(h, toSb, toPos, size, cur);
    ghost var blocks1 := h.blocks;
    var nextstr, newaddr := StrLoc(fromSb, pos), StrLoc(sb, at);
    at := at + FullSize(size);
    MoveBytes(h, nextstr, newaddr, size + 1 + WORD);
    HeaderCopied(blocks1, nextstr, newaddr, size + 1 + WORD);
    var n := Relink(h, head, newaddr, ps, z);
    h.blocks := SetHeader(h.blocks, newaddr, n);
    MoveOneFrom(snap, blocks0, cur, s, d, blocks1, h.blocks);
    reloc' := reloc[Loc(snap, s) := Loc(snap, d)];
    StepLive(snap, st, mem0, blocks0, reloc, r, j, h.mem, h.blocks);
    CursorAfter(snap, st.chains, r, j);
    WritesAtMeans(snap, st.chains, r, j + 1, sb, at);
  }

  ghost function Sum(sizes: seq<nat>): nat { if sizes == [] then 0 else Sum(sizes[..|sizes| - 1]) + sizes[|sizes| - 1] }

  ghost function LiveSize(h: Snapshot, chains: map<StrLoc, seq<nat>>, r: nat, j: nat): nat
    requires h.ChainShape() && r < |h.chain| && j <= |h.offs[r]|
  {
    Sum(Sizes(h, LiveList(h, chains, r, j)))
  }

  lemma LiveSizeStep(h: Snapshot, chains: map<StrLoc, seq<nat>>, r: nat, j: nat)
    requires h.ChainShape() && r < |h.chain| && j < |h.offs[r]|
    ensures var s := Place(r, h.offs[r][j]);
      LiveSize(h, chains, r, j + 1) == LiveSize(h, chains, r, j) + (if Live(chains, Loc(h, s)) then SizeAt(h, s) else 0)
  {
    var s := Place(r, h.offs[r][j]);
    var l, l' := LiveList(h, chains, r, j), LiveList(h, chains, r, j + 1);
    if Live(chains, Loc(h, s)) {
      assert Sizes(h, l') == Sizes(h, l) + [SizeAt(h, s)];
      assert Sizes(h, l')[..|l|] == Sizes(h, l);
    } else {
      assert l' == l;
    }
  }

  /** Deals with every string of one block. */
  method ScanBlock(h: Heap, ghost st: GcState, ghost reloc0: map<StrLoc, StrLoc>, ghost r: nat,
                   fromSb: nat, toSb0: nat, toPos0: nat)
    returns (toSb: nat, toPos: nat, ghost reloc: map<StrLoc, StrLoc>)
    requires Compacting(h.snap, st, h.mem, h.blocks, reloc0, r, 0) && fromSb == h.snap.chain[r]
    requires WritesAt(h.snap, st.chains, r, 0, toSb0, toPos0)
    requires h.totalStringSize == LiveSize(h.snap, st.chains, r, 0)
    modifies h`mem, h`blocks, h`totalStringSize
    ensures Compacting(h.snap, st, h.mem, h.blocks, reloc, r, |h.snap.offs[r]|)
    ensures WritesAt(h.snap, st.chains, r, |h.snap.offs[r]|, toSb, toPos)
    ensures h.totalStringSize == LiveSize(h.snap, st.chains, r, |h.snap.offs[r]|)
  {
    hide Snapshot.BlocksTiled, Inv, AllMoved, Refilled, RelocOk, Relocated, ShapeKept, SizeAt, Unscanned, WritesAt,
         LiveSize, Live, Chain;
    ghost var snap, j := h.snap, 0;
    toSb, toPos, reloc := toSb0, toPos0, reloc0;
    Ranks(snap);
    var pos := 0;
    BlockBounds(snap, st, h.mem, h.blocks, reloc, r, 0);
    while pos < h.blocks[fromSb].pos
      invariant h.snap == snap && j <= |snap.offs[r]| && fromSb < |h.blocks|
      invariant Compacting(snap, st, h.mem, h.blocks, reloc, r, j)
      invariant WritesAt(snap, st.chains, r, j, toSb, toPos)
      invariant h.totalStringSize == LiveSize(snap, st.chains, r, j)
      invariant pos == ScanPos(snap, r, j)
      invariant pos < h.blocks[fromSb].pos <==> j < |snap.offs[r]|
      decreases |snap.offs[r]| - j
    {
      StringFits(snap, r, j);
      HeaderChain(snap, st, h.mem, h.blocks, reloc, r, j);
      LiveSizeStep(snap, st.chains, r, j);
      var size := h.blocks[fromSb].chars[pos];
      if size > STRING_BLOCK_SIZE {
        size, toSb, toPos, reloc := MoveString(h, st, reloc, r, j, fromSb, pos, toSb, toPos);
      } else {
        StepDead(snap, st, h.mem, h.blocks, reloc, r, j);
        SkipDead(snap, st, h.mem, r, j, size, toSb, toPos);
      }
      pos := pos + FullSize(size);
      j := j + 1;
      BlockBounds(snap, st, h.mem, h.blocks, reloc, r, j);
    }
  }

  lemma SkipDead(h: Snapshot, st: GcState, mem: seq<Word>, r: nat, j: nat, head: nat, toSb: nat, toPos: nat)
    requires h.ChainShape() && r < |h.chain| && j < |h.offs[r]|
    requires StrLoc(h.chain[r], h.offs[r][j]) in st.chains && !Live(st.chains, StrLoc(h.chain[r], h.offs[r][j]))
    requires Chain(mem, head, st.chains[StrLoc(h.chain[r], h.offs[r][j])], SizeAt(h, Place(r, h.offs[r][j])))
    requires WritesAt(h, st.chains, r, j, toSb, toPos)
    ensures head == SizeAt(h, Place(r, h.offs[r][j]))
    ensures WritesAt(h, st.chains, r, j + 1, toSb, toPos)
  {
    assert LiveList(h, st.chains, r, j + 1) == LiveList(h, st.chains, r, j);
  }

  lemma BlockBounds(h: Snapshot, st: GcState, mem: seq<Word>, blocks: seq<Block>, reloc: map<StrLoc, StrLoc>, r: nat,
                    j: nat)
    requires Compacting(h, st, mem, blocks, reloc, r, j)
    ensures h.chain[r] < |blocks|
    ensures ScanPos(h, r, j) < blocks[h.chain[r]].pos <==> j < |h.offs[r]|
    ensures j == 0 ==> ScanPos(h, r, j) == 0
  {
    hide AllMoved, Refilled, RelocOk, Relocated, SizeAt, LiveList;
    var b := h.blocks[h.chain[r]];
    TilingOf(h, r);
    TilingBelow(b.chars, h.offs[r], b.pos, j, |h.offs[r]|);
  }

  // ---- the whole pass ----

  ghost function AllLive(h: Snapshot, chains: map<StrLoc, seq<nat>>): seq<Place>
    requires h.ChainShape()
  {
    LiveList(h, chains, |h.chain| - 1, |h.offs[|h.chain| - 1]|)
  }

  /** The heap after compaction: block number k of what is left of the chain is tiled by the strings
      that were placed there, each with its size word, bytes and NUL; every slot on a chain refers
      to the new place of its string; the last block left is the current one. */
  ghost predicate Compacted(h: Snapshot, st: GcState, mem: seq<Word>, blocks: seq<Block>,
                            reloc: map<StrLoc, StrLoc>, chain: seq<nat>)
    requires h.ChainShape()
  {
    var l := AllLive(h, st.chains);
    var sizes := Sizes(h, l);
    var t := Cursor(sizes).rank;
    && t < |h.chain| && chain == h.chain[..t + 1]
    && ShapeKept(h, blocks) && Linked(blocks, chain)
    && (forall k: nat :: k < |chain| ==> Tiling(blocks[chain[k]].chars, OffsAt(sizes, k), blocks[chain[k]].pos))
    && AllMoved(h, blocks, l)
    && Relocated(h, st, mem, reloc)
    && RelocOk(h, l, reloc)
  }

  lemma ChainIsLinked(h: Snapshot, blocks: seq<Block>)
    requires h.BlocksTiled() && LinksKept(h, blocks)
    ensures Linked(blocks, h.chain)
  {
    forall i: nat | i < |h.chain|
      ensures LinkOk(blocks, h.chain, i)
    {
      NextBlock(h, i);
    }
  }

  lemma AllMovedSame(h: Snapshot, blocks: seq<Block>, blocks': seq<Block>, l: seq<Place>)
    requires h.ChainShape() && ShapeKept(h, blocks) && ShapeKept(h, blocks') && AllMoved(h, blocks, l)
    requires forall k: nat :: k < |h.chain| ==> blocks'[h.chain[k]].chars == blocks[h.chain[k]].chars
    ensures AllMoved(h, blocks', l)
  {
    hide SizeAt, Sizes, Dest;
    forall i: nat | i < |l|
      ensures Moved(h, blocks', Dest(Sizes(h, l), i), l[i])
    {
      assert Moved(h, blocks, Dest(Sizes(h, l), i), l[i]);
    }
  }

  /** Closing the last block makes every block that is left a tiling of moved strings, none of them
      empty except possibly the first. */
  lemma AllClosed(h: Snapshot, blocks: seq<Block>, sizes: seq<nat>, blocks': seq<Block>)
    requires h.ChainShape() && ShapeKept(h, blocks) && ShapeKept(h, blocks') && Refilled(h, blocks, sizes)
      && Fits(sizes)
    requires var cur := Cursor(sizes); forall k: nat :: k < |h.chain| ==>
      blocks'[h.chain[k]].chars == blocks[h.chain[k]].chars
      && blocks'[h.chain[k]].pos == if k == cur.rank then cur.offset else blocks[h.chain[k]].pos
    ensures forall k: nat :: k <= Cursor(sizes).rank ==>
      Tiling(blocks'[h.chain[k]].chars, OffsAt(sizes, k), blocks'[h.chain[k]].pos)
    ensures forall k: nat :: 0 < k <= Cursor(sizes).rank ==> blocks'[h.chain[k]].pos > 0
  {
    hide Tiling, Cursor, OffsAt;
    forall k: nat | 0 < k <= Cursor(sizes).rank
      ensures blocks'[h.chain[k]].pos > 0
    {
      CursorRank(sizes);
      OffsAtRanks(sizes, k);
      TilingNotEmpty(blocks'[h.chain[k]].chars, OffsAt(sizes, k), blocks'[h.chain[k]].pos);
    }
  }

  lemma TilingNotEmpty(chars: seq<nat>, offs: seq<nat>, hi: nat)
    requires Tiling(chars, offs, hi) && offs != []
    ensures hi > 0
  {
    assert Adjacent(chars, offs, hi, 0);
    TilingBelow(chars, offs, hi, 1, |offs|);
  }

  lemma LiveFits(h: Snapshot, chains: map<StrLoc, seq<nat>>, r: nat, j: nat)
    requires h.BlocksTiled() && r < |h.chain| && j <= |h.offs[r]|
    ensures Fits(Sizes(h, LiveList(h, chains, r, j)))
    ensures Cursor(Sizes(h, LiveList(h, chains, r, j))).offset <= STRING_BLOCK_SIZE
  {
    hide SizeAt, Cursor, LiveList, Snapshot.BlocksTiled;
    Ranks(h);
    LiveSources(h, chains, r, j);
    CursorInside(Sizes(h, LiveList(h, chains, r, j)));
  }

  lemma Initially(h: Snapshot, st: GcState)
    requires Inv(h, st) && h.BlocksTiled() && ShapeKept(h, h.blocks)
    ensures Compacting(h, st, st.mem, st.blocks, map[], 0, 0)
    ensures WritesAt(h, st.chains, 0, 0, h.chain[0], 0)
  {
    hide Inv, Tiling;
    Ranks(h);
    ShapeAfterMarking(h, st);
    var l := LiveList(h, st.chains, 0, 0);
    assert l == [] && Sizes(h, l) == [];
    NoStrings(st.blocks[h.chain[0]].chars);
    assert Relocated(h, st, st.mem, map[]) by { SameMemLength(h, st); }
    TilingOf(h, 0);
    TilingBelow(h.blocks[h.chain[0]].chars, h.offs[0], h.blocks[h.chain[0]].pos, 0, |h.offs[0]|);
  }

  lemma ShapeAfterMarking(h: Snapshot, st: GcState)
    requires Inv(h, st) && h.ChainShape() && ShapeKept(h, h.blocks)
    ensures ShapeKept(h, st.blocks) && LinksKept(h, st.blocks)
  {
    hide LargeOk, ChainsOk, MarksOk, ValsOk, Snapshot.Ready;
  }

  lemma SameMemLength(h: Snapshot, st: GcState)
    requires Inv(h, st)
    ensures |st.mem| == |h.mem|
  {
  }

  method CompactStrings(h: Heap) returns (ghost reloc: map<StrLoc, StrLoc>, ghost chain: seq<nat>)
    requires h.Marking() && h.snap.BlocksTiled() && ShapeKept(h.snap, h.snap.blocks)
    requires h.firstStringBlock == h.snap.chain[0] && h.totalStringSize == 0
    modifies h`mem, h`blocks, h`totalStringSize, h`currentStringBlock, h`freed
    ensures h.snap.ChainShape() && Compacted(h.snap, old(h.State()), h.mem, h.blocks, reloc, chain)
    ensures h.totalStringSize == Sum(Sizes(h.snap, AllLive(h.snap, old(h.State()).chains)))
    ensures h.currentStringBlock == chain[|chain| - 1]
    ensures h.freed == old(h.freed) + SetOf(h.snap.chain[|chain|..])
  {
    hide Snapshot.BlocksTiled, Inv, AllMoved, Refilled, RelocOk, Relocated, ShapeKept, SizeAt, Unscanned,
         LiveList, Sizes, Cursor, SetOf, WritesAt;
    ghost var snap, st := h.snap, h.State();
    Ranks(snap);
    Initially(snap, st);
    reloc := map[];
    var toSb, toPos := h.firstStringBlock, 0;
    var fromSb: int := h.firstStringBlock;
    ghost var r := 0;
    SumNothing(snap, st.chains);
    while fromSb != -1
      invariant h.snap == snap && r <= |snap.chain| && h.freed == old(h.freed)
      invariant r < |snap.chain| ==> fromSb == snap.chain[r] && Compacting(snap, st, h.mem, h.blocks, reloc, r, 0)
      invariant r < |snap.chain| ==> WritesAt(snap, st.chains, r, 0, toSb, toPos)
      invariant r < |snap.chain| ==> h.totalStringSize == LiveSize(snap, st.chains, r, 0)
      invariant r == |snap.chain| ==>
        fromSb == -1 && Compacting(snap, st, h.mem, h.blocks, reloc, r - 1, |snap.offs[r - 1]|)
      invariant r == |snap.chain| ==> WritesAt(snap, st.chains, r - 1, |snap.offs[r - 1]|, toSb, toPos)
      invariant r == |snap.chain| ==> h.totalStringSize == LiveSize(snap, st.chains, r - 1, |snap.offs[r - 1]|)
      decreases |snap.chain| - r
    {
      toSb, toPos, reloc := ScanBlock(h, st, reloc, r, fromSb, toSb, toPos);
      ShapeLengths(snap, h.blocks, r);
      if r + 1 < |snap.chain| {
        StepBlock(snap, st, h.mem, h.blocks, reloc, r);
        NextBlockSame(snap, st.chains, r, toSb, toPos);
      }
      fromSb := h.blocks[fromSb].next;
      r := r + 1;
    }
    chain := Finish(h, st, reloc, toSb, toPos);
  }

  lemma NextBlockSame(h: Snapshot, chains: map<StrLoc, seq<nat>>, r: nat, toSb: nat, toPos: nat)
    requires h.ChainShape() && r + 1 < |h.chain| && WritesAt(h, chains, r, |h.offs[r]|, toSb, toPos)
    ensures WritesAt(h, chains, r + 1, 0, toSb, toPos)
    ensures LiveSize(h, chains, r + 1, 0) == LiveSize(h, chains, r, |h.offs[r]|)
  {
  }

  lemma SumNothing(h: Snapshot, chains: map<StrLoc, seq<nat>>)
    requires h.ChainShape()
    ensures LiveSize(h, chains, 0, 0) == 0
  {
  }

  /** Closes the last block in use and frees the rest. */
  method Finish(h: Heap, ghost st: GcState, ghost reloc: map<StrLoc, StrLoc>, toSb: nat, toPos: nat)
    returns (ghost chain: seq<nat>)
    requires h.snap.ChainShape() && var last := |h.snap.chain| - 1;
      && Compacting(h.snap, st, h.mem, h.blocks, reloc, last, |h.snap.offs[last]|)
      && WritesAt(h.snap, st.chains, last, |h.snap.offs[last]|, toSb, toPos)
    requires h.firstStringBlock == h.snap.chain[0]
    modifies h`blocks, h`currentStringBlock, h`freed
    ensures Compacted(h.snap, st, h.mem, h.blocks, reloc, chain)
    ensures h.currentStringBlock == chain[|chain| - 1]
    ensures h.freed == old(h.freed) + SetOf(h.snap.chain[|chain|..])
  {
    hide Snapshot.BlocksTiled, Inv, AllMoved, Refilled, RelocOk, Relocated, SizeAt, Unscanned,
         LiveList, Sizes, Cursor, SetOf, Linked, Tiling, OffsAt, Kept, ShapeKept;
    ghost var snap, blocks0 := h.snap, h.blocks;
    ghost var last := |snap.chain| - 1;
    ghost var sizes := Sizes(snap, AllLive(snap, st.chains));
    ghost var t := Cursor(sizes).rank;
    LiveFits(snap, st.chains, last, |snap.offs[last]|);
    ShapeLengths(snap, blocks0, t);
    h.blocks := CloseOut(h.blocks, toSb, toPos);
    ghost var blocks1 := h.blocks;
    LinksAfterClose(snap, blocks0, toSb, toPos);
    h.currentStringBlock := toSb;
    FreeFollowing(h, toSb, snap.chain, t);
    chain := snap.chain[..t + 1];
    ghost var blocks2 := h.blocks;
    assert ShapeKept(snap, blocks1);
    CutShape(snap, blocks1, toSb, -1);
    AllClosed(snap, blocks0, sizes, blocks2);
    LinkedBlocks(blocks2, chain);
    NothingEmpty(blocks2, chain);
    UnlinkEmpty(h, chain);
    assert SetOf(chain) - SetOf(chain) == {};
    SameShape(snap, blocks2, h.blocks);
    AllMovedSame(snap, blocks0, h.blocks, AllLive(snap, st.chains));
  }

  lemma CutShape(h: Snapshot, blocks: seq<Block>, sb: nat, next: int)
    requires h.ChainShape() && ShapeKept(h, blocks) && sb < |blocks|
    ensures ShapeKept(h, SetNext(blocks, sb, next))
  {
  }

  lemma SameShape(h: Snapshot, blocks: seq<Block>, blocks': seq<Block>)
    requires h.ChainShape() && ShapeKept(h, blocks) && SameStrings(blocks, blocks')
    ensures ShapeKept(h, blocks')
    ensures forall k: nat :: k < |h.chain| ==> blocks'[h.chain[k]].chars == blocks[h.chain[k]].chars
    ensures forall k: nat :: k < |h.chain| ==> blocks'[h.chain[k]].pos == blocks[h.chain[k]].pos
  {
  }

  lemma LinksAfterClose(h: Snapshot, blocks: seq<Block>, sb: nat, pos: nat)
    requires h.BlocksTiled() && ShapeKept(h, blocks) && LinksKept(h, blocks) && sb < |blocks|
      && pos <= STRING_BLOCK_SIZE
    ensures ShapeKept(h, CloseOut(blocks, sb, pos)) && LinksKept(h, CloseOut(blocks, sb, pos))
    ensures Linked(CloseOut(blocks, sb, pos), h.chain)
  {
    ChainIsLinked(h, CloseOut(blocks, sb, pos));
  }
}
