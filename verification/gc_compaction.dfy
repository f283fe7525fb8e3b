// What compact_strings keeps while it slides the live strings down: the state after each string
// is the greedy placement of the live strings seen so far.

module Compaction {
  import opened LispHeap
  import opened MarkState
  import opened Placement

  function Loc(h: Snapshot, p: Place): StrLoc
    requires p.rank < |h.chain|
  {
    StrLoc(h.chain[p.rank], p.offset)
  }

  ghost predicate Live(chains: map<StrLoc, seq<nat>>, s: StrLoc) { s in chains && chains[s] != [] }

  /** The live strings in scan order: those of the blocks before r, then the first j of block r. */
  ghost function LiveList(h: Snapshot, chains: map<StrLoc, seq<nat>>, r: nat, j: nat): (l: seq<Place>)
    requires h.ChainShape() && r < |h.chain| && j <= |h.offs[r]|
    decreases r, j
  {
    if j > 0 then
      var p := Place(r, h.offs[r][j - 1]);
      LiveList(h, chains, r, j - 1) + (if Live(chains, Loc(h, p)) then [p] else [])
    else if r > 0 then LiveList(h, chains, r - 1, |h.offs[r - 1]|)
    else []
  }

  ghost predicate IsString(h: Snapshot, p: Place)
    requires h.ChainShape()
  {
    p.rank < |h.chain| && p.offset in h.offs[p.rank]
  }

  ghost function SizeAt(h: Snapshot, p: Place): nat
    requires h.ChainShape()
  {
    if p.rank < |h.chain| && p.offset < STRING_BLOCK_SIZE then h.blocks[h.chain[p.rank]].chars[p.offset] else 0
  }

  ghost function Sizes(h: Snapshot, l: seq<Place>): (sizes: seq<nat>)
    requires h.ChainShape()
    ensures |sizes| == |l|
    ensures forall i :: 0 <= i < |l| ==> sizes[i] == SizeAt(h, l[i])
  {
    seq(|l|, i requires 0 <= i < |l| => SizeAt(h, l[i]))
  }

  ghost function ScanPos(h: Snapshot, r: nat, j: nat): nat
    requires h.ChainShape() && r < |h.chain|
  {
    NextOffset(h.offs[r], h.blocks[h.chain[r]].pos, j)
  }

  lemma StringFits(h: Snapshot, r: nat, j: nat)
    requires h.BlocksTiled() && r < |h.chain| && j < |h.offs[r]|
    ensures var p := Place(r, h.offs[r][j]);
      && p.offset == ScanPos(h, r, j)
      && p.offset + FullSize(SizeAt(h, p)) == ScanPos(h, r, j + 1) <= h.blocks[h.chain[r]].pos <= STRING_BLOCK_SIZE
      && IsString(h, p) && Loc(h, p) in h.strs
  {
    var b := h.blocks[h.chain[r]];
    assert Adjacent(b.chars, h.offs[r], b.pos, j);
    TilingBelow(b.chars, h.offs[r], b.pos, j + 1, |h.offs[r]|);
  }

  /** A list of live strings in chain order, all of them before the scan position. */
  ghost predicate Scanned(h: Snapshot, chains: map<StrLoc, seq<nat>>, l: seq<Place>, at: Place)
    requires h.ChainShape()
  {
    && Sources(Sizes(h, l), l)
    && (l != [] ==> AtMost(After(l[|l| - 1], SizeAt(h, l[|l| - 1])), at))
    && (forall i :: 0 <= i < |l| ==> IsString(h, l[i]) && Live(chains, Loc(h, l[i])))
  }

  lemma ScannedSkip(h: Snapshot, chains: map<StrLoc, seq<nat>>, l: seq<Place>, at: Place, at': Place)
    requires h.ChainShape() && Scanned(h, chains, l, at) && AtMost(at, at')
    ensures Scanned(h, chains, l, at')
  {
  }

  lemma ScannedSnoc(h: Snapshot, chains: map<StrLoc, seq<nat>>, l: seq<Place>, p: Place)
    requires h.ChainShape() && Scanned(h, chains, l, p)
    requires IsString(h, p) && Live(chains, Loc(h, p))
    requires p.offset + FullSize(SizeAt(h, p)) <= STRING_BLOCK_SIZE
    ensures Scanned(h, chains, l + [p], After(p, SizeAt(h, p)))
  {
    hide SizeAt, IsString, Live;
    assert Sizes(h, l + [p]) == Sizes(h, l) + [SizeAt(h, p)];
  }

  lemma {:induction false} LiveSources(h: Snapshot, chains: map<StrLoc, seq<nat>>, r: nat, j: nat)
    requires h.BlocksTiled() && r < |h.chain| && j <= |h.offs[r]|
    ensures Scanned(h, chains, LiveList(h, chains, r, j), Place(r, ScanPos(h, r, j)))
    decreases r, j
  {
    hide Snapshot.BlocksTiled, Scanned, SizeAt;
    Ranks(h);
    if j > 0 {
      var p := Place(r, h.offs[r][j - 1]);
      var l0 := LiveList(h, chains, r, j - 1);
      LiveSources(h, chains, r, j - 1);
      StringFits(h, r, j - 1);
      if Live(chains, Loc(h, p)) {
        ScannedSnoc(h, chains, l0, p);
      } else {
        assert LiveList(h, chains, r, j) == l0;
        ScannedSkip(h, chains, l0, Place(r, ScanPos(h, r, j - 1)), Place(r, ScanPos(h, r, j)));
      }
    } else if r > 0 {
      LiveSources(h, chains, r - 1, |h.offs[r - 1]|);
      ScannedSkip(h, chains, LiveList(h, chains, r, j),
                  Place(r - 1, ScanPos(h, r - 1, |h.offs[r - 1]|)), Place(r, ScanPos(h, r, j)));
    } else {
      NothingScanned(h, chains, Place(r, ScanPos(h, r, j)));
    }
  }

  lemma NothingScanned(h: Snapshot, chains: map<StrLoc, seq<nat>>, at: Place)
    requires h.ChainShape()
    ensures Scanned(h, chains, [], at)
  {
  }

  lemma Ranks(h: Snapshot)
    requires h.BlocksTiled()
    ensures h.ChainShape()
  {
  }

  lemma NextBlock(h: Snapshot, r: nat)
    requires h.BlocksTiled() && r < |h.chain|
    ensures h.chain[r] < |h.blocks|
    ensures h.blocks[h.chain[r]].next == LinkAfter(h.chain, r)
  {
  }

  // ---- the state while strings are being moved ----

  ghost predicate ShapeKept(h: Snapshot, blocks: seq<Block>)
    requires h.ChainShape()
  {
    && |blocks| == |h.blocks|
    && (forall k: nat :: k < |h.chain| ==>
          && blocks[h.chain[k]].pos <= STRING_BLOCK_SIZE
          && |blocks[h.chain[k]].chars| == STRING_BLOCK_SIZE)
  }

  ghost predicate LinksKept(h: Snapshot, blocks: seq<Block>)
    requires h.ChainShape()
  {
    |blocks| == |h.blocks| && forall b: nat :: b < |blocks| ==> blocks[b].next == h.blocks[b].next
  }

  /** The bytes of a string of size n that starts at `off`, and its NUL. */
  function Text(chars: seq<nat>, off: nat, n: nat): seq<nat>
    requires off + FullSize(n) <= |chars|
  {
    chars[off + WORD..off + WORD + n + 1]
  }

  /** The string that was at place `s` is at place `d`. */
  ghost predicate Moved(h: Snapshot, blocks: seq<Block>, d: Place, s: Place)
    requires h.ChainShape() && ShapeKept(h, blocks)
  {
    var n := SizeAt(h, s);
    && d.rank < |h.chain| && d.offset + FullSize(n) <= STRING_BLOCK_SIZE
    && s.rank < |h.chain| && s.offset + FullSize(n) <= STRING_BLOCK_SIZE
    && blocks[h.chain[d.rank]].chars[d.offset] == n
    && Text(blocks[h.chain[d.rank]].chars, d.offset, n) == Text(h.blocks[h.chain[s.rank]].chars, s.offset, n)
  }

  ghost predicate AllMoved(h: Snapshot, blocks: seq<Block>, l: seq<Place>)
    requires h.ChainShape() && ShapeKept(h, blocks)
  {
    forall i: nat :: i < |l| ==> Moved(h, blocks, Dest(Sizes(h, l), i), l[i])
  }

  /** What lies at or after the scan position is as marking left it. */
  ghost predicate Unscanned(h: Snapshot, blocks0: seq<Block>, blocks: seq<Block>, r: nat, from: nat)
    requires h.ChainShape() && ShapeKept(h, blocks0) && ShapeKept(h, blocks)
  {
    && r < |h.chain| && from <= STRING_BLOCK_SIZE
    && (forall q: nat :: r < q < |h.chain| ==> blocks[h.chain[q]] == blocks0[h.chain[q]])
    && blocks[h.chain[r]].pos == blocks0[h.chain[r]].pos
    && blocks[h.chain[r]].chars[from..] == blocks0[h.chain[r]].chars[from..]
  }

  /** The blocks that have been closed, and the one being filled, are tiled by moved strings. */
  ghost predicate Refilled(h: Snapshot, blocks: seq<Block>, sizes: seq<nat>)
    requires h.ChainShape() && ShapeKept(h, blocks)
  {
    var t := Cursor(sizes).rank;
    && t < |h.chain|
    && (forall k: nat :: k < t ==> Tiling(blocks[h.chain[k]].chars, OffsAt(sizes, k), blocks[h.chain[k]].pos))
    && Tiling(blocks[h.chain[t]].chars, OffsAt(sizes, t), Cursor(sizes).offset)
  }

  /** bcopy of n units, header word included; the ranges may overlap. */
  function CopyString(blocks: seq<Block>, src: StrLoc, dst: StrLoc, n: nat): seq<Block>
    requires src.block < |blocks| && src.offset + n <= |blocks[src.block].chars|
    requires dst.block < |blocks| && dst.offset + n <= |blocks[dst.block].chars|
  {
    var b := blocks[dst.block];
    var moved := blocks[src.block].chars[src.offset..src.offset + n];
    blocks[dst.block := b.(chars := b.chars[..dst.offset] + moved + b.chars[dst.offset + n..])]
  }

  function CloseOut(blocks: seq<Block>, id: nat, pos: nat): seq<Block>
    requires id < |blocks|
  {
    blocks[id := blocks[id].(pos := pos)]
  }

  /** The blocks after the live string at `s` has been moved to `d` by a write position `at`. */
  ghost predicate MoveOne(h: Snapshot, blocks: seq<Block>, at: Place, s: Place, d: Place, blocks': seq<Block>)
    requires h.ChainShape() && ShapeKept(h, blocks) && ShapeKept(h, blocks')
  {
    var n := SizeAt(h, s);
    && at.rank < |h.chain| && d.rank < |h.chain| && s.rank < |h.chain|
    && s.offset + FullSize(n) <= STRING_BLOCK_SIZE && d.offset + FullSize(n) <= STRING_BLOCK_SIZE
    && (forall k: nat :: k < |h.chain| && !(k == at.rank && d.rank != at.rank) ==>
          blocks'[h.chain[k]].pos == blocks[h.chain[k]].pos)
    && (d.rank != at.rank ==> blocks'[h.chain[at.rank]].pos == at.offset)
    && (forall k: nat :: k < |h.chain| && k != d.rank ==> blocks'[h.chain[k]].chars == blocks[h.chain[k]].chars)
    && var c, c' := blocks[h.chain[d.rank]].chars, blocks'[h.chain[d.rank]].chars;
      && c'[..d.offset] == c[..d.offset]
      && c'[d.offset + FullSize(n)..] == c[d.offset + FullSize(n)..]
      && c'[d.offset] == n
      && Text(c', d.offset, n) == Text(blocks[h.chain[s.rank]].chars, s.offset, n)
  }

  lemma UnscannedStep(h: Snapshot, blocks0: seq<Block>, blocks: seq<Block>, at: Place, s: Place, d: Place,
                      blocks': seq<Block>)
    requires h.ChainShape() && ShapeKept(h, blocks0) && ShapeKept(h, blocks) && ShapeKept(h, blocks')
    requires LinksKept(h, blocks) && LinksKept(h, blocks')
    requires Unscanned(h, blocks0, blocks, s.rank, s.offset)
    requires MoveOne(h, blocks, at, s, d, blocks')
    requires AtMost(at, d) && AtMost(d, s)
    ensures Unscanned(h, blocks0, blocks', s.rank, s.offset + FullSize(SizeAt(h, s)))
  {
    hide SizeAt;
    var n := SizeAt(h, s);
    forall q: nat | s.rank < q < |h.chain|
      ensures blocks'[h.chain[q]] == blocks0[h.chain[q]]
    {
      assert blocks'[h.chain[q]] == blocks[h.chain[q]];
    }
    var b0, b, b' := blocks0[h.chain[s.rank]].chars, blocks[h.chain[s.rank]].chars, blocks'[h.chain[s.rank]].chars;
    SameTail(b, b0, s.offset, s.offset + FullSize(n));
    if d.rank == s.rank {
      SameTail(b', b, d.offset + FullSize(n), s.offset + FullSize(n));
    }
  }

  lemma SameTail(a: seq<nat>, b: seq<nat>, i: nat, j: nat)
    requires i <= j <= |a| && |a| == |b| && a[i..] == b[i..]
    ensures a[j..] == b[j..]
  {
    assert a[j..] == a[i..][j - i..];
    assert b[j..] == b[i..][j - i..];
  }

  lemma TextBelow(a: seq<nat>, b: seq<nat>, off: nat, n: nat, m: nat)
    requires off + FullSize(n) <= m <= |a| && |a| == |b| && a[..m] == b[..m]
    ensures a[off] == b[off] && Text(a, off, n) == Text(b, off, n)
  {
    assert a[off] == a[..m][off] && b[off] == b[..m][off];
    SliceBelow(a, m, off + WORD, off + WORD + n + 1);
    SliceBelow(b, m, off + WORD, off + WORD + n + 1);
  }

  lemma SliceBelow(a: seq<nat>, m: nat, i: nat, j: nat)
    requires i <= j <= m <= |a|
    ensures a[..m][i..j] == a[i..j]
  {
  }

  lemma SliceAbove(a: seq<nat>, m: nat, i: nat, j: nat)
    requires m + i <= m + j <= |a|
    ensures a[m..][i..j] == a[m + i..m + j]
  {
  }

  lemma TextAbove(a: seq<nat>, b: seq<nat>, off: nat, n: nat)
    requires off + FullSize(n) <= |a| && |a| == |b| && a[off..] == b[off..]
    ensures a[off] == b[off] && Text(a, off, n) == Text(b, off, n)
  {
    assert a[off] == a[off..][0] && b[off] == b[off..][0];
    SliceAbove(a, off, WORD, WORD + n + 1);
    SliceAbove(b, off, WORD, WORD + n + 1);
  }

  lemma MovedStays(h: Snapshot, blocks: seq<Block>, at: Place, s: Place, d: Place, blocks': seq<Block>, d0: Place,
                   s0: Place)
    requires h.ChainShape() && ShapeKept(h, blocks) && ShapeKept(h, blocks')
    requires MoveOne(h, blocks, at, s, d, blocks') && Moved(h, blocks, d0, s0)
    requires AtMost(After(d0, SizeAt(h, s0)), d)
    ensures Moved(h, blocks', d0, s0)
  {
    hide SizeAt;
    var b, b' := blocks[h.chain[d0.rank]].chars, blocks'[h.chain[d0.rank]].chars;
    if d0.rank == d.rank {
      TextBelow(b', b, d0.offset, SizeAt(h, s0), d.offset);
    }
  }

  lemma MovedNow(h: Snapshot, blocks0: seq<Block>, blocks: seq<Block>, at: Place, s: Place, d: Place,
                 blocks': seq<Block>)
    requires h.ChainShape() && ShapeKept(h, blocks0) && ShapeKept(h, blocks) && ShapeKept(h, blocks')
    requires MoveOne(h, blocks, at, s, d, blocks')
    requires Unscanned(h, blocks0, blocks, s.rank, s.offset) && |h.blocks[h.chain[s.rank]].chars| == STRING_BLOCK_SIZE
    requires var n := SizeAt(h, s);
      Text(blocks0[h.chain[s.rank]].chars, s.offset, n) == Text(h.blocks[h.chain[s.rank]].chars, s.offset, n)
    ensures Moved(h, blocks', d, s)
  {
    hide SizeAt;
    TextAbove(blocks[h.chain[s.rank]].chars, blocks0[h.chain[s.rank]].chars, s.offset, SizeAt(h, s));
  }

  lemma AllMovedStep(h: Snapshot, blocks0: seq<Block>, blocks: seq<Block>, l: seq<Place>, s: Place, blocks': seq<Block>)
    requires h.ChainShape() && ShapeKept(h, blocks0) && ShapeKept(h, blocks) && ShapeKept(h, blocks')
    requires AllMoved(h, blocks, l)
    requires var at := Cursor(Sizes(h, l));
      MoveOne(h, blocks, at, s, Choose(at, SizeAt(h, s)), blocks')
    requires Unscanned(h, blocks0, blocks, s.rank, s.offset) && s.rank < |h.chain|
    requires s.offset + FullSize(SizeAt(h, s)) <= STRING_BLOCK_SIZE
    requires Text(blocks0[h.chain[s.rank]].chars, s.offset, SizeAt(h, s))
      == Text(h.blocks[h.chain[s.rank]].chars, s.offset, SizeAt(h, s))
    ensures AllMoved(h, blocks', l + [s])
  {
    hide SizeAt, MoveOne, Unscanned, Moved;
    var sizes := Sizes(h, l);
    var z := SizeAt(h, s);
    var at := Cursor(sizes);
    assert Sizes(h, l + [s]) == sizes + [z];
    CursorSnoc(sizes, z);
    forall i: nat | i < |l| + 1
      ensures Moved(h, blocks', Dest(sizes + [z], i), (l + [s])[i])
    {
      if i < |l| {
        DestOfPrefix(sizes, [z], i);
        InOrder(sizes + [z], i, |l|);
        MovedStays(h, blocks, at, s, Choose(at, z), blocks', Dest(sizes, i), l[i]);
      } else {
        MovedNow(h, blocks0, blocks, at, s, Choose(at, z), blocks');
      }
    }
  }

  lemma TilingSnoc(c: seq<nat>, offs: seq<nat>, hi: nat, c': seq<nat>, n: nat)
    requires Tiling(c, offs, hi) && |c'| == |c| && c'[..hi] == c[..hi]
    requires hi + FullSize(n) <= |c| && c'[hi] == n
    ensures Tiling(c', offs + [hi], hi + FullSize(n))
  {
    var offs', hi' := offs + [hi], hi + FullSize(n);
    forall j: nat | j < |offs'|
      ensures Adjacent(c', offs', hi', j)
    {
      if j < |offs| {
        assert Adjacent(c, offs, hi, j);
        TilingBelow(c, offs, hi, j, |offs|);
        assert c'[offs[j]] == c'[..hi][offs[j]];
      }
    }
  }

  lemma RefilledStep(h: Snapshot, blocks: seq<Block>, sizes: seq<nat>, s: Place, blocks': seq<Block>)
    requires h.ChainShape() && ShapeKept(h, blocks) && ShapeKept(h, blocks')
    requires Refilled(h, blocks, sizes) && Fits(sizes) && FullSize(SizeAt(h, s)) <= STRING_BLOCK_SIZE
    requires var at := Cursor(sizes); MoveOne(h, blocks, at, s, Choose(at, SizeAt(h, s)), blocks')
    ensures Refilled(h, blocks', sizes + [SizeAt(h, s)])
  {
    hide SizeAt, Tiling, Cursor, OffsAt;
    var z := SizeAt(h, s);
    var at := Cursor(sizes);
    var d := Choose(at, z);
    CursorSnoc(sizes, z);
    OffsAtSnoc(sizes, z, d.rank);
    OffsAtRanks(sizes, d.rank);
    var c, c' := blocks[h.chain[d.rank]].chars, blocks'[h.chain[d.rank]].chars;
    if d.rank == at.rank {
      TilingSnoc(c, OffsAt(sizes, d.rank), at.offset, c', z);
    } else {
      NoStrings(c);
      TilingSnoc(c, [], 0, c', z);
      assert [] + [0] == [0];
    }
    forall k: nat | k < d.rank
      ensures Tiling(blocks'[h.chain[k]].chars, OffsAt(sizes + [z], k), blocks'[h.chain[k]].pos)
    {
      OffsAtSnoc(sizes, z, k);
      assert OffsAt(sizes + [z], k) == OffsAt(sizes, k);
    }
  }

  lemma NoStrings(c: seq<nat>)
    ensures Tiling(c, [], 0)
  {
  }

  // ---- references ----

  /** A slot on the chain of a moved string holds the new address; other slots are untouched. */
  ghost predicate Relocated(h: Snapshot, st: GcState, mem: seq<Word>, reloc: map<StrLoc, StrLoc>) {
    && |mem| == |h.mem| == |st.mem|
    && (forall p: nat :: p < |h.mem| ==>
          mem[p] == if p in st.visited && h.mem[p].val.Small? && h.mem[p].val.loc in reloc
            then Word(st.mem[p].mark, Small(reloc[h.mem[p].val.loc])) else st.mem[p])
  }

  /** `reloc` sends each moved string to its new place. */
  ghost predicate RelocOk(h: Snapshot, l: seq<Place>, reloc: map<StrLoc, StrLoc>)
    requires h.ChainShape()
  {
    && (forall i: nat :: i < |l| ==>
          && l[i].rank < |h.chain| && Dest(Sizes(h, l), i).rank < |h.chain|
          && Loc(h, l[i]) in reloc && reloc[Loc(h, l[i])] == Loc(h, Dest(Sizes(h, l), i)))
    && (forall s :: s in reloc ==> exists i: nat :: i < |l| && l[i].rank < |h.chain| && s == Loc(h, l[i]))
  }

  /** The memory after the slots of one chain have been pointed at the new address. */
  ghost predicate Relinked(mem: seq<Word>, ps: seq<nat>, to: StrLoc, mem': seq<Word>) {
    && |mem'| == |mem|
    && (forall p: nat :: p < |mem| ==> mem'[p] == if p in ps then Word(mem[p].mark, Small(to)) else mem[p])
  }

  lemma RelocatedStep(h: Snapshot, st: GcState, mem: seq<Word>, reloc: map<StrLoc, StrLoc>,
                      s: StrLoc, to: StrLoc, mem': seq<Word>)
    requires Inv(h, st) && Relocated(h, st, mem, reloc)
    requires s in h.strs && s !in reloc && s in st.chains && Relinked(mem, st.chains[s], to, mem')
    ensures Relocated(h, st, mem', reloc[s := to])
  {
    hide Snapshot.Ready, MarksOk, ValsOk, LargeOk, BlocksOk;
  }

  lemma SlotsIntact(h: Snapshot, st: GcState, mem: seq<Word>, reloc: map<StrLoc, StrLoc>, s: StrLoc)
    requires Inv(h, st) && Relocated(h, st, mem, reloc) && s in h.strs && s !in reloc && s in st.chains
    ensures |mem| == |st.mem|
    ensures forall p :: p in st.chains[s] && p < |st.mem| ==> mem[p].val == st.mem[p].val
  {
    hide MarksOk, ValsOk, LargeOk, Snapshot.Sound, Chain, NoDup;
  }

  lemma ChainIntact(h: Snapshot, st: GcState, mem: seq<Word>, reloc: map<StrLoc, StrLoc>, s: StrLoc)
    requires Inv(h, st) && Relocated(h, st, mem, reloc) && s in h.strs && s !in reloc
    ensures s in st.chains && s.block < |st.blocks| && s.offset < |st.blocks[s.block].chars|
    ensures s.block < |h.blocks| && s.offset < |h.blocks[s.block].chars|
    ensures Chain(mem, st.blocks[s.block].chars[s.offset], st.chains[s], h.Size(s))
    ensures NoDup(st.chains[s])
  {
    hide MarksOk, ValsOk, LargeOk;
    SlotsIntact(h, st, mem, reloc, s);
    ChainFrame(st.mem, mem, st.blocks[s.block].chars[s.offset], st.chains[s], h.Size(s));
  }

  lemma RelocOkStep(h: Snapshot, l: seq<Place>, reloc: map<StrLoc, StrLoc>, s: Place)
    requires h.ChainShape() && RelocOk(h, l, reloc) && s.rank < |h.chain|
    requires Loc(h, s) !in reloc
    requires var d := Choose(Cursor(Sizes(h, l)), SizeAt(h, s)); d.rank < |h.chain|
    ensures var d := Choose(Cursor(Sizes(h, l)), SizeAt(h, s));
      RelocOk(h, l + [s], reloc[Loc(h, s) := Loc(h, d)])
  {
    hide SizeAt, Cursor, Choose, Dest;
    var sizes, z := Sizes(h, l), SizeAt(h, s);
    assert Sizes(h, l + [s]) == sizes + [z];
    CursorSnoc(sizes, z);
    var l', reloc' := l + [s], reloc[Loc(h, s) := Loc(h, Choose(Cursor(sizes), z))];
    forall i: nat | i < |l'|
      ensures l'[i].rank < |h.chain| && Dest(Sizes(h, l'), i).rank < |h.chain|
      ensures Loc(h, l'[i]) in reloc' && reloc'[Loc(h, l'[i])] == Loc(h, Dest(Sizes(h, l'), i))
    {
      if i < |l| { DestOfPrefix(sizes, [z], i); }
    }
    forall t | t in reloc'
      ensures exists i: nat :: i < |l'| && l'[i].rank < |h.chain| && t == Loc(h, l'[i])
    {
      if t == Loc(h, s) {
        assert t == Loc(h, l'[|l|]);
      } else {
        var i: nat :| i < |l| && l[i].rank < |h.chain| && t == Loc(h, l[i]);
        assert t == Loc(h, l'[i]);
      }
    }
  }
}
