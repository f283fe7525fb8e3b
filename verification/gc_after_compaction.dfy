// What compaction leaves: the strings in use, once each, at new places, tiling the blocks that remain.

module AfterCompaction {
  import opened LispHeap
  import opened Placement
  import opened Compaction
  import opened BlockChain
  import opened CompactStrings
  import opened StringAlloc

  // ---- which strings are moved ----

  predicate Before(r0: nat, j0: nat, r: nat, j: nat) { r0 < r || (r0 == r && j0 < j) }

  lemma {:induction false} LiveListHas(h: Snapshot, chains: map<StrLoc, seq<nat>>, r: nat, j: nat, r0: nat, j0: nat)
    requires h.ChainShape() && r < |h.chain| && j <= |h.offs[r]|
    requires r0 < |h.chain| && j0 < |h.offs[r0]| && Before(r0, j0, r, j)
    requires Live(chains, Loc(h, Place(r0, h.offs[r0][j0])))
    ensures Place(r0, h.offs[r0][j0]) in LiveList(h, chains, r, j)
    decreases r, j
  {
    hide Live;
    if j > 0 {
      if r0 < r || j0 < j - 1 { LiveListHas(h, chains, r, j - 1, r0, j0); }
    } else {
      LiveListHas(h, chains, r - 1, |h.offs[r - 1]|, r0, j0);
    }
  }

  lemma AllLiveScanned(h: Snapshot, chains: map<StrLoc, seq<nat>>)
    requires h.BlocksTiled()
    ensures h.ChainShape()
    ensures forall i :: 0 <= i < |AllLive(h, chains)| ==>
      IsString(h, AllLive(h, chains)[i]) && Live(chains, Loc(h, AllLive(h, chains)[i]))
    ensures Fits(Sizes(h, AllLive(h, chains)))
  {
    hide LiveList, SizeAt, IsString, Live;
    Ranks(h);
    LiveSources(h, chains, |h.chain| - 1, |h.offs[|h.chain| - 1]|);
  }

  lemma StringKnown(h: Snapshot, p: Place)
    requires h.BlocksTiled() && h.ChainShape() && IsString(h, p)
    ensures p.rank < |h.chain| && Loc(h, p) in h.strs
    ensures p.offset < STRING_BLOCK_SIZE && h.chain[p.rank] < |h.blocks|
    ensures |h.blocks[h.chain[p.rank]].chars| == STRING_BLOCK_SIZE && SizeAt(h, p) == h.Size(Loc(h, p))
  {
    var j: nat :| j < |h.offs[p.rank]| && h.offs[p.rank][j] == p.offset;
    StringFits(h, p.rank, j);
  }

  /** The strings that are moved are those a marked cell or a root refers to. */
  lemma RelocDomain(h: Snapshot, chains: map<StrLoc, seq<nat>>, reloc: map<StrLoc, StrLoc>)
    requires h.BlocksTiled() && h.ChainShape() && RelocOk(h, AllLive(h, chains), reloc)
    ensures forall s :: s in reloc <==> s in h.strs && Live(chains, s)
  {
    hide LiveList, Live, IsString, Dest, Sizes, Tiling, Snapshot.ChainLinks;
    AllLiveScanned(h, chains);
    var l := AllLive(h, chains);
    forall s | s in reloc
      ensures s in h.strs && Live(chains, s)
    {
      var i: nat :| i < |l| && l[i].rank < |h.chain| && s == Loc(h, l[i]);
      StringKnown(h, l[i]);
    }
    forall s | s in h.strs && Live(chains, s)
      ensures s in reloc
    {
      var r, j := StartOf(h, s);
      var last := |h.chain| - 1;
      LiveListHas(h, chains, last, |h.offs[last]|, r, j);
      var i: nat :| i < |l| && l[i] == Place(r, h.offs[r][j]);
    }
  }

  /** Two strings are never moved to the same place. */
  lemma RelocInjective(h: Snapshot, l: seq<Place>, reloc: map<StrLoc, StrLoc>, s: StrLoc, t: StrLoc)
    requires h.ChainShape() && RelocOk(h, l, reloc) && s in reloc && t in reloc && s != t
    ensures reloc[s] != reloc[t]
  {
    hide SizeAt, Sizes, Dest;
    var i: nat :| i < |l| && l[i].rank < |h.chain| && s == Loc(h, l[i]);
    var j: nat :| j < |l| && l[j].rank < |h.chain| && t == Loc(h, l[j]);
    if i < j { InOrder(Sizes(h, l), i, j); } else { InOrder(Sizes(h, l), j, i); }
  }

  lemma MovedSame(h: Snapshot, h': Snapshot, d: Place, s: Place)
    requires h.BlocksTiled() && h.ChainShape() && ShapeKept(h, h'.blocks) && IsString(h, s) && Moved(h, h'.blocks, d, s)
    ensures d.rank < |h.chain| && s.rank < |h.chain| && SameString(h, Loc(h, s), h', Loc(h, d))
    ensures h'.blocks[h.chain[d.rank]].chars[d.offset] <= STRING_BLOCK_SIZE
  {
    StringKnown(h, s);
  }

  /** A string has the same length and bytes at its new place, and its size word is a size again. */
  lemma RelocSame(h: Snapshot, chains: map<StrLoc, seq<nat>>, h': Snapshot, reloc: map<StrLoc, StrLoc>, s: StrLoc)
    requires h.BlocksTiled() && h.ChainShape() && ShapeKept(h, h'.blocks) && AllMoved(h, h'.blocks, AllLive(h, chains))
    requires RelocOk(h, AllLive(h, chains), reloc) && s in reloc
    ensures SameString(h, s, h', reloc[s])
    ensures h'.blocks[reloc[s].block].chars[reloc[s].offset] <= STRING_BLOCK_SIZE
  {
    hide LiveList, Live, IsString, Dest, Sizes, SizeAt, Snapshot.BlocksTiled, ShapeKept, Moved;
    AllLiveScanned(h, chains);
    var l := AllLive(h, chains);
    var i: nat :| i < |l| && l[i].rank < |h.chain| && s == Loc(h, l[i]);
    MovedSame(h, h', Dest(Sizes(h, l), i), l[i]);
  }

  // ---- the blocks afterwards ----

  ghost function NewOffs(sizes: seq<nat>, n: nat): (offs: seq<seq<nat>>)
    ensures |offs| == n && forall k: nat :: k < n ==> offs[k] == OffsAt(sizes, k)
  {
    seq(n, (k: nat) => OffsAt(sizes, k))
  }

  ghost predicate StringsMoved(h: Snapshot, chains: map<StrLoc, seq<nat>>, reloc: map<StrLoc, StrLoc>, h': Snapshot)
    requires h.ChainShape()
  {
    var sizes := Sizes(h, AllLive(h, chains));
    var t := Cursor(sizes).rank;
    && t < |h.chain| && h'.chain == h.chain[..t + 1] && ShapeKept(h, h'.blocks) && Linked(h'.blocks, h'.chain)
    && (forall k: nat :: k < |h'.chain| ==>
          Tiling(h'.blocks[h'.chain[k]].chars, OffsAt(sizes, k), h'.blocks[h'.chain[k]].pos))
    && AllMoved(h, h'.blocks, AllLive(h, chains))
    && RelocOk(h, AllLive(h, chains), reloc)
    && h'.offs == NewOffs(sizes, t + 1)
    && h'.strs == (set s | s in reloc :: reloc[s])
  }

  lemma TiledAgain(h: Snapshot, chains: map<StrLoc, seq<nat>>, reloc: map<StrLoc, StrLoc>, h': Snapshot)
    requires h.BlocksTiled() && h.ChainShape() && StringsMoved(h, chains, reloc, h')
    ensures h'.BlocksTiled()
  {
    hide LiveList, Live, IsString, Dest, Sizes, Tiling, Cursor, OffsAt, Moved, AllMoved, RelocOk, LinkOk, SizeAt;
    assert h'.ChainShape();
    forall r: nat | r < |h'.chain|
      ensures h'.blocks[h'.chain[r]].next == LinkAfter(h'.chain, r)
    {
      LinkedMeans(h'.blocks, h'.chain, r);
    }
    StartsAgain(h, chains, reloc, h');
  }

  lemma DestRank(sizes: seq<nat>, i: nat)
    requires i < |sizes|
    ensures Dest(sizes, i).rank <= Cursor(sizes).rank
  {
    CursorStep(sizes, i);
    CursorsGrow(sizes, i + 1, |sizes|);
    assert sizes[..|sizes|] == sizes;
  }

  /** The chain of h' is the first part of the chain of h, and its strings are where they were placed. */
  ghost predicate Replaced(h: Snapshot, sizes: seq<nat>, h': Snapshot)
    requires h'.ChainShape()
  {
    var t := Cursor(sizes).rank;
    t < |h.chain| && h'.chain == h.chain[..t + 1] && h'.offs == NewOffs(sizes, t + 1)
  }

  lemma PlaceIsStart(h: Snapshot, sizes: seq<nat>, h': Snapshot, i: nat)
    requires h'.ChainShape() && Replaced(h, sizes, h') && i < |sizes|
    ensures Dest(sizes, i).rank < |h.chain| && h'.IsStart(Loc(h, Dest(sizes, i)))
  {
    hide Dest, Cursor, OffsAt;
    var d := Dest(sizes, i);
    DestRank(sizes, i);
    OffsAtDest(sizes, d.rank, d.offset);
    assert d == Place(d.rank, d.offset);
    var j: nat :| j < |OffsAt(sizes, d.rank)| && OffsAt(sizes, d.rank)[j] == d.offset;
    assert Loc(h, d) == StrLoc(h'.chain[d.rank], h'.offs[d.rank][j]);
  }

  lemma StartIsPlace(h: Snapshot, sizes: seq<nat>, h': Snapshot, s: StrLoc) returns (i: nat)
    requires h'.ChainShape() && Replaced(h, sizes, h') && h'.IsStart(s)
    ensures i < |sizes| && Dest(sizes, i).rank < |h.chain| && s == Loc(h, Dest(sizes, i))
  {
    hide Dest, Cursor, OffsAt;
    var r: nat, j: nat :| r < |h'.chain| && j < |h'.offs[r]| && s == StrLoc(h'.chain[r], h'.offs[r][j]);
    OffsAtDest(sizes, r, h'.offs[r][j]);
    i :| i < |sizes| && Dest(sizes, i) == Place(r, h'.offs[r][j]);
  }

  lemma RelocIndex(h: Snapshot, l: seq<Place>, reloc: map<StrLoc, StrLoc>, s: StrLoc) returns (i: nat)
    requires h.ChainShape() && RelocOk(h, l, reloc) && s in reloc
    ensures i < |l| && Dest(Sizes(h, l), i).rank < |h.chain| && reloc[s] == Loc(h, Dest(Sizes(h, l), i))
  {
    i :| i < |l| && l[i].rank < |h.chain| && s == Loc(h, l[i]);
  }

  lemma RelocAt(h: Snapshot, l: seq<Place>, reloc: map<StrLoc, StrLoc>, i: nat) returns (s: StrLoc)
    requires h.ChainShape() && RelocOk(h, l, reloc) && i < |l|
    ensures Dest(Sizes(h, l), i).rank < |h.chain|
    ensures s in reloc && reloc[s] == Loc(h, Dest(Sizes(h, l), i))
  {
    s := Loc(h, l[i]);
  }

  lemma StartsAgain(h: Snapshot, chains: map<StrLoc, seq<nat>>, reloc: map<StrLoc, StrLoc>, h': Snapshot)
    requires h.ChainShape() && StringsMoved(h, chains, reloc, h') && h'.ChainShape()
    ensures h'.StartsOk()
  {
    hide LiveList, Dest, Tiling, Cursor, OffsAt, AllMoved, RelocOk, Linked, ShapeKept, Snapshot.IsStart,
         Snapshot.ChainShape, NewOffs;
    var l := AllLive(h, chains);
    var sizes := Sizes(h, l);
    assert Replaced(h, sizes, h');
    forall s' | s' in h'.strs
      ensures h'.IsStart(s')
    {
      var s :| s in reloc && s' == reloc[s];
      var i := RelocIndex(h, l, reloc, s);
      PlaceIsStart(h, sizes, h', i);
    }
    forall s' | h'.IsStart(s')
      ensures s' in h'.strs
    {
      var i := StartIsPlace(h, sizes, h', s');
      var s := RelocAt(h, l, reloc, i);
    }
  }
}
