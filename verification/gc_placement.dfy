// Where compaction puts the live strings: the greedy placement of a list of sizes into blocks of
// STRING_BLOCK_SIZE bytes, independent of the heap it is applied to.

module Placement {
  import opened LispHeap

  /** A place in the chain of string blocks: the block's rank in the chain, and an offset. */
  datatype Place = Place(rank: nat, offset: nat)

  /** One place is before another, or the same. */
  predicate AtMost(a: Place, b: Place) {
    a.rank < b.rank || (a.rank == b.rank && a.offset <= b.offset)
  }

  predicate Fits(sizes: seq<nat>) {
    forall i :: 0 <= i < |sizes| ==> FullSize(sizes[i]) <= STRING_BLOCK_SIZE
  }

  function After(p: Place, size: nat): Place { Place(p.rank, p.offset + FullSize(size)) }

  /** Where a string goes when the write position is `at`: a block that is too full is closed. */
  function Choose(at: Place, size: nat): Place {
    if at.offset + FullSize(size) > STRING_BLOCK_SIZE then Place(at.rank + 1, 0) else at
  }

  /** (to_sb, to_pos) once the strings of these sizes have been written. */
  function Cursor(sizes: seq<nat>): Place {
    if sizes == [] then Place(0, 0)
    else
      var n := |sizes| - 1;
      After(Choose(Cursor(sizes[..n]), sizes[n]), sizes[n])
  }

  /** The new place of string number i. */
  function Dest(sizes: seq<nat>, i: nat): Place
    requires i < |sizes|
  {
    Choose(Cursor(sizes[..i]), sizes[i])
  }

  lemma DestOfPrefix(sizes: seq<nat>, more: seq<nat>, i: nat)
    requires i < |sizes|
    ensures Dest(sizes + more, i) == Dest(sizes, i)
  {
    assert (sizes + more)[..i] == sizes[..i];
  }

  lemma CursorSnoc(sizes: seq<nat>, z: nat)
    ensures Cursor(sizes + [z]) == After(Choose(Cursor(sizes), z), z)
    ensures Dest(sizes + [z], |sizes|) == Choose(Cursor(sizes), z)
  {
    assert (sizes + [z])[..|sizes|] == sizes;
  }

  /** Every string lies inside its block, header, bytes and NUL included. */
  lemma {:induction false} PlacedInside(sizes: seq<nat>, i: nat)
    requires i < |sizes| && Fits(sizes)
    ensures Dest(sizes, i).offset + WORD + sizes[i] + 1 <= STRING_BLOCK_SIZE
    ensures Dest(sizes, i).offset + FullSize(sizes[i]) <= STRING_BLOCK_SIZE
  {
  }

  lemma {:induction false} CursorInside(sizes: seq<nat>)
    requires Fits(sizes)
    ensures Cursor(sizes).offset <= STRING_BLOCK_SIZE
    ensures sizes != [] ==> Cursor(sizes).offset > 0
  {
    if sizes != [] {
      PlacedInside(sizes, |sizes| - 1);
    }
  }

  lemma CursorStep(sizes: seq<nat>, i: nat)
    requires i < |sizes|
    ensures Cursor(sizes[..i + 1]) == After(Dest(sizes, i), sizes[i])
    ensures AtMost(Cursor(sizes[..i]), Dest(sizes, i))
  {
    assert sizes[..i + 1][..i] == sizes[..i];
  }

  /** Strings keep their order and do not overlap: each one starts where the previous one ends, or
      at the beginning of a later block. */
  lemma {:induction false} InOrder(sizes: seq<nat>, i: nat, j: nat)
    requires i < j < |sizes|
    ensures AtMost(After(Dest(sizes, i), sizes[i]), Dest(sizes, j))
    ensures Dest(sizes, i) != Dest(sizes, j)
    decreases j - i
  {
    CursorStep(sizes, i);
    CursorStep(sizes, j);
    CursorsGrow(sizes, i + 1, j);
  }

  lemma {:induction false} CursorsGrow(sizes: seq<nat>, i: nat, j: nat)
    requires i <= j <= |sizes|
    ensures AtMost(Cursor(sizes[..i]), Cursor(sizes[..j]))
    decreases j - i
  {
    if i < j {
      CursorStep(sizes, i);
      CursorsGrow(sizes, i + 1, j);
    }
  }

  /** A list of places the strings have before compaction: in chain order, each inside its block. */
  predicate Sources(sizes: seq<nat>, src: seq<Place>) {
    && |src| == |sizes|
    && (forall i :: 0 <= i < |src| ==> src[i].offset + FullSize(sizes[i]) <= STRING_BLOCK_SIZE)
    && (forall i :: 0 <= i < |src| - 1 ==> AtMost(After(src[i], sizes[i]), src[i + 1]))
  }

  /** The write position never passes the scan position. */
  lemma {:induction false} WriteBehindRead(sizes: seq<nat>, src: seq<Place>, i: nat)
    requires Sources(sizes, src) && i < |sizes|
    ensures AtMost(Cursor(sizes[..i]), src[i])
    ensures AtMost(Dest(sizes, i), src[i])
    ensures AtMost(Cursor(sizes[..i + 1]), After(src[i], sizes[i]))
  {
    if i > 0 {
      WriteBehindRead(sizes, src, i - 1);
    }
    CursorStep(sizes, i);
  }

  /** The offsets of the strings that end up in block number k. */
  function OffsAt(sizes: seq<nat>, k: nat): seq<nat> {
    if sizes == [] then []
    else
      var n := |sizes| - 1;
      var d := Dest(sizes, n);
      OffsAt(sizes[..n], k) + (if d.rank == k then [d.offset] else [])
  }

  lemma OffsAtSnoc(sizes: seq<nat>, z: nat, k: nat)
    ensures var d := Choose(Cursor(sizes), z);
      OffsAt(sizes + [z], k) == OffsAt(sizes, k) + (if d.rank == k then [d.offset] else [])
  {
    CursorSnoc(sizes, z);
    assert (sizes + [z])[..|sizes|] == sizes;
  }

  /** Blocks after the write position are empty, and only block 0 can be empty before it. */
  lemma {:induction false} OffsAtRanks(sizes: seq<nat>, k: nat)
    requires Fits(sizes)
    ensures k > Cursor(sizes).rank ==> OffsAt(sizes, k) == []
    ensures k <= Cursor(sizes).rank && sizes != [] ==> OffsAt(sizes, k) != []
  {
    if sizes != [] {
      var n := |sizes| - 1;
      OffsAtRanks(sizes[..n], k);
      if n > 0 { CursorRank(sizes[..n]); }
    }
  }

  lemma CursorRank(sizes: seq<nat>)
    ensures sizes == [] ==> Cursor(sizes).rank == 0
  {
  }

  /** Exactly the new places of the strings are listed. */
  lemma {:induction false} OffsAtDest(sizes: seq<nat>, k: nat, o: nat)
    ensures o in OffsAt(sizes, k) <==> exists i: nat :: i < |sizes| && Dest(sizes, i) == Place(k, o)
  {
    if sizes != [] {
      var n := |sizes| - 1;
      var s0 := sizes[..n];
      OffsAtDest(s0, k, o);
      forall i: nat | i < n
        ensures Dest(sizes, i) == Dest(s0, i)
      {
        assert sizes[..i] == s0[..i];
      }
      if o in OffsAt(s0, k) {
        var i: nat :| i < |s0| && Dest(s0, i) == Place(k, o);
        assert Dest(sizes, i) == Place(k, o);
      }
      if exists i: nat :: i < |sizes| && Dest(sizes, i) == Place(k, o) {
        var i: nat :| i < |sizes| && Dest(sizes, i) == Place(k, o);
        if i < n { assert Dest(s0, i) == Place(k, o); }
      }
    }
  }
}
