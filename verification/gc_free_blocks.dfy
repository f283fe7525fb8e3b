// The rest of gc_sweep: vectors and large strings that were not marked are given back.

module FreeBlocks {
  import opened LispHeap
  import opened MarkState
  import opened LispStore

  /** The members of s that are in M, in their order. */
  ghost function Only(s: seq<nat>, M: set<nat>): seq<nat> {
    if s == [] then []
    else
      var n := |s| - 1;
      Only(s[..n], M) + (if s[n] in M then [s[n]] else [])
  }

  lemma {:induction false} OnlyHas(s: seq<nat>, M: set<nat>)
    ensures forall x :: x in Only(s, M) <==> x in s && x in M
    ensures NoDup(s) ==> NoDup(Only(s, M))
  {
    if s != [] {
      var n := |s| - 1;
      OnlyHas(s[..n], M);
      assert s == s[..n] + [s[n]];
      if NoDup(s) { assert s[n] !in s[..n]; }
    }
  }

  lemma OnlySnoc(s: seq<nat>, k: nat, M: set<nat>)
    requires k < |s|
    ensures Only(s[..k + 1], M) == Only(s[..k], M) + (if s[k] in M then [s[k]] else [])
  {
    assert s[..k + 1][..k] == s[..k];
  }

  /** Vectors whose size field carries the flag stay and lose it. */
  method SweepVectors(h: Heap, ghost M: set<nat>)
    requires NoDup(h.allVectors) && forall o :: o in h.allVectors ==> o < |h.vflag| && (h.vflag[o] <==> o in M)
    modifies h`allVectors, h`vflag
    ensures h.allVectors == Only(old(h.allVectors), M)
    ensures |h.vflag| == |old(h.vflag)|
    ensures forall o :: o in h.allVectors ==> o < |h.vflag| && !h.vflag[o]
  {
    ghost var flags := h.vflag;
    var k := 0;
    var kept: seq<nat> := [];
    assert h.allVectors[..0] == [];
    assert forall i: nat :: i < |h.allVectors| ==> h.allVectors[i] in h.allVectors;
    while k < |h.allVectors|
      invariant k <= |h.allVectors| && |h.vflag| == |flags| && h.allVectors == old(h.allVectors)
      invariant kept == Only(h.allVectors[..k], M)
      invariant forall o :: o in kept ==> o < |h.vflag| && !h.vflag[o]
      invariant forall i: nat :: i < |h.allVectors| ==> h.allVectors[i] < |flags|
      invariant forall i: nat :: k <= i < |h.allVectors| ==> h.vflag[h.allVectors[i]] == flags[h.allVectors[i]]
    {
      OnlySnoc(h.allVectors, k, M);
      var vector := h.allVectors[k];
      assert vector in h.allVectors;
      if h.vflag[vector] {
        h.vflag := h.vflag[vector := false];
        kept := kept + [vector];
      }
      k := k + 1;
    }
    assert h.allVectors[..k] == h.allVectors;
    h.allVectors := kept;
  }

  function LargeSize(large: seq<LargeString>, k: nat): nat { if k < |large| then large[k].size else 0 }

  ghost function TotalSize(large: seq<LargeString>, list: seq<nat>): nat {
    if list == [] then 0
    else
      var n := |list| - 1;
      TotalSize(large, list[..n]) + LargeSize(large, list[n])
  }

  lemma {:induction false} SameTotal(large: seq<LargeString>, large': seq<LargeString>, list: seq<nat>)
    requires forall k: nat :: LargeSize(large', k) == LargeSize(large, k)
    ensures TotalSize(large', list) == TotalSize(large, list)
  {
    if list != [] { SameTotal(large, large', list[..|list| - 1]); }
  }

  lemma TotalSnoc(large: seq<LargeString>, list: seq<nat>, k: nat)
    ensures TotalSize(large, list + [k]) == TotalSize(large, list) + LargeSize(large, k)
  {
    assert (list + [k])[..|list|] == list;
  }

  /** A large string before and after the sweep. */
  function Unflagged(s: LargeString): LargeString {
    if s.flagged then s.(flagged := false, tagged := false) else s
  }

  ghost predicate LargeSwept(large0: seq<LargeString>, large: seq<LargeString>, seen: seq<nat>) {
    && |large| == |large0|
    && forall k: nat :: k < |large0| ==> large[k] == if k in seen then Unflagged(large0[k]) else large0[k]
  }

  lemma LargeSweptSizes(large0: seq<LargeString>, large: seq<LargeString>, seen: seq<nat>)
    requires LargeSwept(large0, large, seen)
    ensures forall k: nat :: LargeSize(large, k) == LargeSize(large0, k)
  {
  }

  lemma LargeSweptStep(large0: seq<LargeString>, large: seq<LargeString>, seen: seq<nat>, k: nat)
    requires LargeSwept(large0, large, seen) && k < |large0| && k !in seen
    ensures large[k] == large0[k]
    ensures LargeSwept(large0, large[k := Unflagged(large0[k])], seen + [k])
  {
  }

  /** Before marking, the MARKBIT of every large string in use is set. */
  method TagLarge(h: Heap)
    requires forall k :: k in h.largeStringBlocks ==> k < |h.large|
    modifies h`large
    ensures |h.large| == |old(h.large)|
    ensures forall k: nat :: k < |h.large| ==>
      h.large[k] == old(h.large)[k].(tagged := k in h.largeStringBlocks || old(h.large)[k].tagged)
  {
    var i := 0;
    while i < |h.largeStringBlocks|
      invariant i <= |h.largeStringBlocks| && |h.large| == |old(h.large)|
      invariant forall k: nat :: k < |h.large| ==>
        h.large[k] == old(h.large)[k].(tagged := k in h.largeStringBlocks[..i] || old(h.large)[k].tagged)
    {
      var b := h.largeStringBlocks[i];
      assert b in h.largeStringBlocks;
      assert h.largeStringBlocks[..i + 1] == h.largeStringBlocks[..i] + [b];
      h.large := h.large[b := h.large[b].(tagged := true)];
      i := i + 1;
    }
    assert h.largeStringBlocks[..i] == h.largeStringBlocks;
  }

  /** Large strings that carry the flag stay and lose flag and tag; the others are freed. */
  method SweepLarge(h: Heap, ghost M: set<nat>)
    requires NoDup(h.largeStringBlocks)
    requires forall k :: k in h.largeStringBlocks ==> k < |h.large| && (h.large[k].flagged <==> k in M)
    modifies h`large, h`largeStringBlocks, h`totalStringSize
    ensures h.largeStringBlocks == Only(old(h.largeStringBlocks), M)
    ensures LargeSwept(old(h.large), h.large, old(h.largeStringBlocks))
    ensures h.totalStringSize == old(h.totalStringSize) + TotalSize(h.large, h.largeStringBlocks)
  {
    hide TotalSize, LargeSwept, Only;
    ghost var large0, list := h.large, h.largeStringBlocks;
    var i := 0;
    var kept: seq<nat> := [];
    StartLarge(large0, list, M);
    while i < |h.largeStringBlocks|
      invariant i <= |list| && |h.large| == |large0| && h.largeStringBlocks == list
      invariant kept == Only(list[..i], M)
      invariant LargeSwept(large0, h.large, list[..i])
      invariant h.totalStringSize == old(h.totalStringSize) + TotalSize(large0, kept)
    {
      OnlySnoc(list, i, M);
      var sb := h.largeStringBlocks[i];
      assert sb in list && sb !in list[..i];
      assert list[..i + 1] == list[..i] + [sb];
      LargeSweptStep(large0, h.large, list[..i], sb);
      if h.large[sb].flagged {
        h.large := h.large[sb := h.large[sb].(flagged := false, tagged := false)];
        h.totalStringSize := h.totalStringSize + h.large[sb].size;
        TotalSnoc(large0, kept, sb);
        kept := kept + [sb];
      } else {
        assert h.large[sb := Unflagged(large0[sb])] == h.large;
        assert kept + [] == kept;
      }
      i := i + 1;
    }
    assert list[..i] == list;
    h.largeStringBlocks := kept;
    LargeSweptSizes(large0, h.large, list);
    SameTotal(large0, h.large, kept);
  }

  lemma StartLarge(large: seq<LargeString>, list: seq<nat>, M: set<nat>)
    ensures LargeSwept(large, large, list[..0]) && Only(list[..0], M) == [] && TotalSize(large, []) == 0
  {
  }

  /** Afterwards, the mark bits of GCPRO slots are cleared. */
  method UnmarkRoots(h: Heap)
    requires forall p :: p in h.gcprolist ==> p < |h.mem|
    modifies h`mem
    ensures |h.mem| == |old(h.mem)|
    ensures forall p: nat :: p < |h.mem| ==>
      h.mem[p] == if p in h.gcprolist then old(h.mem)[p].(mark := false) else old(h.mem)[p]
  {
    var i := 0;
    while i < |h.gcprolist|
      invariant i <= |h.gcprolist| && |h.mem| == |old(h.mem)|
      invariant forall p: nat :: p < |h.mem| ==>
        h.mem[p] == if p in h.gcprolist[..i] then old(h.mem)[p].(mark := false) else old(h.mem)[p]
    {
      var p := h.gcprolist[i];
      assert p in h.gcprolist;
      assert h.gcprolist[..i + 1] == h.gcprolist[..i] + [p];
      h.mem := h.mem[p := h.mem[p].(mark := false)];
      i := i + 1;
    }
    assert h.gcprolist[..i] == h.gcprolist;
  }
}
