// Giving string blocks back: cutting the chain after the block being filled, and unlinking blocks
// that have become empty.

module BlockChain {
  import opened LispHeap
  import opened LispStore

  predicate LinkOk(blocks: seq<Block>, chain: seq<nat>, i: nat) {
    i < |chain| && chain[i] < |blocks| && blocks[chain[i]].next == LinkAfter(chain, i)
  }

  ghost predicate Distinct(chain: seq<nat>) { forall i: nat, j: nat :: i < j < |chain| ==> chain[i] != chain[j] }

  /** `chain` is what one meets from its first block by following `next`. */
  ghost predicate Linked(blocks: seq<Block>, chain: seq<nat>) {
    |chain| > 0 && Distinct(chain) && forall i: nat :: i < |chain| ==> LinkOk(blocks, chain, i)
  }

  function SetNext(blocks: seq<Block>, b: nat, next: int): seq<Block>
    requires b < |blocks|
  {
    blocks[b := blocks[b].(next := next)]
  }

  ghost function SetOf(s: seq<nat>): set<nat> { set b | b in s }

  lemma SetOfSnoc(s: seq<nat>, b: nat)
    ensures SetOf(s + [b]) == SetOf(s) + {b}
  {
  }

  /** Frees the blocks after the one being filled, which becomes the last of the chain. */
  method FreeFollowing(h: Heap, toSb: nat, ghost chain: seq<nat>, ghost t: nat)
    requires Linked(h.blocks, chain) && t < |chain| && toSb == chain[t]
    modifies h`blocks, h`freed
    ensures toSb < |old(h.blocks)| && h.blocks == SetNext(old(h.blocks), toSb, -1)
    ensures Linked(h.blocks, chain[..t + 1])
    ensures h.freed == old(h.freed) + SetOf(chain[t + 1..])
  {
    hide SetOf;
    ghost var blocks0, freed0 := h.blocks, h.freed;
    assert LinkOk(blocks0, chain, t);
    var sb := h.blocks[toSb].next;
    h.blocks := SetNext(h.blocks, toSb, -1);
    ghost var i := t + 1;
    assert h.freed == freed0 + SetOf(chain[t + 1..i]) by { EmptySet(); assert chain[t + 1..i] == []; }
    while sb != -1
      invariant t < i <= |chain| && sb == LinkAfter(chain, i - 1)
      invariant h.blocks == SetNext(blocks0, toSb, -1)
      invariant h.freed == freed0 + SetOf(chain[t + 1..i])
      decreases |chain| - i
    {
      assert chain[t + 1..i + 1] == chain[t + 1..i] + [chain[i]];
      SetOfSnoc(chain[t + 1..i], chain[i]);
      assert LinkOk(blocks0, chain, i);
      var next := h.blocks[sb].next;
      h.freed := h.freed + {sb};
      sb := next;
      i := i + 1;
    }
    assert chain[t + 1..i] == chain[t + 1..];
    CutChain(blocks0, chain, t);
  }

  lemma EmptySet()
    ensures SetOf([]) == {}
  {
  }

  lemma CutChain(blocks: seq<Block>, chain: seq<nat>, t: nat)
    requires Linked(blocks, chain) && t < |chain| && chain[t] < |blocks|
    ensures Linked(SetNext(blocks, chain[t], -1), chain[..t + 1])
  {
    var cut, blocks' := chain[..t + 1], SetNext(blocks, chain[t], -1);
    forall i: nat | i < |cut|
      ensures LinkOk(blocks', cut, i)
    {
      assert LinkOk(blocks, chain, i);
    }
  }

  predicate IdsOk(blocks: seq<Block>, chain: seq<nat>) {
    forall i: nat :: i < |chain| ==> chain[i] < |blocks|
  }

  /** The first block and the non-empty ones. */
  function Kept(blocks: seq<Block>, chain: seq<nat>): seq<nat>
    requires IdsOk(blocks, chain)
  {
    if |chain| <= 1 then chain
    else
      var n := |chain| - 1;
      Kept(blocks, chain[..n]) + (if blocks[chain[n]].pos == 0 then [] else [chain[n]])
  }

  lemma {:induction false} NothingEmpty(blocks: seq<Block>, chain: seq<nat>)
    requires IdsOk(blocks, chain)
    requires forall i: nat :: 0 < i < |chain| ==> blocks[chain[i]].pos > 0
    ensures Kept(blocks, chain) == chain
  {
    if |chain| > 1 {
      var n := |chain| - 1;
      NothingEmpty(blocks, chain[..n]);
      assert chain[..n] + [chain[n]] == chain;
    }
  }

  lemma KeptSnoc(blocks: seq<Block>, chain: seq<nat>, k: nat)
    requires IdsOk(blocks, chain)
    requires 0 < k < |chain|
    ensures Kept(blocks, chain[..k + 1]) == Kept(blocks, chain[..k])
      + (if blocks[chain[k]].pos == 0 then [] else [chain[k]])
  {
    assert chain[..k + 1][..k] == chain[..k];
  }

  lemma LinkedBlocks(blocks: seq<Block>, chain: seq<nat>)
    requires Linked(blocks, chain)
    ensures IdsOk(blocks, chain)
  {
    forall i: nat | i < |chain|
      ensures chain[i] < |blocks|
    {
      assert LinkOk(blocks, chain, i);
    }
  }

  lemma LinkedMeans(blocks: seq<Block>, chain: seq<nat>, i: nat)
    requires Linked(blocks, chain) && i < |chain|
    ensures chain[i] < |blocks| && blocks[chain[i]].next == LinkAfter(chain, i)
  {
    assert LinkOk(blocks, chain, i);
  }

  lemma KeptOne(blocks: seq<Block>, chain: seq<nat>)
    requires |chain| == 1 && IdsOk(blocks, chain)
    ensures Kept(blocks, chain) == chain
  {
  }

  lemma NotBefore(blocks: seq<Block>, chain: seq<nat>, k: nat)
    requires Linked(blocks, chain) && k < |chain|
    ensures chain[k] !in SetOf(chain[..k])
  {
  }

  /** Taking the block after position i out of the chain. */
  lemma Unlink(blocks: seq<Block>, c: seq<nat>, i: nat)
    requires Linked(blocks, c) && i + 1 < |c| && c[i] < |blocks|
    ensures Linked(SetNext(blocks, c[i], LinkAfter(c, i + 1)), c[..i + 1] + c[i + 2..])
  {
    var c', blocks' := c[..i + 1] + c[i + 2..], SetNext(blocks, c[i], LinkAfter(c, i + 1));
    forall k: nat | k < |c'|
      ensures LinkOk(blocks', c', k)
    {
      assert LinkOk(blocks, c, if k <= i then k else k + 1);
      assert c'[k] == c[if k <= i then k else k + 1];
      assert k + 1 < |c'| ==> c'[k + 1] == c[if k + 1 <= i then k + 1 else k + 2];
    }
  }

  lemma Slices(c: seq<nat>, i: nat, chain: seq<nat>, k: nat)
    requires i + 1 < |c| && k <= |chain| && c[i + 1..] == chain[k..]
    ensures k < |chain| && c[i + 1] == chain[k] && c[i + 2..] == chain[k + 1..]
    ensures var c' := c[..i + 1] + c[i + 2..]; c'[..i + 1] == c[..i + 1] && c'[i + 1..] == chain[k + 1..]
    ensures c[..i + 2] == c[..i + 1] + [chain[k]] && chain[..k + 1] == chain[..k] + [chain[k]]
  {
    assert c[i + 1] == c[i + 1..][0] == chain[k];
    assert chain[k + 1..] == chain[k..][1..] == c[i + 2..];
  }

  lemma FreedStep(seen: seq<nat>, kept: seq<nat>, b: nat)
    requires b !in SetOf(seen) && b !in SetOf(kept)
    ensures SetOf(seen + [b]) - SetOf(kept) == SetOf(seen) - SetOf(kept) + {b}
    ensures SetOf(seen + [b]) - SetOf(kept + [b]) == SetOf(seen) - SetOf(kept)
  {
    SetOfSnoc(seen, b);
    SetOfSnoc(kept, b);
  }

  /** Only links differ. */
  ghost predicate SameStrings(blocks: seq<Block>, blocks': seq<Block>) {
    && |blocks'| == |blocks|
    && forall b: nat :: b < |blocks| ==> blocks'[b] == blocks[b].(next := blocks'[b].next)
  }

  /** The blocks chain[..k] have been looked at; `c` is the chain as it is now, and c[..i + 1] what has
      been kept of them. */
  ghost predicate Unlinking(blocks0: seq<Block>, chain: seq<nat>, freed0: set<nat>,
                            blocks: seq<Block>, freed: set<nat>, c: seq<nat>, i: nat, k: nat)
  {
    && IdsOk(blocks0, chain) && Linked(blocks0, chain) && Linked(blocks, c)
    && i < |c| && 0 < k <= |chain|
    && c[..i + 1] == Kept(blocks0, chain[..k]) && c[i + 1..] == chain[k..]
    && SameStrings(blocks0, blocks)
    && freed == freed0 + (SetOf(chain[..k]) - SetOf(c[..i + 1]))
  }

  lemma NextUnlinking(blocks0: seq<Block>, chain: seq<nat>, freed0: set<nat>,
                      blocks: seq<Block>, freed: set<nat>, c: seq<nat>, i: nat, k: nat)
    requires Unlinking(blocks0, chain, freed0, blocks, freed, c, i, k)
    ensures c[i] < |blocks| && blocks[c[i]].next == LinkAfter(c, i)
    ensures LinkAfter(c, i) == -1 ==> k == |chain| && i + 1 == |c|
    ensures LinkAfter(c, i) != -1 ==> k < |chain| && i + 1 < |c| && LinkAfter(c, i) == c[i + 1] == chain[k]
    ensures LinkAfter(c, i) != -1 ==> c[i + 1] < |blocks| && blocks[c[i + 1]].next == LinkAfter(c, i + 1)
    ensures LinkAfter(c, i) != -1 ==> blocks[c[i + 1]].pos == blocks0[chain[k]].pos
  {
    LinkedMeans(blocks, c, i);
    if i + 1 < |c| {
      LinkedMeans(blocks, c, i + 1);
      Slices(c, i, chain, k);
    }
  }

  lemma StepUnlink(blocks0: seq<Block>, chain: seq<nat>, freed0: set<nat>,
                   blocks: seq<Block>, freed: set<nat>, c: seq<nat>, i: nat, k: nat)
    requires Unlinking(blocks0, chain, freed0, blocks, freed, c, i, k)
    requires k < |chain| && i + 1 < |c| && c[i] < |blocks| && chain[k] < |blocks0|
    ensures blocks0[chain[k]].pos == 0 ==>
      Unlinking(blocks0, chain, freed0, SetNext(blocks, c[i], LinkAfter(c, i + 1)), freed + {chain[k]},
                c[..i + 1] + c[i + 2..], i, k + 1)
    ensures blocks0[chain[k]].pos != 0 ==> Unlinking(blocks0, chain, freed0, blocks, freed, c, i + 1, k + 1)
  {
    hide SetOf, Linked, Kept;
    Slices(c, i, chain, k);
    KeptSnoc(blocks0, chain, k);
    NotBefore(blocks, c, i + 1);
    NotBefore(blocks0, chain, k);
    FreedStep(chain[..k], c[..i + 1], chain[k]);
    if blocks0[chain[k]].pos == 0 {
      Unlink(blocks, c, i);
    }
  }

  /** Unlinks and frees every empty block but the first. */
  method UnlinkEmpty(h: Heap, ghost chain: seq<nat>)
    requires Linked(h.blocks, chain) && h.firstStringBlock == chain[0]
    modifies h`blocks, h`freed
    ensures IdsOk(old(h.blocks), chain)
    ensures Linked(h.blocks, Kept(old(h.blocks), chain))
    ensures h.freed == old(h.freed) + (SetOf(chain) - SetOf(Kept(old(h.blocks), chain)))
    ensures SameStrings(old(h.blocks), h.blocks)
  {
    ghost var blocks0, freed0 := h.blocks, h.freed;
    LinkedBlocks(blocks0, chain);
    KeptOne(blocks0, chain[..1]);
    var fromSb := h.firstStringBlock;
    ghost var c, i, k := chain, 0, 1;
    assert chain[..1] == [chain[0]];
    assert Unlinking(blocks0, chain, freed0, h.blocks, h.freed, c, i, k);
    hide Unlinking, SetOf, Linked, Kept, SameStrings;
    NextUnlinking(blocks0, chain, freed0, h.blocks, h.freed, c, i, k);
    var toSb := h.blocks[fromSb].next;
    while toSb != -1
      invariant Unlinking(blocks0, chain, freed0, h.blocks, h.freed, c, i, k)
      invariant i < |c| && fromSb == c[i] && fromSb < |h.blocks|
      invariant toSb == h.blocks[fromSb].next
      decreases |chain| - k
    {
      NextUnlinking(blocks0, chain, freed0, h.blocks, h.freed, c, i, k);
      StepUnlink(blocks0, chain, freed0, h.blocks, h.freed, c, i, k);
      if h.blocks[toSb].pos == 0 {
        var next := h.blocks[toSb].next;
        h.blocks := SetNext(h.blocks, fromSb, next);
        h.freed := h.freed + {toSb};
        c := c[..i + 1] + c[i + 2..];
      } else {
        fromSb := toSb;
        i := i + 1;
      }
      k := k + 1;
      NextUnlinking(blocks0, chain, freed0, h.blocks, h.freed, c, i, k);
      toSb := h.blocks[fromSb].next;
    }
    NextUnlinking(blocks0, chain, freed0, h.blocks, h.freed, c, i, k);
    EndUnlinking(blocks0, chain, freed0, h.blocks, h.freed, c, i, k);
  }

  lemma EndUnlinking(blocks0: seq<Block>, chain: seq<nat>, freed0: set<nat>,
                     blocks: seq<Block>, freed: set<nat>, c: seq<nat>, i: nat, k: nat)
    requires Unlinking(blocks0, chain, freed0, blocks, freed, c, i, k) && k == |chain| && i + 1 == |c|
    ensures IdsOk(blocks0, chain) && Linked(blocks, Kept(blocks0, chain)) && SameStrings(blocks0, blocks)
    ensures freed == freed0 + (SetOf(chain) - SetOf(Kept(blocks0, chain)))
  {
    assert chain[..k] == chain && c[..i + 1] == c;
  }
}
