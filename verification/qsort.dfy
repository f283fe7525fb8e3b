// etc/qsort.c: a median-of-three quicksort that stops at small partitions, followed by an insertion
// sort without a bounds test.  A record is one array element.

module QuickSort {
  import opened Arithmetic

  const THRESH: nat := 4
  const MTHRESH: nat := 6

  /** The comparison routine orders records by a total preorder. */
  ghost predicate Comparator<T(!new)>(cmp: (T, T) -> int) {
    && (forall x, y :: cmp(x, y) > 0 <==> cmp(y, x) < 0)
    && (forall x, y, z :: cmp(x, y) <= 0 && cmp(y, z) <= 0 ==> cmp(x, z) <= 0)
  }

  lemma Trans<T(!new)>(cmp: (T, T) -> int, x: T, y: T, z: T)
    requires Comparator(cmp) && cmp(x, y) <= 0 && cmp(y, z) <= 0
    ensures cmp(x, z) <= 0
  {
  }

  lemma Total<T(!new)>(cmp: (T, T) -> int, x: T, y: T)
    requires Comparator(cmp)
    ensures cmp(x, y) > 0 <==> cmp(y, x) < 0
    ensures cmp(x, x) <= 0
  {
    assert cmp(x, x) > 0 <==> cmp(x, x) < 0;
  }

  ghost predicate Sorted<T>(cmp: (T, T) -> int, s: seq<T>) {
    forall i, j :: 0 <= i < j < |s| ==> cmp(s[i], s[j]) <= 0
  }

  /** Records at least three places apart are in order. */
  ghost predicate Nearly<T>(cmp: (T, T) -> int, s: seq<T>, lo: nat, hi: nat)
    requires hi <= |s|
  {
    forall i, j :: lo <= i && i + 3 <= j < hi ==> cmp(s[i], s[j]) <= 0
  }

  /** Nothing outside lo .. hi differs, and inside records are only permuted. */
  ghost predicate Permuted<T>(s: seq<T>, t: seq<T>, lo: nat, hi: nat) {
    && |s| == |t| && lo <= hi <= |s|
    && s[..lo] == t[..lo] && s[hi..] == t[hi..]
    && multiset(s[lo..hi]) == multiset(t[lo..hi])
  }

  // ---- permutations ----

  lemma Split<T>(s: seq<T>, lo: nat, a: nat, b: nat, hi: nat)
    requires lo <= a <= b <= hi <= |s|
    ensures s[lo..hi] == s[lo..a] + s[a..b] + s[b..hi]
  {
  }

  lemma Widen<T>(s: seq<T>, t: seq<T>, a: nat, b: nat, lo: nat, hi: nat)
    requires Permuted(s, t, a, b) && lo <= a && b <= hi <= |s|
    ensures Permuted(s, t, lo, hi)
  {
    Split(s, lo, a, b, hi);
    Split(t, lo, a, b, hi);
    assert s[..lo] == s[..a][..lo] && t[..lo] == t[..a][..lo];
    assert s[hi..] == s[b..][hi - b..] && t[hi..] == t[b..][hi - b..];
    assert s[lo..a] == s[..a][lo..] && t[lo..a] == t[..a][lo..];
    assert s[b..hi] == s[b..][..hi - b] && t[b..hi] == t[b..][..hi - b];
  }

  lemma Compose<T>(s: seq<T>, t: seq<T>, u: seq<T>, lo: nat, hi: nat)
    requires Permuted(s, t, lo, hi) && Permuted(t, u, lo, hi)
    ensures Permuted(s, u, lo, hi)
  {
  }

  lemma SwapPermutes<T>(s: seq<T>, i: nat, j: nat, lo: nat, hi: nat)
    requires lo <= i < hi <= |s| && lo <= j < hi
    ensures Permuted(s, s[i := s[j]][j := s[i]], lo, hi)
  {
    var t := s[i := s[j]][j := s[i]];
    assert t[lo..hi] == s[lo..hi][i - lo := s[j]][j - lo := s[i]];
  }

  /** What holds of all records of a segment still holds when they have been permuted. */
  lemma BoundsKept<T>(cmp: (T, T) -> int, s: seq<T>, t: seq<T>, lo: nat, hi: nat, x: T)
    requires Permuted(s, t, lo, hi)
    ensures (forall k :: lo <= k < hi ==> cmp(s[k], x) <= 0) ==> (forall k :: lo <= k < hi ==> cmp(t[k], x) <= 0)
    ensures (forall k :: lo <= k < hi ==> cmp(x, s[k]) <= 0) ==> (forall k :: lo <= k < hi ==> cmp(x, t[k]) <= 0)
  {
    forall k | lo <= k < hi
      ensures exists j :: lo <= j < hi && s[j] == t[k]
    {
      assert t[lo..hi][k - lo] in multiset(s[lo..hi]);
      var j :| 0 <= j < hi - lo && s[lo..hi][j] == t[k];
      assert s[lo + j] == t[k];
    }
  }

  lemma OutsideKept<T>(s: seq<T>, t: seq<T>, lo: nat, hi: nat)
    requires Permuted(s, t, lo, hi)
    ensures forall k :: 0 <= k < lo || hi <= k < |s| ==> t[k] == s[k]
  {
    forall k | 0 <= k < lo || hi <= k < |s|
      ensures t[k] == s[k]
    {
      if k < lo { assert s[..lo][k] == t[..lo][k]; } else { assert s[hi..][k - hi] == t[hi..][k - hi]; }
    }
  }

  // ---- partitioning ----

  ghost predicate Partitioned<T>(cmp: (T, T) -> int, s: seq<T>, base: nat, i: nat, mid: nat, j: nat, max: nat) {
    && base <= i <= mid <= j < max <= |s|
    && (forall k :: base <= k < i ==> cmp(s[k], s[mid]) <= 0)
    && (forall k :: j < k < max ==> cmp(s[mid], s[k]) <= 0)
  }

  method Swap<T>(a: array<T>, i: nat, j: nat, ghost lo: nat, ghost hi: nat)
    requires lo <= i < hi <= a.Length && lo <= j < hi
    modifies a
    ensures a[..] == old(a[..])[i := old(a[j])][j := old(a[i])]
    ensures Permuted(old(a[..]), a[..], lo, hi)
  {
    SwapPermutes(a[..], i, j, lo, hi);
    a[i], a[j] := a[j], a[i];
  }

  /** The median of the first, the middle and the last record, preferring the middle and then the first. */
  method MoveMedian<T(!new)>(a: array<T>, cmp: (T, T) -> int, base: nat, max: nat)
    requires Comparator(cmp) && base + THRESH <= max <= a.Length
    modifies a
    ensures Permuted(old(a[..]), a[..], base, max)
    ensures max - base >= MTHRESH ==>
      var m := base + (max - base) / 2;
      && (cmp(a[base], a[m]) <= 0 <= cmp(a[max - 1], a[m]) || cmp(a[max - 1], a[m]) <= 0 <= cmp(a[base], a[m]))
  {
    var n := max - base;
    var i := base + n / 2;
    if n >= MTHRESH {
      var jj := base;
      var j := if cmp(a[jj], a[i]) > 0 then jj else i;
      var tmp := max - 1;
      if cmp(a[j], a[tmp]) > 0 {
        j := if j == jj then i else jj;
        if cmp(a[j], a[tmp]) < 0 {
          j := tmp;
        }
      }
      if j != i {
        Swap(a, i, j, base, max);
      }
    }
  }

  /** Steps over records that are on the right side of the discriminator already. */
  method ScanUp<T(!new)>(a: array<T>, cmp: (T, T) -> int, ghost base: nat, i0: nat, mid: nat, ghost j: nat,
                  ghost max: nat)
    returns (i: nat)
    requires max <= a.Length && Partitioned(cmp, a[..], base, i0, mid, j, max)
    ensures i0 <= i <= mid && Partitioned(cmp, a[..], base, i, mid, j, max)
    ensures i < mid ==> cmp(a[i], a[mid]) > 0
  {
    i := i0;
    while i < mid && cmp(a[i], a[mid]) <= 0
      invariant i0 <= i <= mid && Partitioned(cmp, a[..], base, i, mid, j, max)
    {
      i := i + 1;
    }
  }

  method ScanDown<T(!new)>(a: array<T>, cmp: (T, T) -> int, ghost base: nat, ghost i: nat, mid: nat, j0: nat,
                    ghost max: nat)
    returns (j: nat)
    requires max <= a.Length && Partitioned(cmp, a[..], base, i, mid, j0, max)
    ensures mid <= j <= j0 && Partitioned(cmp, a[..], base, i, mid, j, max)
    ensures j > mid ==> cmp(a[mid], a[j]) > 0
  {
    j := j0;
    while j > mid && cmp(a[mid], a[j]) <= 0
      invariant mid <= j <= j0 && Partitioned(cmp, a[..], base, i, mid, j, max)
    {
      j := j - 1;
    }
  }

  /** One exchange; `done` when the two scans have met at the discriminator. */
  method ExchangeOnce<T(!new)>(a: array<T>, cmp: (T, T) -> int, ghost base: nat, i0: nat, mid0: nat, j0: nat,
                        ghost max: nat)
    returns (i: nat, mid: nat, j: nat, done: bool)
    requires Comparator(cmp) && max <= a.Length && Partitioned(cmp, a[..], base, i0, mid0, j0, max)
    requires (i0 < mid0 ==> cmp(a[i0], a[mid0]) > 0) && (j0 > mid0 ==> cmp(a[mid0], a[j0]) > 0)
    modifies a
    ensures Permuted(old(a[..]), a[..], base, max) && Partitioned(cmp, a[..], base, i, mid, j, max)
    ensures if done then i == mid == j else j - i < j0 - i0
  {
    hide Comparator, Permuted;
    ghost var s := a[..];
    i, mid, j, done := i0, mid0, j0, false;
    Exchange(cmp, s, base, i, mid, j, max);
    Total(cmp, a[mid], a[j]);
    Total(cmp, a[i], a[mid]);
    if j > mid {
      var tmp := i + 1;
      if i == mid {                 // j <-> mid, new mid is j
        Swap(a, i, j, base, max);
        mid := j;
      } else {                      // i <-> j
        Swap(a, i, j, base, max);
        j := j - 1;
      }
      i := tmp;
    } else if i == mid {
      StartPartition(cmp, s, base, mid, max);
      done := true;
    } else {                        // i <-> mid, new mid is i
      Swap(a, i, mid, base, max);
      mid := i;
      j := j - 1;
    }
  }

  /** Puts the discriminator where it belongs: nothing before it is larger, nothing after it is smaller. */
  method Partition<T(!new)>(a: array<T>, cmp: (T, T) -> int, base: nat, max: nat) returns (mid: nat)
    requires Comparator(cmp) && base + THRESH <= max <= a.Length
    modifies a
    ensures Permuted(old(a[..]), a[..], base, max)
    ensures Partitioned(cmp, a[..], base, mid, mid, mid, max)
  {
    hide Comparator, Permuted, Partitioned;
    mid := base + (max - base) / 2;
    var i: nat, j: nat, done := base, max - 1, false;
    ghost var s0 := a[..];
    StartPartition(cmp, a[..], base, mid, max);
    while !done
      invariant Permuted(s0, a[..], base, max)
      invariant Partitioned(cmp, a[..], base, i, mid, j, max)
      invariant done ==> i == mid == j
      decreases !done, j - i
    {
      Order(cmp, a[..], base, i, mid, j, max);
      ghost var s := a[..];
      i := ScanUp(a, cmp, base, i, mid, j, max);
      j := ScanDown(a, cmp, base, i, mid, j, max);
      i, mid, j, done := ExchangeOnce(a, cmp, base, i, mid, j, max);
      Order(cmp, a[..], base, i, mid, j, max);
      Compose(s0, s, a[..], base, max);
    }
  }

  lemma Order<T>(cmp: (T, T) -> int, s: seq<T>, base: nat, i: nat, mid: nat, j: nat, max: nat)
    requires Partitioned(cmp, s, base, i, mid, j, max)
    ensures base <= i <= mid <= j < max <= |s|
  {
  }

  lemma StartPartition<T>(cmp: (T, T) -> int, s: seq<T>, base: nat, mid: nat, max: nat)
    requires base <= mid < max <= |s|
    ensures Permuted(s, s, base, max) && Partitioned(cmp, s, base, base, mid, max - 1, max)
  {
  }

  /** The three exchanges of the partitioning loop. */
  lemma Exchange<T(!new)>(cmp: (T, T) -> int, s: seq<T>, base: nat, i: nat, mid: nat, j: nat, max: nat)
    requires Comparator(cmp) && Partitioned(cmp, s, base, i, mid, j, max)
    ensures i == mid < j && cmp(s[j], s[mid]) <= 0 ==> Partitioned(cmp, s[i := s[j]][j := s[i]], base, i + 1, j, j, max)
    ensures i < mid < j && cmp(s[j], s[mid]) <= 0 <= cmp(s[i], s[mid]) && cmp(s[mid], s[i]) <= 0
      ==> Partitioned(cmp, s[i := s[j]][j := s[i]], base, i + 1, mid, j - 1, max)
    ensures i < mid == j && cmp(s[mid], s[i]) <= 0 ==>
      Partitioned(cmp, s[i := s[mid]][mid := s[i]], base, i, i, j - 1, max)
  {
    hide Comparator;
  }

  // ---- recursion ----

  ghost function Larger(a: nat, b: nat): nat { if a > b then a else b }

  lemma {:induction false} Pow2Grows(a: nat, b: nat)
    requires a <= b
    ensures Pow2(a) <= Pow2(b)
  {
    if a < b { Pow2Grows(a, b - 1); }
  }

  /** `depth` nested calls handle n records. */
  ghost predicate Shallow(depth: nat, n: nat) { depth > 0 && 5 * Pow2(depth - 1) <= n + 1 }

  /** The depth of recursion is at most the binary logarithm of the number of records. */
  lemma ShallowMeans(depth: nat, n: nat)
    requires Shallow(depth, n)
    ensures Pow2(depth) <= n
  {
  }

  /** No record of lo .. mid is larger than one of mid .. hi. */
  ghost predicate Below<T>(cmp: (T, T) -> int, s: seq<T>, lo: nat, mid: nat, hi: nat)
    requires hi <= |s|
  {
    forall i, j :: lo <= i < mid <= j < hi ==> cmp(s[i], s[j]) <= 0
  }

  /** Of the segment lo .. hi, only base .. max is still to be done. */
  ghost predicate Remaining<T>(cmp: (T, T) -> int, s: seq<T>, lo: nat, base: nat, max: nat, hi: nat) {
    && lo <= base <= max <= hi <= |s|
    && Below(cmp, s, lo, base, hi) && Below(cmp, s, lo, max, hi)
    && Nearly(cmp, s, lo, base) && Nearly(cmp, s, max, hi)
  }

  lemma PartitionKept<T(!new)>(cmp: (T, T) -> int, s: seq<T>, t: seq<T>, base: nat, mid: nat, max: nat, lo: nat,
                        hi: nat)
    requires Partitioned(cmp, s, base, mid, mid, mid, max) && Permuted(s, t, lo, hi)
    requires (lo == base && hi == mid) || (lo == mid + 1 && hi == max)
    ensures Partitioned(cmp, t, base, mid, mid, mid, max)
  {
    OutsideKept(s, t, lo, hi);
    BoundsKept(cmp, s, t, lo, hi, s[mid]);
  }

  lemma BelowKept<T>(cmp: (T, T) -> int, s: seq<T>, t: seq<T>, lo: nat, base: nat, max: nat, hi: nat)
    requires Permuted(s, t, base, max) && lo <= base && max <= hi <= |s|
    requires Below(cmp, s, lo, base, hi) && Below(cmp, s, lo, max, hi)
    ensures Below(cmp, t, lo, base, hi) && Below(cmp, t, lo, max, hi)
  {
    OutsideKept(s, t, base, max);
    forall i, j | lo <= i < base <= j < hi
      ensures cmp(t[i], t[j]) <= 0
    {
      BoundsKept(cmp, s, t, base, max, s[i]);
    }
    forall i, j | lo <= i < max <= j < hi
      ensures cmp(t[i], t[j]) <= 0
    {
      BoundsKept(cmp, s, t, base, max, s[j]);
    }
  }

  /** The rest of the segment does not mind what is done to the remaining part. */
  lemma RemainingKept<T>(cmp: (T, T) -> int, s: seq<T>, t: seq<T>, lo: nat, base: nat, max: nat, hi: nat)
    requires Remaining(cmp, s, lo, base, max, hi) && Permuted(s, t, base, max)
    ensures Remaining(cmp, t, lo, base, max, hi)
  {
    OutsideKept(s, t, base, max);
    BelowKept(cmp, s, t, lo, base, max, hi);
  }

  /** The left part is done: the right part remains. */
  lemma RightRemains<T(!new)>(cmp: (T, T) -> int, s: seq<T>, lo: nat, base: nat, mid: nat, max: nat, hi: nat)
    requires Comparator(cmp) && Remaining(cmp, s, lo, base, max, hi)
    requires Partitioned(cmp, s, base, mid, mid, mid, max) && Nearly(cmp, s, base, mid)
    ensures Remaining(cmp, s, lo, mid + 1, max, hi)
  {
    hide Comparator;
    forall i, j | lo <= i < mid + 1 <= j < hi
      ensures cmp(s[i], s[j]) <= 0
    {
      if base <= i < mid && j < max { Trans(cmp, s[i], s[mid], s[j]); }
    }
  }

  /** The right part is done: the left part remains. */
  lemma LeftRemains<T(!new)>(cmp: (T, T) -> int, s: seq<T>, lo: nat, base: nat, mid: nat, max: nat, hi: nat)
    requires Comparator(cmp) && Remaining(cmp, s, lo, base, max, hi)
    requires Partitioned(cmp, s, base, mid, mid, mid, max) && Nearly(cmp, s, mid + 1, max)
    ensures Remaining(cmp, s, lo, base, mid, hi)
  {
    hide Comparator;
    forall i, j | lo <= i < mid <= j < hi
      ensures cmp(s[i], s[j]) <= 0
    {
      if base <= i && mid < j < max { Trans(cmp, s[i], s[mid], s[j]); }
    }
  }

  lemma SmallRemainder<T>(cmp: (T, T) -> int, s: seq<T>, lo: nat, base: nat, max: nat, hi: nat)
    requires Remaining(cmp, s, lo, base, max, hi) && max - base < THRESH
    ensures Nearly(cmp, s, lo, hi)
  {
  }

  lemma PartKept<T>(cmp: (T, T) -> int, s: seq<T>, t: seq<T>, a: nat, b: nat, base: nat, max: nat, lo: nat, hi: nat)
    requires Permuted(s, t, a, b) && base <= a && b <= max && lo <= base && max <= hi <= |s|
    requires Remaining(cmp, s, lo, base, max, hi)
    ensures Remaining(cmp, t, lo, base, max, hi) && Permuted(s, t, lo, hi)
  {
    Widen(s, t, a, b, base, max);
    Widen(s, t, base, max, lo, hi);
    RemainingKept(cmp, s, t, lo, base, max, hi);
  }

  /** The recursive call on the smaller part, if it is large enough to need one. */
  method Smaller<T(!new)>(a: array<T>, cmp: (T, T) -> int, first: nat, past: nat, ghost base: nat, ghost mid: nat,
                   ghost max: nat,
                          ghost lo: nat, ghost hi: nat)
    returns (ghost depth: nat)
    requires Comparator(cmp) && hi <= a.Length && Remaining(cmp, a[..], lo, base, max, hi)
    requires Partitioned(cmp, a[..], base, mid, mid, mid, max)
    requires (first == base && past == mid) || (first == mid + 1 && past == max)
    modifies a
    ensures Permuted(old(a[..]), a[..], lo, hi) && Remaining(cmp, a[..], lo, base, max, hi)
    ensures Partitioned(cmp, a[..], base, mid, mid, mid, max) && Nearly(cmp, a[..], first, past)
    ensures depth > 0 ==> Shallow(depth, past - first)
    decreases past - first, 1
  {
    depth := 0;
    if past - first >= THRESH {
      depth := Qst(a, cmp, first, past);
      PartitionKept(cmp, old(a[..]), a[..], base, mid, max, first, past);
      PartKept(cmp, old(a[..]), a[..], first, past, base, max, lo, hi);
    }
  }

  lemma Deeper(d: nat, depth: nat, small: nat, n: nat, whole: nat)
    requires d > 0 ==> Shallow(d, small)
    requires 2 * small + 1 <= n <= whole && Shallow(depth, whole)
    ensures Shallow(Larger(depth, d + 1), whole)
  {
  }

  /** One round of qst up to the point where the two parts are known. */
  method Round<T(!new)>(a: array<T>, cmp: (T, T) -> int, base: nat, max: nat, ghost lo: nat, ghost hi: nat)
    returns (mid: nat)
    requires Comparator(cmp) && base + THRESH <= max && hi <= a.Length && Remaining(cmp, a[..], lo, base, max, hi)
    modifies a
    ensures Permuted(old(a[..]), a[..], lo, hi) && Remaining(cmp, a[..], lo, base, max, hi)
    ensures base <= mid < max && Partitioned(cmp, a[..], base, mid, mid, mid, max)
  {
    hide Permuted, Nearly, Below, Partitioned, Comparator;
    ghost var s := a[..];
    MoveMedian(a, cmp, base, max);
    PartKept(cmp, s, a[..], base, max, base, max, lo, hi);
    ghost var s1 := a[..];
    mid := Partition(a, cmp, base, max);
    Order(cmp, a[..], base, mid, mid, mid, max);
    PartKept(cmp, s1, a[..], base, max, base, max, lo, hi);
    Compose(s, s1, a[..], lo, hi);
  }

  /** qst: afterwards no record has to move more than two places.  `depth` counts nested activations. */
  method Qst<T(!new)>(a: array<T>, cmp: (T, T) -> int, base0: nat, max0: nat) returns (ghost depth: nat)
    requires Comparator(cmp) && base0 + THRESH <= max0 <= a.Length
    modifies a
    ensures Permuted(old(a[..]), a[..], base0, max0)
    ensures Nearly(cmp, a[..], base0, max0)
    ensures Pow2(depth) <= max0 - base0
    ensures Shallow(depth, max0 - base0)
    decreases max0 - base0, 0
  {
    hide Permuted, Nearly, Below, Partitioned, Comparator, Pow2, Larger, Shallow, Remaining;
    var base, max := base0, max0;
    var lo: nat, hi: nat := max - base, 0;
    depth := 1;
    StartRemaining(cmp, a[..], base0, max0);
    while lo >= THRESH
      invariant lo == max - base && base0 <= base <= max <= max0
      invariant Permuted(old(a[..]), a[..], base0, max0)
      invariant Remaining(cmp, a[..], base0, base, max, max0)
      invariant Shallow(depth, max0 - base0)
      decreases lo
    {
      ghost var s := a[..];
      var mid := Round(a, cmp, base, max, base0, max0);
      ghost var s2 := a[..];
      Compose(old(a[..]), s, s2, base0, max0);
      lo, hi := mid - base, max - (mid + 1);
      ghost var d;
      if lo <= hi {
        d := Smaller(a, cmp, base, mid, base, mid, max, base0, max0);
        RightRemains(cmp, a[..], base0, base, mid, max, max0);
        Deeper(d, depth, lo, max - base, max0 - base0);
        base := mid + 1;
        lo := hi;
      } else {
        d := Smaller(a, cmp, mid + 1, max, base, mid, max, base0, max0);
        LeftRemains(cmp, a[..], base0, base, mid, max, max0);
        Deeper(d, depth, hi, max - base, max0 - base0);
        max := mid;
      }
      depth := Larger(depth, d + 1);
      Compose(old(a[..]), s2, a[..], base0, max0);
    }
    SmallRemainder(cmp, a[..], base0, base, max, max0);
    ShallowMeans(depth, max0 - base0);
  }

  lemma StartRemaining<T>(cmp: (T, T) -> int, s: seq<T>, lo: nat, hi: nat)
    requires lo + THRESH <= hi <= |s|
    ensures Remaining(cmp, s, lo, lo, hi, hi) && Permuted(s, s, lo, hi) && Shallow(1, hi - lo)
  {
  }

  // ---- the insertion sort ----

  /** No record is smaller than the first. */
  ghost predicate Sentinel<T>(cmp: (T, T) -> int, s: seq<T>, n: nat)
    requires 0 < n <= |s|
  {
    forall k :: 0 <= k < n ==> cmp(s[0], s[k]) <= 0
  }

  lemma FirstOfNearly<T(!new)>(cmp: (T, T) -> int, s: seq<T>, n: nat, hi: nat, j: nat)
    requires Comparator(cmp) && j < hi <= n <= |s| && Nearly(cmp, s, 0, n) && (hi == n || hi >= THRESH)
    requires forall k :: 0 <= k < hi ==> cmp(s[j], s[k]) <= 0
    ensures forall k :: 0 <= k < n ==> cmp(s[j], s[k]) <= 0
  {
    hide Comparator;
    forall k | hi <= k < n
      ensures cmp(s[j], s[k]) <= 0
    {
      assert cmp(s[0], s[k]) <= 0;
      Trans(cmp, s[j], s[0], s[k]);
    }
  }

  /** Finds the smallest record, which must be among the first THRESH, and moves it to the front. */
  method PlaceSentinel<T(!new)>(a: array<T>, cmp: (T, T) -> int, n: nat, hi: nat)
    requires Comparator(cmp) && 1 < n <= a.Length && 0 < hi <= n && (hi == n || hi >= THRESH)
    requires Nearly(cmp, a[..], 0, n)
    modifies a
    ensures Permuted(old(a[..]), a[..], 0, n) && Sentinel(cmp, a[..], n)
  {
    hide Comparator, Nearly, Permuted;
    ghost var s := a[..];
    var j := 0;
    var lo := 1;
    Total(cmp, a[0], a[0]);
    while lo < hi
      invariant 0 <= j < lo <= hi && s == a[..] && forall k :: 0 <= k < lo ==> cmp(s[j], s[k]) <= 0
    {
      Total(cmp, a[j], a[lo]);
      Total(cmp, a[lo], a[lo]);
      if cmp(a[j], a[lo]) > 0 {
        SmallerYet(cmp, s, j, lo);
        j := lo;
      }
      lo := lo + 1;
    }
    FirstOfNearly(cmp, s, n, hi, j);
    Same(s, n);
    if j != 0 {
      Swap(a, 0, j, 0, n);
      FrontSmallest(cmp, s, j, n);
    }
  }

  lemma Same<T>(s: seq<T>, n: nat)
    requires n <= |s|
    ensures Permuted(s, s, 0, n)
  {
  }

  lemma SmallerYet<T(!new)>(cmp: (T, T) -> int, s: seq<T>, j: nat, lo: nat)
    requires Comparator(cmp) && j < lo < |s| && cmp(s[lo], s[j]) <= 0
    requires forall k :: 0 <= k < lo ==> cmp(s[j], s[k]) <= 0
    ensures forall k :: 0 <= k < lo ==> cmp(s[lo], s[k]) <= 0
  {
    hide Comparator;
    forall k | 0 <= k < lo
      ensures cmp(s[lo], s[k]) <= 0
    {
      Trans(cmp, s[lo], s[j], s[k]);
    }
  }

  lemma FrontSmallest<T>(cmp: (T, T) -> int, s: seq<T>, j: nat, n: nat)
    requires j < n <= |s| && forall k :: 0 <= k < n ==> cmp(s[j], s[k]) <= 0
    ensures Sentinel(cmp, s[0 := s[j]][j := s[0]], n)
  {
  }

  /** The records from hi to m move one place up, and the one at m goes to hi. */
  function Rotated<T>(s: seq<T>, hi: nat, m: nat): seq<T>
    requires hi <= m < |s|
  {
    s[..hi] + [s[m]] + s[hi..m] + s[m + 1..]
  }

  lemma RotatedPermutes<T>(s: seq<T>, hi: nat, m: nat, n: nat)
    requires hi <= m < n <= |s|
    ensures Permuted(s, Rotated(s, hi, m), 0, n)
  {
    var t := Rotated(s, hi, m);
    assert s[0..n] == s[..hi] + s[hi..m] + [s[m]] + s[m + 1..n];
    assert t[0..n] == s[..hi] + [s[m]] + s[hi..m] + s[m + 1..n];
    assert s[n..] == t[n..];
  }

  method Rotate<T>(a: array<T>, hi: nat, m: nat)
    requires hi <= m < a.Length
    modifies a
    ensures a[..] == Rotated(old(a[..]), hi, m)
  {
    ghost var s := a[..];
    var c := a[m];
    var i, j: int := m, m - 1;
    while j >= hi
      invariant hi - 1 <= j == i - 1 <= m - 1
      invariant forall k :: 0 <= k < a.Length && !(i < k <= m) ==> a[k] == s[k]
      invariant forall k :: i < k <= m ==> a[k] == s[k - 1]
      decreases j - hi
    {
      a[i] := a[j];
      i := j;
      j := j - 1;
    }
    a[i] := c;
  }

  lemma RotatedAt<T>(s: seq<T>, hi: nat, m: nat, k: nat)
    requires hi <= m < |s| && k < |s|
    ensures |Rotated(s, hi, m)| == |s|
    ensures Rotated(s, hi, m)[k] == if k == hi then s[m] else if hi < k <= m then s[k - 1] else s[k]
  {
  }

  lemma SortedUpTo<T(!new)>(cmp: (T, T) -> int, s: seq<T>, hi: nat, m: nat)
    requires Comparator(cmp) && 0 < hi <= m < |s| && Sorted(cmp, s[..m])
    requires cmp(s[hi - 1], s[m]) <= 0 && forall k :: hi <= k < m ==> cmp(s[k], s[m]) > 0
    ensures Sorted(cmp, Rotated(s, hi, m)[..m + 1])
  {
    hide Comparator, Rotated;
    var t := Rotated(s, hi, m);
    RotatedAt(s, hi, m, 0);
    forall i, j | 0 <= i < j < m + 1
      ensures cmp(t[i], t[j]) <= 0
    {
      RotatedAt(s, hi, m, i);
      RotatedAt(s, hi, m, j);
      if j == hi {
        if i < hi - 1 {
          assert cmp(s[..m][i], s[..m][hi - 1]) <= 0;
          Trans(cmp, s[i], s[hi - 1], s[m]);
        }
      } else if i == hi {
        Total(cmp, s[j - 1], s[m]);
      } else {
        var i', j' := if i < hi then i else i - 1, if j < hi then j else j - 1;
        assert cmp(s[..m][i'], s[..m][j']) <= 0;
      }
    }
  }

  lemma SentinelKept<T(!new)>(cmp: (T, T) -> int, s: seq<T>, hi: nat, m: nat, n: nat)
    requires 0 < hi <= m < n <= |s| && Sentinel(cmp, s, n)
    ensures n <= |Rotated(s, hi, m)| && Sentinel(cmp, Rotated(s, hi, m), n)
  {
    hide Rotated;
    RotatedAt(s, hi, m, 0);
    forall k: nat | k < n
      ensures cmp(Rotated(s, hi, m)[0], Rotated(s, hi, m)[k]) <= 0
    {
      RotatedAt(s, hi, m, k);
    }
  }

  /** The scan for the place of a record has no bounds test: the sentinel stops it. */
  method Insert<T(!new)>(a: array<T>, cmp: (T, T) -> int, m: nat, n: nat)
    requires Comparator(cmp) && 0 < m < n <= a.Length && Sentinel(cmp, a[..], n) && Sorted(cmp, a[..m])
    modifies a
    ensures Permuted(old(a[..]), a[..], 0, n) && Sentinel(cmp, a[..], n) && Sorted(cmp, a[..m + 1])
  {
    hide Comparator, Permuted, Sorted, Rotated;
    ghost var s := a[..];
    assert cmp(s[0], s[m]) <= 0;
    var hi := m - 1;
    while cmp(a[hi], a[m]) > 0
      invariant 0 <= hi < m && forall k :: hi < k < m ==> cmp(a[k], a[m]) > 0
      decreases hi
    {
      hi := hi - 1;
    }
    hi := hi + 1;
    SortedUpTo(cmp, s, hi, m);
    SentinelKept(cmp, s, hi, m, n);
    RotatedPermutes(s, hi, m, n);
    if hi != m {
      Rotate(a, hi, m);
    } else {
      assert Rotated(s, m, m) == s by { RotatedSame(s, m); }
    }
  }

  lemma RotatedSame<T>(s: seq<T>, m: nat)
    requires m < |s|
    ensures Rotated(s, m, m) == s
  {
  }

  lemma SmallNearly<T>(cmp: (T, T) -> int, s: seq<T>, n: nat)
    requires n <= |s|
    ensures n < THRESH ==> Nearly(cmp, s, 0, n)
  {
  }

  /** qsort: the first n records are permuted into order, and nothing else is touched. */
  method Qsort<T(!new)>(a: array<T>, n: int, cmp: (T, T) -> int)
    requires Comparator(cmp) && n <= a.Length
    modifies a
    ensures n <= 1 ==> a[..] == old(a[..])
    ensures n > 1 ==> Permuted(old(a[..]), a[..], 0, n) && Sorted(cmp, a[..n])
  {
    hide Comparator, Permuted, Nearly, Pow2;
    if n <= 1 { return; }
    Same(a[..], n);
    SmallNearly(cmp, a[..], n);
    var hi;
    if n >= THRESH {
      ghost var depth := Qst(a, cmp, 0, n);
      hi := THRESH;
    } else {
      hi := n;
    }
    ghost var s := a[..];
    PlaceSentinel(a, cmp, n, hi);
    Compose(old(a[..]), s, a[..], 0, n);
    var min := 1;
    while min < n
      invariant 1 <= min <= n && Permuted(old(a[..]), a[..], 0, n)
      invariant Sentinel(cmp, a[..], n) && Sorted(cmp, a[..min])
    {
      s := a[..];
      Insert(a, cmp, min, n);
      Compose(old(a[..]), s, a[..], 0, n);
      min := min + 1;
    }
  }
}
