// etc/m2ps.c and etc/bdf.h: the 256 glyph slots of a two-byte font.  A bit per character says whether it
// has a slot; slots carry use counts and are pinned while a piece of text is being printed.

module GlyphCache {

  const SLOTS: nat := 256
  const WORDS: nat := 288          // 96 * 96 / 32
  const CHARS: nat := 9216         // 96 * 96
  const TWO31: nat := 0x8000_0000
  const TWO32: nat := 0x1_0000_0000

  /** An unsigned int read as an int. */
  function AsInt(u: nat): int { if u < TWO31 then u else u - TWO32 }

  /** OFFIDX2 of a two-byte code. */
  function OffIdx2(hi: nat, lo: nat): int { (hi - 32) * 96 + lo - 32 }

  /** Codes whose bytes lie in 0x20 .. 0x7F are numbered one to one. */
  lemma OffIdx2Range(hi: nat, lo: nat, hi': nat, lo': nat)
    requires 32 <= hi < 128 && 32 <= lo < 128 && 32 <= hi' < 128 && 32 <= lo' < 128
    ensures 0 <= OffIdx2(hi, lo) < CHARS
    ensures OffIdx2(hi, lo) == OffIdx2(hi', lo') ==> hi == hi' && lo == lo'
  {
  }

  // ---- the bit set ----

  function Mask(k: bv32): bv32
    requires k < 32
  {
    1 << k
  }

  lemma Masks(k: bv32, m: bv32)
    requires k < 32 && m < 32
    ensures Mask(k) != 0
    ensures k != m ==> Mask(k) & Mask(m) == 0
  {
  }

  lemma Below32(i: nat)
    requires i < 32
    ensures i as bv32 < 32
  {
  }

  lemma RoundTrip(i: nat)
    requires i < 32
    ensures (i as bv32) as int == i
  {
  }

  lemma Places(i: nat, j: nat)
    requires i < 32 && j < 32
    ensures i as bv32 < 32
    ensures i != j ==> i as bv32 != j as bv32
  {
    Below32(i);
    RoundTrip(i);
    RoundTrip(j);
  }

  predicate Test(w: bv32, m: bv32) { w & m != 0 }

  function Or(w: bv32, m: bv32): bv32 { w | m }

  function AndNot(w: bv32, m: bv32): bv32 { w & !m }

  lemma OtherBits(w: bv32, a: bv32, b: bv32)
    requires a & b == 0
    ensures Test(Or(w, a), b) == Test(w, b) && Test(AndNot(w, a), b) == Test(w, b)
  {
    assert (w | a) & b == w & b && (w & !a) & b == w & b;
  }

  lemma OwnBit(w: bv32, a: bv32)
    requires a != 0
    ensures Test(Or(w, a), a) && !Test(AndNot(w, a), a)
  {
  }

  function BitOf(idx: nat): (m: bv32)
    ensures m != 0
  {
    Places(idx % 32, 0);
    Masks((idx % 32) as bv32, 0);
    Mask((idx % 32) as bv32)
  }

  lemma BitsApart(idx: nat, k: nat)
    requires idx % 32 != k % 32
    ensures BitOf(idx) & BitOf(k) == 0
  {
    Places(idx % 32, k % 32);
    Places(k % 32, idx % 32);
    Masks((idx % 32) as bv32, (k % 32) as bv32);
  }

  /** DEFINED2 */
  predicate Defined(d: seq<bv32>, idx: nat)
    requires idx / 32 < |d|
  {
    Test(d[idx / 32], BitOf(idx))
  }

  function WithBit(d: seq<bv32>, idx: nat): (r: seq<bv32>)
    requires idx / 32 < |d|
  {
    d[idx / 32 := Or(d[idx / 32], BitOf(idx))]
  }

  function WithoutBit(d: seq<bv32>, idx: nat): (r: seq<bv32>)
    requires idx / 32 < |d|
  {
    d[idx / 32 := AndNot(d[idx / 32], BitOf(idx))]
  }

  lemma SameBit(idx: nat, k: nat)
    requires k % 32 == idx % 32
    ensures BitOf(k) == BitOf(idx)
  {
  }

  lemma SameWord(w: bv32, idx: nat, k: nat)
    ensures Test(Or(w, BitOf(idx)), BitOf(k)) <==> k % 32 == idx % 32 || Test(w, BitOf(k))
    ensures Test(AndNot(w, BitOf(idx)), BitOf(k)) <==> k % 32 != idx % 32 && Test(w, BitOf(k))
  {
    hide BitOf, Test, Or, AndNot;
    OwnBit(w, BitOf(idx));
    if k % 32 != idx % 32 {
      BitsApart(idx, k);
      OtherBits(w, BitOf(idx), BitOf(k));
    } else {
      SameBit(idx, k);
    }
  }

  lemma SameIndex(idx: nat, k: nat)
    requires k / 32 == idx / 32 && k % 32 == idx % 32
    ensures k == idx
  {
  }

  lemma OneBit(d: seq<bv32>, idx: nat, k: nat)
    requires idx / 32 < |d| && k / 32 < |d|
    ensures |WithBit(d, idx)| == |WithoutBit(d, idx)| == |d|
    ensures Defined(WithBit(d, idx), k) <==> k == idx || Defined(d, k)
    ensures Defined(WithoutBit(d, idx), k) <==> k != idx && Defined(d, k)
  {
    hide BitOf, Test, Or, AndNot;
    if k / 32 == idx / 32 {
      SameWord(d[idx / 32], idx, k);
      if k % 32 == idx % 32 { SameIndex(idx, k); }
    }
  }

  // ---- what the cache keeps ----

  predicate Used(count: seq<nat>, i: nat) { i < |count| && count[i] > 0 }

  ghost predicate Holds(code: seq<int>, count: seq<nat>, idx: int,
                        i: nat) { Used(count, i) && i < |code| && code[i] == idx }

  ghost predicate Sizes(d: seq<bv32>, code: seq<int>, count: seq<nat>, pinned: seq<bool>) {
    && |d| == WORDS && |code| == |count| == |pinned| == SLOTS
    && forall i: nat :: i < SLOTS ==> count[i] < TWO32
  }

  /** A character's bit is set exactly when one used slot holds it; the used slots come first. */
  ghost predicate CacheOk(d: seq<bv32>, code: seq<int>, count: seq<nat>, pinned: seq<bool>) {
    && Sizes(d, code, count, pinned)
    && (forall i: nat, j: nat :: i < j < SLOTS && Used(count, j) ==> Used(count, i))
    && (forall i: nat :: i < SLOTS && pinned[i] ==> Used(count, i))
    && (forall i: nat :: Used(count, i) ==> 0 <= code[i] < CHARS && Defined(d, code[i]))
    && (forall i: nat, j: nat :: i < j < SLOTS && Used(count, i) && Used(count, j) ==> code[i] != code[j])
    && (forall idx: nat :: idx < CHARS && Defined(d, idx) ==> exists i: nat :: Holds(code, count, idx, i))
  }

  /** Slot i may be given away without hurting the text being printed. */
  predicate Available(count: seq<nat>, pinned: seq<bool>, i: nat) {
    i < |count| && i < |pinned| && count[i] <= 0x7FFF && !pinned[i]
  }

  /** The slot find_encoding gives away: the first unused one; failing that the least used available one;
      failing that slot 0. */
  ghost predicate Victim(count: seq<nat>, pinned: seq<bool>, j: nat) {
    && j < |count|
    && (count[j] == 0 ==> forall i: nat :: i < j ==> Used(count, i))
    && (count[j] > 0 ==> forall i: nat :: i < |count| ==> Used(count, i))
    && (forall i: nat :: Available(count, pinned, i) ==> Available(count, pinned, j) && count[j] <= count[i])
    && (!Available(count, pinned, j) ==> j == 0)
  }

  function NoPins(): seq<bool> { seq(SLOTS, _ => false) }

  /** The contents of the four arrays. */
  datatype Cache = Cache(defined: seq<bv32>, code: seq<int>, count: seq<nat>, pinned: seq<bool>)

  function Empty(): Cache {
    Cache(seq(WORDS, _ => 0), seq(SLOTS, _ => 0), seq(SLOTS, _ => 0), NoPins())
  }

  class FontExtra {
    const defined: array<bv32>
    const code: array<int>
    const count: array<nat>
    const pinned: array<bool>      // the field new

    ghost predicate Valid()
      reads this, defined, code, count, pinned
    {
      CacheOk(defined[..], code[..], count[..], pinned[..])
    }

    ghost function View(): Cache
      reads this, defined, code, count, pinned
    {
      Cache(defined[..], code[..], count[..], pinned[..])
    }

    /** bdf_reset_font. */
    constructor ()
      ensures Valid() && fresh(defined) && fresh(code) && fresh(count) && fresh(pinned) && View() == Empty()
    {
      defined := new bv32[WORDS](_ => 0);
      code := new int[SLOTS](_ => 0);
      count := new nat[SLOTS](_ => 0);
      pinned := new bool[SLOTS](_ => false);
      new;
      assert forall k: nat :: k < WORDS ==> defined[k] == 0;
      NothingDefined(defined[..]);
    }

    /** DEFINE2 */
    method Define2(idx: nat)
      requires idx / 32 < defined.Length
      modifies defined
      ensures defined[..] == WithBit(old(defined[..]), idx)
    {
      defined[idx / 32] := Or(defined[idx / 32], BitOf(idx));
    }

    /** UNDEFINE2 */
    method Undefine2(idx: nat)
      requires idx / 32 < defined.Length
      modifies defined
      ensures defined[..] == WithoutBit(old(defined[..]), idx)
    {
      defined[idx / 32] := AndNot(defined[idx / 32], BitOf(idx));
    }

    /** find_encoding: a slot for a character that has none. */
    method FindEncoding(idx: nat) returns (j: nat)
      requires Valid() && idx < CHARS && !Defined(defined[..], idx)
      modifies defined, code, count, pinned
      ensures j < SLOTS
      ensures code[..] == old(code[..])[j := idx] && count[..] == old(count[..])[j := 1]
        && pinned[..] == old(pinned[..])[j := true]
      ensures old(count[0]) < TWO31 ==> Victim(old(count[..]), old(pinned[..]), j)
      ensures old(count[0]) >= TWO31 ==> j == 0
      ensures Valid() <==> old(count[0]) < TWO31
    {
      ghost var d0, code0, count0, pinned0 := defined[..], code[..], count[..], pinned[..];
      var minCount: int := AsInt(count[0]);
      j := 0;
      if minCount > 0 {
        minCount := 0x7FFF;
        ghost var found := false;
        var i := 0;
        while i < 256
          invariant 0 <= i <= 256 && j < 256
          invariant forall k: nat :: k < i && Available(count0, pinned0, k) ==> found && count0[j] <= count0[k]
          invariant if found then Available(count0, pinned0, j) && minCount == count0[j] > 0
            else j == 0 && minCount == 0x7FFF
          decreases 256 - i
        {
          if count[i] <= minCount && !pinned[i] {
            minCount, j := count[i], i;
            found := true;
            if minCount == 0 { break; }
          }
          i := i + 1;
        }
        if minCount == 0 {
          FirstUnused(d0, code0, count0, pinned0, j);
        } else {
          AllUsed(d0, code0, count0, pinned0, j, found);
        }
      }
      if minCount > 0 {
        assert Used(count0, j);
        Undefine2(code[j]);
      }
      count[j], pinned[j] := 1, true;
      code[j] := idx;
      Define2(idx);
      if count0[0] < TWO31 {
        Replaced(d0, code0, count0, pinned0, idx, j, defined[..]);
      } else {
        LostBit(d0, code0, count0, pinned0, idx, defined[..], code[..], count[..], pinned[..]);
      }
    }

    /** The search of set_glyph2 for a character that has a slot. */
    method FindSlot(idx: nat) returns (j: nat)
      requires Valid() && idx < CHARS && Defined(defined[..], idx)
      ensures Holds(code[..], count[..], idx, j) && j < SLOTS
    {
      j := 0;
      ghost var h: nat :| Holds(code[..], count[..], idx, h);
      while j < 256
        invariant 0 <= j <= h < 256
        decreases 256 - j
      {
        if code[j] == idx { break; }
        j := j + 1;
      }
      assert Used(count[..], h);
    }

    /** set_glyph2; `loads` says whether bdf_load_glyph finds the glyph.  -1 if it does not. */
    method SetGlyph2(idx: nat, loads: bool) returns (r: int)
      requires Valid() && idx < CHARS
      modifies defined, code, count, pinned
      ensures -1 <= r < SLOTS
      ensures r == -1 <==> !Defined(old(defined[..]), idx) && !loads
      ensures r == -1 ==> defined[..] == old(defined[..]) && code[..] == old(code[..])
      ensures r == -1 ==> count[..] == old(count[..]) && pinned[..] == old(pinned[..])
      ensures r >= 0 ==>
        code[..] == old(code[..])[r := idx] && pinned[..] == old(pinned[..])[r := true] && count[..][r] < TWO32
      ensures r >= 0 && Defined(old(defined[..]), idx) ==>
        && Holds(old(code[..]), old(count[..]), idx, r)
        && count[..] == old(count[..])[r := (old(count[..])[r] + 1) % TWO32]
        && (Valid() <==> old(count[..])[r] + 1 < TWO32)
      ensures r >= 0 && !Defined(old(defined[..]), idx) ==>
        && count[..] == old(count[..])[r := 1]
        && (old(count[..])[0] < TWO31 ==> Victim(old(count[..]), old(pinned[..]), r))
        && (Valid() <==> old(count[..])[0] < TWO31)
    {
      if !Defined(defined[..], idx) {
        if !loads { return -1; }
        r := FindEncoding(idx);
      } else {
        ghost var d0, code0, count0, pinned0 := defined[..], code[..], count[..], pinned[..];
        r := FindSlot(idx);
        assert code0[r := idx] == code0;
        pinned[r] := true;
        count[r] := (count[r] + 1) % TWO32;
        OneMore(d0, code0, count0, pinned0, r);
      }
    }

    /** renew_font: the printed text no longer needs its glyphs. */
    method RenewFont()
      requires Valid()
      modifies pinned
      ensures Valid() && View() == old(View()).(pinned := NoPins())
    {
      var i := 0;
      while i < 256
        invariant 0 <= i <= 256 && forall k: nat :: k < i ==> !pinned[k]
        modifies pinned
      {
        pinned[i] := false;
        i := i + 1;
      }
    }
  }

  lemma NothingDefined(d: seq<bv32>)
    requires forall k: nat :: k < |d| ==> d[k] == 0
    ensures forall idx: nat :: idx / 32 < |d| ==> !Defined(d, idx)
  {
    forall idx: nat | idx / 32 < |d|
      ensures !Defined(d, idx)
    {
      hide BitOf, Test;
      Zero(BitOf(idx));
    }
  }

  lemma Zero(m: bv32)
    ensures !Test(0, m)
  {
  }

  lemma FirstUnused(d: seq<bv32>, code: seq<int>, count: seq<nat>, pinned: seq<bool>, j: nat)
    requires CacheOk(d, code, count, pinned) && j < SLOTS && count[j] == 0 && !pinned[j]
    requires forall k: nat :: k < j && Available(count, pinned, k) ==> count[k] > 0
    ensures Victim(count, pinned, j)
  {
    forall k: nat | k < j
      ensures Used(count, k)
    {
      assert count[k] == 0 ==> Available(count, pinned, k);
    }
  }

  lemma AllUsed(d: seq<bv32>, code: seq<int>, count: seq<nat>, pinned: seq<bool>, j: nat, found: bool)
    requires CacheOk(d, code, count, pinned) && j < SLOTS
    requires forall k: nat :: k < SLOTS && Available(count, pinned, k) ==> found && count[j] <= count[k]
    requires if found then Available(count, pinned, j) && count[j] > 0 else j == 0
    ensures Victim(count, pinned, j) && count[j] > 0
  {
    forall k: nat | k < SLOTS
      ensures Used(count, k)
    {
      assert count[k] == 0 ==> Available(count, pinned, k);
    }
  }

  /** The bits after character idx has been given slot j. */
  function Bits(d: seq<bv32>, code: seq<int>, count: seq<nat>, idx: nat, j: nat): seq<bv32>
    requires |d| == WORDS && idx < CHARS && j < |code| && j < |count|
  {
    WithBit(if count[j] > 0 && 0 <= code[j] < CHARS then WithoutBit(d, code[j]) else d, idx)
  }

  lemma BitsAre(d: seq<bv32>, code: seq<int>, count: seq<nat>, idx: nat, j: nat, k: nat)
    requires |d| == WORDS && idx < CHARS && j < |code| && j < |count| && k < CHARS
    requires count[j] > 0 ==> 0 <= code[j] < CHARS
    ensures |Bits(d, code, count, idx, j)| == WORDS
    ensures Defined(Bits(d, code, count, idx, j), k) <==> k == idx || (Defined(d, k) && !(count[j] > 0 && k == code[j]))
  {
    hide WithBit, WithoutBit, Defined;
    if count[j] > 0 {
      OneBit(d, code[j], k);
      OneBit(WithoutBit(d, code[j]), idx, k);
    } else {
      OneBit(d, idx, k);
    }
  }

  /** Giving slot j to a character keeps bits, slots and the prefix of used slots in agreement. */
  lemma Replaced(d: seq<bv32>, code: seq<int>, count: seq<nat>, pinned: seq<bool>, idx: nat, j: nat, d': seq<bv32>)
    requires CacheOk(d, code, count, pinned) && idx < CHARS && !Defined(d, idx) && Victim(count, pinned, j)
    requires d' == Bits(d, code, count, idx, j)
    ensures CacheOk(d', code[j := idx], count[j := 1], pinned[j := true])
  {
    hide WithBit, WithoutBit, Defined, Bits, Available;
    var code', count', pinned' := code[j := idx], count[j := 1], pinned[j := true];
    BitsAre(d, code, count, idx, j, idx);
    assert Used(count', j);
    forall i: nat | i < SLOTS && i != j
      ensures Used(count', i) <==> Used(count, i)
    {
    }
    forall i: nat | Used(count', i)
      ensures 0 <= code'[i] < CHARS && Defined(d', code'[i])
      ensures i != j ==> code[i] != idx && Used(count, i)
    {
      if i != j {
        BitsAre(d, code, count, idx, j, code[i]);
        if Used(count, j) { Different(d, code, count, pinned, i, j); }
      }
    }
    forall i: nat, k: nat | i < k < SLOTS && Used(count', i) && Used(count', k)
      ensures code'[i] != code'[k]
    {
      if i != j && k != j { Different(d, code, count, pinned, i, k); }
    }
    forall x: nat | x < CHARS && Defined(d', x)
      ensures exists i: nat :: Holds(code', count', x, i)
    {
      BitsAre(d, code, count, idx, j, x);
      if x == idx {
        assert Holds(code', count', idx, j);
      } else {
        var i: nat :| Holds(code, count, x, i);
        assert Holds(code', count', x, i);
      }
    }
  }

  lemma Different(d: seq<bv32>, code: seq<int>, count: seq<nat>, pinned: seq<bool>, i: nat, j: nat)
    requires CacheOk(d, code, count, pinned) && Used(count, i) && Used(count, j) && i != j
    ensures code[i] != code[j]
  {
  }

  /** A count of 2^31 or more in slot 0 reads as negative: the slot is given away, but the bit of the
      character that loses it stays set. */
  lemma LostBit(d: seq<bv32>, code: seq<int>, count: seq<nat>, pinned: seq<bool>, idx: nat,
                d': seq<bv32>, code': seq<int>, count': seq<nat>, pinned': seq<bool>)
    requires CacheOk(d, code, count, pinned) && idx < CHARS && !Defined(d, idx) && count[0] >= TWO31
    requires d' == WithBit(d, idx) && code' == code[0 := idx] && count' == count[0 := 1]
    ensures !CacheOk(d', code', count', pinned')
  {
    hide WithBit, Defined, Available;
    assert Used(count, 0);
    var lost: nat := code[0];
    OneBit(d, idx, lost);
    forall i: nat
      ensures !Holds(code', count', lost, i)
    {
      if i > 0 && Used(count, i) { Different(d, code, count, pinned, i, 0); }
    }
  }

  /** A hit: the count goes up, and agreement is lost exactly when it wraps to 0. */
  lemma OneMore(d: seq<bv32>, code: seq<int>, count: seq<nat>, pinned: seq<bool>, r: nat)
    requires CacheOk(d, code, count, pinned) && Used(count, r)
    ensures CacheOk(d, code, count[r := (count[r] + 1) % TWO32], pinned[r := true]) <==> count[r] + 1 < TWO32
  {
    hide Defined, Available;
    var count' := count[r := (count[r] + 1) % TWO32];
    if count[r] + 1 < TWO32 {
      forall i: nat
        ensures Used(count', i) <==> Used(count, i)
      {
      }
      forall x: nat | x < CHARS && Defined(d, x)
        ensures exists i: nat :: Holds(code, count', x, i)
      {
        var i: nat :| Holds(code, count, x, i);
        assert Holds(code, count', x, i);
      }
    } else {
      assert !Used(count', r) && pinned[r := true][r];
    }
  }

  // ---- runs ----

  datatype Op = Glyph(idx: nat, loads: bool) | Renew

  ghost predicate CountedUpTo(count: seq<nat>, n: nat) { forall i: nat :: i < |count| ==> count[i] <= n }

  /** What one call does to the cache, and its answer: the slot that holds the character from then on, pinned, or
      -1 if the glyph cannot be loaded.  On a hit this slot held the character and is counted; otherwise it was
      free to be given away. */
  ghost predicate Did(op: Op, a: Cache, answer: int, b: Cache) {
    match op
    case Renew => answer == -1 && b == a.(pinned := NoPins())
    case Glyph(idx, loads) =>
      if idx / 32 < |a.defined| && !Defined(a.defined, idx) && !loads then answer == -1 && b == a
      else
        && 0 <= answer < SLOTS == |a.code| == |a.count| == |a.pinned| && Holds(b.code, b.count, idx, answer)
        && b.code == a.code[answer := idx] && b.pinned == a.pinned[answer := true]
        && (if Holds(a.code, a.count, idx, answer) then b.count == a.count[answer := a.count[answer] + 1]
            else Victim(a.count, a.pinned, answer) && b.count == a.count[answer := 1])
  }

  /** Fewer than 2^31 - 1 calls cannot bring a count where it misbehaves.  `trace` lists the contents of the cache
      from call to call: bits, slots, counts and pins stay in agreement, every answer is the slot that holds the
      character asked for, and no slot is given away that a pinned or often used character needs while another
      one is available. */
  method Run(ops: seq<Op>) returns (font: FontExtra, answers: seq<int>, ghost trace: seq<Cache>)
    requires |ops| < TWO31 - 1
    requires forall op :: op in ops && op.Glyph? ==> op.idx < CHARS
    ensures |answers| == |ops| && |trace| == |ops| + 1 && trace[0] == Empty() && trace[|ops|] == font.View()
    ensures forall k: nat :: k < |ops| ==> Did(ops[k], trace[k], answers[k], trace[k + 1])
    ensures forall k: nat :: k <= |ops| ==> InAgreement(trace[k])
  {
    font := new FontExtra();
    answers, trace := [], [font.View()];
    var i := 0;
    while i < |ops|
      invariant 0 <= i <= |ops| && |answers| == i && |trace| == i + 1 && fresh(font)
      invariant fresh(font.defined) && fresh(font.code) && fresh(font.count) && fresh(font.pinned)
      invariant font.Valid() && CountedUpTo(font.count[..], i) && trace[0] == Empty() && trace[i] == font.View()
      invariant forall k: nat :: k < i ==> Did(ops[k], trace[k], answers[k], trace[k + 1])
      invariant forall k: nat :: k <= i ==> InAgreement(trace[k])
    {
      hide CacheOk, Did, InAgreement, Empty, CountedUpTo;
      assert ops[i] in ops;
      var r := Serve(font, ops[i], i);
      answers, trace := answers + [r], trace + [font.View()];
      i := i + 1;
    }
  }

  ghost predicate InAgreement(a: Cache) { CacheOk(a.defined, a.code, a.count, a.pinned) }

  method Serve(font: FontExtra, op: Op, ghost n: nat) returns (r: int)
    requires font.Valid() && CountedUpTo(font.count[..], n) && n < TWO31 - 1 && (op.Glyph? ==> op.idx < CHARS)
    modifies font.defined, font.code, font.count, font.pinned
    ensures font.Valid() && CountedUpTo(font.count[..], n + 1)
    ensures Did(op, old(font.View()), r, font.View()) && InAgreement(font.View())
  {
    hide CacheOk, Victim;
    SlotCount(font);
    ghost var a := font.View();
    r := -1;
    match op {
      case Glyph(idx, loads) =>
        HoldsDefined(a, idx);
        r := font.SetGlyph2(idx, loads);
        assert r == -1 ==> font.View() == a;
        assert r >= 0 ==> Holds(font.code[..], font.count[..], idx, r);
        assert r >= 0 && Holds(a.code, a.count, idx, r) ==> font.count[..] == a.count[r := a.count[r] + 1];
      case Renew =>
        font.RenewFont();
    }
  }

  /** A slot holds only characters whose bit is set. */
  lemma HoldsDefined(a: Cache, idx: nat)
    requires InAgreement(a) && idx < CHARS
    ensures idx / 32 < |a.defined| && forall i: nat :: Holds(a.code, a.count, idx, i) ==> Defined(a.defined, idx)
  {
  }

  lemma SlotCount(font: FontExtra)
    requires font.Valid()
    ensures font.count.Length == font.code.Length == font.pinned.Length == SLOTS
  {
  }
}
