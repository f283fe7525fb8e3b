// What the instructions of CCL compute, said without saying how.

module CclArithmetic {
  import opened Arithmetic
  import opened CclMachine

  datatype UnOp = Inc | Dec | Twice | Half | Not

  datatype BinOp = Add | Sub | Mul | Div | Mod | And | Or | Shl | Shr | Lt | Gt | Eq | Le | Ge | Ne

  /** The place of an operator in the list of instructions. */
  function UnCode(op: UnOp): nat {
    match op
    case Inc => 13
    case Dec => 14
    case Twice => 15
    case Half => 16
    case Not => 26
  }

  function BinCode(op: BinOp): nat {
    match op
    case Add => 17
    case Sub => 18
    case Mul => 19
    case Div => 20
    case Mod => 21
    case And => 22
    case Or => 23
    case Shl => 24
    case Shr => 25
    case Lt => 27
    case Gt => 28
    case Eq => 29
    case Le => 30
    case Ge => 31
    case Ne => 32
  }

  predicate Int32(x: int) { -0x8000_0000 <= x < 0x8000_0000 }

  /** Equal modulo 2^32. */
  predicate Congruent(x: int, y: int) { (x - y) % 0x1_0000_0000 == 0 }

  function Abs(x: int): nat { if x < 0 then -x else x }

  /** Division towards zero: the remainder is smaller than the divisor and has the sign of the dividend. */
  predicate Truncated(a: int, b: int, q: int, r: int) { a == q * b + r && Abs(r) < Abs(b) && SameSign(a, r) }

  predicate SameSign(a: int, r: int) { r == 0 || (a > 0 && r > 0) || (a < 0 && r < 0) }

  /** u is x divided by p, rounded down. */
  predicate Shifted(x: nat, p: nat, u: nat) { u * p <= x < (u + 1) * p }

  /** One of the two's complement bits of a word. */
  predicate WordBit(x: int, i: nat) { Bit(Unsigned(x), i) }

  ghost predicate Computes1(op: UnOp, a: int, v: int) {
    && Int32(v)
    && match op
       case Inc => Congruent(v, a + 1)
       case Dec => Congruent(v + 1, a)
       case Twice => Congruent(v, a + a)
       case Half => Truncated(a, 2, v, a - 2 * v)
       case Not => v == if a == 0 then 1 else 0
  }

  /** v is what `op` makes of a and b. */
  ghost predicate Computes(op: BinOp, a: int, b: int, v: int) {
    && Int32(v)
    && match op
       case Add => Congruent(v, a + b)
       case Sub => Congruent(v + b, a)
       case Mul => Congruent(v, a * b)
       case Div => Truncated(a, b, v, a - v * b)
       case Mod => exists q :: Int32(q) && Truncated(a, b, q, v)
       case And => forall i: nat :: i < 32 ==> (WordBit(v, i) <==> WordBit(a, i) && WordBit(b, i))
       case Or => forall i: nat :: i < 32 ==> (WordBit(v, i) <==> WordBit(a, i) || WordBit(b, i))
       case Shl => 0 <= b < 32 && Congruent(v, a * Pow2(b))
       case Shr => 0 <= b < 32 && Shifted(Unsigned(a), Pow2(b), Unsigned(v))
       case Lt => v == if a < b then 1 else 0
       case Gt => v == if a > b then 1 else 0
       case Eq => v == if a == b then 1 else 0
       case Le => v == if a <= b then 1 else 0
       case Ge => v == if a >= b then 1 else 0
       case Ne => v == if a != b then 1 else 0
  }

  // ---- the instructions compute that ----

  lemma UnsignedIs(x: int)
    ensures 0 <= x < 0x1_0000_0000 ==> Unsigned(Wrap(x)) == x && Unsigned(x) == x
    ensures Int32(x) ==> Wrap(Unsigned(x)) == x
    ensures Int32(Wrap(x)) && Congruent(Wrap(x), x)
  {
  }

  lemma Same(v: int, w: int)
    requires Int32(v) && Int32(w) && (Congruent(v, w) || Unsigned(v) == Unsigned(w))
    ensures v == w
  {
  }

  /** The quotient of the absolute values, with the sign it gets. */
  function Signed(a: int, b: int, q: int): int { if (a >= 0) == (b > 0) then q else -q }

  lemma QuotientAbs(a: int, b: int)
    requires b != 0
    ensures Quotient(a, b) == Signed(a, b, Abs(a) / Abs(b))
  {
  }

  lemma SignedTimes(a: int, b: int, q: int)
    requires b != 0
    ensures Signed(a, b, q) * b == if a >= 0 then Abs(b) * q else -(Abs(b) * q)
  {
    if b > 0 {
      assert Abs(b) == b && -q * b == -(b * q);
    } else {
      assert Abs(b) == -b && -q * b == (-b) * q && q * b == -((-b) * q);
    }
  }

  lemma SignedTwice(a: int, b: int, q: int)
    ensures Signed(a, b, Signed(a, b, q)) == q
  {
  }

  /** Division of the absolute values, put in terms of a product. */
  lemma AbsDivision(n: nat, d: nat)
    requires d > 0
    ensures n == d * (n / d) + n % d && n % d < d && n / d <= n && d * (n / d) >= 0
  {
    var q := n / d;
    assert n == d * q + n % d;
    if q > 0 {
      Product(q, d);
      assert q * d == d * q;
    }
  }

  lemma QuotientIs(a: int, b: int)
    requires b != 0
    ensures Truncated(a, b, Quotient(a, b), a - b * Quotient(a, b))
  {
    QuotientAbs(a, b);
    AbsDivision(Abs(a), Abs(b));
    var q := Abs(a) / Abs(b);
    SignedTimes(a, b, q);
    Swapped(b, Signed(a, b, q));
    hide Quotient, Signed;
    RemainderSigned(a, b, Quotient(a, b) * b, Abs(b) * q, Abs(a) % Abs(b));
  }

  lemma Swapped(x: int, y: int)
    ensures x * y == y * x
  {
  }

  lemma RemainderSigned(a: int, b: int, product: int, abs: int, r: int)
    requires Abs(a) == abs + r && 0 <= r < Abs(b) && abs >= 0 && product == if a >= 0 then abs else -abs
    ensures Abs(a - product) < Abs(b) && SameSign(a, a - product)
  {
  }

  lemma OneQuotient(a: int, b: int, q: int, r: int)
    requires b != 0 && Truncated(a, b, q, r)
    ensures q == Quotient(a, b) && r == a - b * Quotient(a, b)
  {
    var p := Signed(a, b, q);
    SignedTwice(a, b, q);
    SignedTimes(a, b, p);
    QuotientAbs(a, b);
    Swapped(q, b);
    hide Quotient, Signed;
    RemainderAbs(a, q * b, Abs(b) * p, r);
    Remainder(Abs(a), Abs(b), p, Abs(r));
  }

  lemma RemainderAbs(a: int, product: int, abs: int, r: int)
    requires a == product + r && SameSign(a, r) && product == if a >= 0 then abs else -abs
    ensures Abs(a) == abs + Abs(r)
  {
  }

  lemma QuotientFits(a: int, b: int)
    requires Int32(a) && b != 0
    ensures Int32(Quotient(a, b)) <==> Divides(a, b)
  {
    QuotientAbs(a, b);
    var n, d := Abs(a), Abs(b);
    AbsDivision(n, d);
    if d > 1 { HalfOrLess(n, d); }
    assert d == 1 ==> n / d == n;
  }

  lemma HalfOrLess(n: nat, d: nat)
    requires d > 1
    ensures 2 * (n / d) <= n
  {
    var q := n / d;
    assert n == d * q + n % d;
    assert d * q == 2 * q + (d - 2) * q;
    if d > 2 && q > 0 { Product(q, d - 2); Swapped(q, d - 2); }
  }

  lemma BinaryDivision(a: int, b: int)
    ensures Binary(BinCode(Div), a, b) == if Divides(a, b) then Some(Wrap(Quotient(a, b))) else None
    ensures Binary(BinCode(Mod), a, b) == if Divides(a, b) then Some(Wrap(a - b * Quotient(a, b))) else None
  {
    hide Wrap, Quotient, Divides;
  }

  lemma ComputesDivision(a: int, b: int, v: int)
    ensures Computes(Div, a, b, v) <==> Int32(v) && Truncated(a, b, v, a - v * b)
    ensures Computes(Mod, a, b, v) <==> Int32(v) && exists q :: Int32(q) && Truncated(a, b, q, v)
  {
  }

  /** The quotient and the remainder of the machine are what they should be, and words. */
  lemma DivisionFits(a: int, b: int)
    requires Int32(a) && Int32(b) && b != 0
    ensures var q := Quotient(a, b); var r := a - b * q;
      && (Int32(q) <==> Divides(a, b)) && Truncated(a, b, q, r) && Int32(r) && a - q * b == r
      && (Int32(q) ==> Wrap(q) == q) && Wrap(r) == r
  {
    var q := Quotient(a, b);
    QuotientIs(a, b);
    QuotientFits(a, b);
    Swapped(b, q);
    RemainderFits(a, b, q, a - b * q);
    hide Quotient, Wrap;
    WordItself(q);
    WordItself(a - b * q);
  }

  lemma WordItself(x: int)
    ensures Int32(x) ==> Wrap(x) == x
  {
  }

  lemma RemainderFits(a: int, b: int, q: int, r: int)
    requires Int32(b) && Truncated(a, b, q, r)
    ensures Int32(r)
  {
  }

  lemma DivisorNotZero(a: int, b: int, q: int, r: int)
    ensures Truncated(a, b, q, r) ==> b != 0
    ensures Divides(a, b) ==> b != 0
  {
  }

  lemma DivIs(a: int, b: int, v: int)
    requires Int32(a) && Int32(b)
    ensures Binary(BinCode(Div), a, b) == Some(v) <==> Computes(Div, a, b, v)
  {
    hide *;
    BinaryDivision(a, b);
    ComputesDivision(a, b, v);
    DivisorNotZero(a, b, v, a - v * b);
    if b != 0 {
      DivisionFits(a, b);
      if Truncated(a, b, v, a - v * b) { OneQuotient(a, b, v, a - v * b); }
    }
  }

  lemma ModIs(a: int, b: int, v: int)
    requires Int32(a) && Int32(b)
    ensures Binary(BinCode(Mod), a, b) == Some(v) <==> Computes(Mod, a, b, v)
  {
    hide *;
    BinaryDivision(a, b);
    ComputesDivision(a, b, v);
    DivisorNotZero(a, b, 0, 0);
    if b != 0 {
      DivisionFits(a, b);
      if Computes(Mod, a, b, v) {
        var q :| Int32(q) && Truncated(a, b, q, v);
        OneQuotient(a, b, q, v);
      }
    } else if Computes(Mod, a, b, v) {
      var q :| Int32(q) && Truncated(a, b, q, v);
      DivisorNotZero(a, b, q, v);
    }
  }

  lemma DivisionIs(op: BinOp, a: int, b: int, v: int)
    requires (op.Div? || op.Mod?) && Int32(a) && Int32(b)
    ensures Binary(BinCode(op), a, b) == Some(v) <==> Computes(op, a, b, v)
  {
    hide *;
    if op.Div? { DivIs(a, b, v); } else { ModIs(a, b, v); }
  }

  lemma BitwiseIs(op: BinOp, a: int, b: int, v: int)
    requires (op.And? || op.Or?) && Int32(a) && Int32(b)
    ensures Binary(BinCode(op), a, b) == Some(v) <==> Computes(op, a, b, v)
  {
    Pow31();
    var x, y := Unsigned(a), Unsigned(b);
    var u := if op.And? then BitAnd(x, y) else BitOr(x, y);
    if op.And? { AndBound(x, y, 32); } else { OrBound(x, y, 32); }
    UnsignedIs(u);
    forall i: nat ensures Bit(u, i) <==> if op.And? then Bit(x, i) && Bit(y, i) else Bit(x, i) || Bit(y, i) {
      if op.And? { BitOfAnd(x, y, i); } else { BitOfOr(x, y, i); }
    }
    if Computes(op, a, b, v) {
      forall i: nat | i < 32 ensures Bit(Unsigned(v), i) == Bit(u, i) {
        assert WordBit(v, i) <==> if op.And? then WordBit(a, i) && WordBit(b, i) else WordBit(a, i) || WordBit(b, i);
      }
      SameBits(Unsigned(v), u, 32);
      Same(v, Wrap(u));
    }
  }

  lemma TimesPower(a: int, p: nat)
    ensures Congruent(Unsigned(a) * p, a * p)
  {
    var q := a / 0x1_0000_0000;
    assert a == 0x1_0000_0000 * q + Unsigned(a);
    assert Unsigned(a) * p - a * p == 0x1_0000_0000 * (-q * p);
    Multiple(-q * p);
  }

  lemma Multiple(k: int)
    ensures 0x1_0000_0000 * k % 0x1_0000_0000 == 0
  {
  }

  lemma ShiftLeftIs(a: int, b: int, v: int)
    requires Int32(a) && 0 <= b < 32
    ensures Binary(BinCode(Shl), a, b) == Some(v) <==> Computes(Shl, a, b, v)
  {
    var p, x := Pow2(b), Unsigned(a);
    TimesPower(a, p);
    UnsignedIs(x * p);
    CongruentBoth(Wrap(x * p), x * p, a * p);
    BinaryShr(a, b);
    hide Wrap, Unsigned, Congruent, Binary, Pow2;
    if Computes(Shl, a, b, v) {
      CongruentTwo(v, Wrap(x * p), a * p);
      Same(v, Wrap(x * p));
    }
  }

  lemma ShiftRightIs(a: int, b: int, v: int)
    requires Int32(a) && 0 <= b < 32
    ensures Binary(BinCode(Shr), a, b) == Some(v) <==> Computes(Shr, a, b, v)
  {
    hide Shifted, Wrap, Unsigned, Pow2, Computes, Binary;
    ComputesShr(a, b, v);
    BinaryShr(a, b);
    ShiftRight(Unsigned(a), Pow2(b), Unsigned(v));
    ShiftWords(Unsigned(a), Pow2(b));
    if Computes(Shr, a, b, v) { Same(v, Wrap(Unsigned(a) / Pow2(b))); }
    InWordAlready(Unsigned(a) / Pow2(b));
  }

  lemma ComputesShr(a: int, b: int, v: int)
    requires 0 <= b < 32
    ensures Computes(Shr, a, b, v) <==> Int32(v) && Shifted(Unsigned(a), Pow2(b), Unsigned(v))
  {
  }

  lemma BinaryShr(a: int, b: int)
    requires 0 <= b < 32
    ensures Binary(BinCode(Shr), a, b) == Some(Wrap(Unsigned(a) / Pow2(b)))
    ensures Binary(BinCode(Shl), a, b) == Some(Wrap(Unsigned(a) * Pow2(b)))
  {
    hide Wrap, Unsigned, Pow2, Quotient;
  }

  lemma ShiftIs(op: BinOp, a: int, b: int, v: int)
    requires (op.Shl? || op.Shr?) && Int32(a)
    ensures Binary(BinCode(op), a, b) == Some(v) <==> Computes(op, a, b, v)
  {
    if 0 <= b < 32 {
      hide Binary, Computes;
      if op.Shl? { ShiftLeftIs(a, b, v); } else { ShiftRightIs(a, b, v); }
    }
  }

  lemma CongruentBoth(x: int, y: int, z: int)
    requires Congruent(x, y) && Congruent(y, z)
    ensures Congruent(x, z)
  {
  }

  lemma CongruentTwo(x: int, y: int, z: int)
    requires Congruent(x, z) && Congruent(y, z)
    ensures Congruent(x, y)
  {
  }

  lemma ShiftRight(x: nat, p: nat, u: nat)
    requires p > 0
    ensures Shifted(x, p, u) <==> u == x / p
    ensures x / p <= x
  {
    AbsDivision(x, p);
    var q := x / p;
    Swapped(u, p);
    Swapped(q, p);
    assert (u + 1) * p == u * p + p && (q + 1) * p == q * p + p;
    if Shifted(x, p, u) { Remainder(x, p, u, x - p * u); }
  }

  /** Executing an operator leaves v exactly if v is what the operator stands for. */
  lemma BinaryIs(op: BinOp, a: int, b: int, v: int)
    requires Int32(a) && Int32(b)
    ensures Binary(BinCode(op), a, b) == Some(v) <==> Computes(op, a, b, v)
  {
    hide Binary, Computes;
    match op {
      case Div => DivisionIs(op, a, b, v);
      case Mod => DivisionIs(op, a, b, v);
      case And => BitwiseIs(op, a, b, v);
      case Or => BitwiseIs(op, a, b, v);
      case Shl => ShiftIs(op, a, b, v);
      case Shr => ShiftIs(op, a, b, v);
      case Mul => ProductIs(a, b, v);
      case Add => SumIs(a, b, v);
      case Sub => SumIs(a, b, v);
      case _ => CompareIs(op, a, b, v);
    }
  }

  lemma SumIs(a: int, b: int, v: int)
    ensures Binary(BinCode(Add), a, b) == Some(v) <==> Computes(Add, a, b, v)
    ensures Binary(BinCode(Sub), a, b) == Some(v) <==> Computes(Sub, a, b, v)
  {
    hide Quotient, BitAnd, BitOr, Pow2;
  }

  lemma ProductIs(a: int, b: int, v: int)
    ensures Binary(BinCode(Mul), a, b) == Some(v) <==> Computes(Mul, a, b, v)
  {
    UnsignedIs(a * b);
    if Computes(Mul, a, b, v) { OneWord(a * b, v); }
  }

  lemma OneWord(x: int, v: int)
    requires Int32(v) && Congruent(v, x)
    ensures v == Wrap(x)
  {
  }

  lemma CompareIs(op: BinOp, a: int, b: int, v: int)
    requires op.Lt? || op.Gt? || op.Eq? || op.Le? || op.Ge? || op.Ne?
    ensures Binary(BinCode(op), a, b) == Some(v) <==> Computes(op, a, b, v)
  {
    hide Quotient, BitAnd, BitOr, Pow2, Wrap;
  }

  lemma HalfIs(a: int, v: int)
    requires Int32(a)
    ensures Unary(UnCode(Half), a) == v <==> Computes1(Half, a, v)
  {
    QuotientIs(a, 2);
    QuotientFits(a, 2);
    Swapped(2, Quotient(a, 2));
    Swapped(2, v);
    assert a - v * 2 == a - 2 * v;
    hide Quotient;
    if Computes1(Half, a, v) { OneQuotient(a, 2, v, a - 2 * v); }
  }

  lemma UnaryIs(op: UnOp, a: int, v: int)
    requires Int32(a)
    ensures Unary(UnCode(op), a) == v <==> Computes1(op, a, v)
  {
    match op {
      case Half => HalfIs(a, v);
      case Inc => NextIs(a, v);
      case Dec => NextIs(a, v);
      case Twice => if Computes1(op, a, v) { OneWord(a * 2, v); }
      case Not =>
    }
  }

  lemma NextIs(a: int, v: int)
    ensures Unary(UnCode(Inc), a) == v <==> Computes1(Inc, a, v)
    ensures Unary(UnCode(Dec), a) == v <==> Computes1(Dec, a, v)
  {
    if Computes1(Inc, a, v) { OneWord(a + 1, v); }
    if Computes1(Dec, a, v) { OneWord(a - 1, v); }
  }

  // ---- values ----

  /** What an operator makes of a and b, if that is defined. */
  ghost function Value(op: BinOp, a: int, b: int): Option<int> {
    if exists v :: Computes(op, a, b, v) then
      var v :| Computes(op, a, b, v);
      Some(v)
    else None
  }

  ghost function Value1(op: UnOp, a: int): int
    requires Int32(a)
  {
    UnaryIs(op, a, Unary(UnCode(op), a));
    var v :| Computes1(op, a, v);
    v
  }

  lemma ValueIs(op: BinOp, a: int, b: int)
    requires Int32(a) && Int32(b)
    ensures Value(op, a, b) == Binary(BinCode(op), a, b)
    ensures Value(op, a, b).Some? ==> Int32(Value(op, a, b).value)
  {
    hide Computes, Binary;
    var r := Binary(BinCode(op), a, b);
    if r.Some? { BinaryIs(op, a, b, r.value); }
    var v := Value(op, a, b);
    if v.Some? {
      BinaryIs(op, a, b, v.value);
      InWord(op, a, b, v.value);
    }
  }

  lemma InWord(op: BinOp, a: int, b: int, v: int)
    requires Computes(op, a, b, v)
    ensures Int32(v)
  {
  }

  lemma Value1Is(op: UnOp, a: int)
    requires Int32(a)
    ensures Value1(op, a) == Unary(UnCode(op), a) && Int32(Value1(op, a))
  {
    UnaryIs(op, a, Value1(op, a));
    UnaryIs(op, a, Unary(UnCode(op), a));
  }

  // ---- laws ----

  /** Sums, differences and products always have a value. */
  lemma RingValue(a: int, b: int)
    requires Int32(a) && Int32(b)
    ensures Value(Add, a, b) == Some(Wrap(a + b)) && Value(Sub, a, b) == Some(Wrap(a - b))
    ensures Value(Mul, a, b) == Some(Wrap(a * b))
  {
    hide Value, Wrap, Quotient, BitAnd, BitOr, Pow2;
    ValueIs(Add, a, b);
    ValueIs(Sub, a, b);
    ValueIs(Mul, a, b);
  }

  lemma SameWord(x: int, y: int)
    requires Congruent(x, y)
    ensures Wrap(x) == Wrap(y)
  {
  }

  lemma InWordAlready(x: int)
    ensures Int32(x) ==> Wrap(x) == x
    ensures Int32(Wrap(x)) && Congruent(Wrap(x), x)
  {
  }

  lemma SumLaws(a: int, b: int, c: int)
    requires Int32(a) && Int32(b) && Int32(c)
    ensures Value(Add, a, b).Some? && Value(Add, b, c).Some? && Value(Add, a, b) == Value(Add, b, a)
    ensures Value(Add, Value(Add, a, b).value, c) == Value(Add, a, Value(Add, b, c).value)
    ensures Value(Add, a, 0) == Some(a) && Value(Add, a, 1) == Some(Value1(Inc, a))
    ensures Value(Sub, Value(Add, a, b).value, b) == Some(a)
  {
    hide Value, Value1, Wrap, Congruent;
    var x, y := Wrap(a + b), Wrap(b + c);
    InWordAlready(a + b);
    InWordAlready(b + c);
    InWordAlready(a);
    RingValue(a, b);
    RingValue(b, a);
    RingValue(b, c);
    RingValue(x, c);
    RingValue(a, y);
    RingValue(a, 0);
    RingValue(a, 1);
    RingValue(x, b);
    Sums(a, b, c, x, y);
    SameWord(x + c, a + y);
    SameWord(x - b, a);
    Value1Is(Inc, a);
  }

  lemma Sums(a: int, b: int, c: int, x: int, y: int)
    requires Congruent(x, a + b) && Congruent(y, b + c)
    ensures Congruent(x + c, a + y) && Congruent(x - b, a)
  {
  }

  lemma ProductLaws(a: int, b: int, c: int)
    requires Int32(a) && Int32(b) && Int32(c)
    ensures Value(Add, b, c).Some? && Value(Mul, a, b).Some? && Value(Mul, a, c).Some?
    ensures Value(Mul, a, Value(Add, b, c).value) == Value(Add, Value(Mul, a, b).value, Value(Mul, a, c).value)
    ensures Value(Mul, a, b) == Value(Mul, b, a) && Value(Mul, a, 1) == Some(a)
  {
    hide Value, Wrap, Congruent;
    var s := Wrap(b + c);
    var ab, ac, t := a * b, a * c, a * s;
    InWordAlready(b + c);
    InWordAlready(ab);
    InWordAlready(ac);
    InWordAlready(a);
    RingValue(b, c);
    RingValue(a, b);
    RingValue(b, a);
    RingValue(a, c);
    RingValue(a, 1);
    RingValue(a, s);
    RingValue(Wrap(ab), Wrap(ac));
    Distributes(a, b, c, s);
    SumOfProducts(ab, ac, t, Wrap(ab), Wrap(ac));
    SameWord(t, Wrap(ab) + Wrap(ac));
    Swapped(a, b);
  }

  lemma Distributes(a: int, b: int, c: int, s: int)
    requires Congruent(s, b + c)
    ensures Congruent(a * s, a * b + a * c)
  {
    var k := (s - (b + c)) / 0x1_0000_0000;
    assert s == b + c + 0x1_0000_0000 * k;
    assert a * s == a * b + a * c + 0x1_0000_0000 * (a * k);
    Multiple(a * k);
  }

  lemma SumOfProducts(ab: int, ac: int, t: int, x: int, y: int)
    requires Congruent(t, ab + ac) && Congruent(x, ab) && Congruent(y, ac)
    ensures Congruent(t, x + y)
  {
  }

  /** Quotient and remainder are defined together, and fit each other. */
  lemma DivisionLaws(a: int, b: int)
    requires Int32(a) && Int32(b)
    ensures Value(Div, a, b).Some? <==> b != 0 && (a != -0x8000_0000 || b != -1)
    ensures Value(Mod, a, b).Some? <==> Value(Div, a, b).Some?
    ensures Value(Div, a, b).Some? ==> Truncated(a, b, Value(Div, a, b).value, Value(Mod, a, b).value)
  {
    hide Value;
    ValueIs(Div, a, b);
    ValueIs(Mod, a, b);
    if Divides(a, b) {
      var q, r := Quotient(a, b), a - b * Quotient(a, b);
      QuotientIs(a, b);
      QuotientFits(a, b);
      Swapped(b, q);
      hide Quotient, Wrap;
      UnsignedIs(q);
      UnsignedIs(r);
      assert Int32(r);
      OneWord(q, q);
      OneWord(r, r);
    }
  }

  lemma ShiftLaws(a: int, n: nat)
    requires Int32(a)
    ensures Value(Shl, a, n).Some? == Value(Shr, a, n).Some? == (n < 32)
    ensures n < 32 ==> Unsigned(Value(Shl, a, n).value) == Unsigned(a) * Pow2(n) % 0x1_0000_0000
    ensures n < 32 ==> Unsigned(Value(Shr, a, n).value) == Unsigned(a) / Pow2(n)
  {
    if n < 32 {
      hide Value, Pow2, Wrap, Unsigned, Binary;
      ValueIs(Shl, a, n);
      ValueIs(Shr, a, n);
      BinaryShr(a, n);
      ShiftWords(Unsigned(a), Pow2(n));
    } else {
      hide Binary;
      ShiftedFar(a, n);
    }
  }

  lemma ShiftWords(x: nat, p: nat)
    requires x < 0x1_0000_0000 && p > 0
    ensures Unsigned(Wrap(x * p)) == x * p % 0x1_0000_0000
    ensures Unsigned(Wrap(x / p)) == x / p
  {
    hide *;
    AbsDivision(x, p);
    QuotientWord(x / p);
    Reduced(x * p);
  }

  lemma QuotientWord(x: nat)
    requires x < 0x1_0000_0000
    ensures Unsigned(Wrap(x)) == x
  {
    UnsignedIs(x);
  }

  lemma ShiftedFar(a: int, n: nat)
    requires n >= 32
    ensures Value(Shl, a, n).None? && Value(Shr, a, n).None?
  {
  }

  lemma Reduced(x: int)
    ensures Unsigned(Wrap(x)) == x % 0x1_0000_0000
  {
  }

  lemma BitLaws(a: int, b: int, i: nat)
    requires Int32(a) && Int32(b) && i < 32
    ensures Value(And, a, b).Some? && Value(Or, a, b).Some?
    ensures WordBit(Value(And, a, b).value, i) <==> WordBit(a, i) && WordBit(b, i)
    ensures WordBit(Value(Or, a, b).value, i) <==> WordBit(a, i) || WordBit(b, i)
  {
    hide Value;
    ValueIs(And, a, b);
    ValueIs(Or, a, b);
    BinaryIs(And, a, b, Value(And, a, b).value);
    BinaryIs(Or, a, b, Value(Or, a, b).value);
  }

  /** Exactly one of <, = and > holds, and the other three comparisons are their negations. */
  lemma OrderLaws(a: int, b: int)
    requires Int32(a) && Int32(b)
    ensures Value(Lt, a, b).Some? && Value(Eq, a, b).Some? && Value(Gt, a, b).Some?
    ensures Value(Lt, a, b).value + Value(Eq, a, b).value + Value(Gt, a, b).value == 1
    ensures Value(Lt, a, b) == Value(Gt, b, a) && (Value(Eq, a, b) == Some(1) <==> a == b)
    ensures Value(Lt, a, b) == Some(1) <==> a < b
    ensures Value(Le, a, b) == Some(1 - Value(Gt, a, b).value)
    ensures Value(Ge, a, b) == Some(1 - Value(Lt, a, b).value)
    ensures Value(Ne, a, b) == Some(1 - Value(Eq, a, b).value)
  {
    hide Value, Wrap;
    ValueIs(Lt, a, b);
    ValueIs(Gt, a, b);
    ValueIs(Gt, b, a);
    ValueIs(Eq, a, b);
    ValueIs(Le, a, b);
    ValueIs(Ge, a, b);
    ValueIs(Ne, a, b);
  }
}
