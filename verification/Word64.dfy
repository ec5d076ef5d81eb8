/** 64-bit machine words as integers modulo 2^64, with the signed reading that C's
    `int` has on AMD64 under M2-Planet (register_size == 8). */
module Word64 {
  import opened Arith

  const MOD: int := 0x1_0000_0000_0000_0000
  const HALF: int := 0x8000_0000_0000_0000

  type Word = x: int | 0 <= x < 0x1_0000_0000_0000_0000

  function W(x: int): Word {
    x % MOD
  }

  function Signed(w: Word): int {
    if w < HALF then w else w - MOD
  }

  /** The mathematical integer wrapped to the range of a signed 64-bit value. */
  function Wrap(x: int): int {
    Signed(W(x))
  }

  predicate InRange(v: int) {
    -HALF <= v < HALF
  }

  /** A 32-bit immediate or displacement as the processor sign-extends it. */
  function SExt32(x: int): int {
    var low := x % 0x1_0000_0000;
    if low < 0x8000_0000 then low else low - 0x1_0000_0000
  }

  /** C division: truncation towards zero. */
  function TruncDiv(a: int, b: int): int
    requires b != 0
  {
    if a >= 0 then (if b > 0 then a / b else -(a / -b))
    else (if b > 0 then -(-a / b) else -a / -b)
  }

  function TruncRem(a: int, b: int): int
    requires b != 0
  {
    a - TruncDiv(a, b) * b
  }

  function Pow2(n: nat): (p: int)
    ensures p >= 1
  {
    if n == 0 then 1 else 2 * Pow2(n - 1)
  }

  datatype BitOp = BitAnd | BitOr | BitXor

  function Bit(op: BitOp, a: bool, b: bool): bool {
    match op
    case BitAnd => a && b
    case BitOr => a || b
    case BitXor => a != b
  }

  /** The bitwise operation on the low n bits. */
  function Bits(op: BitOp, a: nat, b: nat, n: nat): nat
    decreases n, a
  {
    if n == 0 then 0
    else
      var low := if Bit(op, a % 2 == 1, b % 2 == 1) then 1 else 0;
      low + 2 * Bits(op, a / 2, b / 2, n - 1)
  }

  lemma {:induction false} BitsBound(op: BitOp, a: nat, b: nat, n: nat)
    ensures Bits(op, a, b, n) < Pow2(n)
    decreases n
  {
    if n > 0 {
      BitsBound(op, a / 2, b / 2, n - 1);
    }
  }

  lemma Pow2Of64()
    ensures Pow2(64) == MOD
  {
    assert Pow2(8) == 0x100;
    Pow2Add(8, 8);
    Pow2Add(16, 16);
    Pow2Add(32, 32);
  }

  lemma {:induction false} Pow2Add(m: nat, n: nat)
    ensures Pow2(m + n) == Pow2(m) * Pow2(n)
  {
    if m > 0 {
      Pow2Add(m - 1, n);
      assert Pow2(m) == 2 * Pow2(m - 1);
      assert Pow2(m + n) == 2 * Pow2(m - 1 + n);
    }
  }

  function WordBits(op: BitOp, a: Word, b: Word): Word {
    Pow2Of64();
    BitsBound(op, a, b, 64);
    Bits(op, a, b, 64)
  }

  lemma SignedOfW(v: int)
    requires InRange(v)
    ensures Signed(W(v)) == v
  {
  }

  lemma WrapInRange(x: int)
    ensures InRange(Wrap(x)) && W(Wrap(x)) == W(x)
  {
  }

  lemma WShift(x: int, k: int)
    ensures W(x + MOD * k) == W(x)
  {
  }

  lemma WAdd(a: int, b: int)
    ensures W(W(a) + W(b)) == W(a + b)
  {
    assert W(a) + W(b) == a + b + MOD * (-(a / MOD) - b / MOD);
    WShift(a + b, -(a / MOD) - b / MOD);
  }

  lemma WSub(a: int, b: int)
    ensures W(W(a) - W(b)) == W(a - b)
  {
    assert W(a) - W(b) == a - b + MOD * (b / MOD - a / MOD);
    WShift(a - b, b / MOD - a / MOD);
  }

  lemma WMul(a: int, p: int)
    ensures W(W(a) * p) == W(a * p)
  {
    var k := -(a / MOD);
    assert W(a) == a + MOD * k;
    assert W(a) * p == a * p + MOD * (k * p) by {
      assert (a + MOD * k) * p == a * p + (MOD * k) * p;
      assert (MOD * k) * p == MOD * (k * p);
    }
    WShift(a * p, k * p);
  }

  lemma WComplement(v: int)
    requires InRange(v)
    ensures W(-v - 1) == MOD - 1 - W(v) && InRange(-v - 1)
  {
  }

  lemma MulSigns(p: int, q: int)
    ensures (-p) * q == -(p * q) && p * (-q) == -(p * q) && (-p) * (-q) == p * q
  {
  }

  /** Truncated division in terms of the magnitudes. */
  lemma TruncMagnitudes(a: int, b: int)
    requires b != 0
    ensures var x := if a >= 0 then a else -a;
      var y := if b > 0 then b else -b;
      && TruncDiv(a, b) == (if (a >= 0) == (b > 0) then x / y else -(x / y))
      && TruncRem(a, b) == (if a >= 0 then x - (x / y) * y else -(x - (x / y) * y))
  {
    var x := if a >= 0 then a else -a;
    var y := if b > 0 then b else -b;
    MulSigns(x / y, y);
  }

  /** Truncated quotients are no larger than the dividend, so only the one
      overflowing pair leaves the signed range. */
  lemma TruncDivRange(a: int, b: int)
    requires InRange(a) && InRange(b) && b != 0
    ensures InRange(TruncDiv(a, b)) <==> !(a == -HALF && b == -1)
    ensures InRange(TruncRem(a, b))
  {
    var x := if a >= 0 then a else -a;
    var y := if b > 0 then b else -b;
    TruncMagnitudes(a, b);
    DivBound(x, y);
    if y >= 2 {
      HalfBound(x, y);
    }
  }

  lemma DivBound(x: nat, y: int)
    requires y > 0
    ensures 0 <= x / y <= x && 0 <= x - (x / y) * y < y && (x / y) * y <= x
    ensures y == 1 ==> x / y == x
  {
    var q := x / y;
    assert x == y * q + x % y;
    assert q >= 0;
    MulAtLeast(y, q);
  }

  lemma MulAtLeast(y: int, q: int)
    requires y >= 1 && q >= 0
    ensures y * q >= q
  {
  }

  lemma HalfBound(x: nat, y: int)
    requires y >= 2
    ensures 2 * (x / y) <= x
  {
    assert x == y * (x / y) + x % y;
    assert y * (x / y) >= 2 * (x / y);
  }

  lemma SarRange(a: int, p: int)
    requires InRange(a) && p >= 1
    ensures InRange(a / p)
  {
    if a >= 0 {
      DivBound(a, p);
    }
  }

  lemma CountBits(b: int)
    ensures W(b) % 256 % 64 == b % 64
  {
    var w := W(b);
    DivDiv(b, 64, 0x400_0000_0000_0000);
    DivModUnique(w, 64, b / 64 % 0x400_0000_0000_0000, b % 64);
    DivDiv(w, 64, 4);
    DivModUnique(w % 256, 64, w / 64 % 4, w % 64);
  }

  lemma {:induction false} BitsCommute(op: BitOp, a: nat, b: nat, n: nat)
    ensures Bits(op, a, b, n) == Bits(op, b, a, n)
    decreases n
  {
    if n > 0 {
      BitsCommute(op, a / 2, b / 2, n - 1);
    }
  }

  lemma WordBitsCommute(op: BitOp, a: Word, b: Word)
    ensures WordBits(op, a, b) == WordBits(op, b, a)
  {
    BitsCommute(op, a, b, 64);
  }

  lemma WOfSigned(w: Word)
    ensures W(Signed(w)) == w && InRange(Signed(w))
  {
  }
}
