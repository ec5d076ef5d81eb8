/** Machine words as sequences of bits, least significant first. */
module Bits {
  import opened Arith

  type Word32 = w: seq<bool> | |w| == 32 witness seq(32, _ => false)

  function NoBits(n: nat): (b: seq<bool>)
    ensures |b| == n
    ensures forall k :: 0 <= k < n ==> !b[k]
  {
    seq(n, _ => false)
  }

  const ZERO32: Word32 := NoBits(32)

  function Exp2(n: nat): (p: int)
    ensures p >= 1
  {
    if n == 0 then 1 else 2 * Exp2(n - 1)
  }

  /** The low n bits of v in two's complement. */
  function BitsOf(v: int, n: nat): (b: seq<bool>)
    ensures |b| == n
    decreases n
  {
    if n == 0 then [] else [v % 2 == 1] + BitsOf(v / 2, n - 1)
  }

  function ValueOf(b: seq<bool>): (v: int)
    ensures 0 <= v < Exp2(|b|)
  {
    if b == [] then 0 else (if b[0] then 1 else 0) + 2 * ValueOf(b[1..])
  }

  /** Two's complement, the last bit being the sign. */
  function SignedOf(b: seq<bool>): int {
    if b != [] && b[|b| - 1] then ValueOf(b) - Exp2(|b|) else ValueOf(b)
  }

  function Xor(a: seq<bool>, b: seq<bool>): (c: seq<bool>)
    requires |a| == |b|
    ensures |c| == |a|
  {
    seq(|a|, k requires 0 <= k < |a| => a[k] != b[k])
  }

  lemma {:induction false} BitsOfValue(b: seq<bool>)
    ensures BitsOf(ValueOf(b), |b|) == b
    decreases |b|
  {
    if b != [] {
      BitsOfValue(b[1..]);
    }
  }

  /** Numbers with the same low bits. */
  lemma {:induction false} BitsPrefix(v: int, m: nat, n: nat)
    requires m <= n
    ensures BitsOf(v, n)[..m] == BitsOf(v, m)
    decreases m
  {
    if m > 0 {
      BitsPrefix(v / 2, m - 1, n - 1);
      assert BitsOf(v, n)[..m] == [v % 2 == 1] + BitsOf(v / 2, n - 1)[..m - 1];
    }
  }

  lemma {:induction false} ValueOfBits(v: int, n: nat)
    requires 0 <= v < Exp2(n)
    ensures ValueOf(BitsOf(v, n)) == v
    decreases n
  {
    if n > 0 {
      ValueOfBits(v / 2, n - 1);
    }
  }

  lemma {:induction false} SignBit(v: int, n: nat)
    requires n >= 1 && -Exp2(n - 1) <= v < Exp2(n - 1)
    ensures BitsOf(v, n)[n - 1] <==> v < 0
    decreases n
  {
    if n > 1 {
      SignBit(v / 2, n - 1);
    }
  }

  lemma {:induction false} ValueOfNegative(v: int, n: nat)
    requires -Exp2(n) <= v < 0
    ensures ValueOf(BitsOf(v, n)) == v + Exp2(n)
    decreases n
  {
    if n > 0 {
      ValueOfNegative(v / 2, n - 1);
    }
  }

  lemma SignedOfBits(v: int, n: nat)
    requires n >= 1 && -Exp2(n - 1) <= v < Exp2(n - 1)
    ensures SignedOf(BitsOf(v, n)) == v
  {
    SignBit(v, n);
    if v < 0 {
      ValueOfNegative(v, n);
    } else {
      ValueOfBits(v, n);
    }
  }

  /** Numbers that differ by a multiple of 2^n have the same n low bits. */
  lemma {:induction false} SameLowBits(v: int, u: int, n: nat)
    requires (v - u) % Exp2(n) == 0
    ensures BitsOf(v, n) == BitsOf(u, n)
    decreases n
  {
    if n > 0 {
      var q := (v - u) / Exp2(n);
      assert v - u == Exp2(n) * q;
      Associate(2, Exp2(n - 1), q);
      var d := Exp2(n - 1) * q;
      assert v == u + 2 * d && v / 2 == u / 2 + d && v % 2 == u % 2;
      DivModUnique(d, Exp2(n - 1), q, 0);
      SameLowBits(v / 2, u / 2, n - 1);
    }
  }

  lemma ValueModulo(v: int, n: nat)
    ensures ValueOf(BitsOf(v, n)) == v % Exp2(n)
  {
    var m := Exp2(n);
    var r := v % m;
    DivModUnique(v - r, m, v / m, 0);
    SameLowBits(v, r, n);
    ValueOfBits(r, n);
  }

  /** Bit k of a number in two's complement. */
  lemma {:induction false} BitIs(v: int, n: nat, k: nat)
    requires k < n
    ensures BitsOf(v, n)[k] <==> v / Exp2(k) % 2 == 1
    decreases k
  {
    if k > 0 {
      BitIs(v / 2, n - 1, k - 1);
      DivDiv(v, 2, Exp2(k - 1));
    }
  }
}
