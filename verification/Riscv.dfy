/** The immediates of RISC-V instructions: where hex2 puts the bits of a displacement, and what
    the formats of section 2.3 of the RISC-V Unprivileged ISA Specification read there. */
module Riscv {
  import opened Wrappers
  import opened Arith
  import opened Bits

  // ---- placing ------------------------------------------------------------------------------

  /** n bits of b from position lo, moved to position at. */
  function Moved(b: Word32, lo: nat, n: nat, at: nat): Word32
    requires lo + n <= 32
  {
    seq(32, k requires 0 <= k < 32 => at <= k < at + n && b[lo + (k - at)])
  }

  function Or(a: Word32, b: Word32): Word32 {
    seq(32, k requires 0 <= k < 32 => a[k] || b[k])
  }

  /** (value & 0x1E) << 7, (value & 0x7E0) << 20, (value & 0x800) >> 4 and (value & 0x1000) << 19. */
  function BranchBits(b: Word32): Word32 {
    Or(Or(Moved(b, 1, 4, 8), Moved(b, 5, 6, 25)), Or(Moved(b, 11, 1, 7), Moved(b, 12, 1, 31)))
  }

  /** (value & 0x7FE) << 20, (value & 0x800) << 9, value & 0xFF000 and (value & 0x100000) << 11. */
  function JumpBits(b: Word32): Word32 {
    Or(Or(Moved(b, 1, 10, 21), Moved(b, 11, 1, 20)), Or(Moved(b, 12, 8, 12), Moved(b, 20, 1, 31)))
  }

  /** (value & 0xFFF) << 20 */
  function LowBits(b: Word32): Word32 {
    Moved(b, 0, 12, 20)
  }

  /** value & 0xFFFFF000, rounded up when the low part will be read as negative. */
  function HighBits(value: int): Word32 {
    var high := value - value % 4096;
    BitsOf(if value % 4096 < 2048 then high else high + 4096, 32)
  }

  /** What UpdateShiftRegister puts into the register for a displacement; None is out of range. */
  function FieldBits(kind: char, value: int): Option<Word32> {
    if kind == '!' then Some(LowBits(BitsOf(value + 4, 32)))
    else if kind == '@' then
      if value < -0x1000 || value > 0xFFF || value % 2 == 1 then None else Some(BranchBits(BitsOf(value, 32)))
    else if kind == '$' then
      if value < -0x100000 || value > 0xFFFFF || value % 2 == 1 then None else Some(JumpBits(BitsOf(value, 32)))
    else Some(HighBits(value))
  }

  // ---- reading back -------------------------------------------------------------------------

  /** imm[12|10:5] and imm[4:1|11]. */
  function BranchField(w: Word32): seq<bool> {
    [false] + w[8..12] + w[25..31] + [w[7]] + [w[31]]
  }

  /** imm[20|10:1|11|19:12] */
  function JumpField(w: Word32): seq<bool> {
    [false] + w[21..31] + [w[20]] + w[12..20] + [w[31]]
  }

  function ImmB(w: Word32): int {
    SignedOf(BranchField(w))
  }

  function ImmJ(w: Word32): int {
    SignedOf(JumpField(w))
  }

  function ImmI(w: Word32): int {
    SignedOf(w[20..32])
  }

  function ImmU(w: Word32): int {
    SignedOf(NoBits(12) + w[12..32])
  }

  /** The bits of an instruction that its format leaves to the immediate are zero. */
  predicate Clear(w: Word32, lo: nat, hi: nat)
    requires hi <= 32
  {
    forall k :: lo <= k < hi ==> !w[k]
  }

  lemma BranchFieldOf(b: Word32, opcode: Word32)
    requires !b[0] && Clear(opcode, 7, 12) && Clear(opcode, 25, 32)
    ensures BranchField(Xor(opcode, BranchBits(b))) == b[..13]
  {
    var w: Word32 := Xor(opcode, BranchBits(b));
    assert forall k :: 8 <= k < 12 ==> w[k] == b[k - 7];
    assert forall k :: 25 <= k < 31 ==> w[k] == b[k - 20];
    assert w[7] == b[11] && w[31] == b[12];
    var f := BranchField(w);
    assert |f| == 13 && f[0] == b[0] && f[11] == b[11] && f[12] == b[12];
    assert forall k :: 1 <= k < 5 ==> f[k] == w[k + 7];
    assert forall k :: 5 <= k < 11 ==> f[k] == w[k + 20];
  }

  lemma JumpFieldOf(b: Word32, opcode: Word32)
    requires !b[0] && Clear(opcode, 12, 32)
    ensures JumpField(Xor(opcode, JumpBits(b))) == b[..21]
  {
    var w: Word32 := Xor(opcode, JumpBits(b));
    assert forall k :: 21 <= k < 31 ==> w[k] == b[k - 20];
    assert forall k :: 12 <= k < 20 ==> w[k] == b[k];
    assert w[20] == b[11] && w[31] == b[20];
    var f := JumpField(w);
    assert |f| == 21 && f[0] == b[0] && f[11] == b[11] && f[20] == b[20];
    assert forall k :: 1 <= k < 11 ==> f[k] == w[k + 20];
    assert forall k :: 12 <= k < 20 ==> f[k] == w[k];
  }

  lemma Powers()
    ensures Exp2(11) == 2048 && Exp2(12) == 4096 && Exp2(20) == 0x100000 && Exp2(31) == 0x8000_0000 && Exp2(32) == 0x1_0000_0000
  {
    assert Exp2(4) == 16;
    assert Exp2(8) == 256;
    assert Exp2(16) == 65536 by { assert Exp2(12) == 4096; }
    assert Exp2(24) == 0x100_0000 by { assert Exp2(20) == 0x10_0000; }
    assert Exp2(28) == 0x1000_0000;
  }

  /** The B format: a branch is accepted exactly for an even displacement of 13 bits, and the
      instruction then holds that displacement. */
  lemma BranchDecodes(value: int, opcode: Word32)
    requires Clear(opcode, 7, 12) && Clear(opcode, 25, 32)
    ensures FieldBits('@', value).Some? <==> value % 2 == 0 && -4096 <= value < 4096
    ensures FieldBits('@', value).Some? ==> ImmB(Xor(opcode, FieldBits('@', value).value)) == value
  {
    hide BranchBits, BranchField, SignedOf;
    if FieldBits('@', value).Some? {
      BranchFieldOf(BitsOf(value, 32), opcode);
      BitsPrefix(value, 13, 32);
      Powers();
      SignedOfBits(value, 13);
    }
  }

  /** The J format, for even displacements of 21 bits. */
  lemma JumpDecodes(value: int, opcode: Word32)
    requires Clear(opcode, 12, 32)
    ensures FieldBits('$', value).Some? <==> value % 2 == 0 && -0x100000 <= value < 0x100000
    ensures FieldBits('$', value).Some? ==> ImmJ(Xor(opcode, FieldBits('$', value).value)) == value
  {
    hide JumpBits, JumpField, SignedOf;
    if FieldBits('$', value).Some? {
      JumpFieldOf(BitsOf(value, 32), opcode);
      BitsPrefix(value, 21, 32);
      Powers();
      SignedOfBits(value, 21);
    }
  }

  /** The signed reading of the low 12 bits. */
  function Low12(value: int): int {
    if value % 4096 < 2048 then value % 4096 else value % 4096 - 4096
  }

  lemma LowFieldOf(b: Word32, opcode: Word32)
    requires Clear(opcode, 20, 32)
    ensures Xor(opcode, LowBits(b))[20..32] == b[..12]
  {
  }

  lemma LowDecodes(value: int, opcode: Word32)
    requires Clear(opcode, 20, 32)
    ensures ImmI(Xor(opcode, LowBits(BitsOf(value, 32)))) == Low12(value)
  {
    hide LowBits, SignedOf, BitsOf;
    LowFieldOf(BitsOf(value, 32), opcode);
    BitsPrefix(value, 12, 32);
    Powers();
    assert (value - Low12(value)) % 4096 == 0;
    SameLowBits(value, Low12(value), 12);
    SignedOfBits(Low12(value), 12);
  }

  lemma HighFieldOf(b: Word32, opcode: Word32)
    requires Clear(opcode, 12, 32) && forall k :: 0 <= k < 12 ==> !b[k]
    ensures NoBits(12) + Xor(opcode, b)[12..32] == b
  {
  }

  lemma ZeroBits(v: int, n: nat)
    requires v % Exp2(n) == 0
    ensures forall k :: 0 <= k < n ==> !BitsOf(v, n)[k]
  {
    SameLowBits(v, 0, n);
    BitsOfZero(n);
  }

  lemma {:induction false} BitsOfZero(n: nat)
    ensures BitsOf(0, n) == NoBits(n)
    decreases n
  {
    if n > 0 {
      BitsOfZero(n - 1);
    }
  }

  /** The high part that HighBits keeps: the displacement less its signed low part. */
  lemma HighDecodes(value: int, opcode: Word32)
    requires Clear(opcode, 12, 32)
    ensures (ImmU(Xor(opcode, HighBits(value))) - (value - Low12(value))) % 0x1_0000_0000 == 0
  {
    hide SignedOf, BitsOf;
    var high := value - Low12(value);
    assert HighBits(value) == BitsOf(high, 32);
    Powers();
    BitsPrefix(high, 12, 32);
    ZeroBits(high, 12) by { assert high % 4096 == 0; }
    assert forall k :: 0 <= k < 12 ==> BitsOf(high, 32)[k] == BitsOf(high, 32)[..12][k];
    HighFieldOf(BitsOf(high, 32), opcode);
    SignedModulo(high);
  }

  lemma SignedModulo(v: int)
    ensures (SignedOf(BitsOf(v, 32)) - v) % 0x1_0000_0000 == 0
  {
    Powers();
    var r := v % 0x1_0000_0000;
    SameLowBits(v, r, 32) by { assert (v - r) % 0x1_0000_0000 == 0; }
    ValueOfBits(r, 32);
  }

  /** The two halves of a displacement are not range-checked. */
  lemma AlwaysFit(value: int)
    ensures FieldBits('~', value).Some? && FieldBits('!', value).Some?
  {
  }

  /** auipc followed by an instruction with a ! immediate: the high part that ~ leaves in the first
      and the low part in the second add up to the distance from the first to the target. */
  lemma PairDecodes(target: int, first: int, auipc: Word32, second: Word32)
    requires Clear(auipc, 12, 32) && Clear(second, 20, 32)
    ensures var high := FieldBits('~', target - first).value; var low := FieldBits('!', target - (first + 4)).value;
      (ImmU(Xor(auipc, high)) + ImmI(Xor(second, low)) - (target - first)) % 0x1_0000_0000 == 0
  {
    hide ImmU, ImmI, HighBits, LowBits, BitsOf, SignedOf, Low12;
    var value := target - first;
    HighDecodes(value, auipc);
    LowDecodes(value, second);
  }

  // ---- the formats by bit ---------------------------------------------------------------------------

  predicate Bit(v: int, k: nat) {
    v / Exp2(k) % 2 == 1
  }

  lemma WordBit(v: int, k: nat)
    requires k < 32
    ensures BitsOf(v, 32)[k] <==> Bit(v, k)
  {
    BitIs(v, 32, k);
  }

  /** Bit 31 of a branch is bit 12 of the immediate, 30 to 25 are its bits 10 to 5, 11 to 8 its bits 4 to 1 and 7 is
      its bit 11. */
  lemma BranchPlaces(v: int, j: nat)
    requires j < 32 && FieldBits('@', v).Some?
    ensures FieldBits('@', v).value[j] <==>
      (j == 31 && Bit(v, 12)) || (25 <= j <= 30 && Bit(v, j - 20)) || (8 <= j <= 11 && Bit(v, j - 7)) || (j == 7 && Bit(v, 11))
  {
    hide BitsOf;
    WordBit(v, 12);
    WordBit(v, 11);
    WordBit(v, if 25 <= j <= 30 then j - 20 else if 8 <= j <= 11 then j - 7 else 0);
  }

  /** Bit 31 of a jump is bit 20 of the immediate, 30 to 21 are its bits 10 to 1, 20 is its bit 11 and 19 to 12 are its
      bits 19 to 12. */
  lemma JumpPlaces(v: int, j: nat)
    requires j < 32 && FieldBits('$', v).Some?
    ensures FieldBits('$', v).value[j] <==>
      (j == 31 && Bit(v, 20)) || (21 <= j <= 30 && Bit(v, j - 20)) || (j == 20 && Bit(v, 11)) || (12 <= j <= 19 && Bit(v, j))
  {
    hide BitsOf;
    WordBit(v, 20);
    WordBit(v, 11);
    WordBit(v, if 21 <= j <= 30 then j - 20 else if 12 <= j <= 19 then j else 0);
  }

  /** The low immediate is in the bits from 20 on, 4 being added for the distance from the instruction before. */
  lemma LowPlaces(v: int, j: nat)
    requires j < 32
    ensures FieldBits('!', v).value[j] <==> j >= 20 && Bit(v + 4, j - 20)
  {
    hide BitsOf;
    WordBit(v + 4, if j >= 20 then j - 20 else 0);
  }

  /** The high immediate is in the bits from 12 on, one higher if the low one is read as negative. */
  lemma HighPlaces(v: int, j: nat)
    requires j < 32
    ensures FieldBits('~', v).value[j] <==> j >= 12 && Bit(v + 0x800, j)
  {
    var high := v - Low12(v);
    HighIs(v);
    hide *;
    WordBit(high, j);
    if j < 12 {
      LowZero(high, j);
    } else {
      Above(v, j);
      SameBit(high, v + 0x800, j);
    }
  }

  lemma HighIs(v: int)
    ensures var high := v - Low12(v); FieldBits('~', v) == Some(BitsOf(high, 32)) && high % 4096 == 0
  {
    hide BitsOf;
  }

  lemma SameBit(u: int, v: int, j: nat)
    requires u / Exp2(j) == v / Exp2(j)
    ensures Bit(u, j) <==> Bit(v, j)
  {
  }

  lemma LowZero(high: int, j: nat)
    requires high % 4096 == 0 && j < 12
    ensures !BitsOf(high, 32)[j]
  {
    hide BitsOf;
    Powers();
    BitsPrefix(high, 12, 32);
    ZeroBits(high, 12);
    assert BitsOf(high, 32)[j] == BitsOf(high, 32)[..12][j];
  }

  lemma Above(v: int, j: nat)
    requires j >= 12
    ensures (v - Low12(v)) / Exp2(j) == (v + 0x800) / Exp2(j)
  {
    Powers();
    Split(12, j - 12);
    var p := Exp2(j - 12);
    var q := (v + 0x800) / 4096;
    assert v - Low12(v) == 4096 * q;
    DivModUnique(4096 * q, 4096, q, 0);
    DivDiv(4096 * q, 4096, p);
    DivDiv(v + 0x800, 4096, p);
  }

  lemma {:induction false} Split(m: nat, n: nat)
    ensures Exp2(m + n) == Exp2(m) * Exp2(n)
    decreases m
  {
    if m > 0 {
      Split(m - 1, n);
      Associate(2, Exp2(m - 1), Exp2(n));
    }
  }
}
