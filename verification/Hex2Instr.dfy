/** Instructions for RISC-V, which hex2 puts together word by word: labels, literal words and an immediate
    in front of the digits of an opcode. */
module Hex2Instr {
  import opened Wrappers
  import opened Arith
  import opened Bits
  import opened Hex2Text
  import opened Riscv
  import opened Hex2Link

  // ---- digits and the register --------------------------------------------------------------------

  function BitsOfBytes(b: seq<Byte>): (w: seq<bool>)
    ensures |w| == 8 * |b|
  {
    if b == [] then [] else BitsOf(b[0], 8) + BitsOfBytes(b[1..])
  }

  /** Nothing is written for these and nothing is put into the register. */
  predicate Idle(x: Item) {
    x.Def? || x.Skip?
  }

  /** Digits, with white space, comments and labels among them. */
  predicate Opcode(items: seq<Item>) {
    forall k :: 0 <= k < |items| ==> items[k].Digit? || Idle(items[k])
  }

  function DigitCount(items: seq<Item>): nat {
    if items == [] then 0 else (if items[0].Digit? then 1 else 0) + DigitCount(items[1..])
  }

  lemma XorByteBits(v: int, bits: seq<bool>)
    requires |bits| == 8
    ensures BitsOf(XorByte(v, bits), 8) == Xor(BitsOf(v, 8), bits)
    ensures bits == NoBits(8) ==> BitsOf(XorByte(v, bits), 8) == BitsOf(v, 8)
  {
    BitsOfValue(Xor(BitsOf(v, 8), bits));
  }

  /** n bytes of the register used up. */
  function Used(shift: Word32, n: nat): Word32
    requires n <= 4
  {
    shift[8 * n..] + NoBits(8 * n)
  }

  lemma UsedNext(shift: Word32, n: nat)
    requires n <= 3
    ensures Used(Shifted(shift), n) == Used(shift, n + 1) && Used(shift, 0) == shift
    ensures shift[..8] + Shifted(shift)[..8 * n] == shift[..8 * (n + 1)]
    ensures Shifted(ZERO32) == ZERO32 && ZERO32[..8] == NoBits(8)
  {
  }

  lemma XorConcat(a: seq<bool>, b: seq<bool>, c: seq<bool>, d: seq<bool>)
    requires |a| == |c| && |b| == |d|
    ensures Xor(a, c) + Xor(b, d) == Xor(a + b, c + d)
  {
  }

  /** What digits write with the register, against what they write by themselves. */
  ghost predicate ShiftedIn(out: seq<Byte>, plain: seq<Byte>, shift: Word32, n: nat) {
    n <= 4 && |out| == n && |plain| == n && BitsOfBytes(out) == Xor(BitsOfBytes(plain), shift[..8 * n])
  }

  lemma ShiftedInMore(v: int, out: seq<Byte>, plain: seq<Byte>, shift: Word32, n: nat)
    requires n <= 3 && ShiftedIn(out, plain, Shifted(shift), n)
    ensures ShiftedIn([XorByte(v, shift[..8])] + out, [XorByte(v, ZERO32[..8])] + plain, shift, n + 1)
  {
    XorByteBits(v, shift[..8]);
    XorByteBits(v, ZERO32[..8]);
    UsedNext(shift, n);
    XorConcat(BitsOf(v, 8), BitsOfBytes(plain), shift[..8], Shifted(shift)[..8 * n]);
    assert ([XorByte(v, shift[..8])] + out)[1..] == out && ([XorByte(v, ZERO32[..8])] + plain)[1..] == plain;
  }

  /** The number of digits of n bytes. */
  function DigitsOf(mode: ByteMode, n: nat): nat {
    if n == 0 then 0 else Group(mode) + DigitsOf(mode, n - 1)
  }

  /** The unfinished byte with one more digit. */
  function Grown(mode: ByteMode, hold: nat, d: nat): nat {
    hold * Radix(mode) + d
  }

  /** What the items that end n bytes write, hold and leave, with a register and without one. */
  ghost predicate Finishes(mode: ByteMode, big: bool, labels: seq<Entry>, s: Place, hold: nat, shift: Word32, items: seq<Item>, n: nat) {
    var plain := Output(mode, big, labels, s, Carry(hold, ZERO32), items); var out := Output(mode, big, labels, s, Carry(hold, shift), items);
    && n <= 4 && plain.Some? && out.Some? && ShiftedIn(out.value, plain.value, shift, n)
    && NextAll(mode, big, labels, s, Carry(hold, shift), items) == Carry(if DigitCount(items) == 0 then hold else 0, Used(shift, n))
    && MoveAll(mode, s, items) == Place(s.ip + n, 0)
  }

  /** The digits of n bytes write those bytes with the low end of the register exclusive-ored in,
      whatever is in it, and use that end up. */
  lemma {:induction false} DigitsShifted(mode: ByteMode, big: bool, labels: seq<Entry>, s: Place, hold: nat, shift: Word32, items: seq<Item>, n: nat)
    requires Opcode(items) && s.toggle < Group(mode) && DigitCount(items) + s.toggle == DigitsOf(mode, n) && n <= 4
    ensures Finishes(mode, big, labels, s, hold, shift, items, n)
    decreases |items|
  {
    if items == [] {
      DigitsOfAny(mode, n);
      NothingShifted(shift);
    } else {
      var x, rest := items[0], items[1..];
      assert Opcode(rest) && DigitCount(items) == (if x.Digit? then 1 else 0) + DigitCount(rest);
      assert !x.Digit? ==> Idle(x);
      hide *;
      if !x.Digit? {
        DigitsShifted(mode, big, labels, s, hold, shift, rest, n);
        IdleFirst(mode, big, labels, s, hold, shift, items, n);
      } else if s.toggle + 1 == Group(mode) {
        DigitsOfAny(mode, n);
        DigitsShifted(mode, big, labels, Place(s.ip + 1, 0), 0, Shifted(shift), rest, n - 1);
        LastDigitFirst(mode, big, labels, s, hold, shift, items, n);
      } else {
        DigitsShifted(mode, big, labels, Place(s.ip, s.toggle + 1), Grown(mode, hold, x.v), shift, rest, n);
        SomeDigits(rest, s.toggle + 1, n, mode);
        DigitFirst(mode, big, labels, s, hold, shift, items, n);
      }
    }
  }

  lemma DigitsOfAny(mode: ByteMode, n: nat)
    ensures n == 0 <==> DigitsOf(mode, n) < Group(mode)
    ensures n > 0 ==> DigitsOf(mode, n) == Group(mode) + DigitsOf(mode, n - 1)
  {
  }

  lemma IdleFirst(mode: ByteMode, big: bool, labels: seq<Entry>, s: Place, hold: nat, shift: Word32, items: seq<Item>, n: nat)
    requires items != [] && !items[0].Digit? && Idle(items[0]) && Finishes(mode, big, labels, s, hold, shift, items[1..], n)
    ensures Finishes(mode, big, labels, s, hold, shift, items, n)
  {
    var c, z := Carry(hold, shift), Carry(hold, ZERO32);
    assert DigitCount(items) == DigitCount(items[1..]);
    hide Output, NextAll, MoveAll, Move, Next, Write, Idle, ShiftedIn, Used, DigitCount;
    RunFirst(mode, big, labels, s, c, items);
    RunFirst(mode, big, labels, s, z, items);
    IdleStep(mode, big, labels, s, c, items[0]);
    IdleStep(mode, big, labels, s, z, items[0]);
    NothingInFront(Output(mode, big, labels, s, c, items[1..]));
    NothingInFront(Output(mode, big, labels, s, z, items[1..]));
  }

  lemma DigitFirst(mode: ByteMode, big: bool, labels: seq<Entry>, s: Place, hold: nat, shift: Word32, items: seq<Item>, n: nat)
    requires items != [] && items[0].Digit? && s.toggle + 1 != Group(mode) && DigitCount(items[1..]) > 0
    requires Finishes(mode, big, labels, Place(s.ip, s.toggle + 1), Grown(mode, hold, items[0].v), shift, items[1..], n)
    ensures Finishes(mode, big, labels, s, hold, shift, items, n)
  {
    var c, z := Carry(hold, shift), Carry(hold, ZERO32);
    var s1, h := Place(s.ip, s.toggle + 1), Grown(mode, hold, items[0].v);
    assert DigitCount(items) > 0 && items[0] == Digit(items[0].v);
    hide Output, NextAll, MoveAll, Move, Next, Write, ShiftedIn, Used, DigitCount;
    RunFirst(mode, big, labels, s, c, items);
    RunFirst(mode, big, labels, s, z, items);
    DigitStep(mode, big, labels, s, c, items[0].v);
    DigitStep(mode, big, labels, s, z, items[0].v);
    NothingInFront(Output(mode, big, labels, s1, Carry(h, shift), items[1..]));
    NothingInFront(Output(mode, big, labels, s1, Carry(h, ZERO32), items[1..]));
  }

  lemma LastDigitFirst(mode: ByteMode, big: bool, labels: seq<Entry>, s: Place, hold: nat, shift: Word32, items: seq<Item>, n: nat)
    requires items != [] && items[0].Digit? && s.toggle + 1 == Group(mode) && 1 <= n <= 4
    requires Finishes(mode, big, labels, Place(s.ip + 1, 0), 0, Shifted(shift), items[1..], n - 1)
    ensures Finishes(mode, big, labels, s, hold, shift, items, n)
  {
    hide *;
    var v := Grown(mode, hold, items[0].v);
    var out, plain := LastDigitPieces(mode, big, labels, s, hold, shift, items, n, v);
    JoinByte(v, out, plain, shift, n);
    NextUsed(shift, n - 1);
    FinishesBecause(mode, big, labels, s, hold, shift, items, n, FirstByte(v, shift, out), FirstByte(v, ZERO32, plain));
  }

  lemma LastDigitPieces(mode: ByteMode, big: bool, labels: seq<Entry>, s: Place, hold: nat, shift: Word32, items: seq<Item>, n: nat, v: nat)
    returns (out: seq<Byte>, plain: seq<Byte>)
    requires items != [] && items[0].Digit? && s.toggle + 1 == Group(mode) && 1 <= n <= 4 && v == Grown(mode, hold, items[0].v)
    requires Finishes(mode, big, labels, Place(s.ip + 1, 0), 0, Shifted(shift), items[1..], n - 1)
    ensures ShiftedIn(out, plain, Shifted(shift), n - 1) && DigitCount(items) > 0
    ensures Output(mode, big, labels, s, Carry(hold, shift), items) == Some(FirstByte(v, shift, out))
    ensures Output(mode, big, labels, s, Carry(hold, ZERO32), items) == Some(FirstByte(v, ZERO32, plain))
    ensures NextAll(mode, big, labels, s, Carry(hold, shift), items) == Carry(0, Used(Shifted(shift), n - 1)) && MoveAll(mode, s, items) == Place(s.ip + n, 0)
  {
    var s1, rest := Place(s.ip + 1, 0), items[1..];
    assert DigitCount(items) > 0;
    hide *;
    var shift1 := Shifted(shift);
    FinishesParts(mode, big, labels, s1, 0, shift1, rest, n - 1);
    out, plain := Output(mode, big, labels, s1, Carry(0, shift1), rest).value, Output(mode, big, labels, s1, Carry(0, ZERO32), rest).value;
    NoneShifted();
    LastDigitRun(mode, big, labels, s, Carry(hold, shift), items, out);
    LastDigitRun(mode, big, labels, s, Carry(hold, ZERO32), items, plain);
  }

  lemma NoneShifted()
    ensures Shifted(ZERO32) == ZERO32
  {
    UsedNext(ZERO32, 0);
  }

  /** A byte that takes the low end of the register, and the bytes behind it. */
  function FirstByte(v: int, shift: Word32, rest: seq<Byte>): seq<Byte> {
    [XorByte(v, shift[..8])] + rest
  }

  lemma JoinByte(v: int, out: seq<Byte>, plain: seq<Byte>, shift: Word32, n: nat)
    requires 1 <= n <= 4 && ShiftedIn(out, plain, Shifted(shift), n - 1)
    ensures ShiftedIn(FirstByte(v, shift, out), FirstByte(v, ZERO32, plain), shift, n)
  {
    hide ShiftedIn, XorByte, Shifted;
    ShiftedInMore(v, out, plain, shift, n - 1);
  }

  lemma LastDigitRun(mode: ByteMode, big: bool, labels: seq<Entry>, s: Place, c: Carry, items: seq<Item>, out: seq<Byte>)
    requires items != [] && items[0].Digit? && s.toggle + 1 == Group(mode)
    requires Output(mode, big, labels, Place(s.ip + 1, 0), Carry(0, Shifted(c.shift)), items[1..]) == Some(out)
    ensures Output(mode, big, labels, s, c, items) == Some(FirstByte(Grown(mode, c.hold, items[0].v), c.shift, out))
    ensures NextAll(mode, big, labels, s, c, items) == NextAll(mode, big, labels, Place(s.ip + 1, 0), Carry(0, Shifted(c.shift)), items[1..])
    ensures MoveAll(mode, s, items) == MoveAll(mode, Place(s.ip + 1, 0), items[1..])
  {
    assert items[0] == Digit(items[0].v);
    var v := Grown(mode, c.hold, items[0].v);
    assert FirstByte(v, c.shift, out) == [XorByte(v, c.shift[..8])] + out;
    hide *;
    RunFirst(mode, big, labels, s, c, items);
    DigitStep(mode, big, labels, s, c, items[0].v);
    BothSome(XorByte(v, c.shift[..8]), Some(out));
  }

  lemma FinishesParts(mode: ByteMode, big: bool, labels: seq<Entry>, s: Place, hold: nat, shift: Word32, items: seq<Item>, n: nat)
    requires Finishes(mode, big, labels, s, hold, shift, items, n) && hold == 0
    ensures var plain := Output(mode, big, labels, s, Carry(0, ZERO32), items); var out := Output(mode, big, labels, s, Carry(0, shift), items);
      && plain.Some? && out.Some? && ShiftedIn(out.value, plain.value, shift, n) && n <= 4
      && NextAll(mode, big, labels, s, Carry(0, shift), items) == Carry(0, Used(shift, n)) && MoveAll(mode, s, items) == Place(s.ip + n, 0)
  {
  }

  lemma FinishesBecause(mode: ByteMode, big: bool, labels: seq<Entry>, s: Place, hold: nat, shift: Word32, items: seq<Item>, n: nat,
                        out: seq<Byte>, plain: seq<Byte>)
    requires Output(mode, big, labels, s, Carry(hold, shift), items) == Some(out)
    requires Output(mode, big, labels, s, Carry(hold, ZERO32), items) == Some(plain)
    requires n <= 4 && ShiftedIn(out, plain, shift, n) && DigitCount(items) > 0
    requires NextAll(mode, big, labels, s, Carry(hold, shift), items) == Carry(0, Used(shift, n)) && MoveAll(mode, s, items) == Place(s.ip + n, 0)
    ensures Finishes(mode, big, labels, s, hold, shift, items, n)
  {
  }

  lemma NextUsed(shift: Word32, n: nat)
    requires n <= 3
    ensures Used(Shifted(shift), n) == Used(shift, n + 1)
  {
    UsedNext(shift, n);
  }

  lemma RunFirst(mode: ByteMode, big: bool, labels: seq<Entry>, s: Place, c: Carry, items: seq<Item>)
    requires items != []
    ensures var x, rest := items[0], items[1..]; var s1, c1 := Move(mode, s, x), Next(mode, big, labels, s, c, x);
      && Output(mode, big, labels, s, c, items) == Both(Write(mode, big, labels, s, c, x), Output(mode, big, labels, s1, c1, rest))
      && NextAll(mode, big, labels, s, c, items) == NextAll(mode, big, labels, s1, c1, rest)
      && MoveAll(mode, s, items) == MoveAll(mode, s1, rest)
  {
    hide Move, Next, Write;
  }

  lemma DigitStep(mode: ByteMode, big: bool, labels: seq<Entry>, s: Place, c: Carry, d: nat)
    ensures var x := Digit(d); var v := Grown(mode, c.hold, d);
      if s.toggle + 1 == Group(mode) then
        && Write(mode, big, labels, s, c, x) == Some([XorByte(v, c.shift[..8])])
        && Move(mode, s, x) == Place(s.ip + 1, 0) && Next(mode, big, labels, s, c, x) == Carry(0, Shifted(c.shift))
      else
        && Write(mode, big, labels, s, c, x) == Some([])
        && Move(mode, s, x) == Place(s.ip, s.toggle + 1) && Next(mode, big, labels, s, c, x) == Carry(v, c.shift)
  {
    hide XorByte, Shifted;
  }

  lemma IdleStep(mode: ByteMode, big: bool, labels: seq<Entry>, s: Place, c: Carry, x: Item)
    requires !x.Digit? && Idle(x)
    ensures Write(mode, big, labels, s, c, x) == Some([]) && Move(mode, s, x) == s && Next(mode, big, labels, s, c, x) == c
  {
  }

  /** A byte that has been begun has digits to come. */
  lemma SomeDigits(items: seq<Item>, toggle: nat, n: nat, mode: ByteMode)
    requires 0 < toggle < Group(mode) && DigitCount(items) + toggle == DigitsOf(mode, n)
    ensures DigitCount(items) > 0
  {
  }

  lemma BothSome(x: Byte, y: Option<seq<Byte>>)
    ensures Both(Some([x]), y) == if y.Some? then Some([x] + y.value) else None
  {
  }

  lemma NothingInFront(y: Option<seq<Byte>>)
    ensures Both(Some([]), y) == y
  {
    assert y.Some? ==> [] + y.value == y.value;
  }

  lemma NothingShifted(shift: Word32)
    ensures ShiftedIn([], [], shift, 0) && Used(shift, 0) == shift
  {
  }

  predicate IsWord(mode: ByteMode, items: seq<Item>) {
    Opcode(items) && DigitCount(items) == DigitsOf(mode, 4)
  }

  /** The register and the four bytes of the digits behind it: what is written is the digits' word
      exclusive-or the register, and the register is empty again. */
  lemma InstructionWritten(mode: ByteMode, big: bool, labels: seq<Entry>, s: Place, shift: Word32, digits: seq<Item>)
    requires IsWord(mode, digits) && s.toggle == 0
    ensures var c := Carry(0, shift); var out := Output(mode, big, labels, s, c, digits); var plain := Output(mode, big, labels, s, NOTHING, digits);
      && out.Some? && plain.Some? && |out.value| == |plain.value| == 4
      && BitsOfBytes(out.value) == Xor(BitsOfBytes(plain.value), shift)
      && NextAll(mode, big, labels, s, c, digits) == NOTHING && MoveAll(mode, s, digits) == Place(s.ip + 4, 0)
  {
    DigitsShifted(mode, big, labels, s, 0, shift, digits, 4);
    assert shift[..32] == shift && Used(shift, 4) == ZERO32;
  }

  /** The word that digits write by themselves. */
  function Plain(mode: ByteMode, digits: seq<Item>): (w: Word32)
    requires IsWord(mode, digits)
  {
    InstructionWritten(mode, false, [], Place(0, 0), ZERO32, digits);
    BitsOfBytes(Output(mode, false, [], Place(0, 0), NOTHING, digits).value)
  }

  /** It is the same word everywhere. */
  lemma {:induction false} DigitsAlike(mode: ByteMode, big: bool, labels: seq<Entry>, s: Place, c: Carry, items: seq<Item>)
    requires Opcode(items)
    ensures Output(mode, big, labels, s, c, items) == Output(mode, false, [], Place(0, s.toggle), c, items)
    decreases |items|
  {
    hide XorByte, Shifted;
    if items != [] {
      var x := items[0];
      assert Opcode(items[1..]);
      var s1, c1 := Move(mode, s, x), Next(mode, big, labels, s, c, x);
      var z := Place(0, s.toggle);
      var z1 := Move(mode, z, x);
      assert c1 == Next(mode, false, [], z, c, x) && z1.toggle == s1.toggle;
      DigitsAlike(mode, big, labels, s1, c1, items[1..]);
      DigitsAlike(mode, false, [], z1, c1, items[1..]);
    }
  }

  // ---- an instruction -----------------------------------------------------------------------------

  /** Nothing is written for these. */
  predicate Quiet(items: seq<Item>) {
    forall k :: 0 <= k < |items| ==> Idle(items[k]) || items[k].Dot?
  }

  /** The exclusive-or of the literal words. */
  function Literals(mode: ByteMode, big: bool, items: seq<Item>): Word32 {
    if items == [] then ZERO32
    else if items[0].Dot? then Xor(Literal(DotWord(mode, 0, 0, items[0].ds, ZERO32), big), Literals(mode, big, items[1..]))
    else Literals(mode, big, items[1..])
  }

  lemma XorLaws(a: Word32, b: Word32, c: Word32)
    ensures Xor(Xor(a, b), c) == Xor(a, Xor(b, c)) && Xor(a, b) == Xor(b, a)
    ensures Xor(a, ZERO32) == a && Xor(ZERO32, a) == a
  {
  }

  lemma {:induction false} QuietRun(mode: ByteMode, big: bool, labels: seq<Entry>, s: Place, shift: Word32, items: seq<Item>)
    requires Quiet(items) && s.toggle == 0
    ensures Output(mode, big, labels, s, Carry(0, shift), items) == Some([])
    ensures NextAll(mode, big, labels, s, Carry(0, shift), items) == Carry(0, Xor(shift, Literals(mode, big, items)))
    ensures MoveAll(mode, s, items) == s
    decreases |items|
  {
    hide Literal, DotWord;
    if items == [] {
      XorLaws(shift, ZERO32, ZERO32);
    } else {
      assert Quiet(items[1..]);
      NothingInFront(Some([]));
      if items[0].Dot? {
        var w := Literal(DotWord(mode, 0, 0, items[0].ds, ZERO32), big);
        XorLaws(shift, w, Literals(mode, big, items[1..]));
        QuietRun(mode, big, labels, s, Xor(shift, w), items[1..]);
      } else {
        QuietRun(mode, big, labels, s, shift, items[1..]);
      }
    }
  }

  /** The items of one instruction: a reference with literal words, white space and labels on both sides
      of it, and the digits of an opcode. */
  datatype Instruction = Instruction(pre: seq<Item>, kind: char, name: string, post: seq<Item>, digits: seq<Item>)

  function ItemsOf(i: Instruction): seq<Item> {
    i.pre + ([Field(i.kind, i.name)] + (i.post + i.digits))
  }

  predicate Valid(mode: ByteMode, i: Instruction) {
    Quiet(i.pre) && Quiet(i.post) && IsWord(mode, i.digits)
  }

  /** Its word but for the immediate; shift is in the register when it begins. */
  function WordOf(mode: ByteMode, big: bool, shift: Word32, i: Instruction): Word32
    requires Valid(mode, i)
  {
    Xor(Plain(mode, i.digits), Xor(Xor(shift, Literals(mode, big, i.pre)), Literals(mode, big, i.post)))
  }

  /** The bits of the immediate; None if the label is not defined or out of range. */
  function Immediate(labels: seq<Entry>, ip: int, kind: char, name: string): Option<Word32> {
    if Target(labels, name).None? then None else FieldBits(kind, Target(labels, name).value - ip)
  }

  /** An instruction wherever it stands: it is refused exactly if its immediate is, and otherwise four
      bytes are written, its word exclusive-or the immediate, and the register is empty again. */
  lemma InstructionLinked(mode: ByteMode, big: bool, labels: seq<Entry>, s: Place, shift: Word32, i: Instruction)
    requires Valid(mode, i) && s.toggle == 0
    ensures var out := Output(mode, big, labels, s, Carry(0, shift), ItemsOf(i)); var b := Immediate(labels, s.ip, i.kind, i.name);
      && (out.Some? <==> b.Some?)
      && (out.Some? ==>
            && |out.value| == 4 && BitsOfBytes(out.value) == Xor(WordOf(mode, big, shift, i), b.value)
            && NextAll(mode, big, labels, s, Carry(0, shift), ItemsOf(i)) == NOTHING)
    ensures MoveAll(mode, s, ItemsOf(i)) == Place(s.ip + 4, 0)
  {
    hide Output, NextAll, MoveAll, FieldBits, Target, Literals, BitsOfBytes, Xor, Plain, IsWord;
    var field, c := [Field(i.kind, i.name)], Carry(0, shift);
    var w0 := Xor(shift, Literals(mode, big, i.pre));
    var rest := i.post + i.digits;
    QuietRun(mode, big, labels, s, shift, i.pre);
    OutputConcat(mode, big, labels, s, c, i.pre, field + rest);
    NextConcat(mode, big, labels, s, c, i.pre, field + rest);
    MoveConcat(mode, s, i.pre, field + rest);
    FieldAlone(mode, big, labels, s, w0, i.kind, i.name);
    OutputConcat(mode, big, labels, s, Carry(0, w0), field, rest);
    NextConcat(mode, big, labels, s, Carry(0, w0), field, rest);
    MoveConcat(mode, s, field, rest);
    MoveConcat(mode, s, i.post, i.digits);
    QuietRun(mode, big, labels, s, ZERO32, i.post);
    InstructionWritten(mode, big, labels, s, ZERO32, i.digits);
    var b := Immediate(labels, s.ip, i.kind, i.name);
    if b.Some? {
      var w1 := Xor(w0, b.value);
      var w2 := Xor(w1, Literals(mode, big, i.post));
      QuietRun(mode, big, labels, s, w1, i.post);
      OutputConcat(mode, big, labels, s, Carry(0, w1), i.post, i.digits);
      NextConcat(mode, big, labels, s, Carry(0, w1), i.post, i.digits);
      InstructionWritten(mode, big, labels, s, w2, i.digits);
      PlainIs(mode, i.digits);
      DigitsAlike(mode, big, labels, s, NOTHING, i.digits);
      Rearranged(Plain(mode, i.digits), w0, b.value, Literals(mode, big, i.post));
      NothingInFront(Output(mode, big, labels, s, Carry(0, w2), i.digits));
    }
  }

  lemma PlainIs(mode: ByteMode, digits: seq<Item>)
    requires IsWord(mode, digits)
    ensures Opcode(digits) && Output(mode, false, [], Place(0, 0), NOTHING, digits).Some?
    ensures Plain(mode, digits) == BitsOfBytes(Output(mode, false, [], Place(0, 0), NOTHING, digits).value)
  {
    InstructionWritten(mode, false, [], Place(0, 0), ZERO32, digits);
  }

  lemma Rearranged(plain: Word32, w: Word32, b: Word32, post: Word32)
    ensures Xor(plain, Xor(Xor(w, b), post)) == Xor(Xor(plain, Xor(w, post)), b)
  {
  }

  lemma FieldAlone(mode: ByteMode, big: bool, labels: seq<Entry>, s: Place, shift: Word32, kind: char, name: string)
    ensures var b := Immediate(labels, s.ip, kind, name); var x := [Field(kind, name)]; var c := Carry(0, shift);
      && Output(mode, big, labels, s, c, x) == (if b.Some? then Some([]) else None)
      && (b.Some? ==> NextAll(mode, big, labels, s, c, x) == Carry(0, Xor(shift, b.value)))
      && MoveAll(mode, s, x) == s
  {
    hide FieldBits, Target;
    var x := [Field(kind, name)];
    assert x[1..] == [];
    NothingInFront(Some([]));
  }

  // ---- branches, jumps and pairs ------------------------------------------------------------------

  /** A branch with an @ reference, whose word leaves the immediate's bits zero. The link goes through
      exactly if the label is defined at an even distance of at most 13 bits, and then the instruction
      holds the distance from itself. */
  lemma BranchLinked(mode: ByteMode, big: bool, labels: seq<Entry>, s: Place, shift: Word32, i: Instruction)
    requires Valid(mode, i) && i.kind == '@' && s.toggle == 0
    requires var w := WordOf(mode, big, shift, i); Clear(w, 7, 12) && Clear(w, 25, 32)
    ensures var out := Output(mode, big, labels, s, Carry(0, shift), ItemsOf(i)); var target := Target(labels, i.name);
      && (out.Some? <==> target.Some? && (target.value - s.ip) % 2 == 0 && -4096 <= target.value - s.ip < 4096)
      && (out.Some? ==> |out.value| == 4 && ImmB(BitsOfBytes(out.value)) == target.value - s.ip)
  {
    hide FieldBits, ImmB, BitsOfBytes, Clear, Output, Target, Valid, WordOf, ItemsOf;
    InstructionLinked(mode, big, labels, s, shift, i);
    var target := Target(labels, i.name);
    if target.Some? {
      BranchDecodes(target.value - s.ip, WordOf(mode, big, shift, i));
    }
  }

  /** A jump, with a $ reference and 21 bits. */
  lemma JumpLinked(mode: ByteMode, big: bool, labels: seq<Entry>, s: Place, shift: Word32, i: Instruction)
    requires Valid(mode, i) && i.kind == '$' && s.toggle == 0
    requires Clear(WordOf(mode, big, shift, i), 12, 32)
    ensures var out := Output(mode, big, labels, s, Carry(0, shift), ItemsOf(i)); var target := Target(labels, i.name);
      && (out.Some? <==> target.Some? && (target.value - s.ip) % 2 == 0 && -0x100000 <= target.value - s.ip < 0x100000)
      && (out.Some? ==> |out.value| == 4 && ImmJ(BitsOfBytes(out.value)) == target.value - s.ip)
  {
    hide FieldBits, ImmJ, BitsOfBytes, Clear, Output, Target, Valid, WordOf, ItemsOf;
    InstructionLinked(mode, big, labels, s, shift, i);
    var target := Target(labels, i.name);
    if target.Some? {
      JumpDecodes(target.value - s.ip, WordOf(mode, big, shift, i));
    }
  }

  /** Two instructions next to each other with a ~ and a ! reference to the same label. */
  predicate IsPair(mode: ByteMode, big: bool, shift: Word32, i: Instruction, j: Instruction) {
    && Valid(mode, i) && Valid(mode, j) && i.kind == '~' && j.kind == '!' && i.name == j.name
    && Clear(WordOf(mode, big, shift, i), 12, 32) && Clear(WordOf(mode, big, ZERO32, j), 20, 32)
  }

  /** Their immediates add up to the distance from the first instruction to the label. */
  lemma PairLinked(mode: ByteMode, big: bool, labels: seq<Entry>, s: Place, shift: Word32, i: Instruction, j: Instruction)
    requires IsPair(mode, big, shift, i, j) && s.toggle == 0
    ensures var out := Output(mode, big, labels, s, Carry(0, shift), ItemsOf(i) + ItemsOf(j)); var target := Target(labels, i.name);
      && (out.Some? <==> target.Some?)
      && (out.Some? ==> |out.value| == 8 && (ImmU(BitsOfBytes(out.value[..4])) + ImmI(BitsOfBytes(out.value[4..])) - (target.value - s.ip)) % 0x1_0000_0000 == 0)
  {
    hide FieldBits, ImmU, ImmI, BitsOfBytes, Clear, Output, MoveAll, NextAll, Target, Valid, WordOf, ItemsOf;
    var s1 := Place(s.ip + 4, 0);
    OutputConcat(mode, big, labels, s, Carry(0, shift), ItemsOf(i), ItemsOf(j));
    InstructionLinked(mode, big, labels, s, shift, i);
    InstructionLinked(mode, big, labels, s1, ZERO32, j);
    var target := Target(labels, i.name);
    if target.Some? {
      AlwaysFit(target.value - s.ip);
      AlwaysFit(target.value - s1.ip);
      PairDecodes(target.value, s.ip, WordOf(mode, big, shift, i), WordOf(mode, big, ZERO32, j));
      var a, b := Output(mode, big, labels, s, Carry(0, shift), ItemsOf(i)).value, Output(mode, big, labels, s1, NOTHING, ItemsOf(j)).value;
      assert (a + b)[..4] == a && (a + b)[4..] == b;
    }
  }

  // ---- literal words ------------------------------------------------------------------------------

  lemma {:induction false} NoHighBits(v: nat, n: nat, k: nat)
    requires v < Exp2(k) && k <= n
    ensures BitsOf(v, n) == BitsOf(v, k) + NoBits(n - k)
    decreases k
  {
    if k == 0 {
      BitsOfZero(n);
      assert NoBits(n) == [] + NoBits(n);
    } else {
      NoHighBits(v / 2, n - 1, k - 1);
    }
  }

  lemma ByteShifted(temp: Word32, b: Byte)
    ensures WithByte(temp, b) == BitsOf(b, 8) + temp[..24]
  {
    ByteSize();
    NoHighBits(b, 32, 8);
    hide BitsOf;
    assert BitsOf(b, 32) == BitsOf(b, 8) + NoBits(24);
  }

  /** The bytes that hexadecimal digits stand for, two by two. */
  function BytesOfDigits(ds: seq<nat>): (b: seq<Byte>)
    requires |ds| % 2 == 0 && forall k :: 0 <= k < |ds| ==> ds[k] < 16
    ensures |b| == |ds| / 2
  {
    if ds == [] then [] else [16 * ds[0] + ds[1]] + BytesOfDigits(ds[2..])
  }

  lemma DotByte(ds: seq<nat>, temp: Word32)
    requires |ds| >= 2 && forall k :: 0 <= k < |ds| ==> ds[k] < 16
    ensures DotWord(Hex, 0, 0, ds, temp) == DotWord(Hex, 0, 0, ds[2..], BitsOf(16 * ds[0] + ds[1], 8) + temp[..24])
  {
    var b := 16 * ds[0] + ds[1];
    DotTwo(ds, temp);
    hide *;
    ByteShifted(temp, b);
  }

  lemma DotTwo(ds: seq<nat>, temp: Word32)
    requires |ds| >= 2
    ensures DotWord(Hex, 0, 0, ds, temp) == DotWord(Hex, 0, 0, ds[2..], WithByte(temp, 16 * ds[0] + ds[1]))
  {
    hide WithByte;
    var us := ds[1..];
    assert us[1..] == ds[2..] && us[0] == ds[1];
    DotOne(ds, 0, 0, temp);
    DotOne(us, 1, ds[0], temp);
  }

  lemma DotOne(ds: seq<nat>, toggle: nat, hold: nat, temp: Word32)
    requires ds != [] && toggle < 2
    ensures DotWord(Hex, toggle, hold, ds, temp) ==
      if toggle == 1 then DotWord(Hex, 0, 0, ds[1..], WithByte(temp, hold * 16 + ds[0])) else DotWord(Hex, 1, hold * 16 + ds[0], ds[1..], temp)
  {
    hide WithByte;
  }

  lemma {:induction false} BitsConcat(a: seq<Byte>, b: seq<Byte>)
    ensures BitsOfBytes(a + b) == BitsOfBytes(a) + BitsOfBytes(b)
    decreases |a|
  {
    hide BitsOf;
    if a == [] {
      assert a + b == b;
    } else {
      assert (a + b)[0] == a[0] && (a + b)[1..] == a[1..] + b;
      BitsConcat(a[1..], b);
      Joined(BitsOf(a[0], 8), BitsOfBytes(a[1..]), BitsOfBytes(b));
    }
  }

  lemma Joined(a: seq<bool>, b: seq<bool>, c: seq<bool>)
    ensures (a + b) + c == a + (b + c)
  {
  }

  lemma OneBits(b: Byte)
    ensures BitsOfBytes([b]) == BitsOf(b, 8)
  {
    hide BitsOf;
    assert [b][1..] == [] && BitsOfBytes([]) == [];
  }

  /** The word of n bytes, the last of them lowest, in front of what was there. */
  lemma {:induction false} DotBytes(ds: seq<nat>, temp: Word32)
    requires |ds| % 2 == 0 && |ds| <= 8 && forall k :: 0 <= k < |ds| ==> ds[k] < 16
    ensures DotWord(Hex, 0, 0, ds, temp) == BitsOfBytes(Reverse(BytesOfDigits(ds))) + temp[..32 - 4 * |ds|]
    decreases |ds|
  {
    if ds == [] {
      NoDigits(temp);
    } else {
      var b := 16 * ds[0] + ds[1];
      var rest := BytesOfDigits(ds[2..]);
      assert Reverse(BytesOfDigits(ds)) == Reverse(rest) + [b] by { ReverseFirst(b, rest); }
      hide *;
      var w := BitsOf(b, 8);
      var temp1 := w + temp[..24];
      DotByte(ds, temp);
      DotBytes(ds[2..], temp1);
      BitsConcat(Reverse(rest), [b]);
      OneBits(b);
      Cut(BitsOfBytes(Reverse(rest)), w, temp, temp1, 32 - 4 * |ds|);
    }
  }

  lemma Cut(a: seq<bool>, w: seq<bool>, temp: Word32, temp1: Word32, n: nat)
    requires |w| == 8 && temp1 == w + temp[..24] && n <= 24
    ensures a + temp1[..n + 8] == (a + w) + temp[..n]
  {
    assert temp1[..n + 8] == w + temp[..n];
  }

  lemma NoDigits(temp: Word32)
    ensures DotWord(Hex, 0, 0, [], temp) == BitsOfBytes(Reverse(BytesOfDigits([]))) + temp[..32]
  {
  }

  lemma ReverseFirst(b: Byte, rest: seq<Byte>)
    ensures Reverse([b] + rest) == Reverse(rest) + [b]
  {
  }

  /** The bits of one byte of a word. */
  lemma {:induction false} ByteAt(b: seq<Byte>, k: nat)
    requires k < |b|
    ensures BitsOfBytes(b)[8 * k..8 * k + 8] == BitsOf(b[k], 8)
    decreases k
  {
    hide BitsOf;
    var w, rest := BitsOf(b[0], 8), BitsOfBytes(b[1..]);
    assert BitsOfBytes(b) == w + rest;
    if k > 0 {
      ByteAt(b[1..], k - 1);
      assert (w + rest)[8 * k..8 * k + 8] == rest[8 * (k - 1)..8 * (k - 1) + 8];
    }
  }

  /** For a little-endian target the register is filled so that each byte of the literal word meets the byte
      that is written in the same place, and for a big-endian one in the opposite order. */
  lemma LiteralBytes(ds: seq<nat>, big: bool)
    requires |ds| == 8 && forall k :: 0 <= k < 8 ==> ds[k] < 16
    ensures Literal(DotWord(Hex, 0, 0, ds, ZERO32), big) == BitsOfBytes(if big then Reverse(BytesOfDigits(ds)) else BytesOfDigits(ds))
  {
    var b := BytesOfDigits(ds);
    hide BitsOf, DotWord, BytesOfDigits, BitsOfBytes;
    DotBytes(ds, ZERO32);
    var w := BitsOfBytes(Reverse(b));
    assert w + ZERO32[..0] == w;
    if !big {
      Swapped(b);
    }
  }

  lemma Swapped(b: seq<Byte>)
    requires |b| == 4
    ensures var w := BitsOfBytes(Reverse(b)); BitsOfBytes(b) == w[24..32] + w[16..24] + w[8..16] + w[0..8]
  {
    var v, w := BitsOfBytes(b), BitsOfBytes(Reverse(b));
    hide *;
    ByteAt(b, 0);
    ByteAt(b, 1);
    ByteAt(b, 2);
    ByteAt(b, 3);
    ByteAt(Reverse(b), 0);
    ByteAt(Reverse(b), 1);
    ByteAt(Reverse(b), 2);
    ByteAt(Reverse(b), 3);
    FourParts(v, w[24..32], w[16..24], w[8..16], w[0..8]);
  }

  lemma FourParts(v: seq<bool>, a: seq<bool>, b: seq<bool>, c: seq<bool>, d: seq<bool>)
    requires |v| == 32 && v[0..8] == a && v[8..16] == b && v[16..24] == c && v[24..32] == d
    ensures v == a + b + c + d
  {
  }

  // ---- in a linked program ------------------------------------------------------------------------

  /** Between two bytes no part of one is held. */
  lemma {:induction false} NoneHeld(mode: ByteMode, big: bool, labels: seq<Entry>, s: Place, c: Carry, items: seq<Item>)
    requires s.toggle == 0 ==> c.hold == 0
    ensures MoveAll(mode, s, items).toggle == 0 ==> NextAll(mode, big, labels, s, c, items).hold == 0
    decreases |items|
  {
    hide Shift;
    if items != [] {
      NoneHeld(mode, big, labels, Move(mode, s, items[0]), Next(mode, big, labels, s, c, items[0]), items[1..]);
    }
  }

  /** What is in the register in front of item k. */
  function Register(mode: ByteMode, big: bool, base: int, items: seq<Item>, k: nat): Word32
    requires k <= |items|
  {
    NextAll(mode, big, Labels(mode, Place(base, 0), items), Place(base, 0), NOTHING, items[..k]).shift
  }

  /** The run of items begins between two bytes at item k. */
  predicate StandsAt(mode: ByteMode, base: int, items: seq<Item>, k: nat, run: seq<Item>) {
    k + |run| <= |items| && items[k..k + |run|] == run && MoveAll(mode, Place(base, 0), items[..k]).toggle == 0
  }

  /** Cutting a successful link at a run of items. */
  lemma RunAt(mode: ByteMode, big: bool, base: int, items: seq<Item>, k: nat, run: seq<Item>) returns (before: seq<Byte>, here: seq<Byte>, after: seq<Byte>)
    requires Link(mode, big, base, items).Some? && StandsAt(mode, base, items, k, run)
    ensures Link(mode, big, base, items).value == before + here + after
    ensures k <= |items| && MoveAll(mode, Place(base, 0), items[..k]) == Place(base + |before|, 0)
    ensures Output(mode, big, Labels(mode, Place(base, 0), items), Place(base + |before|, 0), Carry(0, Register(mode, big, base, items, k)), run) == Some(here)
  {
    hide Output, NextAll, MoveAll, Labels;
    var s0 := Place(base, 0);
    var labels := Labels(mode, s0, items);
    var a, b := items[..k], items[k..];
    var c := b[|run|..];
    assert items == a + b && b == run + c;
    var s, carry := MoveAll(mode, s0, a), NextAll(mode, big, labels, s0, NOTHING, a);
    NoneHeld(mode, big, labels, s0, NOTHING, a);
    OutputConcat(mode, big, labels, s0, NOTHING, a, b);
    OutputConcat(mode, big, labels, s, carry, run, c);
    before := Output(mode, big, labels, s0, NOTHING, a).value;
    OutputLength(mode, big, labels, s0, NOTHING, a);
    here := Output(mode, big, labels, s, carry, run).value;
    after := Output(mode, big, labels, MoveAll(mode, s, run), NextAll(mode, big, labels, s, carry, run), c).value;
  }

  /** Every branch of a linked program holds the even distance from itself to its label. */
  lemma BranchInProgram(mode: ByteMode, big: bool, base: int, items: seq<Item>, k: nat, i: Instruction) returns (before: seq<Byte>, here: seq<Byte>, after: seq<Byte>)
    requires Link(mode, big, base, items).Some? && StandsAt(mode, base, items, k, ItemsOf(i)) && Valid(mode, i) && i.kind == '@'
    requires var w := WordOf(mode, big, Register(mode, big, base, items, k), i); Clear(w, 7, 12) && Clear(w, 25, 32)
    ensures Link(mode, big, base, items).value == before + here + after && |here| == 4
    ensures var target := Target(Labels(mode, Place(base, 0), items), i.name);
      target.Some? && ImmB(BitsOfBytes(here)) == target.value - (base + |before|)
  {
    hide ImmB, BitsOfBytes, Clear, Output, Target, Labels, Link, Register, StandsAt, Valid, WordOf, ItemsOf;
    before, here, after := RunAt(mode, big, base, items, k, ItemsOf(i));
    BranchLinked(mode, big, Labels(mode, Place(base, 0), items), Place(base + |before|, 0), Register(mode, big, base, items, k), i);
  }

  /** And every jump. */
  lemma JumpInProgram(mode: ByteMode, big: bool, base: int, items: seq<Item>, k: nat, i: Instruction) returns (before: seq<Byte>, here: seq<Byte>, after: seq<Byte>)
    requires Link(mode, big, base, items).Some? && StandsAt(mode, base, items, k, ItemsOf(i)) && Valid(mode, i) && i.kind == '$'
    requires Clear(WordOf(mode, big, Register(mode, big, base, items, k), i), 12, 32)
    ensures Link(mode, big, base, items).value == before + here + after && |here| == 4
    ensures var target := Target(Labels(mode, Place(base, 0), items), i.name);
      target.Some? && ImmJ(BitsOfBytes(here)) == target.value - (base + |before|)
  {
    hide ImmJ, BitsOfBytes, Clear, Output, Target, Labels, Link, Register, StandsAt, Valid, WordOf, ItemsOf;
    before, here, after := RunAt(mode, big, base, items, k, ItemsOf(i));
    JumpLinked(mode, big, Labels(mode, Place(base, 0), items), Place(base + |before|, 0), Register(mode, big, base, items, k), i);
  }

  /** And every pair, modulo 2^32. */
  lemma PairInProgram(mode: ByteMode, big: bool, base: int, items: seq<Item>, k: nat, i: Instruction, j: Instruction)
    returns (before: seq<Byte>, first: seq<Byte>, second: seq<Byte>, after: seq<Byte>)
    requires Link(mode, big, base, items).Some? && StandsAt(mode, base, items, k, ItemsOf(i) + ItemsOf(j))
    requires IsPair(mode, big, Register(mode, big, base, items, k), i, j)
    ensures Link(mode, big, base, items).value == before + (first + second) + after && |first| == |second| == 4
    ensures var target := Target(Labels(mode, Place(base, 0), items), i.name);
      target.Some? && (ImmU(BitsOfBytes(first)) + ImmI(BitsOfBytes(second)) - (target.value - (base + |before|))) % 0x1_0000_0000 == 0
  {
    hide ImmU, ImmI, BitsOfBytes, Clear, Output, Target, Labels, Link, Register, StandsAt, IsPair, ItemsOf;
    var here;
    before, here, after := RunAt(mode, big, base, items, k, ItemsOf(i) + ItemsOf(j));
    PairLinked(mode, big, Labels(mode, Place(base, 0), items), Place(base + |before|, 0), Register(mode, big, base, items, k), i, j);
    first, second := here[..4], here[4..];
    assert here == first + second;
  }
}
