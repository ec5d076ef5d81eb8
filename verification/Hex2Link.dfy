/** The meaning of linking a list of items: the addresses the first pass assigns, the bytes the
    second pass writes, and what they have to do with each other. */
module Hex2Link {
  import opened Wrappers
  import opened Arith
  import opened Bits
  import opened Hex2Text
  import opened Riscv

  type Byte = x: int | 0 <= x < 256

  datatype Entry = Entry(name: string, target: int)

  // ---- bytes of a pointer -------------------------------------------------------------------

  function Pow256(n: nat): (p: int)
    ensures p >= 1
  {
    if n == 0 then 1 else 256 * Pow256(n - 1)
  }

  /** The low n bytes of v, least significant first. */
  function LittleBytes(v: int, n: nat): (b: seq<Byte>)
    ensures |b| == n
    decreases n
  {
    if n == 0 then [] else [v % 256] + LittleBytes(v / 256, n - 1)
  }

  lemma LittleAt(v: int, n: nat)
    requires n <= 4
    ensures var l := LittleBytes(v, n);
      && (n >= 1 ==> l[0] == v % 256) && (n >= 2 ==> l[1] == v / 256 % 256)
      && (n >= 3 ==> l[2] == v / 65536 % 256) && (n >= 4 ==> l[3] == v / 0x100_0000 % 256)
  {
    if n >= 1 {
      assert LittleBytes(v, n) == [v % 256] + LittleBytes(v / 256, n - 1);
      if n >= 2 {
        assert LittleBytes(v / 256, n - 1) == [v / 256 % 256] + LittleBytes(v / 256 / 256, n - 2);
        if n >= 3 {
          assert LittleBytes(v / 256 / 256, n - 2) == [v / 256 / 256 % 256] + LittleBytes(v / 256 / 256 / 256, n - 3);
          assert v / 256 / 256 == v / 65536 && v / 256 / 256 / 256 == v / 0x100_0000;
        }
      }
    }
  }

  function Reverse(b: seq<Byte>): (r: seq<Byte>)
    ensures |r| == |b|
    ensures forall k :: 0 <= k < |b| ==> r[k] == b[|b| - 1 - k]
  {
    if b == [] then [] else Reverse(b[1..]) + [b[0]]
  }

  function PointerBytes(v: int, n: nat, big: bool): (b: seq<Byte>)
    ensures |b| == n
  {
    if big then Reverse(LittleBytes(v, n)) else LittleBytes(v, n)
  }

  function FromLittle(b: seq<Byte>): (v: nat)
    ensures v < Pow256(|b|)
  {
    if b == [] then 0 else b[0] + 256 * FromLittle(b[1..])
  }

  /** The number the processor reads back, without and with sign. */
  function Unsigned(b: seq<Byte>, big: bool): (v: nat)
    ensures v < Pow256(|b|)
  {
    FromLittle(if big then Reverse(b) else b)
  }

  function SignExtended(b: seq<Byte>, big: bool): int {
    var v := Unsigned(b, big);
    if 2 * v < Pow256(|b|) then v else v - Pow256(|b|)
  }

  predicate Absolute(kind: char) {
    kind == '$' || kind == '&'
  }

  function Width(kind: char): (w: nat)
    ensures w <= 4
  {
    if kind == '%' || kind == '&' then 4 else if kind == '@' || kind == '$' then 2 else if kind == '~' then 3 else if kind == '!' then 1 else 0
  }

  /** range_check, which lets every 4-byte value through. */
  predicate InField(v: int, n: nat, absolute: bool) {
    n == 4 || (if absolute then 0 <= v < Pow256(n) else -Pow256(n) <= 2 * v < Pow256(n))
  }

  // ---- the first pass -------------------------------------------------------------------------

  /** How far a pass has come: the address and the number of digits of an unfinished byte. */
  datatype Place = Place(ip: int, toggle: nat)

  /** pad_to_align: what is missing to a multiple of four. */
  function Padding(ip: int): (n: nat)
    ensures n < 4 && (ip + n) % 4 == 0
  {
    (4 - ip % 4) % 4
  }

  function Zeros(n: nat): (b: seq<Byte>)
    ensures |b| == n
  {
    seq(n, _ => 0)
  }

  function Move(mode: ByteMode, s: Place, x: Item): Place {
    var toggle := Toggle(mode, s.toggle, x);
    match x
    case Ref(kind, _, _) => Place(s.ip + Width(kind), toggle)
    case Digit(_) => Place(if s.toggle + 1 == Group(mode) then s.ip + 1 else s.ip, toggle)
    case Align => Place(s.ip + Padding(s.ip), toggle)
    case _ => Place(s.ip, toggle)
  }

  function MoveAll(mode: ByteMode, s: Place, items: seq<Item>): Place
    decreases |items|
  {
    if items == [] then s else MoveAll(mode, Move(mode, s, items[0]), items[1..])
  }

  /** The labels in the order of their definitions. */
  function Labels(mode: ByteMode, s: Place, items: seq<Item>): seq<Entry>
    decreases |items|
  {
    if items == [] then []
    else (if items[0].Def? then [Entry(items[0].name, s.ip)] else []) + Labels(mode, Move(mode, s, items[0]), items[1..])
  }

  /** The last definition of a name counts. */
  function Target(labels: seq<Entry>, name: string): Option<int>
    decreases |labels|
  {
    if labels == [] then None
    else if labels[|labels| - 1].name == name then Some(labels[|labels| - 1].target)
    else Target(labels[..|labels| - 1], name)
  }

  // ---- the second pass ------------------------------------------------------------------------

  /** The number a pointer of a kind stands for; ip is the address after the pointer. */
  function PointerValue(labels: seq<Entry>, ip: int, x: Item): Option<int>
    requires x.Ref?
  {
    match Target(labels, x.name)
    case None => None
    case Some(target) =>
      match x.base
      case None => Some(if Absolute(x.kind) then target else target - ip)
      case Some(b) =>
        match Target(labels, b)
        case None => None
        case Some(base) => Some(if Absolute(x.kind) then target else target - base)
  }

  /** What the second pass carries from item to item: the unfinished byte and the bits to be
      exclusive-ored into the next four bytes. */
  datatype Carry = Carry(hold: nat, shift: Word32)

  const NOTHING := Carry(0, ZERO32)

  /** The register after a byte has been taken from its low end. */
  function Shifted(shift: Word32): Word32 {
    shift[8..] + NoBits(8)
  }

  lemma ByteSize()
    ensures Exp2(8) == 256
  {
    assert Exp2(4) == 16;
  }

  function XorByte(v: int, bits: seq<bool>): Byte
    requires |bits| == 8
  {
    ByteSize();
    ValueOf(Xor(BitsOf(v, 8), bits))
  }

  /** (tempword << 8) ^ byte */
  function WithByte(temp: Word32, byte: int): Word32 {
    Xor(NoBits(8) + temp[..24], BitsOf(byte, 32))
  }

  /** tempword after the digits of a literal word. */
  function DotWord(mode: ByteMode, toggle: nat, hold: nat, ds: seq<nat>, temp: Word32): Word32
    decreases |ds|
  {
    if ds == [] then temp
    else
      if toggle + 1 == Group(mode) then DotWord(mode, 0, 0, ds[1..], WithByte(temp, hold * Radix(mode) + ds[0]))
      else DotWord(mode, toggle + 1, hold * Radix(mode) + ds[0], ds[1..], temp)
  }

  /** The bytes of a literal word swapped for a little-endian target. */
  function Literal(w: Word32, big: bool): Word32 {
    if big then w else w[24..32] + w[16..24] + w[8..16] + w[0..8]
  }

  /** The bits that an item puts into the register; None is a call of exit. */
  function Shift(mode: ByteMode, big: bool, labels: seq<Entry>, s: Place, c: Carry, x: Item): Option<Word32> {
    match x
    case Field(kind, name) =>
      (match Target(labels, name)
       case None => None
       case Some(target) =>
         match FieldBits(kind, target - s.ip)
         case None => None
         case Some(b) => Some(Xor(c.shift, b)))
    case Dot(ds) =>
      Some(Xor(c.shift, Literal(DotWord(mode, s.toggle, c.hold, ds, ZERO32), big)))
    case Digit(_) => Some(if s.toggle + 1 == Group(mode) then Shifted(c.shift) else c.shift)
    case _ => Some(c.shift)
  }

  /** What one item writes; None is a call of exit, or a loop that does not end. */
  function Write(mode: ByteMode, big: bool, labels: seq<Entry>, s: Place, c: Carry, x: Item): Option<seq<Byte>> {
    match x
    case Ref(kind, _, _) =>
      (match PointerValue(labels, s.ip + Width(kind), x)
       case None => None
       case Some(v) => if InField(v, Width(kind), Absolute(kind)) then Some(PointerBytes(v, Width(kind), big)) else None)
    case Digit(d) => if s.toggle + 1 == Group(mode) then Some([XorByte(c.hold * Radix(mode) + d, c.shift[..8])]) else Some([])
    case Align => Some(Zeros(Padding(s.ip)))
    case Hang => None
    case _ => if Shift(mode, big, labels, s, c, x).Some? then Some([]) else None
  }

  function Hold(mode: ByteMode, s: Place, hold: nat, x: Item): nat {
    match x
    case Digit(d) => if s.toggle + 1 == Group(mode) then 0 else hold * Radix(mode) + d
    case Dot(_) => 0
    case File => 0
    case _ => hold
  }

  function Next(mode: ByteMode, big: bool, labels: seq<Entry>, s: Place, c: Carry, x: Item): Carry {
    Carry(Hold(mode, s, c.hold, x), Shift(mode, big, labels, s, c, x).GetOr(c.shift))
  }

  function Both(a: Option<seq<Byte>>, b: Option<seq<Byte>>): Option<seq<Byte>> {
    if a.Some? && b.Some? then Some(a.value + b.value) else None
  }

  function Output(mode: ByteMode, big: bool, labels: seq<Entry>, s: Place, c: Carry, items: seq<Item>): Option<seq<Byte>>
    decreases |items|
  {
    if items == [] then Some([])
    else
      Both(Write(mode, big, labels, s, c, items[0]),
           Output(mode, big, labels, Move(mode, s, items[0]), Next(mode, big, labels, s, c, items[0]), items[1..]))
  }

  /** Both passes over the same items, from the base address. */
  function Link(mode: ByteMode, big: bool, base: int, items: seq<Item>): Option<seq<Byte>> {
    Output(mode, big, Labels(mode, Place(base, 0), items), Place(base, 0), NOTHING, items)
  }

  // ---- the two passes agree ---------------------------------------------------------------------

  /** What is written is as long as the first pass reckoned. */
  lemma {:induction false} OutputLength(mode: ByteMode, big: bool, labels: seq<Entry>, s: Place, c: Carry, items: seq<Item>)
    requires Output(mode, big, labels, s, c, items).Some?
    ensures |Output(mode, big, labels, s, c, items).value| == MoveAll(mode, s, items).ip - s.ip
    decreases |items|
  {
    if items != [] {
      OutputLength(mode, big, labels, Move(mode, s, items[0]), Next(mode, big, labels, s, c, items[0]), items[1..]);
    }
  }

  function NextAll(mode: ByteMode, big: bool, labels: seq<Entry>, s: Place, c: Carry, items: seq<Item>): Carry
    decreases |items|
  {
    if items == [] then c else NextAll(mode, big, labels, Move(mode, s, items[0]), Next(mode, big, labels, s, c, items[0]), items[1..])
  }

  /** A run cut in two. */
  lemma {:induction false} MoveConcat(mode: ByteMode, s: Place, a: seq<Item>, b: seq<Item>)
    ensures MoveAll(mode, s, a + b) == MoveAll(mode, MoveAll(mode, s, a), b)
    ensures Labels(mode, s, a + b) == Labels(mode, s, a) + Labels(mode, MoveAll(mode, s, a), b)
    decreases |a|
  {
    if a == [] {
      assert a + b == b;
    } else {
      assert (a + b)[0] == a[0] && (a + b)[1..] == a[1..] + b;
      MoveConcat(mode, Move(mode, s, a[0]), a[1..], b);
    }
  }

  lemma BothAssociative(a: Option<seq<Byte>>, b: Option<seq<Byte>>, c: Option<seq<Byte>>)
    ensures Both(Both(a, b), c) == Both(a, Both(b, c))
  {
    if a.Some? && b.Some? && c.Some? {
      assert (a.value + b.value) + c.value == a.value + (b.value + c.value);
    }
  }

  lemma {:induction false} OutputConcat(mode: ByteMode, big: bool, labels: seq<Entry>, s: Place, c: Carry, a: seq<Item>, b: seq<Item>)
    ensures Output(mode, big, labels, s, c, a + b) ==
      Both(Output(mode, big, labels, s, c, a), Output(mode, big, labels, MoveAll(mode, s, a), NextAll(mode, big, labels, s, c, a), b))
    decreases |a|
  {
    hide Write, Move, Next;
    if a == [] {
      assert a + b == b;
      var y := Output(mode, big, labels, s, c, b);
      assert y.Some? ==> [] + y.value == y.value;
    } else {
      assert (a + b)[0] == a[0] && (a + b)[1..] == a[1..] + b;
      var s1, c1 := Move(mode, s, a[0]), Next(mode, big, labels, s, c, a[0]);
      OutputConcat(mode, big, labels, s1, c1, a[1..], b);
      BothAssociative(Write(mode, big, labels, s, c, a[0]), Output(mode, big, labels, s1, c1, a[1..]),
                      Output(mode, big, labels, MoveAll(mode, s1, a[1..]), NextAll(mode, big, labels, s1, c1, a[1..]), b));
    }
  }

  lemma {:induction false} NextConcat(mode: ByteMode, big: bool, labels: seq<Entry>, s: Place, c: Carry, a: seq<Item>, b: seq<Item>)
    ensures NextAll(mode, big, labels, s, c, a + b) == NextAll(mode, big, labels, MoveAll(mode, s, a), NextAll(mode, big, labels, s, c, a), b)
    decreases |a|
  {
    hide Move, Next;
    if a == [] {
      assert a + b == b;
    } else {
      assert (a + b)[0] == a[0] && (a + b)[1..] == a[1..] + b;
      NextConcat(mode, big, labels, Move(mode, s, a[0]), Next(mode, big, labels, s, c, a[0]), a[1..], b);
    }
  }

  lemma XorByteNothing(v: int)
    ensures ZERO32[..8] == NoBits(8) && XorByte(v, ZERO32[..8]) == v % 256
  {
    hide BitsOf, ValueOf;
    ByteSize();
    assert Xor(BitsOf(v, 8), NoBits(8)) == BitsOf(v, 8);
    ValueModulo(v, 8);
  }

  /** Cutting a successful link at an item: what comes before it, the item and the rest. */
  lemma LinkAt(mode: ByteMode, big: bool, base: int, items: seq<Item>, k: nat) returns (before: seq<Byte>, here: seq<Byte>, after: seq<Byte>)
    requires k < |items| && Link(mode, big, base, items).Some?
    ensures Link(mode, big, base, items).value == before + here + after
    ensures var s := MoveAll(mode, Place(base, 0), items[..k]);
      && |before| == s.ip - base
      && Write(mode, big, Labels(mode, Place(base, 0), items), s, NextAll(mode, big, Labels(mode, Place(base, 0), items), Place(base, 0), NOTHING, items[..k]), items[k]) == Some(here)
  {
    var s0 := Place(base, 0);
    var labels := Labels(mode, s0, items);
    var a, b := items[..k], items[k..];
    assert items == a + b;
    OutputConcat(mode, big, labels, s0, NOTHING, a, b);
    before := Output(mode, big, labels, s0, NOTHING, a).value;
    OutputLength(mode, big, labels, s0, NOTHING, a);
    var s, c := MoveAll(mode, s0, a), NextAll(mode, big, labels, s0, NOTHING, a);
    here := Write(mode, big, labels, s, c, b[0]).value;
    after := Output(mode, big, labels, Move(mode, s, b[0]), Next(mode, big, labels, s, c, b[0]), b[1..]).value;
  }

  // ---- what a pointer means -----------------------------------------------------------------------

  lemma {:induction false} LittleRoundTrip(v: int, n: nat)
    ensures FromLittle(LittleBytes(v, n)) == v % Pow256(n)
    decreases n
  {
    if n > 0 {
      LittleRoundTrip(v / 256, n - 1);
      DivDiv(v, 256, Pow256(n - 1));
    }
  }

  lemma ReverseTwice(b: seq<Byte>)
    ensures Reverse(Reverse(b)) == b
  {
  }

  /** The bytes of a pointer read back as the number they stand for: exactly if it is in the range
      of the field, and always modulo the size of the field. */
  lemma PointerDecodes(v: int, n: nat, big: bool)
    ensures Unsigned(PointerBytes(v, n, big), big) == v % Pow256(n)
    ensures 0 <= v < Pow256(n) ==> Unsigned(PointerBytes(v, n, big), big) == v
    ensures -Pow256(n) <= 2 * v < Pow256(n) ==> SignExtended(PointerBytes(v, n, big), big) == v
  {
    LittleRoundTrip(v, n);
    ReverseTwice(LittleBytes(v, n));
    var p := Pow256(n);
    if 0 <= v < p {
      DivModUnique(v, p, 0, v);
    } else if -p <= 2 * v < 0 {
      DivModUnique(v, p, -1, v + p);
    }
  }

  // ---- linking ----------------------------------------------------------------------------------

  /** The length of the output is the distance the addresses cover. */
  lemma LinkLength(mode: ByteMode, big: bool, base: int, items: seq<Item>)
    requires Link(mode, big, base, items).Some?
    ensures |Link(mode, big, base, items).value| == MoveAll(mode, Place(base, 0), items).ip - base
  {
    OutputLength(mode, big, Labels(mode, Place(base, 0), items), Place(base, 0), NOTHING, items);
  }

  /** The value of a name is the base address plus the number of bytes written before the last
      item that defines it; a name that nothing defines has none. */
  lemma {:induction false} TargetIsAddress(mode: ByteMode, s: Place, items: seq<Item>, name: string)
    ensures Target(Labels(mode, s, items), name).None? <==> Def(name) !in items
    ensures forall k :: 0 <= k < |items| && items[k] == Def(name) && Def(name) !in items[k + 1..] ==>
      Target(Labels(mode, s, items), name) == Some(MoveAll(mode, s, items[..k]).ip)
    decreases |items|
  {
    hide Move, Target, MoveAll;
    if items != [] {
      TargetIsAddress(mode, Move(mode, s, items[0]), items[1..], name);
      TargetOfFirst(mode, s, items, name);
      forall k | 0 <= k < |items| && items[k] == Def(name) && Def(name) !in items[k + 1..]
        ensures Target(Labels(mode, s, items), name) == Some(MoveAll(mode, s, items[..k]).ip)
      {
        if k > 0 {
          assert items[1..][k - 1] == items[k] && items[1..][k..] == items[k + 1..];
          MoveFirst(mode, s, items, k);
        } else {
          NotMoved(mode, s, items);
        }
      }
    } else {
      NoTarget(mode, s, name);
    }
  }

  lemma NoTarget(mode: ByteMode, s: Place, name: string)
    ensures Target(Labels(mode, s, []), name) == None
  {
  }

  /** The definitions after the first item take precedence over it. */
  lemma TargetOfFirst(mode: ByteMode, s: Place, items: seq<Item>, name: string)
    requires items != []
    ensures Target(Labels(mode, s, items), name) ==
      var later := Target(Labels(mode, Move(mode, s, items[0]), items[1..]), name);
      if later.Some? then later else if items[0] == Def(name) then Some(s.ip) else None
  {
    hide Move;
    var later := Labels(mode, Move(mode, s, items[0]), items[1..]);
    var first := if items[0].Def? then [Entry(items[0].name, s.ip)] else [];
    TargetConcat(first, later, name);
    assert Labels(mode, s, items) == first + later;
    assert items[0].Def? ==> items[0] == Def(items[0].name);
  }

  lemma MoveFirst(mode: ByteMode, s: Place, items: seq<Item>, k: nat)
    requires 0 < k <= |items|
    ensures MoveAll(mode, s, items[..k]) == MoveAll(mode, Move(mode, s, items[0]), items[1..][..k - 1])
  {
    hide Move;
    assert items[..k][0] == items[0] && items[..k][1..] == items[1..][..k - 1];
  }

  lemma NotMoved(mode: ByteMode, s: Place, items: seq<Item>)
    ensures MoveAll(mode, s, items[..0]) == s
  {
  }

  lemma {:induction false} TargetConcat(a: seq<Entry>, b: seq<Entry>, name: string)
    ensures Target(a + b, name) == if Target(b, name).Some? then Target(b, name) else Target(a, name)
    decreases |b|
  {
    if b == [] {
      assert a + b == a;
    } else {
      var c := a + b;
      assert c[..|c| - 1] == a + b[..|b| - 1];
      TargetConcat(a, b[..|b| - 1], name);
    }
  }

  /** Where a label is in the output. */
  lemma LabelAddress(mode: ByteMode, big: bool, base: int, items: seq<Item>, k: nat)
    requires Link(mode, big, base, items).Some? && k < |items| && items[k].Def?
    requires items[k] !in items[k + 1..]
    ensures var before := Output(mode, big, Labels(mode, Place(base, 0), items), Place(base, 0), NOTHING, items[..k]);
      before.Some? && before.value <= Link(mode, big, base, items).value
      && Target(Labels(mode, Place(base, 0), items), items[k].name) == Some(base + |before.value|)
  {
    hide Output, Labels, Target, MoveAll;
    var s0 := Place(base, 0);
    var labels := Labels(mode, s0, items);
    TargetIsAddress(mode, s0, items, items[k].name);
    assert items[k] == Def(items[k].name);
    assert items == items[..k] + items[k..];
    OutputConcat(mode, big, labels, s0, NOTHING, items[..k], items[k..]);
    OutputLength(mode, big, labels, s0, NOTHING, items[..k]);
  }

  /** What has to be in the bytes of a pointer: the target's address behind $ and &, and behind !, @, ~ and %
      the distance to the target from the end of the pointer or from the base label it names. */
  predicate Holds(kind: char, big: bool, here: seq<Byte>, target: int, from: int) {
    match kind
    case '!' => |here| == 1 && SignExtended(here, big) == target - from
    case '@' => |here| == 2 && SignExtended(here, big) == target - from
    case '$' => |here| == 2 && Unsigned(here, big) == target
    case '~' => |here| == 3 && SignExtended(here, big) == target - from
    case '%' => |here| == 4 && (SignExtended(here, big) - (target - from)) % 0x1_0000_0000 == 0
    case '&' => |here| == 4 && (Unsigned(here, big) - target) % 0x1_0000_0000 == 0
    case _ => false
  }

  /** The bytes of every pointer of a linked program read back so; 4-byte fields hold it modulo 2^32. */
  lemma PointerLinked(mode: ByteMode, big: bool, base: int, items: seq<Item>, k: nat) returns (before: seq<Byte>, here: seq<Byte>, after: seq<Byte>)
    requires Link(mode, big, base, items).Some? && k < |items| && items[k].Ref? && items[k].kind in POINTERS
    ensures Link(mode, big, base, items).value == before + here + after
    ensures base + |before| == MoveAll(mode, Place(base, 0), items[..k]).ip
    ensures var labels := Labels(mode, Place(base, 0), items); var x := items[k];
      && Target(labels, x.name).Some? && (x.base.Some? ==> Target(labels, x.base.value).Some?)
      && Holds(x.kind, big, here, Target(labels, x.name).value, if x.base.Some? then Target(labels, x.base.value).value else base + |before| + |here|)
  {
    before, here, after := LinkAt(mode, big, base, items, k);
    var x := items[k];
    var labels := Labels(mode, Place(base, 0), items);
    PointerWrites(mode, big, labels, base + |before|, x);
    hide *;
    PointerHolds(x.kind, big, Target(labels, x.name).value, if x.base.Some? then Target(labels, x.base.value).value else base + |before| + Width(x.kind));
  }

  /** What is written for a pointer at an address. */
  lemma PointerWrites(mode: ByteMode, big: bool, labels: seq<Entry>, ip: int, x: Item)
    requires x.Ref? && x.kind in POINTERS
    ensures forall s: Place, c: Carry :: s.ip == ip && Write(mode, big, labels, s, c, x).Some? ==>
      && Target(labels, x.name).Some? && (x.base.Some? ==> Target(labels, x.base.value).Some?)
      && var v := PointedAt(x.kind, Target(labels, x.name).value, if x.base.Some? then Target(labels, x.base.value).value else ip + Width(x.kind));
      InField(v, Width(x.kind), Absolute(x.kind)) && Write(mode, big, labels, s, c, x).value == PointerBytes(v, Width(x.kind), big)
  {
    hide InField, Width, Absolute, PointerBytes, Target;
  }

  function PointedAt(kind: char, target: int, from: int): int {
    if Absolute(kind) then target else target - from
  }

  lemma PointerHolds(kind: char, big: bool, target: int, from: int)
    requires kind in POINTERS && InField(PointedAt(kind, target, from), Width(kind), Absolute(kind))
    ensures Holds(kind, big, PointerBytes(PointedAt(kind, target, from), Width(kind), big), target, from)
  {
    var v := PointedAt(kind, target, from);
    hide PointerBytes, Unsigned, SignExtended, Pow256;
    PointerDecodes(v, Width(kind), big);
    FieldSizes();
    SignedOrNot(PointerBytes(v, Width(kind), big), big);
  }

  lemma FieldSizes()
    ensures Pow256(1) == 0x100 && Pow256(2) == 0x1_0000 && Pow256(3) == 0x100_0000 && Pow256(4) == 0x1_0000_0000
  {
    assert Pow256(0) == 1;
  }

  /** Both readings are the same modulo the size. */
  lemma SignedOrNot(b: seq<Byte>, big: bool)
    ensures SignExtended(b, big) == Unsigned(b, big) || SignExtended(b, big) == Unsigned(b, big) - Pow256(|b|)
  {
  }

  /** The numbers for which there is room behind each character. */
  lemma FieldRange(kind: char, v: int)
    requires kind in POINTERS
    ensures InField(v, Width(kind), Absolute(kind)) <==>
      match kind
      case '!' => -0x80 <= v < 0x80
      case '@' => -0x8000 <= v < 0x8000
      case '$' => 0 <= v < 0x1_0000
      case '~' => -0x80_0000 <= v < 0x80_0000
      case _ => true
  {
    FieldSizes();
  }

  /** The items at address ip on which the second pass gives up: a name without definition, a
      number that does not fit, and a literal word that is not complete. */
  predicate Refused(labels: seq<Entry>, ip: int, x: Item) {
    match x
    case Ref(kind, _, _) =>
      (match PointerValue(labels, ip + Width(kind), x)
       case None => true
       case Some(v) => !InField(v, Width(kind), Absolute(kind)))
    case Field(kind, name) =>
      (match Target(labels, name)
       case None => true
       case Some(target) => FieldBits(kind, target - ip).None?)
    case Hang => true
    case _ => false
  }

  lemma WriteFails(mode: ByteMode, big: bool, labels: seq<Entry>, s: Place, c: Carry, x: Item)
    ensures Write(mode, big, labels, s, c, x).None? <==> Refused(labels, s.ip, x)
  {
    hide FieldBits, PointerValue, Literal, DotWord, XorByte, PointerBytes;
  }

  lemma {:induction false} OutputFails(mode: ByteMode, big: bool, labels: seq<Entry>, s: Place, c: Carry, items: seq<Item>)
    ensures Output(mode, big, labels, s, c, items).None? <==>
      exists k :: 0 <= k < |items| && Refused(labels, MoveAll(mode, s, items[..k]).ip, items[k])
    decreases |items|
  {
    hide Write, Refused, Move, Next;
    if items == [] {
    } else {
      var s1 := Move(mode, s, items[0]);
      OutputFails(mode, big, labels, s1, Next(mode, big, labels, s, c, items[0]), items[1..]);
      WriteFails(mode, big, labels, s, c, items[0]);
      forall k | 1 <= k < |items|
        ensures items[1..][k - 1] == items[k] && MoveAll(mode, s1, items[1..][..k - 1]) == MoveAll(mode, s, items[..k])
      {
        assert items[..k][0] == items[0] && items[..k][1..] == items[1..][..k - 1];
      }
      assert MoveAll(mode, s, items[..0]) == s;
      if k :| 0 <= k < |items[1..]| && Refused(labels, MoveAll(mode, s1, items[1..][..k]).ip, items[1..][k]) {
        assert Refused(labels, MoveAll(mode, s, items[..k + 1]).ip, items[k + 1]);
      }
    }
  }

  /** A link fails exactly when one of its items is refused. */
  lemma LinkFails(mode: ByteMode, big: bool, base: int, items: seq<Item>)
    ensures var s := Place(base, 0); var labels := Labels(mode, s, items);
      Link(mode, big, base, items).None? <==> exists k :: 0 <= k < |items| && Refused(labels, MoveAll(mode, s, items[..k]).ip, items[k])
  {
    OutputFails(mode, big, Labels(mode, Place(base, 0), items), Place(base, 0), NOTHING, items);
  }
}
