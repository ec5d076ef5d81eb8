/** Text that M1 prints and hex2 reads: strings of digits and spaces that stand for bytes wherever
    they occur in a file. */
module HexWords {
  import opened Wrappers
  import opened Arith
  import opened Bits
  import opened Hex2Text
  import opened Hex2Link

  // ---- text that stands for bytes ---------------------------------------------------------------

  /** Between two bytes, hex2 reads t as these items, whatever comes next. */
  ghost predicate Spells(mode: ByteMode, t: string, items: seq<Item>) {
    forall rest: string :: Lex(false, mode, t + rest, 0) == items + Lex(false, mode, rest, 0)
  }

  /** Both passes of hex2 take the items at an address for these bytes, and nothing is left over. */
  predicate YieldsAt(mode: ByteMode, items: seq<Item>, b: seq<Byte>, big: bool, labels: seq<Entry>, ip: int) {
    && MoveAll(mode, Place(ip, 0), items) == Place(ip + |b|, 0) && Labels(mode, Place(ip, 0), items) == []
    && Output(mode, big, labels, Place(ip, 0), NOTHING, items) == Some(b)
    && NextAll(mode, big, labels, Place(ip, 0), NOTHING, items) == NOTHING
  }

  ghost predicate Yields(mode: ByteMode, items: seq<Item>, b: seq<Byte>) {
    forall big: bool, labels: seq<Entry>, ip: int :: YieldsAt(mode, items, b, big, labels, ip)
  }

  ghost predicate Writes(mode: ByteMode, t: string, b: seq<Byte>) {
    exists items :: Spells(mode, t, items) && Yields(mode, items, b)
  }

  lemma SpellsConcat(mode: ByteMode, t: string, a: seq<Item>, u: string, b: seq<Item>)
    requires Spells(mode, t, a) && Spells(mode, u, b)
    ensures Spells(mode, t + u, a + b)
  {
    hide Lex;
    forall rest: string
      ensures Lex(false, mode, t + u + rest, 0) == a + b + Lex(false, mode, rest, 0)
    {
      var r := Lex(false, mode, rest, 0);
      assert t + u + rest == t + (u + rest);
      assert Lex(false, mode, u + rest, 0) == b + r;
      assert Lex(false, mode, t + (u + rest), 0) == a + (b + r);
      assert a + (b + r) == a + b + r;
    }
  }

  lemma YieldsConcat(mode: ByteMode, x: seq<Item>, a: seq<Byte>, y: seq<Item>, b: seq<Byte>)
    requires Yields(mode, x, a) && Yields(mode, y, b)
    ensures Yields(mode, x + y, a + b)
  {
    hide MoveAll, Labels, Output, NextAll;
    forall big: bool, labels: seq<Entry>, ip: int
      ensures YieldsAt(mode, x + y, a + b, big, labels, ip)
    {
      var s := Place(ip, 0);
      assert YieldsAt(mode, x, a, big, labels, ip) && YieldsAt(mode, y, b, big, labels, ip + |a|);
      MoveConcat(mode, s, x, y);
      OutputConcat(mode, big, labels, s, NOTHING, x, y);
      NextConcat(mode, big, labels, s, NOTHING, x, y);
    }
  }

  /** Texts one after the other stand for their bytes one after the other. */
  lemma WritesConcat(mode: ByteMode, t: string, a: seq<Byte>, u: string, b: seq<Byte>)
    requires Writes(mode, t, a) && Writes(mode, u, b)
    ensures Writes(mode, t + u, a + b)
  {
    hide Spells, Yields;
    var x :| Spells(mode, t, x) && Yields(mode, x, a);
    var y :| Spells(mode, u, y) && Yields(mode, y, b);
    SpellsConcat(mode, t, x, u, y);
    YieldsConcat(mode, x, a, y, b);
  }

  /** A file of such text links to its bytes. */
  lemma WritesLinks(mode: ByteMode, big: bool, base: int, t: string, b: seq<Byte>)
    requires Writes(mode, t, b)
    ensures Link(mode, big, base, LexAll(false, mode, [t])) == Some(b)
  {
    hide Move, Next, Write, NextItem;
    var items :| Spells(mode, t, items) && Yields(mode, items, b);
    assert t + "" == t;
    assert Lex(false, mode, t, 0) == items + [];
    var all := LexAll(false, mode, [t]);
    OneFile(mode, t);
    assert all == [File] + items;
    var s := Place(base, 0);
    var labels := Labels(mode, s, all);
    FileOutput(mode, big, labels, base, items);
    assert YieldsAt(mode, items, b, big, labels, base);
  }

  lemma OneFile(mode: ByteMode, t: string)
    ensures LexAll(false, mode, [t]) == [File] + Lex(false, mode, t, 0)
  {
    hide Lex;
    assert [t][..0] == [] && LexAll(false, mode, []) == [];
    assert [] + ([File] + Lex(false, mode, t, 0)) == [File] + Lex(false, mode, t, 0);
  }

  lemma FileOutput(mode: ByteMode, big: bool, labels: seq<Entry>, base: int, items: seq<Item>)
    ensures Output(mode, big, labels, Place(base, 0), NOTHING, [File] + items) == Output(mode, big, labels, Place(base, 0), NOTHING, items)
  {
    var all := [File] + items;
    assert all[1..] == items;
    var y := Output(mode, big, labels, Place(base, 0), NOTHING, items);
    assert y.Some? ==> [] + y.value == y.value;
  }

  // ---- spaces -------------------------------------------------------------------------------------

  predicate IsSpace(c: char) {
    c == ' ' || c == '\n' || c == '\t'
  }

  lemma YieldsNothing(mode: ByteMode, items: seq<Item>, b: seq<Byte>)
    requires b == [] && (items == [] || items == [Skip])
    ensures Yields(mode, items, b)
  {
    hide MoveAll, Labels, Output, NextAll;
    forall big: bool, labels: seq<Entry>, ip: int
      ensures YieldsAt(mode, items, b, big, labels, ip)
    {
      if items == [] {
        Idle(mode, big, labels, ip);
      } else {
        Skips(mode, big, labels, ip);
      }
      assert ip + |b| == ip;
    }
  }

  lemma Idle(mode: ByteMode, big: bool, labels: seq<Entry>, ip: int)
    ensures MoveAll(mode, Place(ip, 0), []) == Place(ip, 0) && Labels(mode, Place(ip, 0), []) == []
    ensures Output(mode, big, labels, Place(ip, 0), NOTHING, []) == Some([])
    ensures NextAll(mode, big, labels, Place(ip, 0), NOTHING, []) == NOTHING
  {
  }

  lemma Skips(mode: ByteMode, big: bool, labels: seq<Entry>, ip: int)
    ensures MoveAll(mode, Place(ip, 0), [Skip]) == Place(ip, 0) && Labels(mode, Place(ip, 0), [Skip]) == []
    ensures Output(mode, big, labels, Place(ip, 0), NOTHING, [Skip]) == Some([])
    ensures NextAll(mode, big, labels, Place(ip, 0), NOTHING, [Skip]) == NOTHING
  {
    Idle(mode, big, labels, ip);
    assert [Skip][1..] == [];
  }

  lemma WritesNothing(mode: ByteMode)
    ensures Writes(mode, "", [])
  {
    forall rest: string
      ensures Lex(false, mode, "" + rest, 0) == [] + Lex(false, mode, rest, 0)
    {
      assert "" + rest == rest;
    }
    assert Spells(mode, "", []);
    YieldsNothing(mode, [], []);
  }

  lemma WritesSpace(mode: ByteMode, c: char)
    requires IsSpace(c)
    ensures Writes(mode, [c], [])
  {
    forall rest: string
      ensures Lex(false, mode, [c] + rest, 0) == [Skip] + Lex(false, mode, rest, 0)
    {
      assert ([c] + rest)[1..] == rest;
    }
    assert Spells(mode, [c], [Skip]);
    YieldsNothing(mode, [Skip], []);
  }

  // ---- bytes --------------------------------------------------------------------------------------

  function Power(r: nat, n: nat): (p: nat)
    requires r >= 1
    ensures p >= 1
  {
    if n == 0 then 1 else Multiplied(r, Power(r, n - 1))
  }

  function Multiplied(r: nat, p: nat): (q: nat)
    requires r >= 1 && p >= 1
    ensures q >= 1 && q == r * p
  {
    Multiple(r, p);
    r * p
  }

  function HexChar(d: nat): char
    requires d < 16
  {
    if d <= 9 then (d + 48) as char else (d + 55) as char
  }

  /** The last n digits of v. */
  function Digits(mode: ByteMode, v: int, n: nat): (t: string)
    ensures |t| == n
  {
    if n == 0 then "" else [HexChar(v / Power(Radix(mode), n - 1) % Radix(mode))] + Digits(mode, v, n - 1)
  }

  lemma HexCharDigit(mode: ByteMode, d: nat)
    requires d < Radix(mode)
    ensures DigitOf(mode, HexChar(d)) == d && HexChar(d) !in ":!@$~%&#;"
  {
  }

  function DigitItems(mode: ByteMode, v: int, n: nat): (items: seq<Item>)
    ensures |items| == n
  {
    if n == 0 then [] else [Digit(v / Power(Radix(mode), n - 1) % Radix(mode))] + DigitItems(mode, v, n - 1)
  }

  lemma NextDigit(mode: ByteMode, t: string, toggle: nat)
    requires t != "" && DigitOf(mode, t[0]) >= 0 && t[0] !in ":!@$~%&#;"
    ensures NextItem(false, mode, t, toggle) == (Digit(DigitOf(mode, t[0])), t[1..])
  {
    hide DigitOf;
  }

  lemma {:induction false} LexDigits(mode: ByteMode, v: int, n: nat, rest: string)
    requires n <= Group(mode)
    ensures Lex(false, mode, Digits(mode, v, n) + rest, if n == 0 then 0 else Group(mode) - n) == DigitItems(mode, v, n) + Lex(false, mode, rest, 0)
    decreases n
  {
    hide Power, HexChar, DigitOf, NextItem, Group;
    if n == 0 {
      assert Digits(mode, v, 0) + rest == rest;
    } else {
      var d := v / Power(Radix(mode), n - 1) % Radix(mode);
      HexCharDigit(mode, d);
      var t := Digits(mode, v, n) + rest;
      assert t[0] == HexChar(d) && t[1..] == Digits(mode, v, n - 1) + rest;
      LexDigits(mode, v, n - 1, rest);
      NextDigit(mode, t, Group(mode) - n);
      assert [Digit(d)] + (DigitItems(mode, v, n - 1) + Lex(false, mode, rest, 0)) == DigitItems(mode, v, n) + Lex(false, mode, rest, 0);
    }
  }

  /** h followed by a number below p. */
  function Join(h: nat, p: nat, rest: nat): nat {
    Product(h, p);
    h * p + rest
  }

  /** Reading the leading digit of v after the digits of h. */
  lemma ReadDigit(r: nat, h: nat, v: int, n: nat)
    requires r >= 1
    ensures var p := Power(r, n); Join(Join(h, r, v / p % r), p, v % p) == Join(h, Power(r, n + 1), v % Power(r, n + 1))
  {
    hide Power;
    PowerStep(r, n);
    var p := Power(r, n);
    var d := v / p % r;
    DivDiv(v, p, r);
    Distribute(p, h * r, d);
    Associate(h, r, p);
  }

  lemma PowerStep(r: nat, n: nat)
    requires r >= 1
    ensures Power(r, n + 1) == r * Power(r, n) == Power(r, n) * r
  {
  }

  /** The digits still missing of a byte whose first digits make h. */
  lemma {:induction false} ReadByte(mode: ByteMode, big: bool, labels: seq<Entry>, ip: int, h: nat, v: int, n: nat)
    requires 1 <= n <= Group(mode)
    ensures var s := Place(ip, Group(mode) - n); var items := DigitItems(mode, v, n);
      && MoveAll(mode, s, items) == Place(ip + 1, 0) && Labels(mode, s, items) == []
      && Output(mode, big, labels, s, Carry(h, ZERO32), items) == Some([Join(h, Power(Radix(mode), n), v % Power(Radix(mode), n)) % 256])
      && NextAll(mode, big, labels, s, Carry(h, ZERO32), items) == NOTHING
    decreases n
  {
    hide *;
    var r := Radix(mode);
    var d := v / Power(r, n - 1) % r;
    ReadDigit(r, h, v, n - 1);
    FirstDigit(mode, big, labels, Place(ip, Group(mode) - n), h, d, DigitItems(mode, v, n - 1));
    UnfoldItems(mode, v, n);
    BothNothing([Join(h, Power(r, n), v % Power(r, n)) % 256]);
    if n == 1 {
      LastDigit(r, Join(h, r, d), v);
      NoItems(mode, big, labels, Place(ip + 1, 0), v);
    } else {
      ReadByte(mode, big, labels, ip, Join(h, r, d), v, n - 1);
    }
  }

  lemma LastDigit(r: nat, h: nat, v: int)
    requires r >= 1
    ensures Join(h, Power(r, 0), v % Power(r, 0)) == h
  {
  }

  lemma BothNothing(b: seq<Byte>)
    ensures Both(Some([]), Some(b)) == Some(b) && Both(Some(b), Some([])) == Some(b)
  {
    assert [] + b == b && b + [] == b;
  }

  lemma UnfoldItems(mode: ByteMode, v: int, n: nat)
    requires n >= 1
    ensures DigitItems(mode, v, n) == [Digit(v / Power(Radix(mode), n - 1) % Radix(mode))] + DigitItems(mode, v, n - 1)
  {
    hide Power;
  }

  lemma NoItems(mode: ByteMode, big: bool, labels: seq<Entry>, s: Place, v: int)
    ensures DigitItems(mode, v, 0) == [] && MoveAll(mode, s, []) == s && Labels(mode, s, []) == []
    ensures Output(mode, big, labels, s, NOTHING, []) == Some([]) && NextAll(mode, big, labels, s, NOTHING, []) == NOTHING
  {
  }

  /** One digit: it goes into the unfinished byte, or finishes it. */
  lemma FirstDigit(mode: ByteMode, big: bool, labels: seq<Entry>, s: Place, h: nat, d: nat, later: seq<Item>)
    requires s.toggle < Group(mode)
    ensures var last := s.toggle + 1 == Group(mode);
      var s1 := if last then Place(s.ip + 1, 0) else Place(s.ip, s.toggle + 1);
      var c1 := if last then NOTHING else Carry(Join(h, Radix(mode), d), ZERO32);
      && MoveAll(mode, s, [Digit(d)] + later) == MoveAll(mode, s1, later)
      && Labels(mode, s, [Digit(d)] + later) == Labels(mode, s1, later)
      && Output(mode, big, labels, s, Carry(h, ZERO32), [Digit(d)] + later) ==
           Both(Some(if last then [Join(h, Radix(mode), d) % 256] else []), Output(mode, big, labels, s1, c1, later))
      && NextAll(mode, big, labels, s, Carry(h, ZERO32), [Digit(d)] + later) == NextAll(mode, big, labels, s1, c1, later)
  {
    hide XorByte, Shifted, Radix, Group;
    XorByteNothing(h * Radix(mode) + d);
    NothingShiftedOut();
    assert ([Digit(d)] + later)[1..] == later;
  }

  lemma NothingShiftedOut()
    ensures Shifted(ZERO32) == ZERO32
  {
  }

  lemma ByteRadix(mode: ByteMode)
    ensures Power(Radix(mode), Group(mode)) == if mode == Octal then 512 else 256
  {
    assert Power(16, 1) == 16 && Power(8, 1) == 8 && Power(2, 1) == 2;
    assert Power(16, 2) == 256 && Power(8, 2) == 64 && Power(8, 3) == 512;
    assert Power(2, 2) == 4 && Power(2, 3) == 8 && Power(2, 4) == 16 && Power(2, 5) == 32;
    assert Power(2, 6) == 64 && Power(2, 7) == 128 && Power(2, 8) == 256;
  }

  lemma FullByte(mode: ByteMode, v: int)
    ensures Join(0, Power(Radix(mode), Group(mode)), v % Power(Radix(mode), Group(mode))) % 256 == v % 256 && Group(mode) >= 1
  {
    hide Power;
    ByteRadix(mode);
    assert v % 512 % 256 == v % 256;
  }

  /** As many digits as a byte has stand for the low 8 bits. */
  lemma WritesByte(mode: ByteMode, v: int)
    ensures Writes(mode, Digits(mode, v, Group(mode)), [v % 256])
  {
    hide Power, MoveAll, Labels, Output, NextAll, Lex, Digits, DigitItems, Group, Radix, Join;
    var n := Group(mode);
    FullByte(mode, v);
    var items := DigitItems(mode, v, n);
    forall rest: string
      ensures Lex(false, mode, Digits(mode, v, n) + rest, 0) == items + Lex(false, mode, rest, 0)
    {
      LexDigits(mode, v, n, rest);
    }
    assert Spells(mode, Digits(mode, v, n), items);
    forall big: bool, labels: seq<Entry>, ip: int
      ensures YieldsAt(mode, items, [v % 256], big, labels, ip)
    {
      ReadByte(mode, big, labels, ip, 0, v, n);
    }
    assert Yields(mode, items, [v % 256]);
  }
}
