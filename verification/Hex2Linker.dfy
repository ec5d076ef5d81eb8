/** The linker of hex2_linker.c and hex2_word.c for the targets whose displacements are plain
    differences: two passes of a character loop over every input file, byte by byte for KNIGHT, X86
    and AMD64, word by word for RISC-V. */
module Hex2Linker {
  import opened Wrappers
  import opened Arith
  import opened Bits
  import opened Hex2Text
  import opened Hex2Link
  import Hex2Instr
  import opened Riscv

  /** An entry of a bucket of jump_tables and those behind it. */
  datatype Chain = End | Link(name: string, target: int, next: Chain)

  function InChain(c: Chain, name: string): Option<int> {
    match c
    case End => None
    case Link(n, target, next) => if n == name then Some(target) else InChain(next, name)
  }

  /** The list of input files, the last of the command line first. */
  datatype InputFiles = NoFiles | InputFile(text: string, next: InputFiles)

  function Order(input: InputFiles): seq<string> {
    match input
    case NoFiles => []
    case InputFile(text, next) => Order(next) + [text]
  }

  function HashFrom(i: nat, s: string): nat
    decreases |s|
  {
    if s == "" then i else HashFrom(i * 31 + s[0] as int, s[1..])
  }

  function Hash(s: string): (h: nat)
    ensures h < 65536
  {
    HashFrom(5381, s) % 65536
  }

  lemma LexAllOrder(word: bool, mode: ByteMode, text: string, next: InputFiles)
    ensures LexAll(word, mode, Order(InputFile(text, next))) == LexAll(word, mode, Order(next)) + ([File] + Lex(word, mode, text, 0))
  {
    var files := Order(InputFile(text, next));
    assert files[..|files| - 1] == Order(next);
  }

  lemma NothingToRead(word: bool, mode: ByteMode, s: Place)
    ensures var items := LexAll(word, mode, Order(NoFiles)); items == [] && MoveAll(mode, s, items) == s && Labels(mode, s, items) == []
  {
  }

  /** Where a file starts, what came before it in the unfinished byte is gone. */
  lemma FileStarts(mode: ByteMode, big: bool, labels: seq<Entry>, s: Place, c: Carry, items: seq<Item>)
    ensures var all := [File] + items; var s1 := s.(toggle := 0);
      && MoveAll(mode, s, all) == MoveAll(mode, s1, items)
      && Labels(mode, s, all) == Labels(mode, s1, items)
      && Output(mode, big, labels, s, c, all) == Output(mode, big, labels, s1, Carry(0, c.shift), items)
      && NextAll(mode, big, labels, s, c, all) == NextAll(mode, big, labels, s1, Carry(0, c.shift), items)
  {
    var all := [File] + items;
    assert all[1..] == items;
    var y := Output(mode, big, labels, s.(toggle := 0), Carry(0, c.shift), items);
    assert y.Some? ==> [] + y.value == y.value;
    assert Labels(mode, s, all) == [] + Labels(mode, s.(toggle := 0), items);
  }

  /** When pad_to_align finds which bits of ip set. */
  lemma PaddingCases(ip: int)
    ensures ip % 2 == 1 <==> ip % 4 == 1 || ip % 4 == 3
    ensures ip / 2 % 2 == 1 <==> ip % 4 >= 2
  {
    DivDiv(ip, 2, 2);
  }

  /** The byte targets put nothing into the shift register. */
  lemma ByteItems(mode: ByteMode, t: string, toggle: nat)
    requires t != ""
    ensures var x := NextItem(false, mode, t, toggle).0; x.Def? || x.Ref? || x.Digit? || x.Skip?
  {
  }

  lemma ByteOfLow(v: int, q: int, u: int, d: int, e: int)
    requires d >= 1 && v == d * (256 * e * q) + u && u >= 0
    ensures u / d % 256 == v / d % 256
  {
    var a := 256 * e * q;
    assert u == d * (u / d) + u % d;
    assert d * (a + u / d) == d * a + d * (u / d);
    DivModUnique(v, d, a + u / d, u % d);
    DivModUnique(a + u / d, 256, u / d / 256 + e * q, u / d % 256);
  }

  /** The bytes of a number are those of its residue modulo 2^32. */
  lemma Low32(v: int)
    ensures var u := v % 0x1_0000_0000;
      && u % 256 == v % 256 && u / 256 % 256 == v / 256 % 256 && u / 65536 % 256 == v / 65536 % 256
      && u / 0x100_0000 % 256 == v / 0x100_0000 % 256 && u / 0x100_0000 < 256
  {
    var u, q := v % 0x1_0000_0000, v / 0x1_0000_0000;
    ByteOfLow(v, q, u, 1, 0x100_0000);
    ByteOfLow(v, q, u, 256, 0x1_0000);
    ByteOfLow(v, q, u, 65536, 0x100);
    ByteOfLow(v, q, u, 0x100_0000, 1);
  }

  /** The bytes of a 32-bit value, most significant first. */
  lemma BigBytes(v: int, n: nat)
    requires 1 <= n <= 4
    ensures var u := v % 0x1_0000_0000;
      PointerBytes(v, n, true) ==
        (if n == 4 then [u / 0x100_0000 % 256] else []) + (if n >= 3 then [u / 0x1_0000 % 256] else [])
        + (if n >= 2 then [u / 0x100 % 256] else []) + [u % 256]
  {
    hide LittleBytes;
    LittleAt(v, n);
    Low32(v);
  }

  lemma LittleOfUnsigned(v: int, n: nat)
    requires n <= 4
    ensures LittleBytes(v % 0x1_0000_0000, n) == LittleBytes(v, n)
  {
    hide LittleBytes;
    LittleAt(v, n);
    LittleAt(v % 0x1_0000_0000, n);
    Low32(v);
  }

  lemma NothingWritten(mode: ByteMode, big: bool, labels: seq<Entry>, s: Place)
    ensures Output(mode, big, labels, s, NOTHING, []) == Some([]) && NextAll(mode, big, labels, s, NOTHING, []) == NOTHING
  {
  }

  /** A literal word that is not complete stops both passes. */
  lemma HangFails(mode: ByteMode, big: bool, base: int, items: seq<Item>)
    requires Hang in items
    ensures Hex2Link.Link(mode, big, base, items).None?
  {
    LinkFails(mode, big, base, items);
    var k :| 0 <= k < |items| && items[k] == Hang;
    assert Refused(Labels(mode, Place(base, 0), items), MoveAll(mode, Place(base, 0), items[..k]).ip, items[k]);
  }

  /** Reading one item off the text. */
  lemma LexStep(word: bool, mode: ByteMode, t: string, labels: seq<Entry>, s: Place)
    requires t != ""
    ensures var (x, rest) := NextItem(word, mode, t, s.toggle); var items := Lex(word, mode, t, s.toggle); var s1 := Move(mode, s, x);
      && items == [x] + Lex(word, mode, rest, s1.toggle) && items[1..] == Lex(word, mode, rest, s1.toggle)
      && labels + Labels(mode, s, items)
         == labels + (if x.Def? then [Entry(x.name, s.ip)] else []) + Labels(mode, s1, Lex(word, mode, rest, s1.toggle))
  {
    hide NextItem;
  }

  lemma {:induction false} BytesCarryNothing(mode: ByteMode, big: bool, labels: seq<Entry>, s: Place, input: InputFiles)
    ensures NextAll(mode, big, labels, s, NOTHING, LexAll(false, mode, Order(input))).shift == ZERO32
    decreases input
  {
    match input
    case NoFiles =>
    case InputFile(text, next) =>
      var before, here := LexAll(false, mode, Order(next)), Lex(false, mode, text, 0);
      LexAllOrder(false, mode, text, next);
      BytesCarryNothing(mode, big, labels, s, next);
      NextConcat(mode, big, labels, s, NOTHING, before, [File] + here);
      var c := NextAll(mode, big, labels, s, NOTHING, before);
      var s1 := MoveAll(mode, s, before);
      assert ([File] + here)[1..] == here;
      LineCarriesNothing(mode, big, labels, s1.(toggle := 0), 0, text);
  }

  lemma {:induction false} LineCarriesNothing(mode: ByteMode, big: bool, labels: seq<Entry>, s: Place, hold: nat, t: string)
    ensures NextAll(mode, big, labels, s, Carry(hold, ZERO32), Lex(false, mode, t, s.toggle)).shift == ZERO32
    decreases |t|
  {
    hide Literal, DotWord;
    if t != "" {
      var (x, rest) := NextItem(false, mode, t, s.toggle);
      ByteItems(mode, t, s.toggle);
      Hex2Instr.UsedNext(ZERO32, 0);
      LexStep(false, mode, t, [], s);
      LineCarriesNothing(mode, big, labels, Move(mode, s, x), Hold(mode, s, hold, x), rest);
    }
  }

  /** The item that process_byte takes a character for. */
  function CharItem(mode: ByteMode, c: Option<char>): Item {
    if c.Some? && !IsComment(c.value) && DigitOf(mode, c.value) >= 0 then Digit(DigitOf(mode, c.value)) else Skip
  }

  /** The first item of a text for a byte target, and how far the first pass moves for it. */
  lemma ByteCases(mode: ByteMode, t: string, s: Place)
    requires t != ""
    ensures var c, u := t[0], t[1..]; var x := NextItem(false, mode, t, s.toggle);
      && (c == ':' ==> x == (Def(TokenName(u)), AfterToken(u)) && Move(mode, s, x.0) == s)
      && (c in POINTERS ==> x.1 == (if EndsWith(u, '>') then AfterToken(AfterToken(u)) else AfterToken(u))
                            && x.0.Ref? && Move(mode, s, x.0) == Place(s.ip + Width(c), s.toggle))
      && (c != ':' && c !in POINTERS ==> x == (CharItem(mode, Some(c)), if IsComment(c) then AfterLine(u) else u) && !x.0.Def?)
    ensures forall sep: Option<char> :: (sep.Some? ==> sep.value in SEPARATORS) ==> Move(mode, s, CharItem(mode, sep)) == s
    ensures Move(mode, s, CharItem(mode, Some('<'))) == s && Move(mode, s, CharItem(mode, Some('^'))) == s
  {
    hide TokenName, AfterToken, EndsWith, AfterLine;
  }

  class Linker {
    const mode: ByteMode
    const bigEndian: bool
    /** Architecture is RISCV32 or RISCV64. */
    const riscv: bool
    /** What fgetc has not read yet of the current file. */
    var source: string
    var scratch: string
    var ip: int
    var hold: nat
    var toggle: nat
    var jumpTables: array<Chain>
    var output: seq<Byte>
    /** hex2_word.c only. */
    var shiftregister: Word32
    var tempword: Word32
    var updates: nat
    /** The labels stored so far, in order. */
    ghost var labels: seq<Entry>

    /** Searching the bucket of a name finds its last definition. */
    ghost predicate Valid()
      reads this, jumpTables
    {
      jumpTables.Length == 65537 && forall name: string :: InChain(jumpTables[Hash(name)], name) == Target(labels, name)
    }

    ghost function Here(): Place
      reads this
    {
      Place(ip, toggle)
    }

    ghost function Carried(): Carry
      reads this
    {
      Carry(hold, shiftregister)
    }

    constructor (mode: ByteMode, bigEndian: bool, riscv: bool)
      ensures this.mode == mode && this.bigEndian == bigEndian && this.riscv == riscv
      ensures Valid() && fresh(jumpTables) && labels == [] && output == [] && scratch == "" && shiftregister == ZERO32
    {
      this.mode, this.bigEndian, this.riscv := mode, bigEndian, riscv;
      shiftregister, tempword, updates := ZERO32, ZERO32, 0;
      source, scratch, ip, hold, toggle, output, labels := "", "", 0, 0, 0, [], [];
      jumpTables := new Chain[65537](_ => End);
    }

    // ---- reading ----------------------------------------------------------------------------

    method Getc() returns (c: Option<char>)
      modifies this`source
      ensures old(source) == "" ==> c == None && source == ""
      ensures old(source) != "" ==> c == Some(old(source)[0]) && source == old(source)[1..]
    {
      if source == "" {
        c := None;
      } else {
        c := Some(source[0]);
        source := source[1..];
      }
    }

    method ConsumeToken() returns (sep: Option<char>)
      requires scratch == ""
      modifies this`source, this`scratch
      ensures scratch == TokenName(old(source)) && source == AfterToken(old(source))
      ensures sep == Some('>') <==> EndsWith(old(source), '>')
      ensures sep.Some? ==> sep.value in SEPARATORS
    {
      ghost var t := source;
      sep := Getc();
      while sep.None? || sep.value !in SEPARATORS
        invariant t == "" ==> sep.None? && source == "" && scratch == ""
        invariant t != "" ==> sep.Some? && |scratch| <= TokenEnd(t) && |scratch| < |t|
        invariant t != "" ==> scratch == t[..|scratch|] && sep == Some(t[|scratch|]) && source == t[|scratch| + 1..]
        decreases |source| + if sep.Some? then 1 else 0
      {
        scratch := scratch + [if sep.Some? then sep.value else EOF_CHAR];
        sep := Getc();
        if sep.None? {
          break;
        }
      }
    }

    method ThrowawayToken() returns (c: Option<char>)
      modifies this`source
      ensures source == AfterToken(old(source))
      ensures c == Some('>') <==> EndsWith(old(source), '>')
    {
      ghost var t := source;
      ghost var n := 0;
      while true
        invariant n <= TokenEnd(t) && source == t[n..]
        decreases |source|
      {
        c := Getc();
        if c.None? || c.value in SEPARATORS {
          break;
        }
        n := n + 1;
      }
    }

    method LineComment()
      modifies this`source
      ensures source == AfterLine(old(source))
    {
      var c := Getc();
      while c.Some? && c.value != '\n' && c.value != '\r'
        invariant AfterLine(old(source)) == if c.None? then source else AfterLine([c.value] + source)
        invariant c.None? ==> source == ""
        decreases |source| + if c.Some? then 1 else 0
      {
        assert ([c.value] + source)[1..] == source;
        c := Getc();

      }
    }

    // ---- the label table --------------------------------------------------------------------

    method GetHash(s: string) returns (h: nat)
      ensures h == Hash(s)
    {
      var i: nat, k := 5381, 0;
      while k < |s|
        invariant k <= |s| && HashFrom(i, s[k..]) == HashFrom(5381, s)
      {
        i := i * 31 + s[k] as int;
        k := k + 1;
      }
      h := i % 65536;
    }

    method GetTarget(c: string) returns (target: Option<int>)
      requires Valid()
      ensures target == Target(labels, c)
    {
      var h := GetHash(c);
      var i := jumpTables[h];
      while i.Link?
        invariant InChain(i, c) == Target(labels, c)
        decreases i
      {
        if i.name == c {
          return Some(i.target);
        }
        i := i.next;
      }
      return None;
    }

    method StoreLabel(ip: int) returns (sep: Option<char>)
      requires Valid() && scratch == ""
      modifies this`source, this`scratch, this`labels, jumpTables
      ensures Valid() && scratch == "" && source == AfterToken(old(source))
      ensures labels == old(labels) + [Entry(TokenName(old(source)), ip)]
      ensures sep.Some? ==> sep.value in SEPARATORS
    {
      sep := ConsumeToken();
      var name := scratch;
      scratch := "";
      var h := GetHash(name);
      jumpTables[h] := Link(name, ip, jumpTables[h]);
      labels := labels + [Entry(name, ip)];
      assert labels[..|labels| - 1] == old(labels);
    }

    // ---- bytes ------------------------------------------------------------------------------

    method RangeCheck(displacement: int, numberOfBytes: nat, absolute: bool) returns (ok: bool)
      requires 1 <= numberOfBytes <= 4
      ensures ok <==> InField(displacement, numberOfBytes, absolute)
    {
      assert Pow256(1) == 256 && Pow256(2) == 65536;
      assert Pow256(3) == 256 * Pow256(2);
      if numberOfBytes == 4 {
        ok := true;
      } else if absolute && numberOfBytes == 3 {
        ok := !(16777215 < displacement || displacement < 0);
      } else if numberOfBytes == 3 {
        ok := !(8388607 < displacement || displacement < -8388608);
      } else if absolute && numberOfBytes == 2 {
        ok := !(65535 < displacement || displacement < 0);
      } else if numberOfBytes == 2 {
        ok := !(32767 < displacement || displacement < -32768);
      } else if absolute {
        ok := !(255 < displacement || displacement < 0);
      } else {
        ok := !(127 < displacement || displacement < -128);
      }
    }

    method OutputPointer(displacement: int, numberOfBytes: nat, absolute: bool) returns (ok: bool)
      requires 1 <= numberOfBytes <= 4
      modifies this`output
      ensures ok <==> InField(displacement, numberOfBytes, absolute)
      ensures ok ==> output == old(output) + PointerBytes(displacement, numberOfBytes, bigEndian)
    {
      var value := displacement % 0x1_0000_0000;
      ok := RangeCheck(displacement, numberOfBytes, absolute);
      if !ok {
        return;
      }
      if bigEndian {
        if numberOfBytes == 4 { output := output + [value / 0x100_0000 % 256]; }
        if numberOfBytes >= 3 { output := output + [value / 0x1_0000 % 256]; }
        if numberOfBytes >= 2 { output := output + [value / 0x100 % 256]; }
        output := output + [value % 256];
        BigBytes(displacement, numberOfBytes);
      } else {
        LittleOfUnsigned(displacement, numberOfBytes);
        var left := numberOfBytes;
        while left > 0
          invariant 0 <= left <= numberOfBytes
          invariant output + LittleBytes(value, left) == old(output) + LittleBytes(displacement, numberOfBytes)
        {
          assert LittleBytes(value, left) == [value % 256] + LittleBytes(value / 256, left - 1);
          output := output + [value % 256];
          value := value / 256;
          left := left - 1;
        }
      }
    }

    method UpdatePointer(ch: char)
      requires ch in POINTERS
      modifies this`ip
      ensures ip == old(ip) + Width(ch)
    {
      if ch == '%' || ch == '&' {
        ip := ip + 4;
      } else if ch == '@' || ch == '$' {
        ip := ip + 2;
      } else if ch == '~' {
        ip := ip + 3;
      } else {
        ip := ip + 1;
      }
    }

    /** The rest of a pointer after its first character. */
    method StorePointer(ch: char) returns (ok: bool)
      requires Valid() && ch in POINTERS
      modifies this`source, this`scratch, this`ip, this`output
      ensures var u := old(source);
        var x := if EndsWith(u, '>') then Ref(ch, TokenName(u), Some(TokenName(AfterToken(u)))) else Ref(ch, TokenName(u), None);
        && source == (if EndsWith(u, '>') then AfterToken(AfterToken(u)) else AfterToken(u))
        && ip == old(ip) + Width(ch)
        && var b := Write(mode, bigEndian, labels, Place(old(ip), old(toggle)), Carry(old(hold), old(shiftregister)), x);
           (ok <==> b.Some?) && (ok ==> output == old(output) + b.value)
    {
      hide PointerBytes, InField, Target, TokenName, AfterToken, EndsWith, Hash, InChain;
      scratch := "";
      UpdatePointer(ch);
      var sep := ConsumeToken();
      var target := GetTarget(scratch);
      var base := Some(ip);
      if sep == Some('>') {
        scratch := "";
        var _ := ConsumeToken();
        base := GetTarget(scratch);
      }
      ok := target.Some? && base.Some?;
      if !ok {
        return;
      }
      var displacement := target.value - base.value;
      if ch == '!' {
        ok := OutputPointer(displacement, 1, false);
      } else if ch == '$' {
        ok := OutputPointer(target.value, 2, true);
      } else if ch == '@' {
        ok := OutputPointer(displacement, 2, false);
      } else if ch == '~' {
        ok := OutputPointer(displacement, 3, false);
      } else if ch == '&' {
        ok := OutputPointer(target.value, 4, true);
      } else {
        ok := OutputPointer(displacement, 4, false);
      }
    }

    /** hex, octal and binary: a comment is consumed, anything else that is no digit skipped. */
    method Nibble(c: Option<char>) returns (d: int)
      modifies this`source
      ensures c.None? ==> d == -1 && source == old(source)
      ensures c.Some? && !IsComment(c.value) ==> d == DigitOf(mode, c.value) && source == old(source)
      ensures c.Some? && IsComment(c.value) ==> d == -1 && source == AfterLine(old(source))
    {
      d := -1;
      if c.Some? {
        if DigitOf(mode, c.value) >= 0 {
          d := DigitOf(mode, c.value);
        } else if IsComment(c.value) {
          LineComment();
        }
      }
    }

    method ProcessByte(c: Option<char>, write: bool)
      requires toggle < Group(mode) && shiftregister == ZERO32
      modifies this`source, this`ip, this`hold, this`toggle, this`output
      ensures source == if c.Some? && IsComment(c.value) then AfterLine(old(source)) else old(source)
      ensures Here() == Move(mode, old(Here()), CharItem(mode, c)) && toggle < Group(mode)
      ensures !write ==> output == old(output)
      ensures write && (old(toggle) == 0 ==> old(hold) == 0) ==>
        && Write(mode, bigEndian, labels, old(Here()), old(Carried()), CharItem(mode, c)).Some?
        && output == old(output) + Write(mode, bigEndian, labels, old(Here()), old(Carried()), CharItem(mode, c)).value
        && Carried() == Next(mode, bigEndian, labels, old(Here()), old(Carried()), CharItem(mode, c))
        && (toggle == 0 ==> hold == 0)
    {
      hide XorByte, Literal, DotWord, FieldBits, PointerValue, PointerBytes, Target, InField;
      var d := Nibble(c);
      if d < 0 {
        return;
      }
      XorByteNothing(hold * Radix(mode) + d);
      Hex2Instr.UsedNext(ZERO32, 0);
      if mode == Hex {
        if toggle == 1 {
          if write { output := output + [(hold * 16 + d) % 256]; }
          ip := ip + 1;
          hold := 0;
        } else {
          hold := d;
        }
        toggle := 1 - toggle;
      } else if mode == Octal {
        if toggle == 2 {
          if write { output := output + [(hold * 8 + d) % 256]; }
          ip := ip + 1;
          hold := 0;
          toggle := 0;
        } else if toggle == 1 {
          hold := hold * 8 + d;
          toggle := 2;
        } else {
          hold := d;
          toggle := 1;
        }
      } else {
        if toggle == 7 {
          if write { output := output + [(hold * 2 + d) % 256]; }
          ip := ip + 1;
          hold := 0;
          toggle := 0;
        } else {
          hold := hold * 2 + d;
          toggle := toggle + 1;
        }
      }
    }

    method PadToAlign(write: bool)
      modifies this`ip, this`output
      ensures ip == old(ip) + if riscv then Padding(old(ip)) else 0
      ensures output == old(output) + if riscv && write then Zeros(Padding(old(ip))) else []
    {
      PaddingCases(ip);
      PaddingCases(ip + 1);
      if riscv {
        if ip % 2 == 1 {
          ip := ip + 1;
          if write { output := output + [0]; }
        }
        if ip / 2 % 2 == 1 {
          ip := ip + 2;
          if write {
            output := output + [0];
            output := output + [0];
          }
        }
      }
    }

    // ---- the passes for bytes ---------------------------------------------------------------

    method FirstPassStep()
      requires Valid() && scratch == "" && toggle < Group(mode) && source != "" && !riscv && shiftregister == ZERO32
      modifies this`source, this`scratch, this`ip, this`hold, this`toggle, this`labels, this`output, jumpTables
      ensures Valid() && scratch == "" && output == old(output) && toggle < Group(mode)
      ensures var x := NextItem(false, mode, old(source), old(toggle));
        && source == x.1 && Here() == Move(mode, old(Here()), x.0)
        && labels == old(labels) + if x.0.Def? then [Entry(x.0.name, old(ip))] else []
    {
      hide Target, TokenName, AfterToken, EndsWith, AfterLine, Hash, InChain, Write, Next, NextItem, Move, DigitOf;
      ByteCases(mode, source, Here());
      var c := Getc();
      if c == Some(':') {
        c := StoreLabel(ip);
      }
      if c.Some? && c.value in POINTERS {
        UpdatePointer(c.value);
        c := ThrowawayToken();
        if c == Some('>') {
          c := ThrowawayToken();
        }
      } else if c == Some('<') {
        PadToAlign(false);
      } else if c != Some('^') {
        ProcessByte(c, false);
      }
    }

    /** The loop of first_pass over one file. */
    method FirstPassFile()
      requires Valid() && scratch == "" && toggle < Group(mode) && !riscv && shiftregister == ZERO32
      modifies this`source, this`scratch, this`ip, this`hold, this`toggle, this`labels, this`output, jumpTables
      ensures Valid() && scratch == "" && output == old(output) && toggle < Group(mode)
      ensures var items := Lex(false, mode, old(source), old(toggle));
        Here() == MoveAll(mode, old(Here()), items) && labels == old(labels) + Labels(mode, old(Here()), items)
    {
      hide Target, NextItem, Hash, InChain;
      ghost var items := Lex(false, mode, source, toggle);
      while source != ""
        invariant Valid() && scratch == "" && output == old(output) && toggle < Group(mode)
        invariant MoveAll(mode, Here(), Lex(false, mode, source, toggle)) == MoveAll(mode, old(Here()), items)
        invariant labels + Labels(mode, Here(), Lex(false, mode, source, toggle)) == old(labels) + Labels(mode, old(Here()), items)
        decreases |source|
      {
        LexStep(false, mode, source, labels, Here());
        FirstPassStep();
      }
    }

    method SecondPassStep() returns (ok: bool)
      requires Valid() && toggle < Group(mode) && (toggle == 0 ==> hold == 0) && source != "" && !riscv && shiftregister == ZERO32
      modifies this`source, this`scratch, this`ip, this`hold, this`toggle, this`output
      ensures var x := NextItem(false, mode, old(source), old(toggle)); var b := Write(mode, bigEndian, labels, old(Here()), old(Carried()), x.0);
        && (ok <==> b.Some?)
        && (ok ==> source == x.1 && output == old(output) + b.value && Here() == Move(mode, old(Here()), x.0)
                   && Carried() == Next(mode, bigEndian, labels, old(Here()), old(Carried()), x.0)
                   && toggle < Group(mode) && (toggle == 0 ==> hold == 0))
    {
      hide Target, TokenName, EndsWith, AfterLine, Hash, InChain, PointerValue, PointerBytes, InField, XorByte, Literal, DotWord;
      Hex2Instr.UsedNext(ZERO32, 0);
      ok := true;
      var c := Getc();
      if c == Some(':') {
        c := ThrowawayToken();
      } else if c.value in POINTERS {
        ok := StorePointer(c.value);
      } else if c == Some('<') {
        PadToAlign(true);
      } else if c != Some('^') {
        ProcessByte(c, true);
      }
    }

    /** The loop of second_pass over one file. */
    method SecondPassFile() returns (ok: bool)
      requires Valid() && toggle < Group(mode) && (toggle == 0 ==> hold == 0) && !riscv && shiftregister == ZERO32
      modifies this`source, this`scratch, this`ip, this`hold, this`toggle, this`output
      ensures var items := Lex(false, mode, old(source), old(toggle)); var b := Output(mode, bigEndian, labels, old(Here()), old(Carried()), items);
        && (ok <==> b.Some?) && (ok ==> output == old(output) + b.value)
        && (ok ==> Here() == MoveAll(mode, old(Here()), items) && toggle < Group(mode))
    {
      hide Target, Write, NextItem, Hash, InChain;
      ghost var items := Lex(false, mode, source, toggle);
      ghost var all := Output(mode, bigEndian, labels, Here(), Carried(), items);
      ok := true;
      while source != ""
        invariant Valid() && toggle < Group(mode) && (toggle == 0 ==> hold == 0)
        invariant MoveAll(mode, Here(), Lex(false, mode, source, toggle)) == MoveAll(mode, old(Here()), items)
        invariant var rest := Output(mode, bigEndian, labels, Here(), Carried(), Lex(false, mode, source, toggle));
          && (all.Some? <==> rest.Some?) && (all.Some? ==> old(output) + all.value == output + rest.value)
        decreases |source|
      {
        LexStep(false, mode, source, labels, Here());
        ok := SecondPassStep();
        if !ok {
          return;
        }
      }
    }

    method FirstPass(input: InputFiles)
      requires Valid() && scratch == "" && !riscv && shiftregister == ZERO32
      modifies this`source, this`scratch, this`ip, this`hold, this`toggle, this`labels, this`output, jumpTables
      ensures Valid() && scratch == "" && output == old(output)
      ensures var items := LexAll(false, mode, Order(input));
        ip == MoveAll(mode, Place(old(ip), 0), items).ip && labels == old(labels) + Labels(mode, Place(old(ip), 0), items)
      decreases input
    {
      hide Target, NextItem, Hash, InChain, Lex, Order, LexAll, MoveAll, Labels;
      match input
      case NoFiles => NothingToRead(false, mode, Place(ip, 0));
      case InputFile(text, next) =>
        FirstPass(next);
        ghost var before := LexAll(false, mode, Order(next));
        LexAllOrder(false, mode, text, next);
        MoveConcat(mode, Place(old(ip), 0), before, [File] + Lex(false, mode, text, 0));
        FileStarts(mode, bigEndian, [], MoveAll(mode, Place(old(ip), 0), before), NOTHING, Lex(false, mode, text, 0));
        toggle := 0;
        source := text;
        FirstPassFile();
    }

    method SecondPass(input: InputFiles) returns (ok: bool)
      requires Valid() && !riscv && shiftregister == ZERO32
      modifies this`source, this`scratch, this`ip, this`hold, this`toggle, this`output
      ensures var items := LexAll(false, mode, Order(input)); var b := Output(mode, bigEndian, labels, Place(old(ip), 0), NOTHING, items);
        && (ok <==> b.Some?) && (ok ==> output == old(output) + b.value && ip == MoveAll(mode, Place(old(ip), 0), items).ip)
      decreases input
    {
      hide Target, Hash, InChain, Lex, Order, LexAll, MoveAll, NextAll, Output;
      match input
      case NoFiles =>
        NothingToRead(false, mode, Place(ip, 0));
        NothingWritten(mode, bigEndian, labels, Place(ip, 0));
        ok := true;
      case InputFile(text, next) =>
        ghost var s0 := Place(ip, 0);
        ghost var before := LexAll(false, mode, Order(next));
        ghost var here := Lex(false, mode, text, 0);
        LexAllOrder(false, mode, text, next);
        MoveConcat(mode, s0, before, [File] + here);
        OutputConcat(mode, bigEndian, labels, s0, NOTHING, before, [File] + here);
        FileStarts(mode, bigEndian, labels, MoveAll(mode, s0, before), NextAll(mode, bigEndian, labels, s0, NOTHING, before), here);
        BytesCarryNothing(mode, bigEndian, labels, s0, next);
        ok := SecondPass(next);
        if ok {
          toggle := 0;
          hold := 0;
          source := text;
          ok := SecondPassFile();
        }
    }

    // ---- the passes for words ---------------------------------------------------------------

    /** sr_nextb */
    method NextByte() returns (b: seq<bool>)
      modifies this`shiftregister
      ensures b == old(shiftregister)[..8] && shiftregister == Shifted(old(shiftregister))
    {
      b := shiftregister[..8];
      shiftregister := shiftregister[8..] + NoBits(8);
    }

    /** The last digit of a byte has come. */
    method FinishByte(v: nat, write: bool, update: bool)
      modifies this`ip, this`hold, this`output, this`shiftregister, this`tempword, this`updates
      ensures ip == old(ip) + 1 && hold == 0
      ensures output == old(output) + if write then [XorByte(v, old(shiftregister)[..8])] else []
      ensures shiftregister == if write then Shifted(old(shiftregister)) else old(shiftregister)
      ensures tempword == if update then WithByte(old(tempword), v) else old(tempword)
      ensures updates == old(updates) + if update then 1 else 0
    {
      if write {
        var b := NextByte();
        output := output + [XorByte(v, b)];
      }
      ip := ip + 1;
      if update {
        hold := v;
        tempword := WithByte(tempword, hold);
        updates := updates + 1;
      }
      hold := 0;
    }

    method DoByte(c: Option<char>, write: bool, update: bool)
      requires toggle < Group(mode)
      modifies this`source, this`ip, this`hold, this`toggle, this`output, this`shiftregister, this`tempword, this`updates
      ensures source == if c.Some? && IsComment(c.value) then AfterLine(old(source)) else old(source)
      ensures Here() == Move(mode, old(Here()), CharItem(mode, c)) && toggle < Group(mode)
      ensures var done := CharItem(mode, c).Digit? && old(toggle) + 1 == Group(mode);
        && (!write || !done ==> output == old(output) && shiftregister == old(shiftregister))
        && (!update || !done ==> tempword == old(tempword) && updates == old(updates))
        && (update && done ==> updates == old(updates) + 1)
        && ((old(toggle) == 0 ==> old(hold) == 0) ==>
            && hold == Hold(mode, old(Here()), old(hold), CharItem(mode, c)) && (toggle == 0 ==> hold == 0)
            && (write && done ==> output == old(output) + [XorByte(old(hold) * Radix(mode) + CharItem(mode, c).v, old(shiftregister)[..8])]
                                  && shiftregister == Shifted(old(shiftregister)))
            && (update && done ==> tempword == WithByte(old(tempword), old(hold) * Radix(mode) + CharItem(mode, c).v)))
    {
      hide XorByte, WithByte, Shifted;
      var d := Nibble(c);
      if d < 0 {
        return;
      }
      if mode == Hex {
        if toggle == 1 {
          FinishByte(hold * 16 + d, write, update);
        } else {
          hold := d;
        }
        toggle := 1 - toggle;
      } else if mode == Octal {
        if toggle == 2 {
          FinishByte(hold * 8 + d, write, update);
          toggle := 0;
        } else if toggle == 1 {
          hold := hold * 8 + d;
          toggle := 2;
        } else {
          hold := d;
          toggle := 1;
        }
      } else {
        if toggle == 7 {
          FinishByte(hold * 2 + d, write, update);
          toggle := 0;
        } else {
          hold := hold * 2 + d;
          toggle := toggle + 1;
        }
      }
    }

    /** The loop over the four bytes of a literal word. Where the text ends too early the original
        does not come out of it; here ok is false. */
    method ReadLiteral() returns (ok: bool)
      requires toggle < Group(mode)
      modifies this`source, this`ip, this`hold, this`toggle, this`output, this`shiftregister, this`tempword, this`updates
      ensures output == old(output) && shiftregister == old(shiftregister)
      ensures var r := WordDigits(mode, old(source), 4 * Group(mode) - old(toggle));
        && (ok <==> r.Some?)
        && (ok ==> source == r.value.1 && ip == old(ip) + 4 && toggle == 0)
        && (ok && (old(toggle) == 0 ==> old(hold) == 0) ==> hold == 0 && tempword == DotWord(mode, old(toggle), old(hold), r.value.0, ZERO32))
    {
      hide WithByte, AfterLine;
      updates := 0;
      tempword := ZERO32;
      ghost var r := WordDigits(mode, source, 4 * Group(mode) - toggle);
      ghost var good := toggle == 0 ==> hold == 0;
      while updates < 4
        invariant updates <= 4 && toggle < Group(mode) && (updates == 4 ==> toggle == 0)
        invariant output == old(output) && shiftregister == old(shiftregister) && ip == old(ip) + updates
        invariant good ==> (toggle == 0 ==> hold == 0)
        invariant var q := WordDigits(mode, source, (4 - updates) * Group(mode) - toggle);
          && (r.Some? <==> q.Some?)
          && (r.Some? ==> r.value.1 == q.value.1)
          && (r.Some? && good ==> DotWord(mode, toggle, hold, q.value.0, tempword) == DotWord(mode, old(toggle), old(hold), r.value.0, ZERO32))
        decreases |source|
      {
        var c := Getc();
        if c.None? {
          return false;
        }
        DoByte(c, false, true);
      }
      ok := true;
    }

    method WordFirstPassStep() returns (ok: bool)
      requires Valid() && scratch == "" && toggle < Group(mode) && source != "" && riscv
      modifies this`source, this`scratch, this`ip, this`hold, this`toggle, this`labels, this`output, this`shiftregister, this`tempword,
               this`updates, jumpTables
      ensures Valid() && scratch == "" && output == old(output)
      ensures var x := NextItem(true, mode, old(source), old(toggle));
        && (ok <==> !x.0.Hang?)
        && (ok ==> source == x.1 && Here() == Move(mode, old(Here()), x.0) && toggle < Group(mode)
                   && labels == old(labels) + if x.0.Def? then [Entry(x.0.name, old(ip))] else [])
    {
      hide Target, TokenName, EndsWith, AfterLine, AfterToken, Hash, InChain, WordDigits, Hold, DotWord, Padding, Zeros, WithByte, Shifted, XorByte;
      ok := true;
      var c := Getc();
      if c == Some(':') {
        c := StoreLabel(ip);
      }
      if c == Some('.') {
        ok := ReadLiteral();
        ip := ip - 4;
      } else if c.Some? && c.value in FIELDS {
        c := ThrowawayToken();
      } else if c == Some('%') || c == Some('&') {
        ip := ip + 4;
        c := ThrowawayToken();
        if c == Some('>') {
          c := ThrowawayToken();
        }
      } else if c == Some('<') {
        PadToAlign(false);
      } else if c != Some('^') {
        DoByte(c, false, false);
      }
    }

    /** The loop of WordFirstPass over one file. */
    method WordFirstPassFile() returns (ok: bool)
      requires Valid() && scratch == "" && toggle < Group(mode) && riscv
      modifies this`source, this`scratch, this`ip, this`hold, this`toggle, this`labels, this`output, this`shiftregister, this`tempword,
               this`updates, jumpTables
      ensures Valid() && scratch == "" && output == old(output)
      ensures var items := Lex(true, mode, old(source), old(toggle));
        && (ok <==> Hang !in items)
        && (ok ==> Here() == MoveAll(mode, old(Here()), items) && labels == old(labels) + Labels(mode, old(Here()), items) && toggle < Group(mode))
    {
      hide Target, NextItem, Hash, InChain;
      ghost var items := Lex(true, mode, source, toggle);
      while source != ""
        invariant Valid() && scratch == "" && output == old(output) && toggle < Group(mode)
        invariant Hang in items <==> Hang in Lex(true, mode, source, toggle)
        invariant MoveAll(mode, Here(), Lex(true, mode, source, toggle)) == MoveAll(mode, old(Here()), items)
        invariant labels + Labels(mode, Here(), Lex(true, mode, source, toggle)) == old(labels) + Labels(mode, old(Here()), items)
        decreases |source|
      {
        LexStep(true, mode, source, labels, Here());
        ok := WordFirstPassStep();
        if !ok {
          return;
        }
      }
      ok := true;
    }

    method WordFirstPass(input: InputFiles) returns (ok: bool)
      requires Valid() && scratch == "" && riscv
      modifies this`source, this`scratch, this`ip, this`hold, this`toggle, this`labels, this`output, this`shiftregister, this`tempword,
               this`updates, jumpTables
      ensures Valid() && scratch == "" && output == old(output)
      ensures var items := LexAll(true, mode, Order(input));
        && (ok <==> Hang !in items)
        && (ok ==> ip == MoveAll(mode, Place(old(ip), 0), items).ip && labels == old(labels) + Labels(mode, Place(old(ip), 0), items))
      decreases input
    {
      hide Target, NextItem, Hash, InChain, Lex, Order, LexAll, MoveAll, Labels;
      match input
      case NoFiles =>
        NothingToRead(true, mode, Place(ip, 0));
        ok := true;
      case InputFile(text, next) =>
        ghost var before, here := LexAll(true, mode, Order(next)), Lex(true, mode, text, 0);
        LexAllOrder(true, mode, text, next);
        MoveConcat(mode, Place(ip, 0), before, [File] + here);
        FileStarts(mode, bigEndian, [], MoveAll(mode, Place(ip, 0), before), NOTHING, here);
        ok := WordFirstPass(next);
        if ok {
          toggle := 0;
          source := text;
          ok := WordFirstPassFile();
        }
    }

    /** UpdateShiftRegister for a literal word. */
    method ShiftLiteral()
      modifies this`shiftregister
      ensures shiftregister == Xor(old(shiftregister), Literal(tempword, bigEndian))
    {
      var swap: Word32 := tempword;
      if !bigEndian {
        swap := tempword[24..32] + tempword[16..24] + tempword[8..16] + tempword[0..8];
      }
      shiftregister := Xor(shiftregister, swap);
    }

    /** UpdateShiftRegister for an immediate. */
    method UpdateShiftRegister(ch: char, value: int) returns (ok: bool)
      requires ch in FIELDS
      modifies this`shiftregister, this`tempword
      ensures var b := FieldBits(ch, value);
        && (ok <==> b.Some?) && (ok ==> shiftregister == Xor(old(shiftregister), b.value))
    {
      hide LowBits, BranchBits, JumpBits;
      ok := true;
      if ch == '!' {
        tempword := LowBits(BitsOf(value + 4, 32));
      } else if ch == '@' {
        ok := !((value < -0x1000 || value > 0xFFF) || value % 2 == 1);
        tempword := BranchBits(BitsOf(value, 32));
      } else if ch == '$' {
        ok := !((value < -0x100000 || value > 0xFFFFF) || value % 2 == 1);
        tempword := JumpBits(BitsOf(value, 32));
      } else if value % 0x1000 < 0x800 {
        tempword := BitsOf(value - value % 0x1000, 32);
      } else {
        tempword := BitsOf(value - value % 0x1000 + 0x1000, 32);
      }
      if ok {
        shiftregister := Xor(shiftregister, tempword);
      }
    }

    /** The ! @ $ ~ branch of WordSecondPass. */
    method StoreField(ch: char) returns (ok: bool)
      requires Valid() && ch in FIELDS
      modifies this`source, this`scratch, this`shiftregister, this`tempword
      ensures var b := Shift(mode, bigEndian, labels, Here(), old(Carried()), Field(ch, TokenName(old(source))));
        source == AfterToken(old(source)) && (ok <==> b.Some?) && (ok ==> shiftregister == b.value)
    {
      hide FieldBits, Target, TokenName, AfterToken, EndsWith, Hash, InChain;
      scratch := "";
      var _ := ConsumeToken();
      var target := GetTarget(scratch);
      ok := target.Some?;
      if ok {
        ok := UpdateShiftRegister(ch, target.value - ip);
      }
    }

    method WordStorePointer(ch: char) returns (ok: bool)
      requires Valid() && (ch == '%' || ch == '&')
      modifies this`source, this`scratch, this`ip, this`output
      ensures var u := old(source);
        var x := if EndsWith(u, '>') then Ref(ch, TokenName(u), Some(TokenName(AfterToken(u)))) else Ref(ch, TokenName(u), None);
        && source == (if EndsWith(u, '>') then AfterToken(AfterToken(u)) else AfterToken(u))
        && ip == old(ip) + 4
        && var b := Write(mode, bigEndian, labels, Place(old(ip), old(toggle)), Carry(old(hold), old(shiftregister)), x);
           (ok <==> b.Some?) && (ok ==> output == old(output) + b.value)
    {
      hide PointerBytes, InField, Target, TokenName, AfterToken, EndsWith, Hash, InChain;
      ip := ip + 4;
      scratch := "";
      var sep := ConsumeToken();
      var target := GetTarget(scratch);
      var base := Some(ip);
      if sep == Some('>') {
        scratch := "";
        var _ := ConsumeToken();
        base := GetTarget(scratch);
      }
      ok := target.Some? && base.Some?;
      if !ok {
        return;
      }
      var displacement := target.value - base.value;
      if ch == '&' {
        ok := OutputPointer(target.value, 4, true);
      } else {
        ok := OutputPointer(displacement, 4, false);
      }
    }

    method WordSecondPassStep() returns (ok: bool)
      requires Valid() && toggle < Group(mode) && (toggle == 0 ==> hold == 0) && source != "" && riscv
      modifies this`source, this`scratch, this`ip, this`hold, this`toggle, this`output, this`shiftregister, this`tempword, this`updates
      ensures var x := NextItem(true, mode, old(source), old(toggle)); var b := Write(mode, bigEndian, labels, old(Here()), old(Carried()), x.0);
        && (ok <==> b.Some?)
        && (ok ==> source == x.1 && output == old(output) + b.value && Here() == Move(mode, old(Here()), x.0)
                   && Carried() == Next(mode, bigEndian, labels, old(Here()), old(Carried()), x.0)
                   && toggle < Group(mode) && (toggle == 0 ==> hold == 0))
    {
      hide Target, TokenName, EndsWith, AfterLine, AfterToken, Hash, InChain, PointerValue, PointerBytes, InField, XorByte, Literal, DotWord, FieldBits,
           WordDigits, Shifted, Zeros, Padding;
      ok := true;
      var c := Getc();
      if c == Some(':') {
        c := ThrowawayToken();
      } else if c == Some('.') {
        ok := ReadLiteral();
        if ok {
          ShiftLiteral();
          ip := ip - 4;
        }
      } else if c == Some('%') || c == Some('&') {
        ok := WordStorePointer(c.value);
      } else if c.value in FIELDS {
        ok := StoreField(c.value);
      } else if c == Some('<') {
        PadToAlign(true);
      } else if c != Some('^') {
        DoByte(c, true, false);
      }
    }

    /** The loop of WordSecondPass over one file. */
    method WordSecondPassFile() returns (ok: bool)
      requires Valid() && toggle < Group(mode) && (toggle == 0 ==> hold == 0) && riscv
      modifies this`source, this`scratch, this`ip, this`hold, this`toggle, this`output, this`shiftregister, this`tempword, this`updates
      ensures var items := Lex(true, mode, old(source), old(toggle)); var b := Output(mode, bigEndian, labels, old(Here()), old(Carried()), items);
        && (ok <==> b.Some?) && (ok ==> output == old(output) + b.value)
        && (ok ==> Here() == MoveAll(mode, old(Here()), items) && toggle < Group(mode)
                   && Carried() == NextAll(mode, bigEndian, labels, old(Here()), old(Carried()), items))
    {
      hide Target, Write, NextItem, Hash, InChain, Next;
      ghost var items := Lex(true, mode, source, toggle);
      ghost var all := Output(mode, bigEndian, labels, Here(), Carried(), items);
      ok := true;
      while source != ""
        invariant Valid() && toggle < Group(mode) && (toggle == 0 ==> hold == 0)
        invariant MoveAll(mode, Here(), Lex(true, mode, source, toggle)) == MoveAll(mode, old(Here()), items)
        invariant NextAll(mode, bigEndian, labels, Here(), Carried(), Lex(true, mode, source, toggle))
               == NextAll(mode, bigEndian, labels, old(Here()), old(Carried()), items)
        invariant var rest := Output(mode, bigEndian, labels, Here(), Carried(), Lex(true, mode, source, toggle));
          && (all.Some? <==> rest.Some?) && (all.Some? ==> old(output) + all.value == output + rest.value)
        decreases |source|
      {
        LexStep(true, mode, source, labels, Here());
        ok := WordSecondPassStep();
        if !ok {
          return;
        }
      }
    }

    method WordSecondPass(input: InputFiles) returns (ok: bool)
      requires Valid() && riscv
      modifies this`source, this`scratch, this`ip, this`hold, this`toggle, this`output, this`shiftregister, this`tempword, this`updates
      ensures var items := LexAll(true, mode, Order(input)); var b := Output(mode, bigEndian, labels, Place(old(ip), 0), NOTHING, items);
        && (ok <==> b.Some?) && (ok ==> output == old(output) + b.value && ip == MoveAll(mode, Place(old(ip), 0), items).ip)
        && (ok ==> shiftregister == NextAll(mode, bigEndian, labels, Place(old(ip), 0), NOTHING, items).shift)
      decreases input
    {
      hide Target, Hash, InChain, Lex, Order, LexAll, MoveAll, NextAll, Output;
      shiftregister := ZERO32;
      tempword := ZERO32;
      match input
      case NoFiles =>
        NothingToRead(true, mode, Place(ip, 0));
        NothingWritten(mode, bigEndian, labels, Place(ip, 0));
        ok := true;
      case InputFile(text, next) =>
        ghost var s0 := Place(ip, 0);
        ghost var before, here := LexAll(true, mode, Order(next)), Lex(true, mode, text, 0);
        ghost var s1, c1 := MoveAll(mode, s0, before), NextAll(mode, bigEndian, labels, s0, NOTHING, before);
        LexAllOrder(true, mode, text, next);
        MoveConcat(mode, s0, before, [File] + here);
        OutputConcat(mode, bigEndian, labels, s0, NOTHING, before, [File] + here);
        NextConcat(mode, bigEndian, labels, s0, NOTHING, before, [File] + here);
        FileStarts(mode, bigEndian, labels, s1, c1, here);
        ok := WordSecondPass(next);
        if ok {
          toggle := 0;
          hold := 0;
          source := text;
          ok := WordSecondPassFile();
        }
    }

    /** Both passes of hex2 as main calls them for the byte targets. */
    method LinkFiles(input: InputFiles, base: int) returns (ok: bool)
      requires Valid() && scratch == "" && labels == [] && output == [] && shiftregister == ZERO32
      modifies this`source, this`scratch, this`ip, this`hold, this`toggle, this`labels, this`output, this`shiftregister, this`tempword,
               this`updates, jumpTables
      ensures var r := Hex2Link.Link(mode, bigEndian, base, LexAll(riscv, mode, Order(input)));
        && (ok <==> input.InputFile? && r.Some?) && (ok ==> output == r.value)
    {
      hide Target, LexAll, Order, MoveAll, Labels, Output, Hash, InChain;
      if input.NoFiles? {
        return false;
      }
      ip := base;
      if riscv {
        ok := WordFirstPass(input);
        if !ok {
          HangFails(mode, bigEndian, base, LexAll(true, mode, Order(input)));
          return;
        }
      } else {
        FirstPass(input);
      }
      assert labels == Labels(mode, Place(base, 0), LexAll(riscv, mode, Order(input)));
      ip := base;
      if riscv {
        ok := WordSecondPass(input);
      } else {
        ok := SecondPass(input);
      }
    }
  }
}
