/** String literals: what cc_strings.c prints for them, and that M1 and hex2 turn what it prints into
    the bytes the literal denotes. */
module M2Strings {
  import opened Wrappers
  import opened Hex2Text
  import opened Hex2Link
  import opened HexWords
  import opened Stringify
  import opened M1Text
  import Numerals

  // ---- what a literal denotes ---------------------------------------------------------------------

  /** The character at a position of a C string. */
  function At(t: string, i: nat): char {
    if i < |t| then t[i] else NUL
  }

  predicate IsOctal(c: char) {
    '0' <= c <= '7'
  }

  /** A byte and the number of characters that denote it. */
  datatype Unit = Unit(byte: Byte, length: nat)

  function HexDigit(c: char): int {
    DigitOf(Hex, c)
  }

  function SimpleEscape(c: char): Option<Byte> {
    match c
    case 'a' => Some(7)
    case 'b' => Some(8)
    case 't' => Some(9)
    case 'n' => Some(10)
    case 'v' => Some(11)
    case 'f' => Some(12)
    case 'r' => Some(13)
    case 'e' => Some(27)
    case '"' => Some(34)
    case '\'' => Some(39)
    case '\\' => Some(92)
    case '?' => Some(63)
    case _ => None
  }

  /** The number of octal digits, three at most. */
  function OctalCount(t: string, from: nat): (n: nat)
    ensures n <= 3 && (n > 0 ==> from + n <= |t|)
    ensures forall k :: from <= k < from + n ==> IsOctal(At(t, k))
    ensures n < 3 ==> !IsOctal(At(t, from + n))
  {
    if !IsOctal(At(t, from)) then 0 else if !IsOctal(At(t, from + 1)) then 1 else if !IsOctal(At(t, from + 2)) then 2 else 3
  }

  function OctalValue(t: string, from: nat, n: nat): int {
    if n == 0 then 0 else 8 * OctalValue(t, from, n - 1) + (At(t, from + n - 1) as int - 48)
  }

  /** The first byte of a literal: a plain character, a simple escape, two hexadecimal digits, or up
      to three octal digits whose value is taken modulo 256. */
  function FirstUnit(t: string): (u: Option<Unit>)
    requires t != ""
    ensures u.Some? ==> 1 <= u.value.length <= |t|
  {
    if t[0] != '\\' then Some(Unit(t[0] as int % 256, 1))
    else if At(t, 1) == 'x' then
      if HexDigit(At(t, 2)) >= 0 && HexDigit(At(t, 3)) >= 0 then Some(Unit(16 * HexDigit(t[2]) + HexDigit(t[3]), 4)) else None
    else if IsOctal(At(t, 1)) then
      Some(Unit(OctalValue(t, 1, OctalCount(t, 1)) % 256, 1 + OctalCount(t, 1)))
    else
      match SimpleEscape(At(t, 1))
      case None => None
      case Some(b) => Some(Unit(b, 2))
  }

  /** The bytes of a literal without its quotes and without the final zero; None is an escape that
      the compiler does not know. */
  function Denoted(t: string): Option<seq<Byte>>
    decreases |t|
  {
    if t == "" then Some([])
    else
      match FirstUnit(t)
      case None => None
      case Some(u) => Both(Some([u.byte]), Denoted(t[u.length..]))
  }

  /** The letters behind a backslash and the bytes that section 5.2.2 of ISO C11, in ASCII, gives them, with
      the escape character behind e. */
  const LETTERS := "abtnvfre\"'\\?"
  const CODES: seq<Byte> := [7, 8, 9, 10, 11, 12, 13, 27, 34, 39, 92, 63]

  lemma SimpleEscapes(k: nat, rest: string)
    requires k < |LETTERS|
    ensures FirstUnit("\\" + [LETTERS[k]] + rest) == Some(Unit(CODES[k], 2))
  {
    var t := "\\" + [LETTERS[k]] + rest;
    assert At(t, 1) == LETTERS[k];
  }

  /** Two printed hexadecimal digits. */
  lemma HexEscape(high: nat, low: nat, lower: bool, rest: string)
    requires high < 16 && low < 16
    ensures FirstUnit("\\x" + [Numerals.DigitChar(high, lower), Numerals.DigitChar(low, lower)] + rest) == Some(Unit(16 * high + low, 4))
  {
    var a, b := Numerals.DigitChar(high, lower), Numerals.DigitChar(low, lower);
    assert HexDigit(a) == high && HexDigit(b) == low;
    var t := "\\x" + [a, b] + rest;
    assert t[1] == 'x' && t[2] == a && t[3] == b;
  }

  /** Three printed octal digits. */
  lemma OctalEscape(a: nat, b: nat, c: nat, rest: string)
    requires a < 8 && b < 8 && c < 8
    ensures FirstUnit("\\" + [Numerals.DigitChar(a, false), Numerals.DigitChar(b, false), Numerals.DigitChar(c, false)] + rest)
         == Some(Unit((64 * a + 8 * b + c) % 256, 4))
  {
    var x, y, z := Numerals.DigitChar(a, false), Numerals.DigitChar(b, false), Numerals.DigitChar(c, false);
    var t := "\\" + [x, y, z] + rest;
    assert t[1] == x && t[2] == y && t[3] == z;
    assert OctalCount(t, 1) == 3;
    assert OctalValue(t, 1, 1) == a && OctalValue(t, 1, 2) == 8 * a + b && OctalValue(t, 1, 3) == 8 * (8 * a + b) + c;
  }

  // ---- what is printed ----------------------------------------------------------------------------

  /** The set that weird looks into: tab, newline and what can be printed, without the double quote. */
  predicate IsPlain(b: int) {
    b == 9 || b == 10 || (32 <= b <= 126 && b != 34)
  }

  /** A literal that cannot be printed as text: it has a byte that is not plain, or white space before
      a colon. None is a call of exit on the way. */
  function Weird(t: string): Option<bool>
    decreases |t|
  {
    if t == "" then Some(false)
    else
      match FirstUnit(t)
      case None => None
      case Some(u) =>
        if !IsPlain(u.byte) then Some(true)
        else if (u.byte == 32 || u.byte == 9 || u.byte == 10) && At(t, u.length) == ':' then Some(true)
        else Weird(t[u.length..])
  }

  function AsText(b: seq<Byte>): (t: string)
    ensures |t| == |b|
    ensures forall k :: 0 <= k < |b| ==> t[k] == b[k] as char
  {
    seq(|b|, k requires 0 <= k < |b| => b[k] as char)
  }

  function AsHex(b: seq<Byte>): string {
    if b == [] then "" else " " + Digits(Hex, b[0], 2) + AsHex(b[1..])
  }

  function Regular(b: seq<Byte>): string {
    "\"" + AsText(b) + "\"\n"
  }

  function Hexadecimal(b: seq<Byte>): string {
    "'" + AsHex(b) + " 00'\n"
  }

  /** parse_string for a token with its first quote; max is MAX_STRING. */
  function Parsed(max: int, t: string): Option<string>
    requires t != ""
  {
    var weird, b := Weird(t[1..]), Denoted(t[1..]);
    if weird.None? || b.None? then None
    else if weird.value then if 3 * |b.value| + 4 < max then Some(Hexadecimal(b.value)) else None
    else if |b.value| + 1 <= max - 3 then Some(Regular(b.value)) else None
  }

  // ---- cc_strings.c -------------------------------------------------------------------------------

  /** A char has a sign. */
  function Signed(c: char): int {
    if c as int % 256 < 128 then c as int % 256 else c as int % 256 - 256
  }

  method Char2Hex(c: char) returns (d: int)
    ensures d == HexDigit(c)
  {
    if '0' <= c <= '9' {
      d := c as int - 48;
    } else if 'a' <= c <= 'f' {
      d := c as int - 87;
    } else if 'A' <= c <= 'F' {
      d := c as int - 55;
    } else {
      d := -1;
    }
  }

  /** None is a call of exit. */
  method Hexify(c: char, high: bool) returns (r: Option<int>)
    ensures r == if HexDigit(c) < 0 then None else Some(if high then 16 * HexDigit(c) else HexDigit(c))
  {
    var i := Char2Hex(c);
    if i < 0 {
      return None;
    }
    r := Some(if high then i * 16 else i);
  }

  /** The digits from position from on; values above 127 become negative. */
  method ParseOctalEscapeCode(t: string, from: nat) returns (result: int)
    ensures -128 <= result <= 127 && result % 256 == OctalValue(t, from, OctalCount(t, from)) % 256
  {
    result := 0;
    var i := 0;
    while IsOctal(At(t, from + i)) && i < 3
      invariant i <= OctalCount(t, from) && result == OctalValue(t, from, i) >= 0
      decreases 3 - i
    {
      result := result * 8;
      result := result + (At(t, from + i) as int - 48);
      i := i + 1;
    }
    ghost var v := result;
    while result > 127
      invariant result % 256 == v % 256 && -128 <= result
      decreases result
    {
      result := result - 256;
    }
  }

  method AmountOfEscapedCharsToSkip(t: string) returns (n: nat)
    ensures n == if At(t, 1) == 'x' then 3 else if IsOctal(At(t, 1)) then OctalCount(t, 1) else 1
  {
    if At(t, 1) == 'x' {
      return 3;
    } else if IsOctal(At(t, 1)) {
      var i := 2;
      while IsOctal(At(t, i)) && i < 4
        invariant 2 <= i <= OctalCount(t, 1) + 1
        decreases 4 - i
      {
        i := i + 1;
      }
      return i - 1;
    }
    return 1;
  }

  /** The cases of a unit. */
  lemma EscapeUnit(c: string)
    requires c != ""
    ensures c[0] != '\\' ==> FirstUnit(c) == Some(Unit(c[0] as int % 256, 1))
    ensures c[0] == '\\' && At(c, 1) == 'x' ==>
      var t1, t2 := HexDigit(At(c, 2)), HexDigit(At(c, 3)); FirstUnit(c) == if t1 >= 0 && t2 >= 0 then Some(Unit(16 * t1 + t2, 4)) else None
    ensures c[0] == '\\' && IsOctal(At(c, 1)) ==> FirstUnit(c) == Some(Unit(OctalValue(c, 1, OctalCount(c, 1)) % 256, 1 + OctalCount(c, 1)))
    ensures c[0] == '\\' && At(c, 1) != 'x' && !IsOctal(At(c, 1)) ==>
      var b := SimpleEscape(At(c, 1)); FirstUnit(c) == if b.None? then None else Some(Unit(b.value, 2))
  {
    hide OctalValue, OctalCount;
  }

  /** What escape_lookup returns is the byte with a sign if it is octal or a plain character. */
  method EscapeLookup(c: string) returns (r: Option<int>)
    requires c != ""
    ensures r.Some? <==> FirstUnit(c).Some?
    ensures r.Some? ==> r.value % 256 == FirstUnit(c).value.byte && -128 <= r.value <= 255
  {
    hide FirstUnit, OctalValue, OctalCount, DigitOf;
    EscapeUnit(c);
    if c[0] != '\\' {
      return Some(Signed(c[0]));
    }
    if At(c, 1) == 'x' {
      var t1 := Hexify(At(c, 2), true);
      if t1.None? { return None; }
      var t2 := Hexify(At(c, 3), false);
      if t2.None? { return None; }
      return Some(t1.value + t2.value);
    } else if At(c, 1) == 'a' {
      return Some(7);
    } else if At(c, 1) == 'b' {
      return Some(8);
    } else if At(c, 1) == 't' {
      return Some(9);
    } else if At(c, 1) == 'n' {
      return Some(10);
    } else if At(c, 1) == 'v' {
      return Some(11);
    } else if At(c, 1) == 'f' {
      return Some(12);
    } else if At(c, 1) == 'r' {
      return Some(13);
    } else if At(c, 1) == 'e' {
      return Some(27);
    } else if At(c, 1) == '"' {
      return Some(34);
    } else if At(c, 1) == '\'' {
      return Some(39);
    } else if At(c, 1) == '\\' {
      return Some(92);
    } else if At(c, 1) == '?' {
      return Some(63);
    } else if IsOctal(At(c, 1)) {
      var v := ParseOctalEscapeCode(c, 1);
      return Some(v);
    }
    return None;
  }

  /** The characters behind the first unit. */
  lemma UnitLength(t: string)
    requires t != "" && FirstUnit(t).Some?
    ensures FirstUnit(t).value.length ==
      if t[0] != '\\' then 1 else 1 + if At(t, 1) == 'x' then 3 else if IsOctal(At(t, 1)) then OctalCount(t, 1) else 1
  {
  }

  lemma PlainSigned(v: int)
    requires -128 <= v <= 255
    ensures IsPlain(v) <==> IsPlain(v % 256)
  {
  }

  /** How each of the loops below takes the next byte: its value, with a sign or not, and the number
      of characters it takes up. */
  method NextUnit(t: string) returns (c: Option<int>, n: nat)
    requires t != ""
    ensures c.Some? <==> FirstUnit(t).Some?
    ensures c.Some? ==> c.value % 256 == FirstUnit(t).value.byte && n == FirstUnit(t).value.length && -128 <= c.value <= 255
  {
    hide FirstUnit, Signed, OctalCount;
    if t[0] == '\\' {
      c := EscapeLookup(t);
      if c.None? { return c, 0; }
      n := AmountOfEscapedCharsToSkip(t);
      n := n + 1;
    } else {
      c, n := Some(Signed(t[0])), 1;
      PlainUnit(t);
    }
    UnitLength(t);
  }

  /** weird, on the characters behind the first quote. */
  method IsWeird(body: string) returns (r: Option<bool>)
    requires NUL !in body
    ensures r == Weird(body)
  {
    hide FirstUnit, IsPlain;
    var t := body;
    while t != ""
      invariant Weird(t) == Weird(body) && NUL !in t
      decreases |t|
    {
      var e, n := NextUnit(t);
      if e.None? { return None; }
      var c := e.value;
      PlainSigned(c);
      if !IsPlain(c) {
        return Some(true);
      }
      Blank(c);
      if (c == 32 || c == 9 || c == 10 || c == 13) && At(t, n) == ':' {
        return Some(true);
      }
      t := t[n..];
    }
    r := Some(false);
  }

  lemma PlainUnit(t: string)
    requires t != "" && t[0] != '\\'
    ensures FirstUnit(t) == Some(Unit(Signed(t[0]) % 256, 1)) && -128 <= Signed(t[0]) <= 127
  {
  }

  lemma Blank(c: int)
    requires IsPlain(c)
    ensures c % 256 == c && c != 13
  {
  }

  /** hold_string and string_index. */
  class Collector {
    const maxString: int
    const holdString: array<char>
    var stringIndex: nat

    ghost predicate Valid()
      reads this
    {
      maxString > 0 && holdString.Length == maxString + 4
    }

    constructor (maxString: int)
      requires maxString > 0
      ensures Valid() && this.maxString == maxString && fresh(holdString)
    {
      this.maxString := maxString;
      holdString := new char[maxString + 4](_ => NUL);
      stringIndex := 0;
    }

    /** What has been collected. */
    ghost function Held(): string
      requires stringIndex <= holdString.Length
      reads this, holdString
    {
      holdString[..stringIndex]
    }

    method Put(c: char)
      requires Valid() && stringIndex < holdString.Length
      modifies holdString, this`stringIndex
      ensures stringIndex == old(stringIndex) + 1 && Held() == old(Held()) + [c]
    {
      holdString[stringIndex] := c;
      stringIndex := stringIndex + 1;
    }

    /** collect_regular_string: every byte of the token, its first quote included, as a character. */
    method CollectRegularString(t: string) returns (r: Option<string>)
      requires Valid() && t != "" && NUL !in t
      modifies holdString, this`stringIndex
      ensures r == match Denoted(t) case None => None case Some(b) => if |b| <= maxString - 3 then Some(AsText(b) + "\"\n") else None
    {
      hide FirstUnit, Denoted, AsText, Both;
      ghost var all := Denoted(t);
      stringIndex := 0;
      var u := t;
      NothingDenoted();
      assert AsText([]) == "";
      ghost var seen: seq<Byte> := [];
      while u != ""
        invariant Valid() && NUL !in u && Both(Some(seen), Denoted(u)) == all
        invariant stringIndex == |seen| && (seen == [] || |seen| <= maxString - 3) && Held() == AsText(seen) && (u == "" ==> seen != [])
        decreases |u|
      {
        DenotedStep(seen, u);
        BothLength(seen, Denoted(u));
        if !(maxString - 3 > stringIndex) {
          return None;
        }
        var c, n := NextUnit(u);
        if c.None? { return None; }
        AsTextAppend(seen, FirstUnit(u).value.byte);
        seen := seen + [FirstUnit(u).value.byte];
        Put((c.value % 256) as char);
        u := u[n..];
      }
      Put('"');
      Put('\n');
      assert AsText(seen) + ['"'] + ['\n'] == AsText(seen) + "\"\n";
      r := Some(holdString[..stringIndex]);
    }

    /** One byte as a space and two digits. */
    method PutHex(b: Byte)
      requires Valid() && stringIndex + 3 <= holdString.Length
      modifies holdString, this`stringIndex
      ensures stringIndex == old(stringIndex) + 3 && Held() == old(Held()) + (" " + Digits(Hex, b, 2))
    {
      TwoDigits(b);
      ghost var before := Held();
      Put(' ');
      Put(HexChar(b / 16));
      Put(HexChar(b % 16));
      assert before + [' '] + [HexChar(b / 16)] + [HexChar(b % 16)] == before + (" " + Digits(Hex, b, 2));
    }

    /** collect_weird_string for a token with a byte behind its quote. */
    method CollectWeirdString(t: string) returns (r: Option<string>)
      requires Valid() && |t| > 1 && NUL !in t
      modifies holdString, this`stringIndex
      ensures r == match Denoted(t[1..]) case None => None case Some(b) => if 3 * |b| + 4 < maxString then Some(Hexadecimal(b)) else None
    {
      hide FirstUnit, Denoted, AsHex, Both, Digits;
      ghost var all := Denoted(t[1..]);
      stringIndex := 0;
      Put('\'');
      NothingDenoted();
      NoHex();
      assert [] + ['\''] == "'" && "'" + "" == "'";
      var u := t[1..];
      ghost var seen: seq<Byte> := [];
      while u != ""
        invariant Valid() && NUL !in u && Both(Some(seen), Denoted(u)) == all
        invariant stringIndex == 1 + 3 * |seen| && (seen == [] || 3 * |seen| + 4 < maxString) && Held() == "'" + AsHex(seen)
        invariant u == "" ==> seen != []
        decreases |u|
      {
        DenotedStep(seen, u);
        BothLength(seen, Denoted(u));
        if !(maxString - 6 > stringIndex) {
          return None;
        }
        var c, n := NextUnit(u);
        if c.None? { return None; }
        ghost var b := FirstUnit(u).value.byte;
        AsHexAppend(seen, b);
        assert "'" + AsHex(seen) + (" " + Digits(Hex, b, 2)) == "'" + (AsHex(seen) + (" " + Digits(Hex, b, 2)));
        seen := seen + [b];
        PutHex(c.value % 256);
        u := u[n..];
      }
      ghost var x := Held();
      Put(' ');
      Put('0');
      Put('0');
      Put('\'');
      Put('\n');
      assert x + [' '] + ['0'] + ['0'] + ['\''] + ['\n'] == x + " 00'\n";
      r := Some(holdString[..stringIndex]);
    }

    /** parse_string */
    method ParseString(t: string) returns (r: Option<string>)
      requires Valid() && t != "" && t[0] == '"' && NUL !in t
      modifies holdString, this`stringIndex
      ensures r == Parsed(maxString, t)
    {
      hide FirstUnit, Denoted, AsHex, Both, Digits, Weird;
      var weird := IsWeird(t[1..]);
      NotWeirdEmpty();
      assert |t| == 1 ==> t[1..] == "";
      QuoteDenoted(t);
      if weird.None? {
        return None;
      }
      if weird.value {
        r := CollectWeirdString(t);
      } else {
        r := CollectRegularString(t);
      }
    }
  }

  lemma NoHex()
    ensures AsHex([]) == ""
  {
  }

  lemma TwoDigits(b: Byte)
    ensures Digits(Hex, b, 2) == [HexChar(b / 16), HexChar(b % 16)]
  {
    hide HexChar, Power, Digits;
    FirstOfDigits(Hex, b, 2);
    FirstOfDigits(Hex, b, 1);
    PowerOf(16, 1, b);
    PowerStep(16, 0);
    assert b / 16 % 16 == b / 16;
  }

  lemma {:induction false} AsHexAppend(b: seq<Byte>, x: Byte)
    ensures AsHex(b + [x]) == AsHex(b) + (" " + Digits(Hex, x, 2))
    decreases |b|
  {
    hide Digits;
    if b == [] {
      assert [x][1..] == [] && [] + [x] == [x];
      assert AsHex([x]) == " " + Digits(Hex, x, 2) + "";
    } else {
      assert (b + [x])[0] == b[0] && (b + [x])[1..] == b[1..] + [x];
      AsHexAppend(b[1..], x);
    }
  }

  lemma NotWeirdEmpty()
    ensures Weird("") == Some(false)
  {
  }

  /** The first quote stands for itself. */
  lemma QuoteDenoted(t: string)
    requires t != "" && t[0] == '"'
    ensures Denoted(t) == Both(Some([34]), Denoted(t[1..]))
    ensures Denoted(t[1..]).None? ==> Denoted(t).None?
    ensures Denoted(t[1..]).Some? ==> Denoted(t).Some? && |Denoted(t).value| == 1 + |Denoted(t[1..]).value|
                                      && AsText(Denoted(t).value) + "\"\n" == Regular(Denoted(t[1..]).value)
  {
    hide AsText;
    if Denoted(t[1..]).Some? {
      QuoteText(Denoted(t[1..]).value);
    }
  }

  lemma QuoteText(b: seq<Byte>)
    ensures AsText([34] + b) == "\"" + AsText(b)
  {
  }

  lemma NothingDenoted()
    ensures Denoted("") == Some([]) && forall r: Option<seq<Byte>> :: Both(Some([]), r) == r
    ensures forall b: seq<Byte> :: Both(Some(b), Some([])) == Some(b)
  {
    assert forall b: seq<Byte> :: [] + b == b && b + [] == b;
  }

  lemma DenotedStep(seen: seq<Byte>, u: string)
    requires u != ""
    ensures FirstUnit(u).None? ==> Both(Some(seen), Denoted(u)).None?
    ensures FirstUnit(u).Some? ==> Both(Some(seen), Denoted(u)) == Both(Some(seen + [FirstUnit(u).value.byte]), Denoted(u[FirstUnit(u).value.length..]))
    ensures Denoted(u).Some? ==> |Denoted(u).value| >= 1
  {
    hide FirstUnit;
    if FirstUnit(u).Some? {
      BothAssociative(Some(seen), Some([FirstUnit(u).value.byte]), Denoted(u[FirstUnit(u).value.length..]));
    }
  }

  lemma BothLength(a: seq<Byte>, r: Option<seq<Byte>>)
    ensures Both(Some(a), r).Some? ==> r.Some? && |Both(Some(a), r).value| == |a| + |r.value|
  {
  }

  lemma AsTextAppend(b: seq<Byte>, x: Byte)
    ensures AsText(b + [x]) == AsText(b) + [x as char]
  {
  }

  // ---- the way through M1 and hex2 ------------------------------------------------------------------

  lemma {:induction false} WeirdPlain(t: string)
    requires Weird(t) == Some(false)
    ensures Denoted(t).Some? && forall k :: 0 <= k < |Denoted(t).value| ==> IsPlain(Denoted(t).value[k])
    decreases |t|
  {
    hide FirstUnit, IsPlain;
    if t != "" {
      WeirdPlain(t[FirstUnit(t).value.length..]);
    }
  }

  /** What hexify_string makes of characters. */
  lemma {:induction false} HexifiedWrites(b: seq<Byte>)
    ensures Writes(Hex, Hexified(Hex, AsText(b)), b + [0])
    decreases |b|
  {
    hide Writes, Digits;
    WritesSpace(Hex, ' ');
    if b == [] {
      WritesByte(Hex, 0);
      WritesConcat(Hex, Digits(Hex, 0, 2), [0], " ", []);
      assert AsText(b) == "" && b + [0] == [0] && [0] + [] == [0];
    } else {
      var s := AsText(b);
      assert s[1..] == AsText(b[1..]);
      HexifiedWrites(b[1..]);
      WritesByte(Hex, b[0]);
      WritesConcat(Hex, Digits(Hex, b[0], 2), [b[0]], " ", []);
      WritesConcat(Hex, Digits(Hex, b[0], 2) + " ", [b[0]] + [], Hexified(Hex, s[1..]), b[1..] + [0]);
      assert [b[0]] + [] + (b[1..] + [0]) == b + [0];
    }
  }

  lemma {:induction false} AsHexWrites(b: seq<Byte>)
    ensures Writes(Hex, AsHex(b), b)
    decreases |b|
  {
    hide Writes, Digits;
    if b == [] {
      WritesNothing(Hex);
    } else {
      AsHexWrites(b[1..]);
      WritesSpace(Hex, ' ');
      WritesByte(Hex, b[0]);
      WritesConcat(Hex, " ", [], Digits(Hex, b[0], 2), [b[0]]);
      WritesConcat(Hex, " " + Digits(Hex, b[0], 2), [] + [b[0]], AsHex(b[1..]), b[1..]);
      assert [] + [b[0]] + b[1..] == b;
    }
  }

  lemma AsHexZeroWrites(b: seq<Byte>)
    ensures Writes(Hex, AsHex(b) + " 00", b + [0])
  {
    hide Writes;
    AsHexWrites(b);
    AsHexWrites([0]);
    TwoDigits(0);
    assert [0][1..] == [];
    assert AsHex([0]) == " 00" by { assert AsHex([]) == ""; assert " " + Digits(Hex, 0, 2) + "" == " 00"; }
    WritesConcat(Hex, AsHex(b), b, " 00", [0]);
  }

  /** A quoted string on a line of its own is one token. */
  lemma ScanQuoted(c: char, s: string, rest: string, quiet: bool)
    requires IsQuote(c) && c !in s && |s| + 1 < MAX_STRING
    ensures Scan([c] + s + [c] + "\n" + rest, quiet) == Prepend([[c] + s, NEWLINE], Scan(rest, true))
  {
    hide ScanRound, Scan;
    var t := [c] + s + [c] + "\n" + rest;
    var later := "\n" + rest;
    QuotedRound(c, s, later, quiet);
    assert t[0] == c && t[1..] == s + [c] + later;
    ScanFirst(t, quiet);
    ScanFirst(later, false);
    assert later[1..] == rest;
    var r := Scan(rest, true);
    assert r.Some? ==> [[c] + s] + ([NEWLINE] + r.value) == [[c] + s, NEWLINE] + r.value;
  }

  lemma QuotedRound(c: char, s: string, later: string, quiet: bool)
    requires IsQuote(c) && c !in s && |s| + 1 < MAX_STRING && later != "" && later[0] == '\n'
    ensures ScanRound(c, s + [c] + later, quiet) == Some(Round([[c] + s], later, false))
    ensures ScanRound(later[0], later[1..], false) == Some(Round([NEWLINE], later[1..], true))
  {
    hide Until;
    var u := s + [c] + later;
    assert u[|s| + 1..] == later && u[..|s|] == s;
    UntilUnique(u, [c], |s|);
  }

  lemma ScanFirst(t: string, quiet: bool)
    requires t != ""
    ensures var r := ScanRound(t[0], t[1..], quiet); Scan(t, quiet) == if r.None? then None else Prepend(r.value.ws, Scan(r.value.rest, r.value.quiet))
  {
    hide ScanRound, Prepend;
  }

  /** Whichever way a string literal is printed, M1 reads it as one token, wherever it stands at the
      beginning of a line, and prints what hex2 takes for exactly the bytes the literal denotes and a
      zero, between whatever other bytes. */
  lemma StringRoundTrip(max: int, t: string, rest: string, quiet: bool, big: bool, defs: map<string, string>) returns (w: string)
    requires max <= MAX_STRING && t != "" && Parsed(max, t).Some?
    ensures Denoted(t[1..]).Some? && w != ""
    ensures Scan(Parsed(max, t).value + rest, quiet) == Prepend([w, NEWLINE], Scan(rest, true))
    ensures IsStr(w) && Express(Hex, big, w, defs).Text? && Writes(Hex, Express(Hex, big, w, defs).s, Denoted(t[1..]).value + [0])
  {
    hide Weird, Denoted, Scan, Writes, AsHex, Hexified, AsText;
    var b := Denoted(t[1..]).value;
    if Weird(t[1..]).value {
      var s := AsHex(b) + " 00";
      w := "'" + s;
      AsHexClean(b);
      assert s[|AsHex(b)|..] == " 00";
      assert '\'' !in s;
      assert Hexadecimal(b) + rest == ['\''] + s + ['\''] + "\n" + rest;
      ScanQuoted('\'', s, rest, quiet);
      AsHexZeroWrites(b);
      assert w[1..] == s;
    } else {
      var s := AsText(b);
      w := "\"" + s;
      WeirdPlain(t[1..]);
      TextClean(b);
      assert Regular(b) + rest == ['"'] + s + ['"'] + "\n" + rest;
      ScanQuoted('"', s, rest, quiet);
      HexifiedWrites(b);
      assert w[1..] == s;
    }
  }

  lemma TextClean(b: seq<Byte>)
    requires forall k :: 0 <= k < |b| ==> IsPlain(b[k])
    ensures '"' !in AsText(b)
  {
    var t := AsText(b);
    forall k | 0 <= k < |t|
      ensures t[k] != '"'
    {
      assert t[k] == b[k] as char && IsPlain(b[k]);
    }
  }

  lemma {:induction false} AsHexClean(b: seq<Byte>)
    ensures '\'' !in AsHex(b) && |AsHex(b)| == 3 * |b|
    decreases |b|
  {
    hide Digits;
    if b != [] {
      AsHexClean(b[1..]);
      DigitsClean(Hex, b[0], 2);
    }
  }

  /** A file with nothing but the literal goes through all three programs. */
  lemma StringFile(max: int, t: string, big: bool, bigLink: bool, base: int)
    requires max <= MAX_STRING && t != "" && Parsed(max, t).Some?
    ensures Denoted(t[1..]).Some?
    ensures var out := Assemble(Hex, big, [Parsed(max, t).value]);
      out.Some? && Link(Hex, bigLink, base, LexAll(false, Hex, [out.value])) == Some(Denoted(t[1..]).value + [0])
  {
    hide Parsed, Denoted, Scan, Writes, Hexified, Express, Link, LexAll;
    var text := Parsed(max, t).value;
    var w := StringRoundTrip(max, t, "", true, big, map[]);
    var e := Express(Hex, big, w, map[]).s;
    assert text + "" == text;
    NothingToScan();
    assert [w, NEWLINE] + [] == [w, NEWLINE];
    OneScan(text);
    OneWord(w, big, e);
    var b := Denoted(t[1..]).value + [0];
    WritesSpace(Hex, '\n');
    WritesConcat(Hex, e, b, "\n", []);
    assert b + [] == b;
    WritesLinks(Hex, bigLink, base, e + "\n", b);
  }

  lemma NothingToScan()
    ensures Scan("", true) == Some([])
  {
  }

  lemma OneScan(text: string)
    ensures ScanAll([text]) == Scan(text, true)
  {
    hide Scan;
    assert [text][..0] == [] && ScanAll([]) == Some([]);
    var r := Scan(text, true);
    assert r.Some? ==> [] + r.value == r.value;
  }

  lemma OneWord(w: string, big: bool, e: string)
    requires IsStr(w) && Express(Hex, big, w, map[]) == Text(e)
    ensures var ws := [w, NEWLINE];
      && "" !in ws && Define(ws, map[]) == Some(Macros(ws, map[])) && Usable(Hex, big, ws, map[]) && Print(Hex, big, ws, map[]) == Some(e + "\n")
  {
    hide Express;
    var ws := [w, NEWLINE];
    assert ws[1..] == [NEWLINE] && ws[1..][1..] == [];
    assert Define([], map[]) == Some(Macros([], map[]));
    assert [NEWLINE] + [] == [NEWLINE] && [w] + [NEWLINE] == ws;
    assert Print(Hex, big, [NEWLINE], map[]) == Some("\n" + "");
    assert e + "" + ("\n" + "") == e + "\n";
  }
}
