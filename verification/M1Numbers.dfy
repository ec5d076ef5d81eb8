/** The numbers that M1 reads in its immediates are those that are printed there. */
module M1Numbers {
  import opened Wrappers
  import opened Numerals
  import opened Hex2Text
  import opened Hex2Link
  import opened HexWords
  import opened M1Text
  import opened Bits
  import Stringify
  import M = M1ToHex2

  predicate IsRadix(radix: nat) {
    radix == 2 || radix == 8 || radix == 10 || radix == 16
  }

  /** Characters that count as digits. */
  predicate AreDigits(radix: nat, s: string) {
    forall k :: 0 <= k < |s| ==> s[k] != '_' && NumberDigit(radix, s[k]) >= 0
  }

  lemma DigitRead(radix: nat, d: nat, lower: bool)
    requires IsRadix(radix) && d < radix
    ensures NumberDigit(radix, DigitChar(d, lower)) == d && DigitChar(d, lower) != '_' && DigitChar(d, lower) != '-'
  {
  }

  lemma DigitsAre(radix: nat, c: char)
    requires IsRadix(radix) && IsDigitOf(radix, c)
    ensures NumberDigit(radix, c) >= 0 && c != '_' && c != '-' && (radix <= 10 ==> c != 'b' && c != 'x')
  {
  }

  lemma {:induction false} ReadAppend(radix: nat, s: string, c: char, n: nat)
    requires AreDigits(radix, s) && NumberDigit(radix, c) >= 0 && c != '_'
    ensures ReadDigits(radix, s + [c], n) == ReadDigits(radix, s, n) * radix + NumberDigit(radix, c)
    decreases |s|
  {
    hide NumberDigit;
    var t := s + [c];
    if s == "" {
      assert t == [c] && t[1..] == "";
    } else {
      assert t[0] == s[0] && t[1..] == s[1..] + [c];
      ReadAppend(radix, s[1..], c, n * radix + NumberDigit(radix, s[0]));
    }
  }

  /** What is printed in one of the four notations is read back. */
  lemma {:induction false} PrintedRead(radix: nat, n: nat, lower: bool)
    requires IsRadix(radix)
    ensures AreDigits(radix, Printed(radix, n, lower)) && ReadDigits(radix, Printed(radix, n, lower), 0) == n
    decreases n
  {
    hide Printed, DigitChar, NumberDigit;
    var q, d := PrintedStep(radix, n, lower);
    DigitRead(radix, d, lower);
    if q > 0 {
      PrintedRead(radix, q, lower);
      ReadAppend(radix, Printed(radix, q, lower), DigitChar(d, lower), 0);
    } else {
      ReadAppend(radix, "", DigitChar(d, lower), 0);
    }
  }

  /** An int is the number modulo 2^32, with its sign. */
  lemma Int32Is(v: int)
    ensures (Int32(v) - v) % 0x1_0000_0000 == 0 && -0x8000_0000 <= Int32(v) < 0x8000_0000
    ensures -0x8000_0000 <= v < 0x8000_0000 ==> Int32(v) == v
  {
  }

  /** A printed number of 32 bits, with its sign, is read back. */
  lemma SignedRead(v: int)
    requires -0x8000_0000 <= v < 0x8000_0000
    ensures StrToInt(Signed(v)) == v && IsNumber(Signed(v))
  {
    hide Printed, ReadDigits;
    var n := if v < 0 then -v else v;
    var s := Printed(10, n, false);
    PrintedRead(10, n, false);
    PrintedDigits(10, n, false);
    if v < 0 {
      var t := "-" + s;
      assert t[0] == '-' && t[1..] == s;
    } else if v == 0 {
      assert s == "0" by { PrintedUnfold(10, 0, false); }
      assert "0"[1..] == "";
      assert ReadDigits(8, "", 0) == 0 by { NothingRead(); }
    } else {
      assert s[0] != '-' by { DigitsAre(10, s[0]); }
    }
  }

  lemma NothingRead()
    ensures ReadDigits(8, "", 0) == 0
  {
  }

  /** And so are 32 bits in hexadecimal, in binary and in octal behind their prefixes, as an int. */
  lemma RadixRead(n: nat, lower: bool)
    ensures StrToInt("0x" + Printed(16, n, lower)) == Int32(n)
    ensures StrToInt("0b" + Printed(2, n, lower)) == Int32(n)
    ensures StrToInt("0" + Printed(8, n, lower)) == Int32(n)
  {
    hide Printed, ReadDigits, Int32;
    PrefixRead(16, n, lower, "0x");
    PrefixRead(2, n, lower, "0b");
    PrefixRead(8, n, lower, "0");
  }

  lemma PrefixRead(radix: nat, n: nat, lower: bool, prefix: string)
    requires (radix == 16 && prefix == "0x") || (radix == 2 && prefix == "0b") || (radix == 8 && prefix == "0")
    ensures StrToInt(prefix + Printed(radix, n, lower)) == Int32(n)
  {
    hide Printed, ReadDigits, Int32;
    var s := Printed(radix, n, lower);
    PrintedRead(radix, n, lower);
    PrintedDigits(radix, n, lower);
    assert IsDigitOf(radix, s[0]);
    DigitsAre(radix, s[0]);
    var t := prefix + s;
    assert t[|prefix|..] == s && t[0] == '0' && t[1] == if |prefix| == 1 then s[0] else prefix[1];
  }

  /** Underscores make no difference. */
  function NoUnderscores(s: string): string {
    if s == "" then "" else (if s[0] == '_' then "" else [s[0]]) + NoUnderscores(s[1..])
  }

  lemma {:induction false} UnderscoresSkipped(radix: nat, s: string, n: nat)
    ensures ReadDigits(radix, s, n) == ReadDigits(radix, NoUnderscores(s), n)
    decreases |s|
  {
    hide NumberDigit;
    if s != "" {
      if s[0] == '_' {
        UnderscoresSkipped(radix, s[1..], n);
        assert "" + NoUnderscores(s[1..]) == NoUnderscores(s[1..]);
      } else {
        var t := [s[0]] + NoUnderscores(s[1..]);
        assert t[0] == s[0] && t[1..] == NoUnderscores(s[1..]);
        if NumberDigit(radix, s[0]) >= 0 {
          UnderscoresSkipped(radix, s[1..], n * radix + NumberDigit(radix, s[0]));
        }
      }
    }
  }

  /** A text with anything else in it is 0. */
  lemma {:induction false} NoNumber(radix: nat, s: string, n: nat, k: nat)
    requires k < |s| && s[k] != '_' && NumberDigit(radix, s[k]) < 0
    ensures ReadDigits(radix, s, n) == 0
    decreases |s|
  {
    hide NumberDigit;
    if k > 0 && (s[0] == '_' || NumberDigit(radix, s[0]) >= 0) {
      assert s[1..][k - 1] == s[k];
      NoNumber(radix, s[1..], if s[0] == '_' then n else n * radix + NumberDigit(radix, s[0]), k - 1);
    }
  }

  /** The numbers that fit behind a prefix, and how many bytes they take. */
  predicate Fits(kind: char, v: int) {
    match kind
    case '!' => -0x80 <= v < 0x80
    case '@' => -0x8000 <= v < 0x8000
    case '$' => 0 <= v < 0x1_0000
    case '~' => -0x80_0000 <= v < 0x80_0000
    case '%' => -0x8000_0000 <= v < 0x8000_0000
    case '&' => -0x8000_0000 <= v < 0x8000_0000
    case _ => false
  }

  function Bytes(kind: char): nat {
    match kind case '!' => 1 case '@' => 2 case '$' => 2 case '~' => 3 case _ => 4
  }

  /** A number printed behind a prefix becomes its bytes in hex2, wherever it stands between two bytes. */
  lemma NumberLinked(mode: ByteMode, big: bool, kind: char, v: int, defs: map<string, string>)
    requires mode != Octal && Fits(kind, v) && [kind] + Signed(v) !in defs
    ensures var e := Express(mode, big, [kind] + Signed(v), defs); e.Text? && Writes(mode, e.s, PointerBytes(v, Bytes(kind), big))
  {
    hide Signed, StrToInt, IsNumber, Writes;
    var t := [kind] + Signed(v);
    assert t[1..] == Signed(v);
    SignedRead(v);
    Accepted(mode, big, kind, v);
    ImmediateWritten(mode, big, t, defs);
  }

  lemma Accepted(mode: ByteMode, big: bool, kind: char, v: int)
    requires Fits(kind, v)
    ensures kind in POINTERS && kind != '\'' && kind != '"' && Stringify.Immediate(mode, big, kind, v).Some? && Width(kind) == Bytes(kind)
  {
  }

  /** Padding is as many zeros in hex2. */
  lemma {:induction false} PaddingWritten(mode: ByteMode, n: nat)
    ensures Writes(mode, M1Text.Padding(mode, n), Zeros(n))
    decreases n
  {
    hide Writes, HexWords.Digits;
    if n == 0 {
      WritesNothing(mode);
      assert M1Text.Padding(mode, 0) == "" && Zeros(0) == [];
    } else {
      PaddingWritten(mode, n - 1);
      ZeroByte(mode);
      WritesByte(mode, 0);
      WritesConcat(mode, HexWords.Digits(mode, 0, Group(mode)), [0], M1Text.Padding(mode, n - 1), Zeros(n - 1));
      PaddingNext(mode, n);
      assert [0] + Zeros(n - 1) == Zeros(n);
    }
  }

  lemma ZeroByte(mode: ByteMode)
    ensures HexWords.Digits(mode, 0, Group(mode)) == seq(Group(mode), _ => '0')
  {
    ZeroDigits(mode, Group(mode));
  }

  lemma {:induction false} ZeroDigits(mode: ByteMode, n: nat)
    ensures HexWords.Digits(mode, 0, n) == seq(n, _ => '0')
    decreases n
  {
    if n > 0 {
      ZeroDigits(mode, n - 1);
      var p := Power(Radix(mode), n - 1);
      assert 0 / p == 0;
      assert 0 % Radix(mode) == 0;
    }
  }

  lemma PaddingNext(mode: ByteMode, n: nat)
    requires n >= 1
    ensures M1Text.Padding(mode, n) == seq(Group(mode), _ => '0') + M1Text.Padding(mode, n - 1)
  {
    assert n * Group(mode) == Group(mode) + (n - 1) * Group(mode);
  }

  /** A token < with a number in front of it. */
  lemma PaddingLinked(mode: ByteMode, big: bool, n: nat, defs: map<string, string>)
    requires 0 < n < 0x8000_0000 && "<" + Signed(n) !in defs
    ensures var e := Express(mode, big, "<" + Signed(n), defs); e.Text? && Writes(mode, e.s, Zeros(n))
  {
    hide Signed, StrToInt, Writes, M1Text.Padding;
    var t := "<" + Signed(n);
    assert t[1..] == Signed(n);
    SignedRead(n);
    PaddingWritten(mode, n);
  }

  /** The digits that m1-to-hex2 writes for a byte !0xXX are those of the number that M1 reads there. */
  lemma TranslatedByte(high: nat, low: nat, lower: bool)
    requires high < 16 && low < 16
    ensures var t := "!0x" + [DigitChar(high, lower), DigitChar(low, lower)];
      && M.IsToken(t) && StrToInt(t[1..]) == 16 * high + low && M.TokenItems(t) == [Digit(high), Digit(low)]
  {
    var a, b := DigitChar(high, lower), DigitChar(low, lower);
    var t := "!0x" + [a, b];
    assert DigitOf(Hex, a) == high && DigitOf(Hex, b) == low;
    assert t[..3] == "!0x" && t[3] == a && t[4] == b;
    var s := t[1..];
    assert s[0] == '0' && s[1] == 'x' && s[2..] == [a, b];
    DigitRead(16, high, lower);
    DigitRead(16, low, lower);
    assert [a, b][1..] == [b] && [b][1..] == "";
    assert ReadDigits(16, [a, b], 0) == ReadDigits(16, [b], high);
    assert ReadDigits(16, [b], high) == ReadDigits(16, "", high * 16 + low);
  }
}
