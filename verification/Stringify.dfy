/** The numbers that M1 prints: stringify.c and express_number, and what hex2 makes of them. */
module Stringify {
  import opened Wrappers
  import opened Arith
  import opened Hex2Text
  import opened Hex2Link
  import opened HexWords

  const NUL := '\0'

  // ---- the order of digits ------------------------------------------------------------------------

  function Mirror(t: string): (r: string)
    ensures |r| == |t|
    ensures forall k :: 0 <= k < |t| ==> r[k] == t[|t| - 1 - k]
  {
    if t == "" then "" else Mirror(t[1..]) + [t[0]]
  }

  /** The digits of every byte in reverse. */
  function Flipped(mode: ByteMode, t: string): (r: string)
    ensures |r| == |t|
    decreases |t|
  {
    if |t| < Group(mode) then t else Mirror(t[..Group(mode)]) + Flipped(mode, t[Group(mode)..])
  }

  /** The bytes in reverse. */
  function ByteSwapped(mode: ByteMode, t: string): (r: string)
    ensures |r| == |t|
    decreases |t|
  {
    if |t| < Group(mode) then t else ByteSwapped(mode, t[Group(mode)..]) + t[..Group(mode)]
  }

  lemma MirrorConcat(a: string, b: string)
    ensures Mirror(a + b) == Mirror(b) + Mirror(a)
  {
  }

  lemma {:induction false} FlippedConcat(mode: ByteMode, a: string, b: string)
    requires |a| % Group(mode) == 0
    ensures Flipped(mode, a + b) == Flipped(mode, a) + Flipped(mode, b)
    decreases |a|
  {
    hide Mirror, Group;
    var g := Group(mode);
    if a == "" {
      assert a + b == b && Flipped(mode, "") == "";
    } else {
      Whole(|a|, g);
      assert (a + b)[..g] == a[..g] && (a + b)[g..] == a[g..] + b;
      FlippedConcat(mode, a[g..], b);
    }
  }

  lemma Whole(n: nat, g: nat)
    requires n > 0 && g > 0 && n % g == 0
    ensures n >= g && (n - g) % g == 0
  {
    if n >= g {
      DivModUnique(n - g, g, n / g - 1, 0) by { Distribute(g, n / g, -1); }
    }
  }

  /** Turning the whole string around and then every byte back leaves the bytes in reverse. */
  lemma {:induction false} FlippedMirror(mode: ByteMode, t: string)
    requires |t| % Group(mode) == 0
    ensures Flipped(mode, Mirror(t)) == ByteSwapped(mode, t)
    decreases |t|
  {
    hide Mirror, Group, Flipped, ByteSwapped;
    var g := Group(mode);
    if t == "" {
      NoBytesToSwap(mode);
    } else {
      Whole(|t|, g);
      var a, b := t[..g], t[g..];
      assert t == a + b;
      MirrorConcat(a, b);
      FlippedMirror(mode, b);
      FlippedConcat(mode, Mirror(b), Mirror(a));
      OneByte(mode, a);
      SwapFirst(mode, t);
    }
  }

  lemma NoBytesToSwap(mode: ByteMode)
    ensures Flipped(mode, Mirror("")) == "" == ByteSwapped(mode, "")
  {
  }

  lemma SwapFirst(mode: ByteMode, t: string)
    requires |t| >= Group(mode)
    ensures ByteSwapped(mode, t) == ByteSwapped(mode, t[Group(mode)..]) + t[..Group(mode)]
  {
  }

  lemma OneByte(mode: ByteMode, a: string)
    requires |a| == Group(mode)
    ensures Flipped(mode, Mirror(a)) == a
  {
    hide Group;
    var m := Mirror(a);
    assert m[..Group(mode)] == m && m[Group(mode)..] == "";
    assert Mirror(m) == a;
    assert a + "" == a;
  }

  // ---- stringify.c ------------------------------------------------------------------------------

  /** stringify: the digits of value from position at on; what is returned is the rest of value. */
  method Stringify(s: array<char>, at: nat, digits: nat, mode: ByteMode, value: int) returns (i: int)
    requires digits >= 1 && at + digits <= s.Length
    modifies s
    ensures s[..] == old(s[..at]) + Digits(mode, value, digits) + old(s[at + digits..])
    ensures i == value / Power(Radix(mode), digits)
    decreases digits
  {
    hide Power, Radix, HexChar, Digits;
    ghost var before := s[..];
    ghost var later := Digits(mode, value, digits - 1);
    RadixSmall(mode);
    PowerOf(Radix(mode), digits, value);
    FirstOfDigits(mode, value, digits);
    i := value;
    if digits > 1 {
      i := Stringify(s, at + 1, digits - 1, mode, value);
    }
    assert s[..] == before[..at + 1] + later + before[at + digits..];
    ghost var now := s[..];
    s[at] := HexChar(i % Radix(mode));
    assert s[..] == now[at := s[at]];
    SetFirst(before[..at], before[at], s[at], later, before[at + digits..]);
    assert before[..at + 1] == before[..at] + [before[at]];
    i := i / Radix(mode);
  }

  lemma FirstOfDigits(mode: ByteMode, v: int, n: nat)
    requires n >= 1
    ensures Digits(mode, v, n) == [HexChar(v / Power(Radix(mode), n - 1) % Radix(mode))] + Digits(mode, v, n - 1)
    ensures Digits(mode, v, 0) == ""
  {
    hide Power, Radix, HexChar;
  }

  lemma SetFirst(a: string, x: char, y: char, b: string, c: string)
    ensures (a + [x] + b + c)[|a| := y] == a + ([y] + b) + c
  {
  }

  lemma RadixSmall(mode: ByteMode)
    ensures Radix(mode) <= 16
  {
  }

  lemma PowerOf(r: nat, n: nat, v: int)
    requires r >= 1 && n >= 1
    ensures Power(r, 0) == 1 && v / 1 == v && v / Power(r, n - 1) / r == v / Power(r, n)
  {
    PowerStep(r, n - 1);
    DivDiv(v, Power(r, n - 1), r);
  }

  /** The buffer holds t behind a, and is NUL behind that. */
  ghost predicate StringIn(c: array<char>, a: string, t: string, z: string)
    reads c
  {
    c[..] == a + t + z && NUL !in t && |z| >= 2 && z[0] == NUL && z[1] == NUL
  }

  /** reverseBitOrder from position at on. */
  method ReverseBitOrder(c: array<char>, at: nat, mode: ByteMode, ghost a: string, ghost t: string, ghost z: string)
    requires |a| == at && StringIn(c, a, t, z) && |t| % Group(mode) == 0
    modifies c
    ensures c[..] == a + Flipped(mode, t) + z
    decreases |t|
  {
    hide Flipped, Group, Mirror;
    FlippedStep(mode, t);
    assert c[at + 1] == (a + t + z)[at + 1];
    if c[at + 1] == NUL {
      return;
    }
    var g := Group(mode);
    ghost var x, y := t[..g], t[g..];
    assert t == x + y;
    Regrouped(a, x, y, z);
    FlipByte(c, at, mode, a, x, y + z);
    Regrouped(a, Mirror(x), y, z);
    ReverseBitOrder(c, at + g, mode, a + Mirror(x), y, z);
    Regrouped(a, Mirror(x), Flipped(mode, y), z);
  }

  lemma Regrouped(a: string, b: string, c: string, d: string)
    ensures a + b + c + d == a + (b + c) + d == a + b + (c + d)
  {
  }

  /** The digits of one byte. */
  method FlipByte(c: array<char>, at: nat, mode: ByteMode, ghost a: string, ghost x: string, ghost z: string)
    requires |a| == at && |x| == Group(mode) && c[..] == a + x + z
    modifies c
    ensures c[..] == a + Mirror(x) + z
  {
    assert forall k :: 0 <= k < |x| ==> c[at + k] == c[..][at + k] == x[k];
    var hold := c[at];
    match mode
    case Hex =>
      c[at] := c[at + 1];
      c[at + 1] := hold;
    case Octal =>
      c[at] := c[at + 2];
      c[at + 2] := hold;
    case Binary =>
      c[at] := c[at + 7];
      c[at + 7] := hold;
      hold := c[at + 1];
      c[at + 1] := c[at + 6];
      c[at + 6] := hold;
      hold := c[at + 2];
      c[at + 2] := c[at + 5];
      c[at + 5] := hold;
      hold := c[at + 3];
      c[at + 3] := c[at + 4];
      c[at + 4] := hold;
  }

  lemma FlippedStep(mode: ByteMode, t: string)
    requires |t| % Group(mode) == 0
    ensures t == "" ==> Flipped(mode, t) == ""
    ensures t != "" ==> |t| >= Group(mode) && (|t| - Group(mode)) % Group(mode) == 0
                        && Flipped(mode, t) == Mirror(t[..Group(mode)]) + Flipped(mode, t[Group(mode)..])
  {
    hide Mirror, Group;
    if t != "" {
      Whole(|t|, Group(mode));
    }
  }

  /** The first loop of LittleEndian. */
  method EndOf(start: array<char>, ghost t: string, ghost z: string) returns (end: nat)
    requires StringIn(start, "", t, z)
    ensures end == |t|
  {
    assert forall k :: 0 <= k < |t| ==> start[k] == start[..][k] == t[k];
    assert start[|t|] == start[..][|t|] == NUL;
    end := 0;
    while start[end] != NUL
      invariant end <= |t|
      decreases |t| - end
    {
      end := end + 1;
    }
  }

  /** And the second: the n characters in reverse. */
  method TurnAround(start: array<char>, n: nat)
    requires n <= start.Length
    modifies start
    ensures forall k :: 0 <= k < n ==> start[k] == old(start[n - 1 - k])
    ensures forall k :: n <= k < start.Length ==> start[k] == old(start[k])
  {
    var i := 0;
    var end := n - 1;
    while i < end
      invariant 0 <= i <= n && i + end == n - 1 && end >= i - 1
      invariant forall k :: 0 <= k < i || end < k < n ==> start[k] == old(start[n - 1 - k])
      invariant forall k :: i <= k <= end || n <= k < start.Length ==> start[k] == old(start[k])
    {
      var hold := start[i];
      start[i] := start[end];
      start[end] := hold;
      end := end - 1;
      i := i + 1;
    }
  }

  /** LittleEndian: the bytes of the string in reverse. */
  method LittleEndian(start: array<char>, mode: ByteMode, ghost t: string, ghost z: string)
    requires StringIn(start, "", t, z) && |t| % Group(mode) == 0
    modifies start
    ensures start[..] == ByteSwapped(mode, t) + z
  {
    hide Flipped, ByteSwapped, Mirror, Group;
    var n := EndOf(start, t, z);
    TurnAround(start, n);
    assert start[..] == "" + Mirror(t) + z;
    assert NUL !in Mirror(t);
    ReverseBitOrder(start, 0, mode, "", Mirror(t), z);
    FlippedMirror(mode, t);
    assert "" + ByteSwapped(mode, t) + z == ByteSwapped(mode, t) + z;
  }

  // ---- express_number -----------------------------------------------------------------------------

  /** The bounds of M1's own range_check. */
  predicate InBounds(v: int, n: nat, absolute: bool) {
    if n == 4 then true
    else if n == 3 then -8388609 <= v <= if absolute then 16777217 else 8388608
    else if n == 2 then -32769 <= v <= if absolute then 65536 else 32768
    else if absolute then -1 <= v <= 256
    else -129 <= v <= 256
  }

  /** What is left of value when it is cut to n bytes; four bytes are all of an int. */
  function Cut(value: int, n: nat): int {
    if n == 4 then value else value % Pow256(n)
  }

  function Numeral(mode: ByteMode, big: bool, value: int, n: nat): string {
    var d := Digits(mode, Cut(value, n), Times(n, Group(mode)));
    if big then d else ByteSwapped(mode, d)
  }

  function Times(n: nat, g: nat): (m: nat)
    ensures m == n * g
  {
    Product(n, g);
    n * g
  }

  /** The text of an immediate; None is a call of exit. */
  function Immediate(mode: ByteMode, big: bool, kind: char, value: int): Option<string> {
    if kind in POINTERS && InBounds(value, Width(kind), Absolute(kind)) then Some(Numeral(mode, big, value, Width(kind))) else None
  }

  /** express_number */
  method ExpressNumber(mode: ByteMode, big: bool, value: int, c: char) returns (r: Option<string>)
    ensures r == Immediate(mode, big, c, value)
  {
    hide Digits, ByteSwapped, Power;
    var n;
    var absolute := false;
    if c == '!' {
      n := 1;
    } else if c == '@' {
      n := 2;
    } else if c == '$' {
      n := 2;
      absolute := true;
    } else if c == '~' {
      n := 3;
    } else if c == '%' {
      n := 4;
    } else if c == '&' {
      n := 4;
      absolute := true;
    } else {
      return None;
    }
    if !InBounds(value, n, absolute) {
      return None;
    }
    KnownPowers();
    var v := if c == '!' then value % 0x100 else if c == '@' || c == '$' then value % 0x1_0000 else if c == '~' then value % 0x100_0000 else value;
    var size := n * Group(mode);
    var ch := new char[42](_ => NUL);
    var rest := Stringify(ch, 0, size, mode, v);
    ghost var z := seq(42 - size, _ => NUL);
    assert ch[..] == Digits(mode, v, size) + z;
    if !big {
      DigitsClean(mode, v, size);
      WholeBytes(n, Group(mode));
      assert "" + Digits(mode, v, size) + z == Digits(mode, v, size) + z;
      LittleEndian(ch, mode, Digits(mode, v, size), z);
    }
    assert ch[..size] == ch[..][..size];
    r := Some(ch[..size]);
  }

  lemma KnownPowers()
    ensures Pow256(1) == 0x100 && Pow256(2) == 0x1_0000 && Pow256(3) == 0x100_0000
  {
  }

  lemma {:induction false} DigitsClean(mode: ByteMode, v: int, n: nat)
    ensures forall k :: 0 <= k < n ==> Digits(mode, v, n)[k] != NUL && Digits(mode, v, n)[k] !in "'\"" && !IsSpace(Digits(mode, v, n)[k])
    decreases n
  {
    hide Power;
    if n > 0 {
      DigitsClean(mode, v, n - 1);
    }
  }

  lemma WholeBytes(n: nat, g: nat)
    requires g > 0
    ensures n * g % g == 0
  {
    DivModUnique(n * g, g, n, 0);
  }

  // ---- what hex2 makes of it ----------------------------------------------------------------------

  lemma {:induction false} DigitsSplit(mode: ByteMode, v: int, m: nat, n: nat)
    ensures Digits(mode, v, m + n) == Digits(mode, v / Power(Radix(mode), n), m) + Digits(mode, v, n)
    decreases m
  {
    hide Power, HexChar, Radix;
    var r := Radix(mode);
    RadixSmall(mode);
    if m == 0 {
      assert "" + Digits(mode, v, n) == Digits(mode, v, n);
    } else {
      DigitsSplit(mode, v, m - 1, n);
      PowerSum(r, m - 1, n);
      DivDiv(v, Power(r, n), Power(r, m - 1));
      var d := [HexChar(v / Power(r, m + n - 1) % r)];
      assert Digits(mode, v, m + n) == d + Digits(mode, v, m + n - 1);
      assert Digits(mode, v / Power(r, n), m) == d + Digits(mode, v / Power(r, n), m - 1);
      assert d + (Digits(mode, v / Power(r, n), m - 1) + Digits(mode, v, n)) == d + Digits(mode, v / Power(r, n), m - 1) + Digits(mode, v, n);
    }
  }

  lemma {:induction false} PowerSum(r: nat, m: nat, n: nat)
    requires r >= 1
    ensures Power(r, m + n) == Power(r, n) * Power(r, m)
    decreases m
  {
    hide Power;
    if m == 0 {
      PowerOf(r, 1, 0);
    } else {
      PowerSum(r, m - 1, n);
      PowerStep(r, m - 1 + n);
      PowerStep(r, m - 1);
      Associate(Power(r, n), Power(r, m - 1), r);
      assert m - 1 + n + 1 == m + n;
    }
  }

  /** The digits of n bytes weigh 256 a byte. */
  lemma {:induction false} PowerBytes(mode: ByteMode, n: nat)
    requires mode != Octal
    ensures Power(Radix(mode), Times(n, Group(mode))) == Pow256(n)
    decreases n
  {
    hide Power, Radix, Group;
    var g := Group(mode);
    if n == 0 {
      PowerOf(Radix(mode), 1, 0);
    } else {
      PowerBytes(mode, n - 1);
      Distribute(g, n - 1, 1);
      PowerSum(Radix(mode), g, Times(n - 1, g));
      ByteRadix(mode);
    }
  }

  /** The last byte of a number on its own. */
  lemma {:induction false} LittleSnoc(v: int, n: nat)
    requires n >= 1
    ensures LittleBytes(v, n) == LittleBytes(v, n - 1) + [v / Pow256(n - 1) % 256]
    decreases n
  {
    if n > 1 {
      LittleSnoc(v / 256, n - 1);
      DivDiv(v, 256, Pow256(n - 2));
    }
  }

  lemma BigCons(v: int, n: nat)
    requires n >= 1
    ensures Reverse(LittleBytes(v, n)) == [v / Pow256(n - 1) % 256] + Reverse(LittleBytes(v, n - 1))
  {
    hide LittleBytes, Pow256;
    LittleSnoc(v, n);
  }

  /** The digits of n bytes, in either order. */
  lemma {:induction false} WritesBytes(mode: ByteMode, v: int, n: nat)
    requires mode != Octal
    ensures var d := Digits(mode, v, Times(n, Group(mode)));
      Writes(mode, d, Reverse(LittleBytes(v, n))) && Writes(mode, ByteSwapped(mode, d), LittleBytes(v, n))
    decreases n
  {
    hide *;
    var g := Group(mode);
    if n == 0 {
      WritesNothing(mode);
      NoDigits(mode, v);
    } else {
      var m := Times(n - 1, g);
      Distribute(g, n - 1, 1);
      var high := v / Pow256(n - 1);
      PowerBytes(mode, n - 1);
      DigitsSplit(mode, v, g, m);
      WritesBytes(mode, v, n - 1);
      WritesByte(mode, high);
      BigCons(v, n);
      LittleSnoc(v, n);
      var a, b := Digits(mode, high, g), Digits(mode, v, m);
      WritesConcat(mode, a, [high % 256], b, Reverse(LittleBytes(v, n - 1)));
      WritesConcat(mode, ByteSwapped(mode, b), LittleBytes(v, n - 1), a, [high % 256]);
      SwapFirst(mode, a + b);
      assert (a + b)[..g] == a && (a + b)[g..] == b;
    }
  }

  lemma NoDigits(mode: ByteMode, v: int)
    ensures Digits(mode, v, Times(0, Group(mode))) == "" == ByteSwapped(mode, "") && LittleBytes(v, 0) == [] == Reverse(LittleBytes(v, 0))
  {
  }

  lemma {:induction false} CutBytes(v: int, n: nat, m: nat)
    requires m >= n
    ensures LittleBytes(v % Pow256(m), n) == LittleBytes(v, n)
    decreases n
  {
    if n > 0 {
      var p := Pow256(m - 1);
      DivDiv(v, 256, p);
      var u := v % Pow256(m);
      assert u == v % 256 + 256 * (v / 256 % p);
      DivModUnique(u, 256, v / 256 % p, v % 256);
      CutBytes(v / 256, n - 1, m - 1);
    }
  }

  /** An immediate that M1 prints in hexadecimal or binary becomes, wherever hex2 meets it between
      two bytes, the bytes of its value modulo 256^n in the order asked for: those that hex2 writes
      for a pointer of the same kind with that value. */
  lemma NumberWritten(mode: ByteMode, big: bool, kind: char, value: int)
    requires mode != Octal && Immediate(mode, big, kind, value).Some?
    ensures Writes(mode, Immediate(mode, big, kind, value).value, PointerBytes(value, Width(kind), big))
  {
    hide Digits, Power, ByteSwapped, Writes, LittleBytes, Reverse;
    var n := Width(kind);
    WritesBytes(mode, Cut(value, n), n);
    CutBytes(value, n, n);
  }
}
