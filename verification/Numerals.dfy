/** Numbers as they are printed, in any of the notations that the programs read. */
module Numerals {
  import opened Arith

  /** The digit of a value; lower selects the letters of a to f. */
  function DigitChar(d: nat, lower: bool): (c: char)
    requires d < 16
  {
    if d < 10 then (d + 48) as char else if lower then (d + 87) as char else (d + 55) as char
  }

  /** The digits of n, without zeros in front. */
  function Printed(radix: nat, n: nat, lower: bool): (s: string)
    requires 2 <= radix <= 16
    ensures s != ""
  {
    if n < radix then [DigitChar(n, lower)] else Printed(radix, n / radix, lower) + [DigitChar(n % radix, lower)]
  }

  /** With a sign if the number is negative. */
  function Signed(v: int): (s: string)
    ensures s != ""
  {
    if v < 0 then "-" + Printed(10, -v, false) else Printed(10, v, false)
  }

  predicate IsDigitOf(radix: nat, c: char) {
    ('0' <= c <= '9' && c as int < 48 + radix) || ('A' <= c <= 'F' && c as int < 55 + radix) || ('a' <= c <= 'f' && c as int < 87 + radix)
  }

  lemma DigitIs(radix: nat, d: nat, lower: bool)
    requires d < radix <= 16
    ensures IsDigitOf(radix, DigitChar(d, lower)) && (DigitChar(d, lower) == '0' <==> d == 0)
  {
  }

  /** The last digit and the number in front of it. */
  lemma PrintedStep(radix: nat, n: nat, lower: bool) returns (q: nat, d: nat)
    requires 2 <= radix <= 16
    ensures d < radix && n == radix * q + d && (q == 0 <==> n < radix) && (q == 0 ==> d == n) && (q > 0 ==> q < n)
    ensures Printed(radix, n, lower) == (if q == 0 then "" else Printed(radix, q, lower)) + [DigitChar(d, lower)]
  {
    q, d := n / radix, n % radix;
    PrintedUnfold(radix, n, lower);
    hide *;
    Quotient(n, radix);
    assert "" + [DigitChar(d, lower)] == [DigitChar(d, lower)];
  }

  lemma PrintedUnfold(radix: nat, n: nat, lower: bool)
    requires 2 <= radix <= 16
    ensures Printed(radix, n, lower) == if n < radix then [DigitChar(n, lower)] else Printed(radix, n / radix, lower) + [DigitChar(n % radix, lower)]
  {
  }

  lemma Quotient(n: nat, radix: nat)
    requires radix >= 2
    ensures var q, d := n / radix, n % radix; n == radix * q + d && (n < radix ==> q == 0 && d == n) && (n >= radix ==> 1 <= q < n)
  {
    var q := n / radix;
    Multiple(radix, q);
    if n < radix {
      DivModUnique(n, radix, 0, n);
    } else {
      Multiple(q, radix - 1);
    }
  }

  /** No zero is in front, but for 0 itself. */
  lemma {:induction false} PrintedDigits(radix: nat, n: nat, lower: bool)
    requires 2 <= radix <= 16
    ensures var s := Printed(radix, n, lower); (forall k :: 0 <= k < |s| ==> IsDigitOf(radix, s[k])) && (s[0] == '0' <==> n == 0)
    decreases n
  {
    hide IsDigitOf, DigitChar, Printed;
    var q, d := PrintedStep(radix, n, lower);
    DigitIs(radix, d, lower);
    if q > 0 {
      PrintedDigits(radix, q, lower);
    }
  }
}
