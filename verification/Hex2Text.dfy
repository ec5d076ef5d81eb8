/** The text that hex2 reads: the characters of a source file as label definitions, pointers,
    digits, and everything that is skipped. */
module Hex2Text {
  import opened Wrappers

  datatype ByteMode = Hex | Octal | Binary

  /** What one step of either pass consumes. */
  datatype Item =
    | Def(name: string)
    | Ref(kind: char, name: string, base: Option<string>)
    | Digit(v: nat)
    | Skip
    /** RISC-V only: an immediate for the next instruction, a literal word for it, and padding. */
    | Field(kind: char, name: string)
    | Dot(ds: seq<nat>)
    | Align
    /** A literal word that the text ends in: its loop never does. */
    | Hang
    /** The start of an input file. */
    | File

  const SEPARATORS := " \t\n>"
  const POINTERS := "!@$~%&"
  const FIELDS := "!@$~"

  /** What fgetc's EOF becomes when it is stored into a name. */
  const EOF_CHAR := '\U{00FF}'

  /** The number of digits in a byte, and their radix. */
  function Group(mode: ByteMode): (n: nat)
    ensures n >= 2
  {
    match mode case Hex => 2 case Octal => 3 case Binary => 8
  }

  function Radix(mode: ByteMode): (r: nat)
    ensures r >= 2
  {
    match mode case Hex => 16 case Octal => 8 case Binary => 2
  }

  function DigitOf(mode: ByteMode, c: char): (d: int)
    ensures -1 <= d < Radix(mode)
  {
    if mode == Hex && 'a' <= c <= 'f' then c as int - 87
    else if mode == Hex && 'A' <= c <= 'F' then c as int - 55
    else if '0' <= c <= '9' && c as int - 48 < Radix(mode) then c as int - 48
    else -1
  }

  predicate IsComment(c: char) {
    c == '#' || c == ';'
  }

  /** The length of the token at the front of t. */
  function TokenEnd(t: string): (n: nat)
    ensures n <= |t|
    ensures forall k :: 0 <= k < n ==> t[k] !in SEPARATORS
    ensures n < |t| ==> t[n] in SEPARATORS
  {
    if t == "" || t[0] in SEPARATORS then 0 else 1 + TokenEnd(t[1..])
  }

  function TokenName(t: string): string {
    if t == "" then [EOF_CHAR] else t[..TokenEnd(t)]
  }

  /** The separator is consumed with the token. */
  function AfterToken(t: string): (r: string)
    ensures |r| <= |t|
  {
    if TokenEnd(t) < |t| then t[TokenEnd(t) + 1..] else ""
  }

  predicate EndsWith(t: string, c: char) {
    TokenEnd(t) < |t| && t[TokenEnd(t)] == c
  }

  function AfterLine(t: string): (r: string)
    ensures |r| <= |t|
  {
    if t == "" then "" else if t[0] == '\n' || t[0] == '\r' then t[1..] else AfterLine(t[1..])
  }

  /** The next digits of a literal word and the text after them. */
  function WordDigits(mode: ByteMode, t: string, need: nat): (r: Option<(seq<nat>, string)>)
    ensures r.Some? ==> |r.value.0| == need && |r.value.1| <= |t|
    ensures r.Some? ==> forall k :: 0 <= k < need ==> r.value.0[k] < Radix(mode)
    decreases |t|
  {
    if need == 0 then Some(([], t))
    else if t == "" then None
    else if IsComment(t[0]) then WordDigits(mode, AfterLine(t[1..]), need)
    else if DigitOf(mode, t[0]) < 0 then WordDigits(mode, t[1..], need)
    else
      match WordDigits(mode, t[1..], need - 1)
      case None => None
      case Some((ds, rest)) => Some(([DigitOf(mode, t[0])] + ds, rest))
  }

  /** The number of digits of the unfinished byte after an item. */
  function Toggle(mode: ByteMode, toggle: nat, x: Item): nat {
    match x
    case Digit(_) => if toggle + 1 == Group(mode) then 0 else toggle + 1
    case Dot(_) => 0
    case File => 0
    case _ => toggle
  }

  /** word selects the loops for RISC-V, where instructions are put together word by word. */
  function NextItem(word: bool, mode: ByteMode, t: string, toggle: nat): (r: (Item, string))
    requires t != ""
    ensures |r.1| < |t|
  {
    var c, u := t[0], t[1..];
    if c == ':' then (Def(TokenName(u)), AfterToken(u))
    else if word && c == '.' then
      (match WordDigits(mode, u, if toggle < 4 * Group(mode) then 4 * Group(mode) - toggle else 0)
       case None => (Hang, "")
       case Some((ds, rest)) => (Dot(ds), rest))
    else if word && c in FIELDS then (Field(c, TokenName(u)), AfterToken(u))
    else if c in POINTERS then
      if EndsWith(u, '>') then (Ref(c, TokenName(u), Some(TokenName(AfterToken(u)))), AfterToken(AfterToken(u)))
      else (Ref(c, TokenName(u), None), AfterToken(u))
    else if IsComment(c) then (Skip, AfterLine(u))
    else if DigitOf(mode, c) >= 0 then (Digit(DigitOf(mode, c)), u)
    else if word && c == '<' then (Align, u)
    else (Skip, u)
  }

  function Lex(word: bool, mode: ByteMode, t: string, toggle: nat): seq<Item>
    decreases |t|
  {
    if t == "" then []
    else
      var (x, rest) := NextItem(word, mode, t, toggle);
      [x] + Lex(word, mode, rest, Toggle(mode, toggle, x))
  }

  /** The input files in command-line order. */
  function LexAll(word: bool, mode: ByteMode, files: seq<string>): seq<Item> {
    if files == [] then []
    else LexAll(word, mode, files[..|files| - 1]) + ([File] + Lex(word, mode, files[|files| - 1], 0))
  }
}
