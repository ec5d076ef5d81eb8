/** hex2's source text piece by piece, and what is read in it. */
module Hex2Print {
  import opened Wrappers
  import opened Numerals
  import opened Hex2Text

  type Nibble = d: int | 0 <= d < 16

  /** A piece of text; end is the character behind a name or a remark. */
  datatype Piece =
    | Label(name: string, end: char)
    | Pointer(kind: char, name: string, base: Option<string>, end: char)
    | Figure(d: Nibble, lower: bool)
    | Gap(c: char)
    | Note(c: char, text: string, end: char)
    /** RISC-V only: an immediate, a literal word, and padding. */
    | Immediate(kind: char, name: string, end: char)
    | Literal(ds: seq<Nibble>)
    | Fill

  function DigitsText(ds: seq<Nibble>): string {
    if ds == [] then "" else [DigitChar(ds[0], false)] + DigitsText(ds[1..])
  }

  predicate IsName(name: string) {
    forall k :: 0 <= k < |name| ==> name[k] !in " \t\n>"
  }

  predicate IsEnd(c: char) {
    c == ' ' || c == '\t' || c == '\n'
  }

  /** A piece that can stand in a text, with toggle digits of a byte before it. */
  predicate Valid(word: bool, mode: ByteMode, p: Piece, toggle: nat) {
    match p
    case Label(name, end) => IsName(name) && IsEnd(end)
    case Pointer(kind, name, base, end) =>
      (kind == '%' || kind == '&' || (!word && (kind == '!' || kind == '@' || kind == '$' || kind == '~')))
      && IsName(name) && (base.Some? ==> IsName(base.value)) && IsEnd(end)
    case Figure(d, _) => d < Radix(mode)
    case Gap(c) => IsEnd(c)
    case Note(c, text, end) => (c == '#' || c == ';') && (forall k :: 0 <= k < |text| ==> text[k] != '\n' && text[k] != '\r') && (end == '\n' || end == '\r')
    case Immediate(kind, name, end) => word && (kind == '!' || kind == '@' || kind == '$' || kind == '~') && IsName(name) && IsEnd(end)
    case Literal(ds) => word && toggle == 0 && |ds| == 4 * Group(mode) && forall k :: 0 <= k < |ds| ==> ds[k] < Radix(mode)
    case Fill => word
  }

  function TextOf(p: Piece): string {
    match p
    case Label(name, end) => ":" + (name + [end])
    case Pointer(kind, name, base, end) => [kind] + (if base.Some? then name + (">" + (base.value + [end])) else name + [end])
    case Figure(d, lower) => [DigitChar(d, lower)]
    case Gap(c) => [c]
    case Note(c, text, end) => [c] + (text + [end])
    case Immediate(kind, name, end) => [kind] + (name + [end])
    case Literal(ds) => "." + DigitsText(ds)
    case Fill => "<"
  }

  function ItemOf(p: Piece): Item {
    match p
    case Label(name, _) => Def(name)
    case Pointer(kind, name, base, _) => Ref(kind, name, base)
    case Figure(d, _) => Digit(d)
    case Gap(_) => Skip
    case Note(_, _, _) => Skip
    case Immediate(kind, name, _) => Field(kind, name)
    case Literal(ds) => Dot(ds)
    case Fill => Align
  }

  /** The name up to the character c that ends it. */
  lemma {:induction false} NameAt(name: string, c: char, rest: string)
    requires IsName(name) && c in " \t\n>"
    ensures var u := name + [c] + rest;
      TokenEnd(u) == |name| && TokenName(u) == name && AfterToken(u) == rest && (EndsWith(u, '>') <==> c == '>')
    decreases |name|
  {
    var u := name + [c] + rest;
    if name != "" {
      assert u[1..] == name[1..] + [c] + rest;
      NameAt(name[1..], c, rest);
    }
    assert u[..|name|] == name && u[|name| + 1..] == rest && u[|name|] == c;
  }

  lemma {:induction false} LineAt(text: string, end: char, rest: string)
    requires (forall k :: 0 <= k < |text| ==> text[k] != '\n' && text[k] != '\r') && (end == '\n' || end == '\r')
    ensures AfterLine(text + [end] + rest) == rest
    decreases |text|
  {
    var u := text + [end] + rest;
    if text == "" {
      assert u[1..] == rest;
    } else {
      assert u[1..] == text[1..] + [end] + rest;
      LineAt(text[1..], end, rest);
    }
  }

  lemma DigitRead(mode: ByteMode, d: Nibble, lower: bool)
    requires d < Radix(mode)
    ensures DigitOf(mode, DigitChar(d, lower)) == d && DigitChar(d, lower) !in ":!@$~%&#;.<"
  {
  }

  lemma {:induction false} WordRead(mode: ByteMode, ds: seq<Nibble>, rest: string)
    requires forall k :: 0 <= k < |ds| ==> ds[k] < Radix(mode)
    ensures WordDigits(mode, DigitsText(ds) + rest, |ds|) == Some((ds, rest))
    decreases |ds|
  {
    hide DigitOf, DigitChar;
    var t := DigitsText(ds) + rest;
    if ds == [] {
      assert t == rest;
    } else {
      DigitRead(mode, ds[0], false);
      assert t[0] == DigitChar(ds[0], false) && t[1..] == DigitsText(ds[1..]) + rest;
      WordRead(mode, ds[1..], rest);
      assert [ds[0]] + ds[1..] == ds;
    }
  }

  lemma LabelRead(word: bool, mode: ByteMode, p: Piece, toggle: nat, rest: string)
    requires p.Label? && Valid(word, mode, p, toggle)
    ensures NextItem(word, mode, TextOf(p) + rest, toggle) == (ItemOf(p), rest)
  {
    hide DigitOf, DigitChar, TokenEnd, TokenName, AfterToken, AfterLine, EndsWith, WordDigits;
    NameAt(p.name, p.end, rest);
    Behind(':', p.name + [p.end], rest);
  }

  lemma PointerRead(word: bool, mode: ByteMode, p: Piece, toggle: nat, rest: string)
    requires p.Pointer? && Valid(word, mode, p, toggle)
    ensures NextItem(word, mode, TextOf(p) + rest, toggle) == (ItemOf(p), rest)
  {
    hide DigitOf, DigitChar, TokenEnd, TokenName, AfterToken, AfterLine, EndsWith, WordDigits, NextItem;
    if p.base.Some? {
      var more := p.base.value + [p.end] + rest;
      NameAt(p.name, '>', more);
      NameAt(p.base.value, p.end, rest);
      Behind(p.kind, p.name + (">" + (p.base.value + [p.end])), rest);
      Regroup(p.name, ">", p.base.value + [p.end], rest);
    } else {
      NameAt(p.name, p.end, rest);
      Behind(p.kind, p.name + [p.end], rest);
    }
    NextPointer(word, mode, TextOf(p) + rest, toggle);
  }

  lemma Behind(c: char, a: string, rest: string)
    ensures var t := ([c] + a) + rest; t[0] == c && t[1..] == a + rest
  {
  }

  lemma Regroup(a: string, b: string, c: string, d: string)
    ensures (a + (b + c)) + d == a + b + (c + d)
  {
  }

  lemma NextPointer(word: bool, mode: ByteMode, t: string, toggle: nat)
    requires t != "" && (t[0] == '%' || t[0] == '&' || (!word && (t[0] == '!' || t[0] == '@' || t[0] == '$' || t[0] == '~')))
    ensures var u := t[1..];
      NextItem(word, mode, t, toggle) ==
        if EndsWith(u, '>') then (Ref(t[0], TokenName(u), Some(TokenName(AfterToken(u)))), AfterToken(AfterToken(u)))
        else (Ref(t[0], TokenName(u), None), AfterToken(u))
  {
    hide DigitOf, DigitChar, TokenEnd, TokenName, AfterToken, AfterLine, EndsWith, WordDigits;
    PointerKind(word, t[0]);
  }

  lemma PointerKind(word: bool, kind: char)
    requires kind == '%' || kind == '&' || kind == '!' || kind == '@' || kind == '$' || kind == '~'
    ensures kind in POINTERS && kind != ':' && kind != '.' && (kind in FIELDS <==> kind != '%' && kind != '&')
  {
  }

  lemma ImmediateRead(word: bool, mode: ByteMode, p: Piece, toggle: nat, rest: string)
    requires p.Immediate? && Valid(word, mode, p, toggle)
    ensures NextItem(word, mode, TextOf(p) + rest, toggle) == (ItemOf(p), rest)
  {
    hide DigitOf, DigitChar, TokenEnd, TokenName, AfterToken, AfterLine, EndsWith, WordDigits;
    PointerKind(word, p.kind);
    NameAt(p.name, p.end, rest);
    Behind(p.kind, p.name + [p.end], rest);
  }

  /** A character that begins neither a name nor a remark. */
  lemma PlainKind(c: char)
    requires c !in ":!@$~%&#;.<"
    ensures c != ':' && c != '.' && c !in FIELDS && c !in POINTERS && !IsComment(c) && c != '<'
  {
  }

  lemma FigureRead(word: bool, mode: ByteMode, p: Piece, toggle: nat, rest: string)
    requires p.Figure? && Valid(word, mode, p, toggle)
    ensures NextItem(word, mode, TextOf(p) + rest, toggle) == (ItemOf(p), rest)
  {
    hide DigitOf, DigitChar, TokenEnd, TokenName, AfterToken, AfterLine, EndsWith, WordDigits;
    DigitRead(mode, p.d, p.lower);
    var t := TextOf(p) + rest;
    PlainKind(DigitChar(p.d, p.lower));
    assert t[0] == DigitChar(p.d, p.lower) && t[1..] == rest;
  }

  lemma GapRead(word: bool, mode: ByteMode, p: Piece, toggle: nat, rest: string)
    requires p.Gap? && Valid(word, mode, p, toggle)
    ensures NextItem(word, mode, TextOf(p) + rest, toggle) == (ItemOf(p), rest)
  {
    hide DigitOf, DigitChar, TokenEnd, TokenName, AfterToken, AfterLine, EndsWith, WordDigits;
    var t := TextOf(p) + rest;
    BlankIs(mode, p.c);
    PlainKind(p.c);
    assert t[0] == p.c && t[1..] == rest;
  }

  lemma NoteRead(word: bool, mode: ByteMode, p: Piece, toggle: nat, rest: string)
    requires p.Note? && Valid(word, mode, p, toggle)
    ensures NextItem(word, mode, TextOf(p) + rest, toggle) == (ItemOf(p), rest)
  {
    hide DigitOf, DigitChar, TokenEnd, TokenName, AfterToken, AfterLine, EndsWith, WordDigits;
    LineAt(p.text, p.end, rest);
    assert p.c !in FIELDS && p.c !in POINTERS;
    Behind(p.c, p.text + [p.end], rest);
  }

  lemma LiteralRead(word: bool, mode: ByteMode, p: Piece, toggle: nat, rest: string)
    requires (p.Literal? || p.Fill?) && Valid(word, mode, p, toggle)
    ensures NextItem(word, mode, TextOf(p) + rest, toggle) == (ItemOf(p), rest)
  {
    hide DigitOf, DigitChar, TokenEnd, TokenName, AfterToken, AfterLine, EndsWith, WordDigits;
    var t := TextOf(p) + rest;
    if p.Literal? {
      WordRead(mode, p.ds, rest);
      Behind('.', DigitsText(p.ds), rest);
    } else {
      BlankIs(mode, '<');
      assert '<' !in FIELDS && '<' !in POINTERS;
      assert t[0] == '<' && t[1..] == rest;
    }
  }

  /** Each piece is read as its item, whatever follows. */
  lemma PieceRead(word: bool, mode: ByteMode, p: Piece, toggle: nat, rest: string)
    requires Valid(word, mode, p, toggle)
    ensures TextOf(p) != "" && NextItem(word, mode, TextOf(p) + rest, toggle) == (ItemOf(p), rest)
  {
    assert TextOf(p) != "";
    hide *;
    match p
    case Label(_, _) => LabelRead(word, mode, p, toggle, rest);
    case Pointer(_, _, _, _) => PointerRead(word, mode, p, toggle, rest);
    case Figure(_, _) => FigureRead(word, mode, p, toggle, rest);
    case Gap(_) => GapRead(word, mode, p, toggle, rest);
    case Note(_, _, _) => NoteRead(word, mode, p, toggle, rest);
    case Immediate(_, _, _) => ImmediateRead(word, mode, p, toggle, rest);
    case Literal(_) => LiteralRead(word, mode, p, toggle, rest);
    case Fill => LiteralRead(word, mode, p, toggle, rest);
  }

  lemma BlankIs(mode: ByteMode, c: char)
    requires IsEnd(c) || c == '<'
    ensures DigitOf(mode, c) == -1 && (c != '<' ==> c !in ":!@$~%&#;.<")
  {
  }

  predicate AllValid(word: bool, mode: ByteMode, ps: seq<Piece>, toggle: nat) {
    ps == [] || (Valid(word, mode, ps[0], toggle) && AllValid(word, mode, ps[1..], Toggle(mode, toggle, ItemOf(ps[0]))))
  }

  function Text(ps: seq<Piece>): string {
    if ps == [] then "" else TextOf(ps[0]) + Text(ps[1..])
  }

  function Items(ps: seq<Piece>): seq<Item> {
    if ps == [] then [] else [ItemOf(ps[0])] + Items(ps[1..])
  }

  /** A text is read as the items of its pieces: labels, pointers of every kind with and without a base,
      digits of either case, white space, remarks, and for RISC-V immediates, literal words and padding. */
  lemma {:induction false} TextRead(word: bool, mode: ByteMode, ps: seq<Piece>, toggle: nat)
    requires AllValid(word, mode, ps, toggle)
    ensures Lex(word, mode, Text(ps), toggle) == Items(ps)
    decreases |ps|
  {
    hide NextItem, TextOf, Valid, ItemOf, Toggle;
    if ps != [] {
      PieceRead(word, mode, ps[0], toggle, Text(ps[1..]));
      TextRead(word, mode, ps[1..], Toggle(mode, toggle, ItemOf(ps[0])));
    }
  }

  lemma {:induction false} TextConcat(a: seq<Piece>, b: seq<Piece>)
    ensures Text(a + b) == Text(a) + Text(b) && Items(a + b) == Items(a) + Items(b)
    decreases |a|
  {
    hide TextOf, ItemOf;
    if a == [] {
      assert a + b == b;
    } else {
      assert (a + b)[0] == a[0] && (a + b)[1..] == a[1..] + b;
      TextConcat(a[1..], b);
    }
  }
}
