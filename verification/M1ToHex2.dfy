/** The translator from M1 text to hex2 text, m1-to-hex2.c: it keeps count of the addresses hex2 will
    assign and pads with zeros in front of the labels that have to be aligned. */
module M1ToHex2 {
  import opened Wrappers
  import opened Arith
  import opened Bits
  import opened Hex2Text
  import opened Hex2Link
  import opened HexWords

  const PAGE := 0x1_0000

  // ---- what hex2 reads, spaces aside ----------------------------------------------------------------

  function Strip(items: seq<Item>): seq<Item> {
    if items == [] then [] else (if items[0].Skip? then [] else [items[0]]) + Strip(items[1..])
  }

  lemma {:induction false} StripConcat(a: seq<Item>, b: seq<Item>)
    ensures Strip(a + b) == Strip(a) + Strip(b)
    decreases |a|
  {
    if a == [] {
      assert a + b == b;
    } else {
      assert (a + b)[0] == a[0] && (a + b)[1..] == a[1..] + b;
      StripConcat(a[1..], b);
    }
  }

  /** Between two bytes hex2 reads t as these items and spaces. */
  ghost predicate Reads(t: string, xs: seq<Item>) {
    exists items :: Spells(Hex, t, items) && Strip(items) == xs
  }

  lemma ReadsConcat(t: string, x: seq<Item>, u: string, y: seq<Item>)
    requires Reads(t, x) && Reads(u, y)
    ensures Reads(t + u, x + y)
  {
    hide Spells, Strip;
    var a :| Spells(Hex, t, a) && Strip(a) == x;
    var b :| Spells(Hex, u, b) && Strip(b) == y;
    SpellsConcat(Hex, t, a, u, b);
    StripConcat(a, b);
  }

  lemma ReadsNothing()
    ensures Reads("", [])
  {
    forall rest: string
      ensures Lex(false, Hex, "" + rest, 0) == [] + Lex(false, Hex, rest, 0)
    {
      assert "" + rest == rest;
    }
    assert Spells(Hex, "", []) && Strip([]) == [];
  }

  lemma ReadsSpace(c: char)
    requires IsSpace(c)
    ensures Reads([c], [])
  {
    forall rest: string
      ensures Lex(false, Hex, [c] + rest, 0) == [Skip] + Lex(false, Hex, rest, 0)
    {
      assert ([c] + rest)[1..] == rest;
    }
    assert Spells(Hex, [c], [Skip]);
    assert [Skip][1..] == [] && Strip([Skip]) == [];
  }

  /** Two digits are a byte, with or without a space behind them. */
  lemma ReadsDigits(c: char, d: char)
    requires DigitOf(Hex, c) >= 0 && DigitOf(Hex, d) >= 0
    ensures Reads([c, d], [Digit(DigitOf(Hex, c)), Digit(DigitOf(Hex, d))])
  {
    var items := [Digit(DigitOf(Hex, c)), Digit(DigitOf(Hex, d))];
    forall rest: string
      ensures Lex(false, Hex, [c, d] + rest, 0) == items + Lex(false, Hex, rest, 0)
    {
      LexTwo(c, d, rest);
    }
    assert Spells(Hex, [c, d], items);
    StripTwo(items[0], items[1]);
  }

  lemma StripTwo(a: Item, b: Item)
    requires !a.Skip? && !b.Skip?
    ensures Strip([a, b]) == [a, b]
  {
    assert [a, b][1..] == [b] && [b][1..] == [];
    assert Strip([b]) == [b] + [];
    assert Strip([a, b]) == [a] + Strip([b]);
  }

  lemma LexTwo(c: char, d: char, rest: string)
    requires DigitOf(Hex, c) >= 0 && DigitOf(Hex, d) >= 0
    ensures Lex(false, Hex, [c, d] + rest, 0) == [Digit(DigitOf(Hex, c)), Digit(DigitOf(Hex, d))] + Lex(false, Hex, rest, 0)
  {
    hide NextItem, DigitOf;
    var t := [c, d] + rest;
    assert t[0] == c && t[1..] == [d] + rest && t[1..][0] == d && t[1..][1..] == rest;
    DigitPlain(c);
    DigitPlain(d);
    NextDigit(Hex, t, 0);
    NextDigit(Hex, t[1..], 1);
    LexFirst(t, 0);
    LexFirst(t[1..], 1);
    assert [Digit(DigitOf(Hex, c))] + ([Digit(DigitOf(Hex, d))] + Lex(false, Hex, rest, 0))
        == [Digit(DigitOf(Hex, c)), Digit(DigitOf(Hex, d))] + Lex(false, Hex, rest, 0);
  }

  lemma DigitPlain(c: char)
    requires DigitOf(Hex, c) >= 0
    ensures c !in ":!@$~%&#;"
  {
  }

  lemma LexFirst(t: string, toggle: nat)
    requires t != ""
    ensures var (x, rest) := NextItem(false, Hex, t, toggle); Lex(false, Hex, t, toggle) == [x] + Lex(false, Hex, rest, Toggle(Hex, toggle, x))
  {
    hide NextItem, Toggle;
  }

  /** A label or a reference together with the space behind it. */
  lemma ReadsNamed(kind: char, name: string, c: char)
    requires (kind == ':' || kind == '%' || kind == '&') && Named(name) && IsSpace(c)
    ensures Reads([kind] + name + [c], [if kind == ':' then Def(name) else Ref(kind, name, None)])
  {
    var t := [kind] + name + [c];
    var x := if kind == ':' then Def(name) else Ref(kind, name, None);
    forall rest: string
      ensures Lex(false, Hex, t + rest, 0) == [x] + Lex(false, Hex, rest, 0)
    {
      var u := name + [c] + rest;
      assert t + rest == [kind] + u && ([kind] + u)[1..] == u;
      TokenEndIs(name, c, rest);
      LexFirst([kind] + u, 0);
    }
    assert Spells(Hex, t, [x]);
    assert [x][1..] == [] && Strip([x]) == [x];
  }

  /** At the end of a file no space is needed. */
  lemma ReadsNamedLast(kind: char, name: string)
    requires (kind == ':' || kind == '%' || kind == '&') && Named(name) && name != ""
    ensures ReadsAs([kind] + name, [if kind == ':' then Def(name) else Ref(kind, name, None)])
  {
    var t := [kind] + name;
    var x := if kind == ':' then Def(name) else Ref(kind, name, None);
    assert t[1..] == name;
    TokenEndLast(name);
    LexFirst(t, 0);
    NothingToLex();
    assert [x] + [] == [x];
    assert [x][1..] == [] && Strip([x]) == [x];
  }

  lemma {:induction false} TokenEndLast(name: string)
    requires Named(name)
    ensures TokenEnd(name) == |name| && !EndsWith(name, '>') && AfterToken(name) == "" && (name != "" ==> TokenName(name) == name)
    decreases |name|
  {
    if name != "" {
      TokenEndLast(name[1..]);
    }
    assert name[..|name|] == name;
  }

  /** No separator of hex2. */
  predicate Named(name: string) {
    forall k :: 0 <= k < |name| ==> name[k] !in SEPARATORS
  }

  lemma {:induction false} TokenEndIs(name: string, c: char, rest: string)
    requires Named(name) && IsSpace(c)
    ensures var u := name + [c] + rest; TokenEnd(u) == |name| && TokenName(u) == name && AfterToken(u) == rest && !EndsWith(u, '>')
    decreases |name|
  {
    var u := name + [c] + rest;
    if name != "" {
      assert u[1..] == name[1..] + [c] + rest;
      TokenEndIs(name[1..], c, rest);
    }
    assert u[..|name|] == name && u[|name| + 1..] == rest;
  }

  // ---- spaces make no difference to the passes --------------------------------------------------------

  lemma StripFirst(items: seq<Item>)
    requires items != []
    ensures items[0].Skip? ==> Strip(items) == Strip(items[1..])
    ensures !items[0].Skip? ==> Strip(items) != [] && Strip(items)[0] == items[0] && Strip(items)[1..] == Strip(items[1..])
  {
  }

  lemma {:induction false} StripMoves(s: Place, items: seq<Item>)
    ensures MoveAll(Hex, s, items) == MoveAll(Hex, s, Strip(items)) && Labels(Hex, s, items) == Labels(Hex, s, Strip(items))
    decreases |items|
  {
    if items != [] {
      var x := items[0];
      StripMoves(Move(Hex, s, x), items[1..]);
      StripFirst(items);
      if x.Skip? {
        assert Labels(Hex, s, items) == [] + Labels(Hex, s, items[1..]);
      }
    }
  }

  lemma {:induction false} StripOutput(big: bool, labels: seq<Entry>, s: Place, c: Carry, items: seq<Item>)
    ensures Output(Hex, big, labels, s, c, items) == Output(Hex, big, labels, s, c, Strip(items))
    decreases |items|
  {
    hide Write, Move, Next, Shift;
    if items != [] {
      var x := items[0];
      StripOutput(big, labels, Move(Hex, s, x), Next(Hex, big, labels, s, c, x), items[1..]);
      StripFirst(items);
      if x.Skip? {
        SkipIdle(big, labels, s, c);
        BothSkip(Output(Hex, big, labels, s, c, items[1..]));
      }
    }
  }

  lemma SkipIdle(big: bool, labels: seq<Entry>, s: Place, c: Carry)
    ensures Write(Hex, big, labels, s, c, Skip) == Some([]) && Move(Hex, s, Skip) == s && Next(Hex, big, labels, s, c, Skip) == c
  {
  }

  lemma BothSkip(r: Option<seq<Byte>>)
    ensures Both(Some([]), r) == r
  {
    if r.Some? {
      assert [] + r.value == r.value;
    }
  }

  /** A whole file reads as these items and spaces. */
  predicate ReadsAs(t: string, xs: seq<Item>) {
    Strip(Lex(false, Hex, t, 0)) == xs
  }

  lemma ReadsWhole(t: string, xs: seq<Item>)
    requires Reads(t, xs)
    ensures ReadsAs(t, xs)
  {
    hide Strip, Lex;
    var items :| Spells(Hex, t, items) && Strip(items) == xs;
    NothingToLex();
    assert t + "" == t;
    assert Lex(false, Hex, t + "", 0) == items + [] == items;
  }

  /** A file whose end reads as x. */
  lemma ReadsEnd(t: string, xs: seq<Item>, u: string, x: seq<Item>)
    requires Reads(t, xs) && ReadsAs(u, x)
    ensures ReadsAs(t + u, xs + x)
  {
    hide Strip, Lex;
    var items :| Spells(Hex, t, items) && Strip(items) == xs;
    assert Lex(false, Hex, t + u, 0) == items + Lex(false, Hex, u, 0);
    StripConcat(items, Lex(false, Hex, u, 0));
  }

  /** Linking the file is linking what it reads as. */
  lemma ReadsLink(big: bool, base: int, t: string, xs: seq<Item>)
    requires ReadsAs(t, xs)
    ensures var items := LexAll(false, Hex, [t]);
      && Link(Hex, big, base, items) == Link(Hex, big, base, xs)
      && MoveAll(Hex, Place(base, 0), items) == MoveAll(Hex, Place(base, 0), xs)
      && Labels(Hex, Place(base, 0), items) == Labels(Hex, Place(base, 0), xs)
  {
    hide MoveAll, Labels, Output, Strip, Lex;
    var items := Lex(false, Hex, t, 0);
    OneFile(Hex, t);
    var s := Place(base, 0);
    StripMoves(s, items);
    var labels := Labels(Hex, s, items);
    StripOutput(big, labels, s, NOTHING, items);
    FileMoves(base, items);
    FileOutput(Hex, big, labels, base, items);
  }

  lemma NothingToLex()
    ensures Lex(false, Hex, "", 0) == []
  {
  }

  lemma FileMoves(base: int, items: seq<Item>)
    ensures MoveAll(Hex, Place(base, 0), [File] + items) == MoveAll(Hex, Place(base, 0), items)
    ensures Labels(Hex, Place(base, 0), [File] + items) == Labels(Hex, Place(base, 0), items)
  {
    assert ([File] + items)[1..] == items;
    assert [] + Labels(Hex, Place(base, 0), items) == Labels(Hex, Place(base, 0), items);
  }

  // ---- the tokens of elf64-to-m1 ----------------------------------------------------------------------

  /** Raw bytes written as !0xXX or XX, references and labels. */
  predicate IsToken(t: string) {
    || (|t| == 5 && t[..3] == "!0x" && DigitOf(Hex, t[3]) >= 0 && DigitOf(Hex, t[4]) >= 0)
    || (|t| == 2 && DigitOf(Hex, t[0]) >= 0 && DigitOf(Hex, t[1]) >= 0)
    || (|t| > 1 && (t[0] == ':' || t[0] == '%' || t[0] == '&') && Named(t[1..]))
  }

  /** What a token stands for. */
  function TokenItems(t: string): seq<Item>
    requires IsToken(t)
  {
    if t[0] == ':' then [Def(t[1..])]
    else if t[0] == '%' || t[0] == '&' then [Ref(t[0], t[1..], None)]
    else [Digit(DigitOf(Hex, t[|t| - 2])), Digit(DigitOf(Hex, t[|t| - 1]))]
  }

  predicate AreTokens(ts: seq<string>) {
    forall t :: t in ts ==> IsToken(t)
  }

  function AllItems(ts: seq<string>): seq<Item>
    requires AreTokens(ts)
  {
    if ts == [] then [] else TokenItems(ts[0]) + AllItems(ts[1..])
  }

  predicate IsBlank(c: char) {
    c == ' ' || c == '\t' || c == '\n'
  }

  /** The tokens of a text of which tok has been read already. */
  function Split(t: string, tok: string): seq<string>
    decreases |t|
  {
    if t == "" then Ended(tok)
    else if IsBlank(t[0]) then Ended(tok) + Split(t[1..], "")
    else Split(t[1..], tok + [t[0]])
  }

  function Ended(tok: string): seq<string> {
    if tok == "" then [] else [tok]
  }

  // ---- the layout -------------------------------------------------------------------------------------

  /** An --align-label option. */
  datatype Align = Align(name: string, value: int)

  /** The label that --auto-data-align aligns. */
  function DataLabel(): string {
    "ELF_data"
  }

  datatype Options = Options(autoData: bool, aligns: seq<Align>)

  function RoundedUp(address: nat): (v: nat)
    ensures v % PAGE == 0 && address <= v < address + PAGE
  {
    var q := (address + 0xFFFF) / PAGE;
    DivModUnique(q * PAGE, PAGE, q, 0);
    q * PAGE
  }

  function FirstAlign(aligns: seq<Align>, name: string): Option<int> {
    if aligns == [] then None else if aligns[0].name == name then Some(aligns[0].value) else FirstAlign(aligns[1..], name)
  }

  /** The first of the options that names a label counts. */
  lemma {:induction false} FirstAlignIs(aligns: seq<Align>, name: string, k: nat)
    requires k < |aligns| && aligns[k].name == name && forall j :: 0 <= j < k ==> aligns[j].name != name
    ensures FirstAlign(aligns, name) == Some(aligns[k].value)
    decreases k
  {
    if k > 0 {
      assert aligns[1..][k - 1] == aligns[k] && forall j :: 0 <= j < k - 1 ==> aligns[1..][j] == aligns[j + 1];
      FirstAlignIs(aligns[1..], name, k - 1);
    }
  }

  lemma {:induction false} NoAlign(aligns: seq<Align>, name: string)
    requires forall j :: 0 <= j < |aligns| ==> aligns[j].name != name
    ensures FirstAlign(aligns, name) == None
    decreases |aligns|
  {
    if aligns != [] {
      NoAlign(aligns[1..], name);
    }
  }

  /** Where a label has to go that is met at an address. A value below zero counts as none. */
  function Goal(o: Options, name: string, address: nat): (g: Option<nat>) {
    if o.autoData && name == DataLabel() then Some(RoundedUp(address))
    else
      match FirstAlign(o.aligns, name)
      case None => None
      case Some(v) => if v >= 0 then Some(v) else None
  }

  /** The address of a token that is met at an address; None is a call of exit. */
  function Aligned(o: Options, t: string, address: nat): (a: Option<nat>)
    requires t != ""
    ensures a.Some? ==> a.value >= address
  {
    if t[0] != ':' then Some(address)
    else
      match Goal(o, t[1..], address)
      case None => Some(address)
      case Some(v) => if address > v then None else Some(v)
  }

  function TokenWidth(t: string): nat
    requires t != ""
  {
    if t[0] == '%' || t[0] == '&' then 4 else if t[0] == ':' then 0 else 1
  }

  function ZeroItems(n: nat): (z: seq<Item>)
    ensures |z| == 2 * n
  {
    if n == 0 then [] else [Digit(0), Digit(0)] + ZeroItems(n - 1)
  }

  /** The items the output stands for: the tokens and the padding in front of aligned labels. */
  function Layout(o: Options, ts: seq<string>, address: nat): Option<seq<Item>>
    requires AreTokens(ts)
    decreases |ts|
  {
    if ts == [] then Some([])
    else
      assert IsToken(ts[0]);
      match Aligned(o, ts[0], address)
      case None => None
      case Some(a) =>
        match Layout(o, ts[1..], a + TokenWidth(ts[0]))
        case None => None
        case Some(rest) => Some(ZeroItems(a - address) + TokenItems(ts[0]) + rest)
  }

  /** The address behind the tokens. */
  function EndAddress(o: Options, ts: seq<string>, address: nat): nat
    requires AreTokens(ts)
    decreases |ts|
  {
    if ts == [] then address
    else
      assert IsToken(ts[0]);
      EndAddress(o, ts[1..], Aligned(o, ts[0], address).GetOr(address) + TokenWidth(ts[0]))
  }

  lemma TokenStarts(t: string)
    requires IsToken(t)
    ensures t != ""
  {
  }

  lemma {:induction false} ZeroMoves(ip: int, n: nat)
    ensures MoveAll(Hex, Place(ip, 0), ZeroItems(n)) == Place(ip + n, 0) && Labels(Hex, Place(ip, 0), ZeroItems(n)) == []
    decreases n
  {
    if n > 0 {
      var z := ZeroItems(n);
      assert z[1..] == [Digit(0)] + ZeroItems(n - 1) && z[1..][1..] == ZeroItems(n - 1);
      ZeroMoves(ip + 1, n - 1);
    }
  }

  lemma TokenMoves(t: string, ip: int)
    requires IsToken(t)
    ensures MoveAll(Hex, Place(ip, 0), TokenItems(t)) == Place(ip + TokenWidth(t), 0)
  {
    assert |t| == 5 ==> t[..3][0] == t[0];
    if t[0] == ':' || t[0] == '%' || t[0] == '&' {
      assert TokenItems(t)[1..] == [];
    } else {
      ByteMoves(DigitOf(Hex, t[|t| - 2]), DigitOf(Hex, t[|t| - 1]), ip);
    }
  }

  lemma ByteMoves(c: nat, d: nat, ip: int)
    ensures MoveAll(Hex, Place(ip, 0), [Digit(c), Digit(d)]) == Place(ip + 1, 0)
  {
    var items := [Digit(c), Digit(d)];
    assert items[1..] == [Digit(d)] && [Digit(d)][1..] == [];
    assert MoveAll(Hex, Place(ip, 0), items) == MoveAll(Hex, Place(ip, 1), [Digit(d)]);
    assert MoveAll(Hex, Place(ip, 1), [Digit(d)]) == MoveAll(Hex, Place(ip + 1, 0), []);
  }

  /** hex2's first pass counts as the translator does. */
  lemma {:induction false} AddressesAgree(o: Options, ts: seq<string>, address: nat)
    requires AreTokens(ts) && Layout(o, ts, address).Some?
    ensures MoveAll(Hex, Place(address, 0), Layout(o, ts, address).value) == Place(EndAddress(o, ts, address), 0)
    decreases |ts|
  {
    hide Aligned, TokenItems, IsToken, ZeroItems, TokenWidth;
    if ts != [] {
      var t := ts[0];
      TokenStarts(t) by { assert t in ts; }
      var a := Aligned(o, t, address).value;
      var pad, here, rest := ZeroItems(a - address), TokenItems(t), Layout(o, ts[1..], a + TokenWidth(t)).value;
      ZeroMoves(address, a - address);
      TokenMoves(t, a);
      AddressesAgree(o, ts[1..], a + TokenWidth(t));
      MoveConcat(Hex, Place(address, 0), pad + here, rest);
      MoveConcat(Hex, Place(address, 0), pad, here);
    }
  }

  /** The layout of the tokens before position k and that of the others. */
  lemma {:induction false} LayoutSplit(o: Options, ts: seq<string>, address: nat, k: nat)
    requires AreTokens(ts) && k <= |ts| && Layout(o, ts, address).Some?
    ensures AreTokens(ts[..k]) && AreTokens(ts[k..])
    ensures var a, b := Layout(o, ts[..k], address), Layout(o, ts[k..], EndAddress(o, ts[..k], address));
      a.Some? && b.Some? && Layout(o, ts, address).value == a.value + b.value
    decreases k
  {
    hide Aligned, TokenItems, IsToken, ZeroItems, TokenWidth;
    if k == 0 {
      assert ts[..0] == [] && ts[0..] == ts;
      assert [] + Layout(o, ts, address).value == Layout(o, ts, address).value;
    } else {
      var t := ts[0];
      TokenStarts(t) by { assert t in ts; }
      var a := Aligned(o, t, address).value;
      LayoutSplit(o, ts[1..], a + TokenWidth(t), k - 1);
      assert ts[..k][0] == t && ts[..k][1..] == ts[1..][..k - 1] && ts[1..][k - 1..] == ts[k..];
      var first := ZeroItems(a - address) + TokenItems(t);
      var b := Layout(o, ts[1..][..k - 1], a + TokenWidth(t)).value;
      var c := Layout(o, ts[k..], EndAddress(o, ts[..k], address)).value;
      assert first + (b + c) == first + b + c;
    }
  }

  /** Without options the layout is the tokens. */
  lemma {:induction false} PlainLayout(o: Options, ts: seq<string>, address: nat)
    requires AreTokens(ts) && forall t :: t in ts && t[0] == ':' ==> FirstAlign(o.aligns, t[1..]).None? && !(o.autoData && t[1..] == DataLabel())
    ensures Layout(o, ts, address) == Some(AllItems(ts))
    decreases |ts|
  {
    hide TokenItems, TokenWidth;
    if ts != [] {
      assert IsToken(ts[0]);
      PlainLayout(o, ts[1..], address + TokenWidth(ts[0]));
      assert ZeroItems(0) == [] && [] + TokenItems(ts[0]) == TokenItems(ts[0]);
    }
  }

  predicate DefinesName(t: string, name: string) {
    t == ":" + name
  }

  lemma {:induction false} DefinedItems(o: Options, ts: seq<string>, address: nat, name: string)
    requires AreTokens(ts) && Layout(o, ts, address).Some? && forall t :: t in ts ==> !DefinesName(t, name)
    ensures Def(name) !in Layout(o, ts, address).value
    decreases |ts|
  {
    hide Aligned;
    if ts != [] {
      var t := ts[0];
      TokenStarts(t) by { assert t in ts; }
      var a := Aligned(o, t, address).value;
      DefinedItems(o, ts[1..], a + TokenWidth(t), name);
      ZeroDefines(a - address, name);
      NotDefined(t, name);
    }
  }

  lemma NotDefined(t: string, name: string)
    requires IsToken(t) && !DefinesName(t, name)
    ensures Def(name) !in TokenItems(t)
  {
    if t[0] == ':' {
      assert t == ":" + t[1..];
    }
  }

  lemma {:induction false} ZeroDefines(n: nat, name: string)
    ensures Def(name) !in ZeroItems(n)
    decreases n
  {
    if n > 0 {
      ZeroDefines(n - 1, name);
    }
  }

  /** Where every label lies that one token defines: at its goal, or else right behind the tokens
      before it. */
  lemma LabelPlaced(o: Options, ts: seq<string>, base: nat, k: nat, name: string)
    requires AreTokens(ts) && Layout(o, ts, base).Some? && k < |ts| && DefinesName(ts[k], name)
    requires forall j :: k < j < |ts| ==> !DefinesName(ts[j], name)
    ensures AreTokens(ts[..k])
    ensures var here := EndAddress(o, ts[..k], base);
      Target(Labels(Hex, Place(base, 0), Layout(o, ts, base).value), name) == Some(Goal(o, name, here).GetOr(here))
  {
    hide Target, Labels, MoveAll, EndAddress, TokenItems, ZeroItems, Goal, DataLabel;
    LayoutSplit(o, ts, base, k);
    var here := EndAddress(o, ts[..k], base);
    var before, later := Layout(o, ts[..k], base).value, Layout(o, ts[k..], here).value;
    assert ts[k..][0] == ts[k] && ts[k][1..] == name && ts[k..][1..] == ts[k + 1..];
    assert IsToken(ts[k]);
    var a := Aligned(o, ts[k], here).value;
    assert TokenItems(ts[k]) == [Def(name)] by { LabelItems(ts[k]); }
    var rest := Layout(o, ts[k + 1..], a + TokenWidth(ts[k])).value;
    DefinedItems(o, ts[k + 1..], a + TokenWidth(ts[k]), name);
    AddressesAgree(o, ts[..k], base);
    ZeroMoves(here, a - here);
    LastDefined(before, ZeroItems(a - here), rest, base, name);
  }

  lemma LabelItems(t: string)
    requires IsToken(t) && t[0] == ':'
    ensures TokenItems(t) == [Def(t[1..])]
  {
  }

  lemma LastDefined(before: seq<Item>, pad: seq<Item>, rest: seq<Item>, base: int, name: string)
    requires Def(name) !in rest
    ensures Target(Labels(Hex, Place(base, 0), before + (pad + [Def(name)] + rest)), name)
         == Some(MoveAll(Hex, MoveAll(Hex, Place(base, 0), before), pad).ip)
  {
    hide Target, Labels, MoveAll;
    var all := before + (pad + [Def(name)] + rest);
    var n := |before| + |pad|;
    assert all[..n] == before + pad && all[n] == Def(name) && all[n + 1..] == rest;
    TargetIsAddress(Hex, Place(base, 0), all, name);
    MoveConcat(Hex, Place(base, 0), before, pad);
  }

  /** With --auto-data-align and no other option, in front of the one token that defines ELF_data there
      are zeros up to the least multiple of the page size at or above the end of the code, hex2 gives
      ELF_data this address, and everything else is the tokens. */
  lemma DataAligned(o: Options, ts: seq<string>, base: nat, k: nat)
    requires AreTokens(ts) && o.autoData && o.aligns == [] && k < |ts| && DefinesName(ts[k], DataLabel())
    requires forall j :: 0 <= j < |ts| && j != k ==> !DefinesName(ts[j], DataLabel())
    ensures AreTokens(ts[..k]) && AreTokens(ts[k..]) && Layout(o, ts, base).Some?
    ensures var end := EndAddress(o, ts[..k], base); var v := RoundedUp(end);
      && Target(Labels(Hex, Place(base, 0), Layout(o, ts, base).value), DataLabel()) == Some(v)
      && Layout(o, ts, base).value == AllItems(ts[..k]) + (ZeroItems(v - end) + AllItems(ts[k..]))
  {
    hide TokenItems, ZeroItems, Target, Labels, RoundedUp, Layout, AllItems, EndAddress, DataLabel, IsToken;
    var code, data := ts[..k], ts[k + 1..];
    var end := EndAddress(o, code, base);
    NotData(code);
    PlainLayout(o, code, base);
    assert ts[k..][0] == ts[k] && ts[k..][1..] == data;
    assert forall j :: 0 <= j < |data| ==> data[j] == ts[k + 1 + j];
    DataLayout(o, ts[k..], end);
    LayoutJoin(o, ts, base, k);
    LabelPlaced(o, ts, base, k, DataLabel());
    assert Goal(o, DataLabel(), end) == Some(RoundedUp(end));
  }

  /** From the label on. */
  lemma DataLayout(o: Options, ts: seq<string>, end: nat)
    requires AreTokens(ts) && o.autoData && o.aligns == [] && ts != [] && DefinesName(ts[0], DataLabel())
    requires forall j :: 1 <= j < |ts| ==> !DefinesName(ts[j], DataLabel())
    ensures Layout(o, ts, end) == Some(ZeroItems(RoundedUp(end) - end) + AllItems(ts))
  {
    hide ZeroItems, RoundedUp, DataLabel, TokenItems, IsToken, Layout, AllItems, DefinesName;
    var v, data := RoundedUp(end), ts[1..];
    LabelToken(ts[0], DataLabel());
    NotData(data);
    PlainLayout(o, data, v);
    assert Aligned(o, ts[0], end) == Some(v);
    LayoutFirst(o, ts, end, v, AllItems(data));
    AllFirst(ts);
    JoinItems(ZeroItems(v - end), TokenItems(ts[0]), AllItems(data));
  }

  lemma LabelToken(t: string, name: string)
    requires DefinesName(t, name)
    ensures t != "" && t[0] == ':' && t[1..] == name && TokenWidth(t) == 0
  {
  }

  lemma JoinItems(a: seq<Item>, b: seq<Item>, c: seq<Item>)
    ensures a + b + c == a + (b + c)
  {
  }

  lemma AllFirst(ts: seq<string>)
    requires AreTokens(ts) && ts != []
    ensures IsToken(ts[0]) && AllItems(ts) == TokenItems(ts[0]) + AllItems(ts[1..])
  {
    hide TokenItems, IsToken;
  }

  lemma LayoutFirst(o: Options, ts: seq<string>, address: nat, a: nat, rest: seq<Item>)
    requires AreTokens(ts) && ts != [] && ts[0] != "" && Aligned(o, ts[0], address) == Some(a)
    requires Layout(o, ts[1..], a + TokenWidth(ts[0])) == Some(rest)
    ensures IsToken(ts[0]) && Layout(o, ts, address) == Some(ZeroItems(a - address) + TokenItems(ts[0]) + rest)
  {
    hide Aligned, TokenItems, IsToken, ZeroItems, TokenWidth;
  }

  lemma NotData(ts: seq<string>)
    requires AreTokens(ts) && forall t :: t in ts ==> !DefinesName(t, DataLabel())
    ensures forall t :: t in ts && t[0] == ':' ==> t[1..] != DataLabel()
  {
    forall t | t in ts && t[0] == ':'
      ensures t[1..] != DataLabel()
    {
      assert t == ":" + t[1..];
    }
  }

  lemma {:induction false} LayoutJoin(o: Options, ts: seq<string>, address: nat, k: nat)
    requires AreTokens(ts) && k <= |ts| && AreTokens(ts[..k]) && AreTokens(ts[k..])
    requires Layout(o, ts[..k], address).Some? && Layout(o, ts[k..], EndAddress(o, ts[..k], address)).Some?
    ensures Layout(o, ts, address) == Some(Layout(o, ts[..k], address).value + Layout(o, ts[k..], EndAddress(o, ts[..k], address)).value)
    decreases k
  {
    hide Aligned, TokenItems, IsToken, ZeroItems, TokenWidth;
    if k == 0 {
      assert ts[..0] == [] && ts[0..] == ts;
      assert [] + Layout(o, ts, address).value == Layout(o, ts, address).value;
    } else {
      var t := ts[0];
      TokenStarts(t) by { assert t in ts; }
      assert ts[..k][0] == t && ts[..k][1..] == ts[1..][..k - 1] && ts[1..][k - 1..] == ts[k..];
      var a := Aligned(o, t, address).value;
      LayoutJoin(o, ts[1..], a + TokenWidth(t), k - 1);
      var b := Layout(o, ts[1..][..k - 1], a + TokenWidth(t)).value;
      var c := Layout(o, ts[k..], EndAddress(o, ts[..k], address)).value;
      LayoutFirst(o, ts, address, a, b + c);
      JoinItems(ZeroItems(a - address) + TokenItems(t), b, c);
    }
  }
}
