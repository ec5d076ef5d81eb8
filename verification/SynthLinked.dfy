/** What hex2 makes of the text that synth-inject writes: the injected labels are where they say. */
module SynthLinked {
  import opened Wrappers
  import opened Numerals
  import opened Hex2Text
  import opened Hex2Link
  import opened SynthSpec
  import opened SynthText
  import M = M1ToHex2

  // ---- numbers ------------------------------------------------------------------------------------

  lemma DigitRead(d: nat, lower: bool)
    requires d < 16
    ensures DigitOf(Hex, DigitChar(d, lower)) == d
  {
  }

  lemma {:induction false} HexAppend(s: string, c: char, v: nat)
    requires AllHexDigits(s) && DigitOf(Hex, c) >= 0
    ensures AllHexDigits(s + [c]) && HexValue(s + [c], v) == HexValue(s, v) * 16 + DigitOf(Hex, c)
    decreases |s|
  {
    hide DigitOf;
    var t := s + [c];
    if s == "" {
      assert t == [c] && t[1..] == "";
    } else {
      assert t[0] == s[0] && t[1..] == s[1..] + [c];
      HexAppend(s[1..], c, v * 16 + DigitOf(Hex, s[0]));
    }
  }

  /** The number behind _plus_ is the one that is printed there. */
  lemma {:induction false} HexPrinted(n: nat, lower: bool)
    ensures var s := Printed(16, n, lower); AllHexDigits(s) && HexValue(s, 0) == n
    decreases n
  {
    hide Printed, DigitChar, DigitOf;
    var q, d := PrintedStep(16, n, lower);
    DigitRead(d, lower);
    if q > 0 {
      HexPrinted(q, lower);
      HexAppend(Printed(16, q, lower), DigitChar(d, lower), 0);
    } else {
      HexAppend("", DigitChar(d, lower), 0);
    }
  }

  // ---- bytes --------------------------------------------------------------------------------------

  /** A byte written as !0xXX, a label or a reference, as elf64-to-m1 emits them. */
  predicate IsEmitted(t: string) {
    M.IsToken(t) && t[0] in "!:%&"
  }

  predicate AreEmitted(ts: seq<string>) {
    forall k :: 0 <= k < |ts| ==> IsEmitted(ts[k])
  }

  lemma EmittedTokens(ts: seq<string>)
    requires AreEmitted(ts)
    ensures M.AreTokens(ts)
  {
  }

  /** What hex2 reads in the tokens. */
  function ItemsOf(ts: seq<string>): seq<Item>
    requires AreEmitted(ts)
  {
    EmittedTokens(ts);
    M.AllItems(ts)
  }

  /** synth-inject counts the bytes of a token as hex2 does. */
  lemma BytesAgree(t: string, ip: int)
    requires IsEmitted(t)
    ensures MoveAll(Hex, Place(ip, 0), M.TokenItems(t)) == Place(ip + TokenBytes(t), 0)
  {
    M.TokenMoves(t, ip);
  }

  /** And a reference of every kind as long as its pointer. */
  lemma ReferenceBytes(kind: char, name: string)
    requires kind in POINTERS
    ensures TokenBytes([kind] + name) == Width(kind)
  {
  }

  /** The labels of the tokens with their addresses. */
  function Where(ts: seq<string>, pos: int): seq<Entry> {
    if ts == [] then [] else (if IsLabel(ts[0]) then [Entry(ts[0][1..], pos)] else []) + Where(ts[1..], pos + TokenBytes(ts[0]))
  }

  lemma TokenLabels(t: string, ip: int)
    requires IsEmitted(t)
    ensures Labels(Hex, Place(ip, 0), M.TokenItems(t)) == if IsLabel(t) then [Entry(t[1..], ip)] else []
  {
    var items := M.TokenItems(t);
    assert |t| == 5 ==> t[..3][0] == t[0];
    if t[0] == ':' {
      assert items[1..] == [];
    } else {
      NoLabels(items, Place(ip, 0));
    }
  }

  lemma {:induction false} NoLabels(items: seq<Item>, s: Place)
    requires forall k :: 0 <= k < |items| ==> !items[k].Def?
    ensures Labels(Hex, s, items) == []
    decreases |items|
  {
    if items != [] {
      NoLabels(items[1..], Move(Hex, s, items[0]));
    }
  }

  /** hex2's first pass over the tokens. */
  lemma {:induction false} TokensPlaced(ts: seq<string>, ip: int)
    requires AreEmitted(ts)
    ensures MoveAll(Hex, Place(ip, 0), ItemsOf(ts)) == Place(ip + BytesOf(ts), 0)
    ensures Labels(Hex, Place(ip, 0), ItemsOf(ts)) == Where(ts, ip)
    decreases |ts|
  {
    hide M.TokenItems, M.IsToken, TokenBytes, IsLabel, IsEmitted;
    EmittedTokens(ts);
    if ts != [] {
      var t, rest := ts[0], ts[1..];
      assert IsEmitted(t) && AreEmitted(rest);
      EmittedTokens(rest);
      M.AllFirst(ts);
      BytesAgree(t, ip);
      TokenLabels(t, ip);
      TokensPlaced(rest, ip + TokenBytes(t));
      MoveConcat(Hex, Place(ip, 0), M.TokenItems(t), M.AllItems(rest));
    }
  }

  // ---- the injected text --------------------------------------------------------------------------

  /** Injected lines are labels. */
  predicate Tidy(ls: seq<Line>) {
    forall k :: 0 <= k < |ls| && ls[k].injected ==> IsLabel(ls[k].text)
  }

  predicate OnlyInjected(ls: seq<Line>, l: string) {
    forall k :: 0 <= k < |ls| && !ls[k].injected ==> ls[k].text != ":" + l
  }

  predicate NeverInjected(ls: seq<Line>, l: string) {
    forall k :: 0 <= k < |ls| && ls[k].injected ==> ls[k].text != ":" + l
  }

  lemma TextOfLabel(x: string, l: string)
    ensures IsLabel(x) && x[1..] == l <==> x == ":" + l
  {
    if IsLabel(x) {
      assert x == ":" + x[1..];
    }
    assert (":" + l)[1..] == l;
  }

  /** Where the last injected line of a label is. */
  lemma {:induction false} InjectedTarget(ls: seq<Line>, pos: nat, b: int, l: string)
    requires Tidy(ls) && OnlyInjected(ls, l)
    ensures var q := InjectedAt(ls, pos, l); Target(Where(Texts(ls), b + pos), l) == if q == [] then None else Some(b + q[|q| - 1])
    decreases |ls|
  {
    hide Target;
    if ls == [] {
      NoEntries(l);
    } else {
      var x, rest := ls[0], ls[1..];
      var us := Texts(ls);
      assert us[0] == x.text && us[1..] == Texts(rest);
      InjectedTarget(rest, pos + (if x.injected then 0 else TokenBytes(x.text)), b, l);
      TextOfLabel(x.text, l);
      FirstEntry(if IsLabel(x.text) then [Entry(x.text[1..], b + pos)] else [], Where(Texts(rest), b + pos + TokenBytes(x.text)), l);
    }
  }

  lemma NoEntries(l: string)
    ensures Target([], l) == None
  {
  }

  lemma FirstEntry(a: seq<Entry>, rest: seq<Entry>, l: string)
    requires |a| <= 1
    ensures Target(a + rest, l) == if Target(rest, l).Some? then Target(rest, l) else if a != [] && a[0].name == l then Some(a[0].target) else None
  {
    TargetConcat(a, rest, l);
    if a != [] {
      assert a[..0] == [];
    }
  }

  /** A label that is never injected has the address it would have without the injected lines. */
  lemma {:induction false} OwnTarget(ls: seq<Line>, ip: int, l: string)
    requires Tidy(ls) && NeverInjected(ls, l)
    ensures Target(Where(Texts(ls), ip), l) == Target(Where(Erase(ls), ip), l)
    decreases |ls|
  {
    hide Target;
    if ls != [] {
      var x, rest := ls[0], ls[1..];
      var us := Texts(ls);
      assert us[0] == x.text && us[1..] == Texts(rest);
      OwnTarget(rest, ip + TokenBytes(x.text), l);
      TextOfLabel(x.text, l);
      var first := if IsLabel(x.text) then [Entry(x.text[1..], ip)] else [];
      FirstEntry(first, Where(Texts(rest), ip + TokenBytes(x.text)), l);
      if x.injected {
        assert [] + Erase(rest) == Erase(rest);
      } else {
        assert ([x.text] + Erase(rest))[1..] == Erase(rest);
        FirstEntry(first, Where(Erase(rest), ip + TokenBytes(x.text)), l);
      }
    }
  }

  /** The one token that defines a label. */
  lemma {:induction false} OneTarget(ts: seq<string>, ip: int, l: string, k: nat)
    requires k < |ts| && Defines(ts[k], l) && NotDefined(ts[k + 1..], l)
    ensures Target(Where(ts, ip), l) == Some(ip + BytesOf(ts[..k]))
    decreases k
  {
    hide Target;
    var t, rest := ts[0], ts[1..];
    TextOfLabel(t, l);
    FirstEntry(if IsLabel(t) then [Entry(t[1..], ip)] else [], Where(rest, ip + TokenBytes(t)), l);
    if k == 0 {
      assert ts[0 + 1..] == rest && ts[..0] == [];
      Undefined(rest, ip + TokenBytes(t), l);
    } else {
      assert rest[k - 1] == ts[k] && rest[k - 1 + 1..] == ts[k + 1..];
      assert ts[..k][0] == t && ts[..k][1..] == rest[..k - 1];
      OneTarget(rest, ip + TokenBytes(t), l, k - 1);
    }
  }

  lemma {:induction false} Undefined(ts: seq<string>, ip: int, l: string)
    requires NotDefined(ts, l)
    ensures Target(Where(ts, ip), l) == None
    decreases |ts|
  {
    hide Target;
    if ts == [] {
      NoEntries(l);
    } else {
      Shorter(ts, l);
      Undefined(ts[1..], ip + TokenBytes(ts[0]), l);
      TextOfLabel(ts[0], l);
      FirstEntry(if IsLabel(ts[0]) then [Entry(ts[0][1..], ip)] else [], Where(ts[1..], ip + TokenBytes(ts[0])), l);
    }
  }

  lemma {:induction false} ReferencedNames(ts: seq<string>, l: string)
    requires AreEmitted(ts) && l in Referenced(ts)
    ensures IsEmitted(":" + l)
    decreases |ts|
  {
    var t := ts[0];
    assert IsEmitted(t) && AreEmitted(ts[1..]);
    if l in Referenced(ts[1..]) {
      ReferencedNames(ts[1..], l);
    } else {
      assert |t| == 5 ==> t[..3][0] == t[0];
      WholeName(t[1..]);
      assert (":" + l)[1..] == l;
    }
  }

  lemma {:induction false} WholeName(s: string)
    requires M.Named(s)
    ensures Stripped(s) == s
    decreases |s|
  {
    if s != "" {
      assert s[0] !in SEPARATORS;
      WholeName(s[1..]);
    }
  }

  /** A line of the third pass, for what follows. */
  lemma LinesEmitted(ts: seq<string>, ls: seq<Line>)
    requires AreEmitted(ts) && AllShow(ts, ls) && Erase(ls) == ts
    ensures AreEmitted(Texts(ls)) && Tidy(ls)
  {
    hide M.IsToken, M.TokenItems, Referenced, Defined, IsPlain;
    forall k | 0 <= k < |ls|
      ensures IsEmitted(ls[k].text) && (ls[k].injected ==> IsLabel(ls[k].text))
    {
      assert Shows(ts, ls[k]);
      if ls[k].injected {
        ReferencedNames(ts, ls[k].text[1..]);
        TextOfLabel(ls[k].text, ls[k].text[1..]);
      } else {
        OwnIn(ls, k);
      }
    }
    TextsAt(ls);
  }

  lemma {:induction false} OwnIn(ls: seq<Line>, k: nat)
    requires k < |ls| && !ls[k].injected
    ensures ls[k].text in Erase(ls)
    decreases k
  {
    if k > 0 {
      assert ls[1..][k - 1] == ls[k];
      OwnIn(ls[1..], k - 1);
    }
  }

  lemma {:induction false} TextsAt(ls: seq<Line>)
    ensures |Texts(ls)| == |ls| && forall k :: 0 <= k < |ls| ==> Texts(ls)[k] == ls[k].text
    decreases |ls|
  {
    if ls != [] {
      TextsAt(ls[1..]);
    }
  }

  /** Which lines define a label: the injected ones if it is missing in the input, the others if not. */
  lemma LinesOf(ts: seq<string>, ls: seq<Line>, l: string)
    requires AllShow(ts, ls) && Erase(ls) == ts
    ensures Missing(ts, l) ==> OnlyInjected(ls, l)
    ensures l in Defined(ts) ==> NeverInjected(ls, l)
  {
    hide Referenced, Defined, IsPlain;
    assert (":" + l)[1..] == l;
    forall k | 0 <= k < |ls|
      ensures ls[k].text == ":" + l ==> (ls[k].injected <==> Missing(ts, l))
    {
      assert Shows(ts, ls[k]);
    }
  }

  function SymOf(l: string): string
    requires PlusPos(l) >= 0
  {
    l[..PlusPos(l)]
  }

  function HexOf(l: string): nat
    requires PlusPos(l) >= 0
  {
    HexValue(l[PlusPos(l) + 6..], 0)
  }

  /** l is missing, the token at k alone defines its sym, and a token begins or the stream ends hex bytes
      further. */
  ghost predicate Placeable(ts: seq<string>, l: string, k: nat) {
    && AreEmitted(ts) && Missing(ts, l) && PlusPos(l) >= 0 && k < |ts|
    && Defines(ts[k], SymOf(l)) && NotDefined(ts[..k], SymOf(l)) && NotDefined(ts[k + 1..], SymOf(l))
    && Boundary(ts, 0, BytesOf(ts[..k]) + HexOf(l))
  }

  /** hex2's addresses of sym_plus_hex and sym in these tokens differ by hex. */
  ghost predicate Apart(us: seq<string>, l: string, b: int) {
    && AreEmitted(us) && PlusPos(l) >= 0
    && var labels := Labels(Hex, Place(b, 0), ItemsOf(us));
    && Target(labels, SymOf(l)).Some? && Target(labels, l).Some?
    && Target(labels, l).value - Target(labels, SymOf(l)).value == HexOf(l)
  }

  /** In the text that is written hex2 gives an injected label sym_plus_hex the address of sym plus the
      number hex, from every base. */
  lemma InjectedLinked(file: string, need: Need, l: string, k: nat, b: int)
    requires NeedFor(Words(file), need) && Placeable(Words(file), l, k)
    ensures Apart(Words(Text(Pass(need, Words(file), 0, map[]))), l, b)
  {
    var ts := Words(file);
    assert ts[0..] == ts && Scheduled(ts, map[]);
    var ls := Pass(need, ts, 0, map[]);
    assert AreEmitted(ts);
    hide *;
    WordsPlain(file);
    PassShows(ts, need, 0, 0, map[]);
    ShownPlain(ts, ls);
    TextRead(ls);
    PassErased(need, ts, 0, map[]);
    LinesEmitted(ts, ls);
    LinesApart(ts, need, ls, l, k, b);
  }

  lemma LinesApart(ts: seq<string>, need: Need, ls: seq<Line>, l: string, k: nat, b: int)
    requires NeedFor(ts, need) && Placeable(ts, l, k) && ls == Pass(need, ts, 0, map[])
    requires AllShow(ts, ls) && Erase(ls) == ts && Tidy(ls) && AreEmitted(Texts(ls))
    ensures Apart(Texts(ls), l, b)
  {
    assert NotDefined(ts[k + 1..], SymOf(l)) && Defines(ts[k], SymOf(l));
    var sym := SymOf(l);
    var p, q := BytesOf(ts[..k]), BytesOf(ts[..k]) + HexOf(l);
    PlacedOnce(ts, need, l, k);
    assert Missing(ts, l) && PlusPos(l) >= 0 && k < |ts|;
    hide *;
    DefinedHere(ts, sym, k);
    LabelTarget(ts, ls, l, q, b);
    SymTarget(ts, ls, sym, k, b);
    TokensPlaced(Texts(ls), b);
    ApartBecause(Texts(ls), l, b, b + p, b + q);
  }

  lemma PlacedOnce(ts: seq<string>, need: Need, l: string, k: nat)
    requires NeedFor(ts, need) && Placeable(ts, l, k)
    ensures InjectedAt(Pass(need, ts, 0, map[]), 0, l) == [BytesOf(ts[..k]) + HexOf(l)]
  {
    hide Pass, NeedFor, InjectedAt, Boundary, Missing, AreEmitted, BytesOf, NotDefined, HexValue, PlusPos;
    LabelPlaced(ts, need, l, k);
  }

  lemma LabelTarget(ts: seq<string>, ls: seq<Line>, l: string, q: nat, b: int)
    requires Missing(ts, l) && AllShow(ts, ls) && Erase(ls) == ts && Tidy(ls) && InjectedAt(ls, 0, l) == [q]
    ensures Target(Where(Texts(ls), b), l) == Some(b + q)
  {
    hide *;
    LinesOf(ts, ls, l);
    InjectedTarget(ls, 0, b, l);
  }

  lemma SymTarget(ts: seq<string>, ls: seq<Line>, sym: string, k: nat, b: int)
    requires sym in Defined(ts) && AllShow(ts, ls) && Erase(ls) == ts && Tidy(ls)
    requires k < |ts| && Defines(ts[k], sym) && NotDefined(ts[k + 1..], sym)
    ensures Target(Where(Texts(ls), b), sym) == Some(b + BytesOf(ts[..k]))
  {
    hide *;
    LinesOf(ts, ls, sym);
    OwnTarget(ls, b, sym);
    OneTarget(ts, b, sym, k);
  }

  lemma ApartBecause(us: seq<string>, l: string, b: int, p: int, q: int)
    requires AreEmitted(us) && PlusPos(l) >= 0 && Labels(Hex, Place(b, 0), ItemsOf(us)) == Where(us, b)
    requires Target(Where(us, b), SymOf(l)) == Some(p) && Target(Where(us, b), l) == Some(q) && q - p == HexOf(l)
    ensures Apart(us, l, b)
  {
  }

  lemma DefinedHere(ts: seq<string>, l: string, k: nat)
    requires k < |ts| && Defines(ts[k], l)
    ensures l in Defined(ts)
  {
    DefinedBy(ts, l);
  }
}
