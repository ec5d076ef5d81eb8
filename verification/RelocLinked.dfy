/** The offsets in the tables of hex2-data-relocs are the addresses that hex2 gives the same text. */
module RelocLinked {
  import opened Wrappers
  import opened Numerals
  import opened Hex2Text
  import opened Hex2Link
  import opened RelocSpec
  import H = Hex2Print

  /** A token with the character behind it, a gap, or a remark to the end of its line. */
  datatype Mark =
    | Label(name: string, end: char)
    | Reference(kind: char, name: string, end: char)
    | Bytes(ds: seq<H.Nibble>, lower: bool, end: char)
    | Gap(c: char)
    | Note(text: string)

  predicate IsMark(m: Mark) {
    match m
    case Label(name, end) => H.IsName(name) && '#' !in name && '\r' !in name && H.IsEnd(end)
    case Reference(kind, name, end) =>
      (kind == '!' || kind == '@' || kind == '$' || kind == '%' || kind == '&') && H.IsName(name) && '#' !in name && '\r' !in name && H.IsEnd(end)
    case Bytes(ds, _, end) => ds != [] && |ds| % 2 == 0 && H.IsEnd(end)
    case Gap(c) => H.IsEnd(c)
    case Note(text) => '\n' !in text && '\r' !in text
  }

  function DigitsText(ds: seq<H.Nibble>, lower: bool): (s: string)
    ensures |s| == |ds|
  {
    if ds == [] then "" else [DigitChar(ds[0], lower)] + DigitsText(ds[1..], lower)
  }

  /** The token of a mark, if it is one. */
  function TokenOf(m: Mark): string {
    match m
    case Label(name, _) => ":" + name
    case Reference(kind, name, _) => [kind] + name
    case Bytes(ds, lower, _) => DigitsText(ds, lower)
    case Gap(_) => ""
    case Note(_) => ""
  }

  function TextOf(m: Mark): string {
    match m
    case Gap(c) => [c]
    case Note(text) => "#" + (text + "\n")
    case _ => TokenOf(m) + [m.end]
  }

  function Text(ms: seq<Mark>): string {
    if ms == [] then "" else TextOf(ms[0]) + Text(ms[1..])
  }

  predicate AreMarks(ms: seq<Mark>) {
    forall k :: 0 <= k < |ms| ==> IsMark(ms[k])
  }

  // ---- what hex2 reads ------------------------------------------------------------------------------

  function Figures(ds: seq<H.Nibble>, lower: bool): seq<H.Piece> {
    if ds == [] then [] else [H.Figure(ds[0], lower)] + Figures(ds[1..], lower)
  }

  function PiecesOf(m: Mark): seq<H.Piece> {
    match m
    case Label(name, end) => [H.Label(name, end)]
    case Reference(kind, name, end) => [H.Pointer(kind, name, None, end)]
    case Bytes(ds, lower, end) => Figures(ds, lower) + [H.Gap(end)]
    case Gap(c) => [H.Gap(c)]
    case Note(text) => [H.Note('#', text, '\n')]
  }

  function Pieces(ms: seq<Mark>): seq<H.Piece> {
    if ms == [] then [] else PiecesOf(ms[0]) + Pieces(ms[1..])
  }

  lemma {:induction false} FiguresText(ds: seq<H.Nibble>, lower: bool, toggle: nat, rest: seq<H.Piece>)
    requires toggle < 2 && H.AllValid(false, Hex, rest, (toggle + |ds|) % 2)
    ensures H.Text(Figures(ds, lower)) == DigitsText(ds, lower) && H.AllValid(false, Hex, Figures(ds, lower) + rest, toggle)
    decreases |ds|
  {
    hide DigitChar;
    if ds == [] {
      assert Figures(ds, lower) + rest == rest;
    } else {
      var p := H.Figure(ds[0], lower);
      var next := (toggle + 1) % 2;
      FiguresText(ds[1..], lower, next, rest);
      assert Figures(ds, lower) + rest == [p] + (Figures(ds[1..], lower) + rest);
      assert ([p] + (Figures(ds[1..], lower) + rest))[1..] == Figures(ds[1..], lower) + rest;
      assert Figures(ds, lower)[1..] == Figures(ds[1..], lower);
    }
  }

  lemma MarkText(m: Mark, rest: seq<H.Piece>)
    requires IsMark(m) && H.AllValid(false, Hex, rest, 0)
    ensures H.Text(PiecesOf(m)) == TextOf(m) && H.AllValid(false, Hex, PiecesOf(m) + rest, 0)
  {
    hide DigitChar;
    if m.Bytes? {
      var gap := [H.Gap(m.end)];
      assert (gap + rest)[1..] == rest;
      FiguresText(m.ds, m.lower, 0, gap + rest);
      H.TextConcat(Figures(m.ds, m.lower), gap);
      assert gap[1..] == [] && H.Text(gap) == [m.end] + "";
      assert Figures(m.ds, m.lower) + gap + rest == Figures(m.ds, m.lower) + (gap + rest);
    } else {
      var p := PiecesOf(m)[0];
      assert PiecesOf(m) == [p] && [p][1..] == [] && ([p] + rest)[1..] == rest;
      assert H.Text([p]) == H.TextOf(p) + "";
      OneText(m);
    }
  }

  lemma OneText(m: Mark)
    requires !m.Bytes? && IsMark(m)
    ensures H.TextOf(PiecesOf(m)[0]) == TextOf(m) && H.Valid(false, Hex, PiecesOf(m)[0], 0) && Toggle(Hex, 0, H.ItemOf(PiecesOf(m)[0])) == 0
  {
    if m.Label? {
      assert ":" + (m.name + [m.end]) == (":" + m.name) + [m.end];
    } else if m.Reference? {
      assert [m.kind] + (m.name + [m.end]) == ([m.kind] + m.name) + [m.end];
    }
  }

  lemma {:induction false} TextPieces(ms: seq<Mark>)
    requires AreMarks(ms)
    ensures H.Text(Pieces(ms)) == Text(ms) && H.AllValid(false, Hex, Pieces(ms), 0)
    decreases |ms|
  {
    hide TextOf, PiecesOf, IsMark;
    if ms != [] {
      assert IsMark(ms[0]);
      TextPieces(ms[1..]);
      MarkText(ms[0], Pieces(ms[1..]));
      H.TextConcat(PiecesOf(ms[0]), Pieces(ms[1..]));
    }
  }

  // ---- what hex2-data-relocs reads ------------------------------------------------------------------

  function TokensOf(ms: seq<Mark>): seq<string> {
    if ms == [] then [] else Flush(TokenOf(ms[0])) + TokensOf(ms[1..])
  }

  predicate IsToken(w: string) {
    forall k :: 0 <= k < |w| ==> !IsBlank(w[k]) && w[k] != '#'
  }

  lemma {:induction false} WordRead(w: string, c: char, rest: string, tok: string)
    requires IsToken(w) && IsBlank(c)
    ensures Tokens(w + [c] + rest, tok, false) == Flush(tok + w) + Tokens(rest, "", false)
    decreases |w|
  {
    var t := w + [c] + rest;
    if w == "" {
      assert t[0] == c && t[1..] == rest && tok + w == tok;
    } else {
      assert t[0] == w[0] && t[1..] == w[1..] + [c] + rest && tok + w == tok + [w[0]] + w[1..];
      WordRead(w[1..], c, rest, tok + [w[0]]);
    }
  }

  lemma {:induction false} RemarkRead(text: string, rest: string)
    requires '\n' !in text
    ensures Tokens(text + "\n" + rest, "", true) == Tokens(rest, "", false)
    decreases |text|
  {
    var t := text + "\n" + rest;
    if text == "" {
      assert t[0] == '\n' && t[1..] == rest;
    } else {
      assert t[0] == text[0] && t[1..] == text[1..] + "\n" + rest;
      RemarkRead(text[1..], rest);
    }
  }

  lemma {:induction false} DigitsPlain(ds: seq<H.Nibble>, lower: bool)
    ensures IsToken(DigitsText(ds, lower)) && AllHex(DigitsText(ds, lower))
    ensures ds != [] ==> DigitsText(ds, lower)[0] !in ":!@$%&"
    decreases |ds|
  {
    if ds != [] {
      DigitsPlain(ds[1..], lower);
      DigitPlain(ds[0], lower);
    }
  }

  lemma DigitPlain(d: H.Nibble, lower: bool)
    ensures var c := DigitChar(d, lower); !IsBlank(c) && c != '#' && DigitOf(Hex, c) >= 0 && c !in ":!@$%&"
  {
  }

  lemma NamePlain(kind: char, name: string)
    requires H.IsName(name) && '#' !in name && '\r' !in name && (kind == ':' || kind == '!' || kind == '@' || kind == '$' || kind == '%' || kind == '&')
    ensures IsToken([kind] + name)
  {
  }

  lemma MarkRead(m: Mark, rest: string)
    requires IsMark(m)
    ensures Tokens(TextOf(m) + rest, "", false) == Flush(TokenOf(m)) + Tokens(rest, "", false)
  {
    if m.Gap? {
      assert ([m.c] + rest)[1..] == rest;
    } else if m.Note? {
      var t := "#" + (m.text + "\n") + rest;
      assert t[0] == '#' && t[1..] == m.text + "\n" + rest;
      RemarkRead(m.text, rest);
      assert [] + Tokens(rest, "", false) == Tokens(rest, "", false);
    } else {
      var w := TokenOf(m);
      assert IsToken(w) by { TokenPlain(m); }
      assert "" + w == w;
      WordRead(w, m.end, rest, "");
    }
  }

  lemma TokenPlain(m: Mark)
    requires IsMark(m) && !m.Gap? && !m.Note?
    ensures IsToken(TokenOf(m))
  {
    match m
    case Label(name, _) => NamePlain(':', name);
    case Reference(kind, name, _) => NamePlain(kind, name);
    case Bytes(ds, lower, _) => DigitsPlain(ds, lower);
  }

  lemma {:induction false} MarksRead(ms: seq<Mark>)
    requires AreMarks(ms)
    ensures Tokens(Text(ms), "", false) == TokensOf(ms)
    decreases |ms|
  {
    hide TextOf, TokenOf, IsMark;
    if ms != [] {
      assert IsMark(ms[0]);
      MarkRead(ms[0], Text(ms[1..]));
      MarksRead(ms[1..]);
    }
  }

  // ---- the tables -----------------------------------------------------------------------------------

  /** The references of a kind with the addresses of their pointers. */
  function RefsAt(s: Place, items: seq<Item>, kind: char): seq<Entry>
    decreases |items|
  {
    if items == [] then []
    else (if items[0].Ref? && items[0].kind == kind then [Entry(items[0].name, s.ip)] else []) + RefsAt(Move(Hex, s, items[0]), items[1..], kind)
  }

  lemma {:induction false} RefsConcat(s: Place, a: seq<Item>, b: seq<Item>, kind: char)
    ensures RefsAt(s, a + b, kind) == RefsAt(s, a, kind) + RefsAt(MoveAll(Hex, s, a), b, kind)
    decreases |a|
  {
    if a == [] {
      assert a + b == b;
    } else {
      assert (a + b)[0] == a[0] && (a + b)[1..] == a[1..] + b;
      RefsConcat(Move(Hex, s, a[0]), a[1..], b, kind);
    }
  }

  /** Names that are numbers are no labels. */
  function Symbols(es: seq<Entry>): seq<Entry> {
    if es == [] then [] else (if Numeric(es[0].name) then [] else [es[0]]) + Symbols(es[1..])
  }

  lemma {:induction false} SymbolsConcat(a: seq<Entry>, b: seq<Entry>)
    ensures Symbols(a + b) == Symbols(a) + Symbols(b)
    decreases |a|
  {
    hide Numeric;
    if a == [] {
      assert a + b == b;
    } else {
      assert (a + b)[0] == a[0] && (a + b)[1..] == a[1..] + b;
      SymbolsConcat(a[1..], b);
    }
  }

  /** A table has these entries, as offsets from base. */
  predicate Same(table: seq<Named>, es: seq<Entry>, base: int) {
    |table| == |es| && forall k :: 0 <= k < |es| ==> table[k].name == es[k].name && table[k].at == es[k].target - base
  }

  /** The offset of the first label of data, or -1. */
  function FirstData(labels: seq<Named>): int {
    if labels == [] then -1 else if labels[0].name == "ELF_data" || labels[0].name == "HEX2_data" then labels[0].at else FirstData(labels[1..])
  }

  lemma {:induction false} FirstDataAppend(labels: seq<Named>, x: Named)
    requires forall k :: 0 <= k < |labels| ==> labels[k].at >= 0
    ensures FirstData(labels + [x]) == if FirstData(labels) != -1 then FirstData(labels) else FirstData([x])
    ensures FirstData(labels) >= -1
    decreases |labels|
  {
    if labels == [] {
      assert labels + [x] == [x];
    } else {
      assert (labels + [x])[0] == labels[0] && (labels + [x])[1..] == labels[1..] + [x];
      FirstDataAppend(labels[1..], x);
    }
  }

  /** A table of references, of labels, for items that begin at base. */
  predicate RefsRecorded(table: seq<Named>, base: int, items: seq<Item>, kind: char) {
    Same(table, Symbols(RefsAt(Place(base, 0), items, kind)), base)
  }

  predicate LabelsRecorded(table: seq<Named>, data: int, base: int, items: seq<Item>) {
    Same(table, Labels(Hex, Place(base, 0), items), base) && data == FirstData(table) && forall k :: 0 <= k < |table| ==> table[k].at >= 0
  }

  /** All that is recorded. */
  predicate Recorded(s: Tables, base: int, items: seq<Item>) {
    && MoveAll(Hex, Place(base, 0), items) == Place(base + s.offset, 0) && LabelsRecorded(s.labels, s.data, base, items)
    && RefsRecorded(s.rels, base, items, '%') && RefsRecorded(s.abss, base, items, '&')
  }

  function MarkItems(m: Mark): seq<Item> {
    H.Items(PiecesOf(m))
  }

  function SizeOf(m: Mark): nat {
    match m
    case Reference(kind, _, _) => if kind == '!' then 1 else if kind == '@' || kind == '$' then 2 else 4
    case Bytes(ds, _, _) => |ds| / 2
    case _ => 0
  }

  lemma {:induction false} FiguresMove(ds: seq<H.Nibble>, lower: bool, ip: int)
    requires |ds| % 2 == 0
    ensures var items := H.Items(Figures(ds, lower)); var s := Place(ip, 0);
      && MoveAll(Hex, s, items) == Place(ip + |ds| / 2, 0) && Labels(Hex, s, items) == []
      && forall kind: char :: RefsAt(s, items, kind) == []
    decreases |ds|
  {
    if ds != [] {
      FiguresMove(ds[2..], lower, ip + 1);
      var rest := H.Items(Figures(ds[2..], lower));
      var items := H.Items(Figures(ds, lower));
      TwoFigures(ds, lower);
      assert items[1..] == [Digit(ds[1])] + rest && items[1..][1..] == rest;
      assert Move(Hex, Place(ip, 0), Digit(ds[0])) == Place(ip, 1) && Move(Hex, Place(ip, 1), Digit(ds[1])) == Place(ip + 1, 0);
      assert [] + Labels(Hex, Place(ip + 1, 0), rest) == [];
      forall kind: char
        ensures RefsAt(Place(ip, 0), items, kind) == []
      {
        assert RefsAt(Place(ip + 1, 0), rest, kind) == [];
        assert RefsAt(Place(ip, 1), items[1..], kind) == [] + RefsAt(Place(ip + 1, 0), rest, kind);
      }
    }
  }

  lemma TwoFigures(ds: seq<H.Nibble>, lower: bool)
    requires |ds| >= 2
    ensures H.Items(Figures(ds, lower)) == [Digit(ds[0]), Digit(ds[1])] + H.Items(Figures(ds[2..], lower))
  {
    var f := Figures(ds[2..], lower);
    assert ds[1..][1..] == ds[2..];
    assert Figures(ds, lower) == [H.Figure(ds[0], lower)] + ([H.Figure(ds[1], lower)] + f);
    assert Figures(ds, lower)[1..] == [H.Figure(ds[1], lower)] + f && ([H.Figure(ds[1], lower)] + f)[1..] == f;
  }

  /** hex2's first pass over one mark. */
  lemma MarkMoves(m: Mark, ip: int)
    requires IsMark(m)
    ensures var s := Place(ip, 0); var items := MarkItems(m);
      && MoveAll(Hex, s, items) == Place(ip + SizeOf(m), 0)
      && Labels(Hex, s, items) == if m.Label? then [Entry(m.name, ip)] else []
  {
    var s, items := Place(ip, 0), MarkItems(m);
    if m.Bytes? {
      BytesItems(m);
      FiguresMove(m.ds, m.lower, ip);
      MoveConcat(Hex, s, H.Items(Figures(m.ds, m.lower)), [Skip]);
      assert [Skip][1..] == [];
    } else {
      OneItem(PiecesOf(m)[0]);
      assert PiecesOf(m) == [PiecesOf(m)[0]] && items[1..] == [];
      assert Labels(Hex, Move(Hex, s, items[0]), []) == [];
    }
  }

  lemma MarkRefs(m: Mark, ip: int, kind: char)
    requires IsMark(m)
    ensures RefsAt(Place(ip, 0), MarkItems(m), kind) == if m.Reference? && m.kind == kind then [Entry(m.name, ip)] else []
  {
    var s, items := Place(ip, 0), MarkItems(m);
    if m.Bytes? {
      BytesItems(m);
      FiguresMove(m.ds, m.lower, ip);
      RefsConcat(s, H.Items(Figures(m.ds, m.lower)), [Skip], kind);
      assert [Skip][1..] == [];
    } else {
      OneItem(PiecesOf(m)[0]);
      assert PiecesOf(m) == [PiecesOf(m)[0]] && items[1..] == [];
      assert RefsAt(Move(Hex, s, items[0]), [], kind) == [];
    }
  }

  lemma BytesItems(m: Mark)
    requires m.Bytes?
    ensures MarkItems(m) == H.Items(Figures(m.ds, m.lower)) + [Skip]
  {
    H.TextConcat(Figures(m.ds, m.lower), [H.Gap(m.end)]);
    OneItem(H.Gap(m.end));
  }

  lemma OneItem(p: H.Piece)
    ensures H.Items([p]) == [H.ItemOf(p)]
  {
    assert [p][1..] == [] && H.Items([]) == [] && [H.ItemOf(p)] + [] == [H.ItemOf(p)];
  }

  /** What a token does to the tables. */
  lemma TokenEffect(s: Tables, m: Mark)
    requires IsMark(m) && TokenOf(m) != ""
    ensures Handle(s, TokenOf(m)).Some?
    ensures var t := Handle(s, TokenOf(m)).value; var x := Named(if m.Label? || m.Reference? then m.name else "", s.offset);
      && t.offset == s.offset + SizeOf(m)
      && t.labels == (if m.Label? then s.labels + [x] else s.labels)
      && t.rels == (if m.Reference? && m.kind == '%' && !Numeric(m.name) then s.rels + [x] else s.rels)
      && t.abss == (if m.Reference? && m.kind == '&' && !Numeric(m.name) then s.abss + [x] else s.abss)
      && t.data == (if m.Label? && s.data == -1 && IsDataLabel(m.name) then s.offset else s.data)
  {
    var w := TokenOf(m);
    if m.Bytes? {
      DigitsPlain(m.ds, m.lower);
    } else {
      assert w[1..] == m.name;
    }
  }

  /** At most one entry more. */
  lemma Extends(table: seq<Named>, es: seq<Entry>, base: int, more: bool, x: Named, e: Entry)
    requires Same(table, es, base) && x.name == e.name && x.at == e.target - base
    ensures Same(With(table, more, x), es + (if more then [e] else []), base)
  {
    assert es + [] == es;
  }

  function With(table: seq<Named>, more: bool, x: Named): seq<Named> {
    if more then table + [x] else table
  }

  /** Whether a mark is a reference that is recorded. */
  predicate IsSymbol(m: Mark, kind: char) {
    m.Reference? && m.kind == kind && !Numeric(m.name)
  }

  lemma RefsExtend(table: seq<Named>, base: int, offset: nat, items: seq<Item>, m: Mark, kind: char, x: Named)
    requires IsMark(m) && MoveAll(Hex, Place(base, 0), items) == Place(base + offset, 0) && RefsRecorded(table, base, items, kind)
    requires x.at == offset && (m.Reference? ==> x.name == m.name)
    ensures RefsRecorded(With(table, IsSymbol(m, kind), x), base, items + MarkItems(m), kind)
  {
    var es := Symbols(RefsAt(Place(base, 0), items, kind));
    var e := Entry(x.name, base + offset);
    assert Same(table, es, base);
    var add := if IsSymbol(m, kind) then [e] else [];
    RefsLists(base, offset, items, m, kind, e);
    hide *;
    Extends(table, es, base, IsSymbol(m, kind), x, e);
    RefsBecause(With(table, IsSymbol(m, kind), x), base, items + MarkItems(m), kind, es + add);
  }

  lemma RefsLists(base: int, offset: nat, items: seq<Item>, m: Mark, kind: char, e: Entry)
    requires IsMark(m) && MoveAll(Hex, Place(base, 0), items) == Place(base + offset, 0) && e.target == base + offset && (m.Reference? ==> e.name == m.name)
    ensures Symbols(RefsAt(Place(base, 0), items + MarkItems(m), kind))
         == Symbols(RefsAt(Place(base, 0), items, kind)) + if IsSymbol(m, kind) then [e] else []
  {
    MarkRefs(m, base + offset, kind);
    OneSymbol(e);
    var a, b := RefsAt(Place(base, 0), items, kind), RefsAt(Place(base + offset, 0), MarkItems(m), kind);
    assert b == (if m.Reference? && m.kind == kind then [e] else []);
    assert Symbols(b) == if IsSymbol(m, kind) then [e] else [];
    hide *;
    RefsConcat(Place(base, 0), items, MarkItems(m), kind);
    SymbolsConcat(a, b);
  }

  lemma RefsBecause(table: seq<Named>, base: int, items: seq<Item>, kind: char, es: seq<Entry>)
    requires Symbols(RefsAt(Place(base, 0), items, kind)) == es && Same(table, es, base)
    ensures RefsRecorded(table, base, items, kind)
  {
  }

  lemma LabelsExtend(table: seq<Named>, data: int, base: int, offset: nat, items: seq<Item>, m: Mark, x: Named)
    requires IsMark(m) && MoveAll(Hex, Place(base, 0), items) == Place(base + offset, 0) && LabelsRecorded(table, data, base, items)
    requires x.at == offset && (m.Label? ==> x.name == m.name)
    ensures LabelsRecorded(With(table, m.Label?, x), if m.Label? && data == -1 && IsDataLabel(x.name) then offset else data, base, items + MarkItems(m))
  {
    var es := Labels(Hex, Place(base, 0), items);
    var e := Entry(x.name, base + offset);
    var add := if m.Label? then [e] else [];
    assert Same(table, es, base) && data == FirstData(table) && forall k :: 0 <= k < |table| ==> table[k].at >= 0;
    MarkMoves(m, base + offset);
    assert With(table, m.Label?, x) == if m.Label? then table + [x] else table;
    hide *;
    MoveConcat(Hex, Place(base, 0), items, MarkItems(m));
    Extends(table, es, base, m.Label?, x, e);
    FirstDataAppend(table, x);
    OneData(x);
    LabelsBecause(With(table, m.Label?, x), if m.Label? && data == -1 && IsDataLabel(x.name) then offset else data, base, items + MarkItems(m), es + add);
  }

  lemma LabelsBecause(table: seq<Named>, data: int, base: int, items: seq<Item>, es: seq<Entry>)
    requires Labels(Hex, Place(base, 0), items) == es && Same(table, es, base) && data == FirstData(table)
    requires forall k :: 0 <= k < |table| ==> table[k].at >= 0
    ensures LabelsRecorded(table, data, base, items)
  {
  }

  /** One more mark. */
  lemma MarkRecorded(s: Tables, base: int, items: seq<Item>, m: Mark)
    requires Recorded(s, base, items) && IsMark(m)
    ensures TokenOf(m) == "" ==> Recorded(s, base, items + MarkItems(m))
    ensures TokenOf(m) != "" ==> Handle(s, TokenOf(m)).Some? && Recorded(Handle(s, TokenOf(m)).value, base, items + MarkItems(m))
  {
    var x := Named(if m.Label? || m.Reference? then m.name else "", s.offset);
    hide MoveAll, RefsRecorded, LabelsRecorded, MarkItems, Handle, TokenOf, IsMark, IsDataLabel, SizeOf, Numeric;
    MarkMoves(m, base + s.offset);
    MoveConcat(Hex, Place(base, 0), items, MarkItems(m));
    LabelsExtend(s.labels, s.data, base, s.offset, items, m, x);
    RefsExtend(s.rels, base, s.offset, items, m, '%', x);
    RefsExtend(s.abss, base, s.offset, items, m, '&', x);
    if TokenOf(m) != "" {
      TokenEffect(s, m);
    } else {
      NoToken(m);
    }
  }

  lemma NoToken(m: Mark)
    requires IsMark(m) && TokenOf(m) == ""
    ensures !m.Label? && !m.Reference? && SizeOf(m) == 0
  {
  }

  lemma OneSymbol(e: Entry)
    ensures Symbols([e]) == (if Numeric(e.name) then [] else [e]) && Symbols([]) == []
  {
    hide Numeric;
    assert [e][1..] == [];
  }

  lemma OneData(x: Named)
    ensures FirstData([x]) == if IsDataLabel(x.name) then x.at else -1
  {
    assert [x][1..] == [];
  }

  lemma {:induction false} MarksRecorded(s: Tables, base: int, items: seq<Item>, ms: seq<Mark>)
    requires Recorded(s, base, items) && AreMarks(ms) && NoEmpty(TokensOf(ms))
    ensures HandleAll(s, TokensOf(ms)).Some? && Recorded(HandleAll(s, TokensOf(ms)).value, base, items + H.Items(Pieces(ms)))
    decreases |ms|
  {
    if ms == [] {
      assert items + [] == items;
    } else {
      var m, rest := ms[0], ms[1..];
      var more, later := MarkItems(m), H.Items(Pieces(rest));
      assert IsMark(m) && AreMarks(rest);
      FirstToken(ms);
      assert H.Items(Pieces(ms)) == more + later by { H.TextConcat(PiecesOf(m), Pieces(rest)); }
      hide *;
      MarkRecorded(s, base, items, m);
      ItemsJoin(items, more, later);
      if TokenOf(m) == "" {
        MarksRecorded(s, base, items + more, rest);
      } else {
        MarksRecorded(Handle(s, TokenOf(m)).value, base, items + more, rest);
        HandleFirst(s, TokenOf(m), TokensOf(rest));
      }
    }
  }

  lemma ItemsJoin(a: seq<Item>, b: seq<Item>, c: seq<Item>)
    ensures (a + b) + c == a + (b + c)
  {
  }

  lemma FirstToken(ms: seq<Mark>)
    requires ms != [] && NoEmpty(TokensOf(ms))
    ensures var w, rest := TokenOf(ms[0]), TokensOf(ms[1..]); TokensOf(ms) == (if w == "" then rest else [w] + rest) && NoEmpty(rest)
  {
    hide TokenOf;
    var w, rest := TokenOf(ms[0]), TokensOf(ms[1..]);
    assert [] + rest == rest;
    assert forall k :: 0 <= k < |rest| ==> rest[k] == TokensOf(ms)[k + |Flush(w)|];
  }

  lemma HandleFirst(s: Tables, w: string, rest: seq<string>)
    requires w != "" && NoEmpty(rest) && NoEmpty([w] + rest) && Handle(s, w).Some?
    ensures HandleAll(s, [w] + rest) == HandleAll(Handle(s, w).value, rest)
  {
    hide Handle;
    assert ([w] + rest)[0] == w && ([w] + rest)[1..] == rest;
  }

  lemma NothingRecorded(base: int)
    ensures Recorded(EMPTY, base, [])
  {
  }

  /** The tables that are built of a text hold the addresses, from the same base, that hex2's first pass gives
      its labels and the pointers of its % and & references by name; the offset they end at is its end, and
      data is where the first data label lies. */
  lemma TablesAgree(ms: seq<Mark>, base: int)
    requires AreMarks(ms)
    ensures Parse(Text(ms)).Some?
    ensures var s := Parse(Text(ms)).value; var items := Lex(false, Hex, Text(ms), 0); var s0 := Place(base, 0);
      && MoveAll(Hex, s0, items) == Place(base + s.offset, 0)
      && Same(s.labels, Labels(Hex, s0, items), base)
      && Same(s.rels, Symbols(RefsAt(s0, items, '%')), base)
      && Same(s.abss, Symbols(RefsAt(s0, items, '&')), base)
      && s.data == FirstData(s.labels)
  {
    hide Handle, HandleAll, TokensOf, Tokens, Lex, Text, Labels, RefsAt, MoveAll, AreMarks;
    var t := Text(ms);
    TextPieces(ms);
    H.TextRead(false, Hex, Pieces(ms), 0);
    MarksRead(ms);
    TokensNotEmpty(t, "", false);
    NothingRecorded(base);
    MarksRecorded(EMPTY, base, [], ms);
    assert [] + H.Items(Pieces(ms)) == H.Items(Pieces(ms));
  }

  /** Code stays where hex2 has linked it, behind the headers. */
  lemma CodeKept(ms: seq<Mark>, k: nat)
    requires AreMarks(ms) && Parse(Text(ms)).Some? && k < |Parse(Text(ms)).value.labels|
    ensures var s := Parse(Text(ms)).value; var ls := Labels(Hex, Place(0x60_0400, 0), Lex(false, Hex, Text(ms), 0));
      |ls| == |s.labels| && (s.labels[k].at < s.data ==> NewAddress(s.labels[k].at, s.data) == ls[k].target && ls[k].name == s.labels[k].name)
  {
    TablesAgree(ms, 0x60_0400);
  }

  /** Printed numbers, with a sign or in hexadecimal, are no names. */
  lemma NumbersNumeric(v: int, n: nat, lower: bool)
    ensures Numeric(Signed(v)) && Numeric("0x" + Printed(16, n, lower))
  {
    var a := Printed(10, if v < 0 then -v else v, false);
    PrintedDigits(10, if v < 0 then -v else v, false);
    assert forall k :: 0 <= k < |a| ==> IsDigitOf(10, a[k]);
    assert AllDecimal(a) && a[0] != '-' && a[0] != '+';
    if v < 0 {
      assert ("-" + a)[1..] == a;
    }
    assert Unsign(Signed(v)) == a;
    if |a| >= 2 && a[0] == '0' {
      assert IsDigitOf(10, a[1]);
    }
    var h := Printed(16, n, lower);
    PrintedDigits(16, n, lower);
    assert forall k :: 0 <= k < |h| ==> IsDigitOf(16, h[k]);
    assert ("0x" + h)[2..] == h && AllHex(h);
  }

  /** A name that begins with a letter or an underscore is one. */
  lemma NamesNot(name: string)
    requires name != "" && ('a' <= name[0] <= 'z' || 'A' <= name[0] <= 'Z' || name[0] == '_')
    ensures !Numeric(name)
  {
  }
}
