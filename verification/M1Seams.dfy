/** Where m1-to-hex2 writes one file behind another nothing need stand between the two. This module says
    what hex2 then makes of the text, and exactly which input files it happens to. */
module M1Seams {
  import opened Wrappers
  import opened Hex2Text
  import opened HexWords
  import opened M1ToHex2

  /** A token that goes on until something separates it: a label or a reference. */
  predicate IsNamed(t: string) {
    |t| > 1 && (t[0] == ':' || t[0] == '%' || t[0] == '&') && Named(t[1..])
  }

  function Upper(c: char): char {
    if 'a' <= c <= 'z' then (c as int - 32) as char else c
  }

  lemma UpperDigit(c: char)
    ensures DigitOf(Hex, c) >= 0 ==> DigitOf(Hex, Upper(c)) == DigitOf(Hex, c)
  {
  }

  function Emitted(t: string): string {
    if |t| == 5 && t[..3] == "!0x" then [Upper(t[3]), Upper(t[4])] else t
  }

  /** A raw byte needs nothing behind it. */
  lemma RawReads(t: string)
    requires IsToken(t) && !IsNamed(t)
    ensures Reads(Emitted(t), TokenItems(t)) && Emitted(t) != "" && Emitted(t)[0] !in SEPARATORS
  {
    hide Reads, Named;
    var a, b := t[|t| - 2], t[|t| - 1];
    assert t[0] != ':' && t[0] != '%' && t[0] != '&' by { assert |t| == 5 ==> t[0] == t[..3][0]; }
    UpperDigit(a);
    UpperDigit(b);
    assert |t| == 2 ==> t == [a, b];
    ReadsDigits(Emitted(t)[0], Emitted(t)[1]);
    assert Emitted(t) == [Emitted(t)[0], Emitted(t)[1]];
  }

  lemma NamedEmitted(t: string)
    requires IsNamed(t)
    ensures Emitted(t) == t
  {
    assert |t| == 5 ==> t[..3][0] == t[0];
  }

  // ---- the text so far --------------------------------------------------------------------------------

  /** Free: whatever is written next, the text reads as its items. Bound: it ends in a name that goes on
      unless a space is next. Torn: some name has gone on. */
  datatype Tie = Free | Bound | Torn

  ghost predicate Ends(before: string, xs: seq<Item>, t: string, out: string, items: seq<Item>) {
    Reads(before, xs) && IsNamed(t) && IsToken(t) && out == before + t && items == xs + TokenItems(t)
  }

  ghost predicate Runs(before: string, xs: seq<Item>, t: string, u: string, ys: seq<Item>, out: string, items: seq<Item>) {
    && Reads(before, xs) && IsNamed(t) && IsToken(t) && u != "" && u[0] !in SEPARATORS
    && out == before + (t + u) && items == xs + (TokenItems(t) + ys)
  }

  /** What has been written for these items. */
  ghost predicate Stands(tie: Tie, out: string, items: seq<Item>) {
    match tie
    case Free => Reads(out, items)
    case Bound => exists before, xs, t :: Ends(before, xs, t, out, items)
    case Torn => exists before, xs, t, u, ys :: Runs(before, xs, t, u, ys, out, items)
  }

  function Spaced(tie: Tie): Tie {
    if tie == Torn then Torn else Free
  }

  function Touched(tie: Tie): Tie {
    if tie == Free then Free else Torn
  }

  function Written(tie: Tie, named: bool): Tie {
    if tie != Free then Torn else if named then Bound else Free
  }

  lemma TornMore(out: string, items: seq<Item>, s: string, ys: seq<Item>)
    requires Stands(Torn, out, items)
    ensures Stands(Torn, out + s, items + ys)
  {
    hide Reads, IsToken, IsNamed;
    var before, xs, t, u, zs :| Runs(before, xs, t, u, zs, out, items);
    assert out + s == before + (t + (u + s)) && items + ys == xs + (TokenItems(t) + (zs + ys));
    assert Runs(before, xs, t, u + s, zs + ys, out + s, items + ys);
  }

  lemma TearsOpen(out: string, items: seq<Item>, s: string, ys: seq<Item>)
    requires Stands(Bound, out, items) && s != "" && s[0] !in SEPARATORS
    ensures Stands(Torn, out + s, items + ys)
  {
    hide Reads, IsToken, IsNamed;
    var before, xs, t :| Ends(before, xs, t, out, items);
    assert out + s == before + (t + s) && items + ys == xs + (TokenItems(t) + ys);
    assert Runs(before, xs, t, s, ys, out + s, items + ys);
  }

  lemma StandsSpace(tie: Tie, out: string, items: seq<Item>, c: char)
    requires Stands(tie, out, items) && IsSpace(c)
    ensures Stands(Spaced(tie), out + [c], items)
  {
    hide Reads, Named;
    assert items + [] == items;
    match tie
    case Free =>
      ReadsSpace(c);
      ReadsConcat(out, items, [c], []);
    case Bound =>
      var before, xs, t :| Ends(before, xs, t, out, items);
      ReadsNamed(t[0], t[1..], c);
      assert [t[0]] + t[1..] == t;
      ReadsConcat(before, xs, t + [c], TokenItems(t));
      assert out + [c] == before + (t + [c]);
    case Torn =>
      TornMore(out, items, [c], []);
  }

  lemma StandsText(tie: Tie, out: string, items: seq<Item>, s: string, xs: seq<Item>)
    requires Stands(tie, out, items) && Reads(s, xs) && s != "" && s[0] !in SEPARATORS
    ensures Stands(Touched(tie), out + s, items + xs)
  {
    hide Reads;
    match tie
    case Free => ReadsConcat(out, items, s, xs);
    case Bound => TearsOpen(out, items, s, xs);
    case Torn => TornMore(out, items, s, xs);
  }

  lemma StandsToken(tie: Tie, out: string, items: seq<Item>, t: string)
    requires Stands(tie, out, items) && IsToken(t)
    ensures Stands(Written(tie, IsNamed(t)), out + Emitted(t), items + TokenItems(t))
  {
    if IsNamed(t) {
      hide Reads, TokenItems, IsToken, Named;
      NamedEmitted(t);
      match tie
      case Free => assert Ends(out, items, t, out + t, items + TokenItems(t));
      case Bound => TearsOpen(out, items, t, TokenItems(t));
      case Torn => TornMore(out, items, t, TokenItems(t));
    } else {
      hide Reads, TokenItems, IsToken, IsNamed, Emitted, Stands;
      RawReads(t);
      StandsText(tie, out, items, Emitted(t), TokenItems(t));
    }
  }

  /** The whole text reads as its items exactly if no name has gone on. */
  lemma StandsWhole(tie: Tie, out: string, items: seq<Item>)
    requires Stands(tie, out, items)
    ensures ReadsAs(out, items) <==> tie != Torn
  {
    hide Reads, ReadsAs, Named;
    match tie
    case Free => ReadsWhole(out, items);
    case Bound =>
      var before, xs, t :| Ends(before, xs, t, out, items);
      ReadsNamedLast(t[0], t[1..]);
      assert [t[0]] + t[1..] == t;
      ReadsEnd(before, xs, t, TokenItems(t));
    case Torn =>
      var before, xs, t, u, ys :| Runs(before, xs, t, u, ys, out, items);
      GoesOn(t, u, ys);
      ReadsBehind(before, xs, t + u, TokenItems(t) + ys);
  }

  lemma ReadsBehind(t: string, xs: seq<Item>, u: string, ys: seq<Item>)
    requires Reads(t, xs) && !ReadsAs(u, ys)
    ensures !ReadsAs(t + u, xs + ys)
  {
    hide Strip, Lex;
    var items :| Spells(Hex, t, items) && Strip(items) == xs;
    assert Lex(false, Hex, t + u, 0) == items + Lex(false, Hex, u, 0);
    StripConcat(items, Lex(false, Hex, u, 0));
    var zs := Strip(Lex(false, Hex, u, 0));
    assert (xs + zs)[|xs|..] == zs && (xs + ys)[|xs|..] == ys;
  }

  /** A name with something else right behind it is read as a longer name. */
  lemma GoesOn(t: string, u: string, ys: seq<Item>)
    requires IsNamed(t) && IsToken(t) && u != "" && u[0] !in SEPARATORS
    ensures !ReadsAs(t + u, TokenItems(t) + ys)
  {
    hide Strip, Lex, IsToken, Toggle;
    var name := t[1..];
    var all := t + u;
    assert all[0] == t[0] && all[1..] == name + u;
    LongerEnd(name, u);
    var (x, rest) := NextItem(false, Hex, all, 0);
    assert |TokenName(name + u)| > |name|;
    assert !x.Skip? && TokenItems(t)[0] != x;
    LexFirst(all, 0);
    StripFirst(Lex(false, Hex, all, 0));
    assert (TokenItems(t) + ys)[0] == TokenItems(t)[0];
  }

  lemma {:induction false} LongerEnd(name: string, u: string)
    requires Named(name) && u != "" && u[0] !in SEPARATORS
    ensures TokenEnd(name + u) > |name|
    decreases |name|
  {
    if name == "" {
      assert name + u == u;
    } else {
      assert (name + u)[1..] == name[1..] + u;
      LongerEnd(name[1..], u);
    }
  }

  // ---- a file, character by character -----------------------------------------------------------------

  function TokenTie(tie: Tie, line: bool, tok: string): Tie {
    Written(if line then Spaced(tie) else tie, IsNamed(tok))
  }

  /** After the rest of a file, of which tok has been read; line says whether the line has a token. */
  function TieAfter(t: string, tok: string, line: bool, tie: Tie): Tie
    decreases |t|
  {
    if t == "" then if tok == "" then tie else Spaced(TokenTie(tie, line, tok))
    else if IsBlank(t[0]) then
      var here := if tok == "" then tie else TokenTie(tie, line, tok);
      if t[0] == '\n' then TieAfter(t[1..], "", false, Spaced(here)) else TieAfter(t[1..], "", line || tok != "", here)
    else TieAfter(t[1..], tok + [t[0]], line, tie)
  }

  function TieFiles(files: seq<string>, tie: Tie): Tie {
    if files == [] then tie else TieFiles(files[1..], TieAfter(files[0], "", false, tie))
  }

  // ---- which files run together -----------------------------------------------------------------------

  /** The last token of a file whose last line ends in a space or a tab behind it; nothing if the file
      ends otherwise. */
  function HangsOn(t: string, tok: string, last: string): string
    decreases |t|
  {
    if t == "" then if tok == "" then last else ""
    else if t[0] == '\n' then HangsOn(t[1..], "", "")
    else if IsBlank(t[0]) then HangsOn(t[1..], "", if tok == "" then last else tok)
    else HangsOn(t[1..], tok + [t[0]], last)
  }

  /** The first character that is no space or tab. */
  function Mark(t: string): Option<char> {
    if t == "" then None else if t[0] == ' ' || t[0] == '\t' then Mark(t[1..]) else Some(t[0])
  }

  function FirstMark(files: seq<string>): Option<char> {
    if files == [] then None else if Mark(files[0]).Some? then Mark(files[0]) else FirstMark(files[1..])
  }

  /** These files go on without a newline. */
  predicate Touch(files: seq<string>) {
    FirstMark(files).Some? && FirstMark(files) != Some('\n')
  }

  /** Some file hangs on a label or a reference, and what comes behind it does not begin with a newline. */
  predicate Clings(files: seq<string>) {
    exists i :: 0 <= i < |files| && IsNamed(HangsOn(files[i], "", "")) && Touch(files[i + 1..])
  }

  lemma {:induction false} TornStays(t: string, tok: string, line: bool)
    ensures TieAfter(t, tok, line, Torn) == Torn
    decreases |t|
  {
    if t != "" {
      if t[0] == '\n' { TornStays(t[1..], "", false); }
      else if IsBlank(t[0]) { TornStays(t[1..], "", line || tok != ""); }
      else { TornStays(t[1..], tok + [t[0]], line); }
    }
  }

  lemma {:induction false} ScanTie(t: string, tok: string, last: string, tie: Tie)
    requires tie == if IsNamed(last) then Bound else Free
    ensures TieAfter(t, tok, last != "", tie) == if IsNamed(HangsOn(t, tok, last)) then Bound else Free
    decreases |t|
  {
    hide Named;
    if t != "" {
      if t[0] == '\n' { ScanTie(t[1..], "", "", Free); }
      else if IsBlank(t[0]) {
        var now := if tok == "" then last else tok;
        ScanTie(t[1..], "", now, if IsNamed(now) then Bound else Free);
      }
      else { ScanTie(t[1..], tok + [t[0]], last, tie); }
    }
  }

  /** A token that touches a name. */
  lemma {:induction false} TokenTears(t: string, tok: string)
    requires tok != ""
    ensures TieAfter(t, tok, false, Bound) == Torn
    decreases |t|
  {
    if t != "" {
      if t[0] == '\n' { TornStays(t[1..], "", false); }
      else if IsBlank(t[0]) { TornStays(t[1..], "", true); }
      else { TokenTears(t[1..], tok + [t[0]]); }
    }
  }

  lemma {:induction false} FileTie(t: string, tie: Tie)
    ensures TieAfter(t, "", false, tie) ==
      if tie == Torn || Mark(t).None? then tie
      else if tie == Bound && Mark(t) != Some('\n') then Torn
      else if IsNamed(HangsOn(t, "", "")) then Bound else Free
    ensures Mark(t).None? ==> HangsOn(t, "", "") == ""
    decreases |t|
  {
    hide Named;
    if tie == Torn {
      TornStays(t, "", false);
      if t != "" && (t[0] == ' ' || t[0] == '\t') { FileTie(t[1..], tie); }
    } else if t != "" {
      if t[0] == ' ' || t[0] == '\t' { FileTie(t[1..], tie); }
      else if t[0] == '\n' { ScanTie(t[1..], "", "", Free); }
      else if tie == Bound { TokenTears(t[1..], "" + [t[0]]); }
      else { ScanTie(t, "", "", Free); }
    }
  }

  lemma ClingsFirst(files: seq<string>)
    requires files != []
    ensures Clings(files) <==> (IsNamed(HangsOn(files[0], "", "")) && Touch(files[1..])) || Clings(files[1..])
  {
    hide IsNamed, Touch;
    var rest := files[1..];
    if Clings(files) {
      var i :| 0 <= i < |files| && IsNamed(HangsOn(files[i], "", "")) && Touch(files[i + 1..]);
      if i > 0 {
        assert rest[i - 1] == files[i] && rest[i..] == files[i + 1..];
      }
    }
    if Clings(rest) {
      var i :| 0 <= i < |rest| && IsNamed(HangsOn(rest[i], "", "")) && Touch(rest[i + 1..]);
      assert files[i + 1] == rest[i] && files[i + 2..] == rest[i + 1..];
    }
  }

  lemma {:induction false} FilesTie(files: seq<string>, tie: Tie)
    ensures TieFiles(files, tie) == Torn <==> tie == Torn || (tie == Bound && Touch(files)) || Clings(files)
    decreases |files|
  {
    hide IsNamed, TieAfter, HangsOn;
    if files != [] {
      FileTie(files[0], tie);
      FilesTie(files[1..], TieAfter(files[0], "", false, tie));
      ClingsFirst(files);
      assert !IsNamed("") by { NoName(); }
    }
  }

  lemma NoName()
    ensures !IsNamed("")
  {
  }

  /** A file that ends in a label or reference and a space runs into the next one exactly if that does
      not begin with a newline; one that ends in a raw byte never does. */
  lemma OneClings(s: string, u: string)
    requires s != "" && Named(s)
    ensures Clings([s + " ", u]) <==> IsNamed(s) && Touch([u])
  {
    hide IsNamed, HangsOn, Touch;
    HangsWord(s);
    var files := [s + " ", u];
    ClingsFirst(files);
    ClingsFirst([u]);
    assert files[1..] == [u] && [u][1..] == [];
    assert !Touch([]) by { NoTouch(u); }
  }

  lemma NoTouch(u: string)
    ensures !Touch([]) && (Touch([u]) <==> Mark(u).Some? && Mark(u) != Some('\n'))
  {
    hide Mark;
    assert [u][1..] == [];
    assert FirstMark([u]) == if Mark(u).Some? then Mark(u) else FirstMark([]);
  }

  lemma HangsWord(s: string)
    requires s != "" && Named(s)
    ensures HangsOn(s + " ", "", "") == s
  {
    WordHangs(s, "", " ");
    assert "" + s == s && " "[1..] == "";
  }

  lemma {:induction false} WordHangs(w: string, tok: string, u: string)
    requires Named(w)
    ensures HangsOn(w + u, tok, "") == HangsOn(u, tok + w, "")
    decreases |w|
  {
    if w == "" {
      assert w + u == u && tok + w == tok;
    } else {
      assert (w + u)[1..] == w[1..] + u && tok + w == tok + [w[0]] + w[1..];
      WordHangs(w[1..], tok + [w[0]], u);
    }
  }
}
