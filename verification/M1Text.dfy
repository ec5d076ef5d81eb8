/** What M1 makes of its source files: tokens, macros, and the text each token is printed as. */
module M1Text {
  import opened Wrappers
  import opened Hex2Text
  import opened Hex2Link
  import opened HexWords
  import opened Stringify

  const NEWLINE := "\n"
  const DEFINE := "DEFINE"
  const MAX_STRING := 4096
  const BLANKS := "\t\n "

  // ---- tokens -------------------------------------------------------------------------------------

  predicate IsQuote(c: char) {
    c == '\'' || c == '"'
  }

  predicate IsStr(t: string) {
    t != "" && IsQuote(t[0])
  }

  /** The number of characters before the first of a set. */
  function Until(u: string, stop: string): (n: nat)
    ensures n <= |u|
    ensures forall k :: 0 <= k < n ==> u[k] !in stop
    ensures n < |u| ==> u[n] in stop
  {
    if u == "" || u[0] in stop then 0 else 1 + Until(u[1..], stop)
  }

  lemma UntilUnique(u: string, stop: string, n: nat)
    requires n <= |u| && (forall k :: 0 <= k < n ==> u[k] !in stop) && (n < |u| ==> u[n] in stop)
    ensures Until(u, stop) == n
  {
  }

  function Behind(u: string, n: nat): (r: string)
    requires n <= |u|
    ensures |r| <= |u|
  {
    if n < |u| then u[n + 1..] else ""
  }

  function Word(c: char, u: string, n: nat): (w: string)
    requires n <= |u|
    ensures |w| == n + 1 && w[0] == c
  {
    [c] + u[..n]
  }

  /** A newline counts unless the last token is one already, or there is none. */
  function Break(quiet: bool): seq<string> {
    if quiet then [] else [NEWLINE]
  }

  function Prepend(a: seq<string>, r: Option<seq<string>>): Option<seq<string>> {
    if r.Some? then Some(a + r.value) else None
  }

  /** What one round of Tokenize_Line adds, what is left to read, and whether the last token is a
      newline then or there is none. */
  datatype Round = Round(ws: seq<string>, rest: string, quiet: bool)

  /** None is a call of exit. A string keeps its first quote. */
  function ScanRound(c: char, u: string, quiet: bool): (r: Option<Round>)
    ensures r.Some? ==> |r.value.rest| <= |u| && "" !in r.value.ws && |r.value.ws| <= 2
    ensures r.Some? ==> r.value.quiet == if r.value.ws == [] then quiet else r.value.ws[|r.value.ws| - 1] == NEWLINE
  {
    if IsComment(c) then Some(Round(Break(quiet), AfterLine(u), true))
    else if c == '\t' || c == ' ' then Some(Round([], u, quiet))
    else if c == '\n' then Some(Round(Break(quiet), u, true))
    else if IsQuote(c) then
      var n := Until(u, [c]);
      if n == |u| || n + 1 >= MAX_STRING then None else Some(Round([Word(c, u, n)], u[n + 1..], false))
    else
      var n := Until(u, BLANKS);
      var ended := n < |u| && u[n] == '\n';
      if n + 1 >= MAX_STRING then None
      else Some(Round([Word(c, u, n)] + if ended then [NEWLINE] else [], Behind(u, n), ended))
  }

  /** The tokens of a file as their texts. */
  function Scan(t: string, quiet: bool): Option<seq<string>>
    decreases |t|
  {
    if t == "" then Some(Break(quiet))
    else
      match ScanRound(t[0], t[1..], quiet)
      case None => None
      case Some(r) => Prepend(r.ws, Scan(r.rest, r.quiet))
  }

  /** The input files one after the other. */
  function ScanAll(files: seq<string>): Option<seq<string>> {
    if files == [] then Some([])
    else
      match ScanAll(files[..|files| - 1])
      case None => None
      case Some(ws) => Prepend(ws, Scan(files[|files| - 1], true))
  }

  predicate Ended(ws: seq<string>) {
    ws == [] || ws[|ws| - 1] == NEWLINE
  }

  lemma {:induction false} ScanEnds(t: string, quiet: bool)
    ensures Scan(t, quiet).Some? ==> var ws := Scan(t, quiet).value; Ended(ws) && (ws == [] ==> quiet) && "" !in ws
    decreases |t|
  {
    hide ScanRound;
    if t != "" {
      match ScanRound(t[0], t[1..], quiet)
      case None =>
      case Some(r) => ScanEnds(r.rest, r.quiet);
    }
  }

  // ---- macros -------------------------------------------------------------------------------------

  datatype Macros = Macros(stream: seq<string>, defs: map<string, string>)

  function Value(w: string): string {
    if IsStr(w) then w[1..] else w
  }

  function InFront(a: seq<string>, r: Option<Macros>): Option<Macros> {
    if r.Some? then Some(Macros(a + r.value.stream, r.value.defs)) else None
  }

  /** Every definition leaves a newline; its name stands for its value from then on, everywhere. */
  function Define(ws: seq<string>, defs: map<string, string>): Option<Macros>
    decreases |ws|
  {
    if ws == [] then Some(Macros([], defs))
    else if ws[0] != DEFINE then InFront([ws[0]], Define(ws[1..], defs))
    else if |ws| < 3 then None
    else InFront([NEWLINE], Define(ws[3..], defs[ws[1] := Value(ws[2])]))
  }

  // ---- numbers ------------------------------------------------------------------------------------

  /** The value of a digit as strtoint reads it, or -1. */
  function NumberDigit(radix: nat, c: char): (d: int)
    ensures -1 <= d
  {
    if '0' <= c <= '9' && c as int - 48 < radix then c as int - 48
    else if radix == 16 && 'A' <= c <= 'F' then c as int - 55
    else if radix == 16 && 'a' <= c <= 'f' then c as int - 87
    else -1
  }

  /** __set_reader behind the sign; what is not all digits is 0. */
  function ReadDigits(radix: nat, s: string, n: nat): nat
    decreases |s|
  {
    if s == "" then n
    else if s[0] == '_' then ReadDigits(radix, s[1..], n)
    else if NumberDigit(radix, s[0]) < 0 then 0
    else ReadDigits(radix, s[1..], n * radix + NumberDigit(radix, s[0]))
  }

  function SetReader(radix: nat, s: string): int {
    if s != "" && s[0] == '-' then 0 - ReadDigits(radix, s[1..], 0) else ReadDigits(radix, s, 0)
  }

  /** An int has 32 bits. */
  function Int32(v: int): int {
    if v % 0x1_0000_0000 < 0x8000_0000 then v % 0x1_0000_0000 else v % 0x1_0000_0000 - 0x1_0000_0000
  }

  function StrToInt(s: string): int {
    if s == "" then 0
    else if s[0] != '0' then Int32(SetReader(10, s))
    else if |s| > 1 && s[1] == 'b' then Int32(SetReader(2, s[2..]))
    else if |s| > 1 && s[1] == 'x' then Int32(SetReader(16, s[2..]))
    else Int32(SetReader(8, s[1..]))
  }

  /** Whether eval_immediates takes what follows the prefix for a number. */
  predicate IsNumber(s: string) {
    (s != "" && s[0] == '0') || StrToInt(s) != 0
  }

  // ---- printing -----------------------------------------------------------------------------------

  /** The characters of a string and a NUL. */
  function Hexified(mode: ByteMode, s: string): string {
    if s == "" then Digits(mode, 0, Group(mode)) + " " else Digits(mode, s[0] as int, Group(mode)) + " " + Hexified(mode, s[1..])
  }

  function Padding(mode: ByteMode, n: nat): string {
    seq(Times(n, Group(mode)), _ => '0')
  }

  /** What is printed for a token; Fails is a call of exit. */
  datatype Expression = Fails | Nothing | Text(s: string)

  function Express(mode: ByteMode, big: bool, t: string, defs: map<string, string>): Expression
    requires t != ""
  {
    if IsStr(t) then Text(if t[0] == '\'' then t[1..] else Hexified(mode, t[1..]))
    else if t in defs then Text(defs[t])
    else if t[0] in POINTERS && IsNumber(t[1..]) then
      (match Immediate(mode, big, t[0], StrToInt(t[1..])) case None => Fails case Some(s) => Text(s))
    else if t[0] in POINTERS || t[0] == ':' || t[0] == '^' then Text(t)
    else if t[0] == '<' then
      var n := StrToInt(t[1..]);
      if n == 0 then Text(t) else if n < 0 then Fails else Text(Padding(mode, n))
    else Nothing
  }

  function Print(mode: ByteMode, big: bool, ws: seq<string>, defs: map<string, string>): Option<string>
    requires "" !in ws
  {
    if ws == [] then Some("")
    else
      match Print(mode, big, ws[1..], defs)
      case None => None
      case Some(rest) =>
        if ws[0] == NEWLINE then Some((if |ws| > 1 && ws[1] == NEWLINE then "" else "\n") + rest)
        else
          var e := Express(mode, big, ws[0], defs);
          if e.Text? then Some(e.s + (if |ws| > 1 && ws[1] != NEWLINE then " " else "") + rest) else None
  }

  /** No token at all is used in a way that makes M1 exit. */
  ghost predicate Usable(mode: ByteMode, big: bool, ws: seq<string>, defs: map<string, string>)
    requires "" !in ws
  {
    forall w :: w in ws && w != NEWLINE ==> !Express(mode, big, w, defs).Fails?
  }

  ghost function Assemble(mode: ByteMode, big: bool, files: seq<string>): Option<string> {
    match ScanAll(files)
    case None => None
    case Some(ws) =>
      if ws == [] then None
      else
        match Define(ws, map[])
        case None => None
        case Some(m) =>
          ScanAllNonEmpty(files);
          DefineNonEmpty(ws, map[]);
          if Usable(mode, big, ws, m.defs) then Print(mode, big, m.stream, m.defs) else None
  }

  lemma {:induction false} ScanAllNonEmpty(files: seq<string>)
    ensures ScanAll(files).Some? ==> "" !in ScanAll(files).value
    decreases |files|
  {
    hide Scan;
    if files != [] {
      ScanAllNonEmpty(files[..|files| - 1]);
      ScanEnds(files[|files| - 1], true);
    }
  }

  lemma {:induction false} DefineNonEmpty(ws: seq<string>, defs: map<string, string>)
    requires "" !in ws
    ensures Define(ws, defs).Some? ==> "" !in Define(ws, defs).value.stream
    decreases |ws|
  {
    if ws == [] {
    } else if ws[0] != DEFINE {
      DefineNonEmpty(ws[1..], defs);
    } else if |ws| >= 3 {
      DefineNonEmpty(ws[3..], defs[ws[1] := Value(ws[2])]);
    }
  }

  /** An immediate of a program becomes the bytes of its number, wherever it stands between two bytes. */
  lemma ImmediateWritten(mode: ByteMode, big: bool, t: string, defs: map<string, string>)
    requires mode != Octal && t != "" && t[0] in POINTERS && IsNumber(t[1..]) && t !in defs && Express(mode, big, t, defs).Text?
    ensures Writes(mode, Express(mode, big, t, defs).s, PointerBytes(StrToInt(t[1..]), Width(t[0]), big))
  {
    hide Writes, StrToInt, IsNumber, Immediate;
    NumberWritten(mode, big, t[0], StrToInt(t[1..]));
  }

  // ---- substitution -------------------------------------------------------------------------------

  datatype Definition = Definition(name: string, value: string)

  /** The definitions in their order, and the tokens that are not part of one. */
  function Definitions(ws: seq<string>): seq<Definition>
    decreases |ws|
  {
    if |ws| < 3 then []
    else if ws[0] == DEFINE then [Definition(ws[1], Value(ws[2]))] + Definitions(ws[3..])
    else Definitions(ws[1..])
  }

  function Uses(ws: seq<string>): seq<string>
    decreases |ws|
  {
    if ws == [] then []
    else if ws[0] == DEFINE then if |ws| < 3 then [] else Uses(ws[3..])
    else (if ws[0] == NEWLINE then [] else [ws[0]]) + Uses(ws[1..])
  }

  /** The value of the last definition of a name. */
  function LastValue(ds: seq<Definition>, name: string): Option<string>
    decreases |ds|
  {
    if ds == [] then None
    else if ds[|ds| - 1].name == name then Some(ds[|ds| - 1].value)
    else LastValue(ds[..|ds| - 1], name)
  }

  function Known(defs: map<string, string>, name: string): Option<string> {
    if name in defs then Some(defs[name]) else None
  }

  lemma {:induction false} LastOfCons(d: Definition, ds: seq<Definition>, name: string)
    ensures LastValue([d] + ds, name) == if LastValue(ds, name).Some? then LastValue(ds, name) else if d.name == name then Some(d.value) else None
    decreases |ds|
  {
    if ds == [] {
      assert [d] + ds == [d] && [d][..0] == [];
    } else {
      var all := [d] + ds;
      assert all[..|all| - 1] == [d] + ds[..|ds| - 1];
      LastOfCons(d, ds[..|ds| - 1], name);
    }
  }

  /** The last definition counts for the whole program, before it and after it. */
  lemma {:induction false} DefinedLast(ws: seq<string>, defs: map<string, string>, name: string)
    requires Define(ws, defs).Some?
    ensures var last := LastValue(Definitions(ws), name);
      Known(Define(ws, defs).value.defs, name) == if last.Some? then last else Known(defs, name)
    decreases |ws|
  {
    if ws == [] {
    } else if ws[0] != DEFINE {
      DefinedLast(ws[1..], defs, name);
    } else {
      DefinedLast(ws[3..], defs[ws[1] := Value(ws[2])], name);
      LastOfCons(Definition(ws[1], Value(ws[2])), Definitions(ws[3..]), name);
    }
  }

  function Words(ws: seq<string>): seq<string> {
    if ws == [] then [] else (if ws[0] == NEWLINE then [] else [ws[0]]) + Words(ws[1..])
  }

  /** What is left of the tokens are those that are not part of a definition. */
  lemma {:induction false} DefineUses(ws: seq<string>, defs: map<string, string>)
    requires Define(ws, defs).Some?
    ensures Words(Define(ws, defs).value.stream) == Uses(ws)
    decreases |ws|
  {
    if ws == [] {
    } else {
      var n := if ws[0] == DEFINE then 3 else 1;
      var r := Define(ws[n..], if ws[0] == DEFINE then defs[ws[1] := Value(ws[2])] else defs);
      DefineUses(ws[n..], if ws[0] == DEFINE then defs[ws[1] := Value(ws[2])] else defs);
      var first := if ws[0] == DEFINE then NEWLINE else ws[0];
      assert ([first] + r.value.stream)[1..] == r.value.stream;
    }
  }

  function Squeeze(t: string): string {
    if t == "" then "" else (if IsSpace(t[0]) then "" else [t[0]]) + Squeeze(t[1..])
  }

  lemma {:induction false} SqueezeConcat(a: string, b: string)
    ensures Squeeze(a + b) == Squeeze(a) + Squeeze(b)
    decreases |a|
  {
    if a == "" {
      assert a + b == b;
    } else {
      assert (a + b)[0] == a[0] && (a + b)[1..] == a[1..] + b;
      SqueezeConcat(a[1..], b);
    }
  }

  /** The texts of the words one after the other, with a definition put in for every defined word,
      once and not again in what was put in. */
  function Substituted(mode: ByteMode, big: bool, words: seq<string>, ds: seq<Definition>): Option<string>
    requires "" !in words
  {
    if words == [] then Some("")
    else
      var w := words[0];
      var last := LastValue(ds, w);
      var e := if last.Some? && !IsStr(w) then Text(last.value) else Express(mode, big, w, map[]);
      var rest := Substituted(mode, big, words[1..], ds);
      if e.Text? && rest.Some? then Some(Squeeze(e.s) + rest.value) else None
  }

  lemma ExpressKnown(mode: ByteMode, big: bool, t: string, defs: map<string, string>)
    requires t != ""
    ensures Express(mode, big, t, defs) == if t in defs && !IsStr(t) then Text(defs[t]) else Express(mode, big, t, map[])
  {
  }

  lemma {:induction false} PrintSubstituted(mode: ByteMode, big: bool, ws: seq<string>, defs: map<string, string>, ds: seq<Definition>)
    requires "" !in ws && forall name: string :: Known(defs, name) == LastValue(ds, name)
    ensures "" !in Words(ws)
    ensures var p, s := Print(mode, big, ws, defs), Substituted(mode, big, Words(ws), ds);
      (p.Some? <==> s.Some?) && (p.Some? ==> Squeeze(p.value) == s.value)
    decreases |ws|
  {
    hide Express, LastValue, IsStr, Squeeze;
    if ws == [] {
      NothingSqueezed();
    } else {
      PrintSubstituted(mode, big, ws[1..], defs, ds);
      NothingSqueezed();
      var rest := Print(mode, big, ws[1..], defs);
      if rest.Some? {
        if ws[0] == NEWLINE {
          SqueezeConcat(if |ws| > 1 && ws[1] == NEWLINE then "" else "\n", rest.value);
        } else {
          ExpressKnown(mode, big, ws[0], defs);
          assert Known(defs, ws[0]) == LastValue(ds, ws[0]);
          var e := Express(mode, big, ws[0], defs);
          if e.Text? {
            SqueezeGap(e.s, if |ws| > 1 && ws[1] != NEWLINE then " " else "", rest.value);
          }
        }
      }
      WordsFirst(ws);
    }
  }

  lemma SqueezeGap(a: string, gap: string, b: string)
    requires gap == "" || gap == " "
    ensures Squeeze(a + gap + b) == Squeeze(a) + Squeeze(b)
  {
    hide Squeeze;
    NothingSqueezed();
    SqueezeConcat(a + gap, b);
    SqueezeConcat(a, gap);
    assert Squeeze(a) + "" == Squeeze(a);
  }

  lemma NothingSqueezed()
    ensures Squeeze("") == "" == Squeeze(" ") == Squeeze("\n")
  {
  }

  lemma WordsFirst(ws: seq<string>)
    requires ws != []
    ensures ws[0] == NEWLINE ==> Words(ws) == Words(ws[1..])
    ensures ws[0] != NEWLINE ==> Words(ws) != [] && Words(ws)[0] == ws[0] && Words(ws)[1..] == Words(ws[1..])
  {
  }

  /** Up to white space, what M1 prints is what remains when every definition is deleted and every
      other use of a defined name, earlier or later, is replaced by the name's last definition. */
  lemma ExpansionIsSubstitution(mode: ByteMode, big: bool, files: seq<string>)
    requires Assemble(mode, big, files).Some?
    ensures "" !in Uses(ScanAll(files).value)
    ensures var ws := ScanAll(files).value;
      Substituted(mode, big, Uses(ws), Definitions(ws)) == Some(Squeeze(Assemble(mode, big, files).value))
  {
    hide Scan, Define, Print, Substituted, Squeeze, Express;
    var ws := ScanAll(files).value;
    var m := Define(ws, map[]).value;
    ScanAllNonEmpty(files);
    DefineNonEmpty(ws, map[]);
    forall name: string
      ensures Known(m.defs, name) == LastValue(Definitions(ws), name)
    {
      DefinedLast(ws, map[], name);
    }
    DefineUses(ws, map[]);
    PrintSubstituted(mode, big, m.stream, m.defs, Definitions(ws));
  }
}
