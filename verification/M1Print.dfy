/** M1's source text piece by piece, and the tokens that are read in it. */
module M1Print {
  import opened Wrappers
  import opened Hex2Text
  import opened M1Text

  /** A piece of text; end is the character behind an atom. */
  datatype Piece = Atom(word: string, end: char) | Str(quote: char, s: string) | Gap(c: char) | Break | Note(c: char, text: string)

  predicate IsPiece(p: Piece) {
    match p
    case Atom(w, end) =>
      w != "" && |w| < MAX_STRING && (forall k :: 0 <= k < |w| ==> w[k] !in " \t\n") && w[0] !in "#;'\"" && end in " \t\n"
    case Str(q, s) => q in "'\"" && q !in s && |s| + 1 < MAX_STRING
    case Gap(c) => c == ' ' || c == '\t'
    case Break => true
    case Note(c, text) => (c == '#' || c == ';') && '\n' !in text && '\r' !in text
  }

  function TextOf(p: Piece): string {
    match p
    case Atom(w, end) => w + [end]
    case Str(q, s) => [q] + (s + [q])
    case Gap(c) => [c]
    case Break => "\n"
    case Note(c, text) => [c] + (text + "\n")
  }

  /** The tokens of a piece; quiet says that the token before it is a newline or that there is none. A string
      keeps its first quote; newlines are not doubled. */
  function TokensOf(p: Piece, quiet: bool): seq<string> {
    match p
    case Atom(w, end) => if end == '\n' then [w, NEWLINE] else [w]
    case Str(q, s) => [[q] + s]
    case Gap(_) => []
    case Break => if quiet then [] else [NEWLINE]
    case Note(_, _) => if quiet then [] else [NEWLINE]
  }

  function Quiet(p: Piece, quiet: bool): bool {
    match p
    case Atom(_, end) => end == '\n'
    case Str(_, _) => false
    case Gap(_) => quiet
    case _ => true
  }

  predicate ArePieces(ps: seq<Piece>) {
    forall k :: 0 <= k < |ps| ==> IsPiece(ps[k])
  }

  function Text(ps: seq<Piece>): string {
    if ps == [] then "" else TextOf(ps[0]) + Text(ps[1..])
  }

  function Tokens(ps: seq<Piece>, quiet: bool): seq<string> {
    if ps == [] then (if quiet then [] else [NEWLINE]) else TokensOf(ps[0], quiet) + Tokens(ps[1..], Quiet(ps[0], quiet))
  }

  lemma {:induction false} LineAt(text: string, rest: string)
    requires '\n' !in text && '\r' !in text
    ensures AfterLine(text + "\n" + rest) == rest
    decreases |text|
  {
    var t := text + "\n" + rest;
    if text == "" {
      assert t[0] == '\n' && t[1..] == rest;
    } else {
      assert t[0] == text[0] && t[1..] == text[1..] + "\n" + rest;
      LineAt(text[1..], rest);
    }
  }

  lemma AtomRead(w: string, end: char, rest: string, quiet: bool)
    requires IsPiece(Atom(w, end))
    ensures ScanRound(w[0], w[1..] + [end] + rest, quiet) == Some(Round(TokensOf(Atom(w, end), quiet), rest, end == '\n'))
  {
    var u := w[1..] + [end] + rest;
    var n := |w| - 1;
    assert u[n] == end && u[..n] == w[1..] && u[n + 1..] == rest;
    assert forall k :: 0 <= k < n ==> u[k] == w[k + 1];
    UntilUnique(u, BLANKS, n);
    assert [w[0]] + w[1..] == w && [w] + [] == [w] && [w] + [NEWLINE] == [w, NEWLINE];
    assert w[0] != '\t' && w[0] != ' ' && w[0] != '\n' && !IsQuote(w[0]) && !IsComment(w[0]);
  }

  lemma StrRead(q: char, s: string, rest: string, quiet: bool)
    requires IsPiece(Str(q, s))
    ensures ScanRound(q, s + [q] + rest, quiet) == Some(Round([[q] + s], rest, false))
  {
    var u := s + [q] + rest;
    assert u[|s|] == q && u[..|s|] == s && u[|s| + 1..] == rest;
    UntilUnique(u, [q], |s|);
  }

  lemma PieceRead(p: Piece, rest: string, quiet: bool)
    requires IsPiece(p)
    ensures TextOf(p) != "" && ScanRound(TextOf(p)[0], (TextOf(p) + rest)[1..], quiet) == Some(Round(TokensOf(p, quiet), rest, Quiet(p, quiet)))
  {
    var t := TextOf(p) + rest;
    match p
    case Atom(w, end) =>
      assert t[1..] == w[1..] + [end] + rest;
      AtomRead(w, end, rest, quiet);
    case Str(q, s) =>
      assert t[1..] == s + [q] + rest;
      StrRead(q, s, rest, quiet);
    case Gap(c) => assert t[1..] == rest;
    case Break => assert t[1..] == rest;
    case Note(c, text) =>
      assert t[1..] == text + "\n" + rest;
      LineAt(text, rest);
  }

  /** A text is read as the tokens of its pieces, and ends its last line. */
  lemma {:induction false} TextRead(ps: seq<Piece>, quiet: bool)
    requires ArePieces(ps)
    ensures Scan(Text(ps), quiet) == Some(Tokens(ps, quiet))
    decreases |ps|
  {
    hide ScanRound, TextOf, TokensOf, IsPiece;
    if ps != [] {
      assert IsPiece(ps[0]);
      PieceRead(ps[0], Text(ps[1..]), quiet);
      TextRead(ps[1..], Quiet(ps[0], quiet));
      assert Text(ps)[0] == TextOf(ps[0])[0];
    }
  }
}
