/** A unified diff as it is printed for a list of changes, and what boot-patch makes of it. */
module PatchPrint {
  import opened Wrappers
  import opened Numerals
  import opened PatchLines
  import opened PatchSpec
  import opened BootPatch

  // ---- the lines of a hunk --------------------------------------------------------------------------

  /** A line of a hunk; trimmed says that an empty one has lost its space. */
  datatype Edit = Keep(line: string, trimmed: bool) | Remove(line: string) | Add(line: string)

  predicate IsEdit(e: Edit) {
    e.Keep? && e.trimmed ==> e.line == ""
  }

  function LineOf(e: Edit): string {
    match e
    case Keep(l, trimmed) => if trimmed then "" else " " + l
    case Remove(l) => "-" + l
    case Add(l) => "+" + l
  }

  function LinesOf(es: seq<Edit>): (v: seq<string>)
    ensures |v| == |es|
  {
    if es == [] then [] else [LineOf(es[0])] + LinesOf(es[1..])
  }

  /** What the lines were, and what they are to be. */
  function Old(es: seq<Edit>): seq<string> {
    if es == [] then [] else (if es[0].Add? then [] else [es[0].line]) + Old(es[1..])
  }

  function New(es: seq<Edit>): seq<string> {
    if es == [] then [] else (if es[0].Remove? then [] else [es[0].line]) + New(es[1..])
  }

  predicate AreEdits(es: seq<Edit>) {
    forall k :: 0 <= k < |es| ==> IsEdit(es[k])
  }

  /** The lines p[i..] begin with v. */
  predicate Stands(p: seq<string>, i: nat, v: seq<string>) {
    i + |v| <= |p| && p[i..i + |v|] == v
  }

  lemma StandsFirst(p: seq<string>, i: nat, a: string, v: seq<string>)
    requires Stands(p, i, [a] + v)
    ensures p[i] == a && Stands(p, i + 1, v)
  {
    var w := p[i..i + 1 + |v|];
    assert w[0] == a && w[1..] == v && p[i + 1..i + 1 + |v|] == w[1..];
  }

  lemma StandsTwo(p: seq<string>, i: nat, a: seq<string>, b: seq<string>)
    requires Stands(p, i, a + b)
    ensures Stands(p, i, a) && Stands(p, i + |a|, b)
  {
    var w := p[i..i + |a + b|];
    assert p[i..i + |a|] == w[..|a|] == a && p[i + |a|..i + |a| + |b|] == w[|a|..] == b;
  }

  /** The lines are read as the old and the new text. */
  lemma {:induction false} BodyRead(p: seq<string>, i: nat, h: Header, before: seq<string>, after: seq<string>, es: seq<Edit>)
    requires AreEdits(es) && Stands(p, i, LinesOf(es)) && |before| + |Old(es)| == h.oldCount && |after| + |New(es)| == h.newCount
    ensures ParseBody(p, i, h, before, after) == Some((Hunk(h.start, before + Old(es), after + New(es)), i + |es|))
    decreases |es|
  {
    if es == [] {
      assert before + [] == before && after + [] == after;
    } else {
      var e, rest := es[0], es[1..];
      assert IsEdit(e) && AreEdits(rest);
      StandsFirst(p, i, LineOf(e), LinesOf(rest));
      var l := p[i];
      var b := if e.Add? then before else before + [e.line];
      var a := if e.Remove? then after else after + [e.line];
      assert l != "" ==> l[1..] == e.line;
      BodyRead(p, i + 1, h, b, a, rest);
      assert b + Old(rest) == before + Old(es);
      assert a + New(rest) == after + New(es);
    }
  }

  // ---- the header of a hunk -------------------------------------------------------------------------

  function Decimal(n: nat): string {
    Printed(10, n, false)
  }

  predicate NoDigitFirst(s: string) {
    s == "" || !('0' <= s[0] <= '9')
  }

  lemma {:induction false} IntAppend(s: string, c: char, rest: string, v: nat)
    requires (forall k :: 0 <= k < |s| ==> '0' <= s[k] <= '9') && '0' <= c <= '9' && NoDigitFirst(rest)
    ensures IntFrom(s + [c] + rest, v) == (IntFrom(s, v).0 * 10 + (c as int - '0' as int), rest)
    decreases |s|
  {
    var t := s + [c] + rest;
    if s == "" {
      assert t[0] == c && t[1..] == rest;
    } else {
      assert t[0] == s[0] && t[1..] == s[1..] + [c] + rest;
      IntAppend(s[1..], c, rest, v * 10 + (s[0] as int - '0' as int));
    }
  }

  /** A printed number is read back, and what is behind it is left. */
  lemma {:induction false} IntRead(n: nat, rest: string)
    requires NoDigitFirst(rest)
    ensures IntFrom(Decimal(n) + rest, 0) == (n, rest) && ParseInt(Decimal(n) + rest) == Some((n, rest))
    decreases n
  {
    hide Printed, DigitChar, IntFrom;
    var q, d := PrintedStep(10, n, false);
    assert '0' <= DigitChar(d, false) <= '9' && DigitChar(d, false) as int - '0' as int == d by { DecimalDigit(d); }
    var s := if q == 0 then "" else Decimal(q);
    AllDecimal(q);
    IntAppend(s, DigitChar(d, false), rest, 0);
    if q > 0 {
      IntRead(q, "");
      assert Decimal(q) + "" == Decimal(q);
    } else {
      assert IntFrom("", 0) == (0, "") by { NothingRead(); }
    }
    var t := Decimal(n) + rest;
    assert t[0] == Decimal(n)[0];
    AllDecimal(n);
  }

  lemma NothingRead()
    ensures IntFrom("", 0) == (0, "")
  {
  }

  lemma DecimalDigit(d: nat)
    requires d < 10
    ensures '0' <= DigitChar(d, false) <= '9' && DigitChar(d, false) as int - '0' as int == d
  {
  }

  lemma AllDecimal(n: nat)
    ensures forall k :: 0 <= k < |Decimal(n)| ==> '0' <= Decimal(n)[k] <= '9'
  {
    hide Printed;
    PrintedDigits(10, n, false);
    assert forall k :: 0 <= k < |Decimal(n)| ==> IsDigitOf(10, Decimal(n)[k]);
  }

  /** ",count", which may be left out if the count is 1. */
  function CountOf(n: nat, short: bool): string {
    if short then "" else "," + Decimal(n)
  }

  lemma CountRead(n: nat, short: bool, rest: string)
    requires NoDigitFirst(rest) && (rest == "" || rest[0] != ',') && (short ==> n == 1)
    ensures ParseCount(CountOf(n, short) + rest) == Some((n, rest))
  {
    hide Printed, ParseInt;
    if short {
      assert "" + rest == rest;
    } else {
      var t := CountOf(n, short) + rest;
      assert t[0] == ',' && t[1..] == Decimal(n) + rest;
      IntRead(n, rest);
    }
  }

  /** A change: the lines in front of it that stay, the edits, and how the header is printed; tail is what stands
      behind the header's numbers. */
  datatype Change = Change(gap: seq<string>, es: seq<Edit>, newStart: nat, shortOld: bool, shortNew: bool, tail: string)

  predicate IsChange(c: Change) {
    && AreEdits(c.es) && (c.shortOld ==> |Old(c.es)| == 1) && (c.shortNew ==> |New(c.es)| == 1)
    && NoDigitFirst(c.tail) && (c.tail == "" || c.tail[0] != ',')
  }

  function HeaderOf(c: Change, start: nat): string {
    "@@ -" + (Decimal(start) + (CountOf(|Old(c.es)|, c.shortOld) + (" +" + (Decimal(c.newStart) + (CountOf(|New(c.es)|, c.shortNew) + c.tail)))))
  }

  lemma HeaderRead(c: Change, start: nat)
    requires IsChange(c)
    ensures var s := HeaderOf(c, start);
      |s| >= 4 && s[..4] == "@@ -" && ParseHeader(s[4..]) == Some(Header(start, |Old(c.es)|, |New(c.es)|))
  {
    hide Printed, ParseInt, ParseCount, Old, New, Decimal, CountOf;
    var m, n := |Old(c.es)|, |New(c.es)|;
    var r4 := CountOf(n, c.shortNew) + c.tail;
    var r3 := Decimal(c.newStart) + r4;
    var r2 := " +" + r3;
    var r1 := CountOf(m, c.shortOld) + r2;
    var s := "@@ -" + (Decimal(start) + r1);
    assert s[..4] == "@@ -" && s[4..] == Decimal(start) + r1;
    assert r2[0] == ' ' && r2[1..] == "+" + r3 && ("+" + r3)[1..] == r3;
    assert SkipSpaces(r2) == "+" + r3;
    CountFirst(m, c.shortOld, r2);
    CountFirst(n, c.shortNew, c.tail);
    IntRead(start, r1);
    CountRead(m, c.shortOld, r2);
    IntRead(c.newStart, r4);
    CountRead(n, c.shortNew, c.tail);
  }

  lemma CountFirst(n: nat, short: bool, rest: string)
    requires NoDigitFirst(rest)
    ensures NoDigitFirst(CountOf(n, short) + rest)
  {
    if short {
      assert "" + rest == rest;
    }
  }

  /** One printed hunk is read as what it says. */
  lemma HunkRead(p: seq<string>, i: nat, c: Change, start: nat)
    requires IsChange(c) && Stands(p, i, [HeaderOf(c, start)] + LinesOf(c.es))
    ensures IsHunk(p, i) && ParseHunk(p, i) == Some((Hunk(start, Old(c.es), New(c.es)), i + 1 + |c.es|))
  {
    hide HeaderOf, ParseHeader, ParseBody;
    StandsFirst(p, i, HeaderOf(c, start), LinesOf(c.es));
    HeaderRead(c, start);
    BodyRead(p, i + 1, Header(start, |Old(c.es)|, |New(c.es)|), [], [], c.es);
    assert [] + Old(c.es) == Old(c.es) && [] + New(c.es) == New(c.es);
  }

  // ---- a whole diff -----------------------------------------------------------------------------------

  predicate AreChanges(cs: seq<Change>) {
    forall k :: 0 <= k < |cs| ==> IsChange(cs[k])
  }

  /** The file before the changes and after them; end is what follows the last one. */
  function OldFile(cs: seq<Change>, end: seq<string>): seq<string> {
    if cs == [] then end else cs[0].gap + (Old(cs[0].es) + OldFile(cs[1..], end))
  }

  function NewFile(cs: seq<Change>, end: seq<string>): seq<string> {
    if cs == [] then end else cs[0].gap + (New(cs[0].es) + NewFile(cs[1..], end))
  }

  /** The diff; line lines of the old file are in front of it. Lines count from 1. */
  function Diff(cs: seq<Change>, line: nat): seq<string> {
    if cs == [] then []
    else
      var c := cs[0];
      [HeaderOf(c, line + |c.gap| + 1)] + LinesOf(c.es) + Diff(cs[1..], line + |c.gap| + |Old(c.es)|)
  }

  function HunksOf(cs: seq<Change>, line: nat): seq<Hunk> {
    if cs == [] then []
    else
      var c := cs[0];
      [Hunk(line + |c.gap| + 1, Old(c.es), New(c.es))] + HunksOf(cs[1..], line + |c.gap| + |Old(c.es)|)
  }

  lemma {:induction false} DiffRead(p: seq<string>, i: nat, cs: seq<Change>, line: nat)
    requires AreChanges(cs) && Stands(p, i, Diff(cs, line)) && !IsHunk(p, i + |Diff(cs, line)|)
    ensures ParseHunks(p, i) == Some((HunksOf(cs, line), i + |Diff(cs, line)|))
    decreases |cs|
  {
    hide ParseHunk, HeaderOf, Old, New, LinesOf, IsHunk;
    if cs != [] {
      var c := cs[0];
      var next := line + |c.gap| + |Old(c.es)|;
      var first := [HeaderOf(c, line + |c.gap| + 1)] + LinesOf(c.es);
      assert IsChange(c) && AreChanges(cs[1..]);
      StandsTwo(p, i, first, Diff(cs[1..], next));
      HunkRead(p, i, c, line + |c.gap| + 1);
      DiffRead(p, i + |first|, cs[1..], next);
    }
  }

  lemma Cut(o: seq<string>, line: nat, a: seq<string>, b: seq<string>, c: seq<string>)
    requires line <= |o| && o[line..] == a + (b + c)
    ensures var at := line + |a|; var next := at + |b|; next <= |o| && o[line..at] == a && o[at..next] == b && o[next..] == c
  {
    var t := a + (b + c);
    assert o[line..line + |a|] == t[..|a|];
    assert t[|a|..] == b + c;
    assert o[line + |a|..] == t[|a|..];
    assert o[line + |a|..line + |a| + |b|] == (b + c)[..|b|];
    assert o[line + |a| + |b|..] == (b + c)[|b|..];
  }

  /** The hunks are clean on the old file and make the new one of it. */
  lemma {:induction false} DiffClean(o: seq<string>, cs: seq<Change>, end: seq<string>, line: nat)
    requires line <= |o| && o[line..] == OldFile(cs, end)
    ensures Clean(o, HunksOf(cs, line), line) && Replaced(o, HunksOf(cs, line), line) == NewFile(cs, end)
    decreases |cs|
  {
    hide Old, New;
    if cs != [] {
      var c := cs[0];
      var at := line + |c.gap|;
      var next := at + |Old(c.es)|;
      assert OldFile(cs, end) == c.gap + (Old(c.es) + OldFile(cs[1..], end));
      assert NewFile(cs, end) == c.gap + (New(c.es) + NewFile(cs[1..], end));
      assert HunksOf(cs, line) == [Hunk(at + 1, Old(c.es), New(c.es))] + HunksOf(cs[1..], next);
      hide *;
      Cut(o, line, c.gap, Old(c.es), OldFile(cs[1..], end));
      DiffClean(o, cs[1..], end, next);
      CleanFirst(o, line, at, Old(c.es), New(c.es), HunksOf(cs[1..], next));
      Regroup(c.gap, New(c.es), NewFile(cs[1..], end));
    }
  }

  lemma Regroup(a: seq<string>, b: seq<string>, c: seq<string>)
    ensures (a + b) + c == a + (b + c)
  {
  }

  lemma CleanFirst(o: seq<string>, line: nat, at: nat, before: seq<string>, after: seq<string>, hs: seq<Hunk>)
    requires line <= at && at + |before| <= |o| && o[at..at + |before|] == before && Clean(o, hs, at + |before|)
    ensures var all := [Hunk(at + 1, before, after)] + hs;
      Clean(o, all, line) && Replaced(o, all, line) == (o[line..at] + after) + Replaced(o, hs, at + |before|)
  {
    var all := [Hunk(at + 1, before, after)] + hs;
    assert all[0] == Hunk(at + 1, before, after) && all[1..] == hs && MatchAt(o, at, before);
  }

  /** The diff printed for any changes, with at least one of them, turns the old file into the new one,
      the newline at the end being as it was. */
  lemma DiffApplied(text: string, p: seq<string>, i: nat, cs: seq<Change>, end: seq<string>)
    requires Lines(text) == OldFile(cs, end) && cs != [] && AreChanges(cs) && Stands(p, i, Diff(cs, 0)) && !IsHunk(p, i + |Diff(cs, 0)|)
    ensures PatchText(text, p, i) == Some((Unsplit(NewFile(cs, end), Trailing(text)), i + |Diff(cs, 0)|))
  {
    hide ParseHunks, Clean, Replaced, Unsplit, Trailing, NewFile, OldFile, Diff, Lines, PatchText;
    var o := Lines(text);
    assert o[0..] == o;
    DiffRead(p, i, cs, 0);
    DiffClean(o, cs, end, 0);
    PatchIsExact(text, p, i);
  }
}
