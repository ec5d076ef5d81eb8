/** What applying a unified diff means in boot-patch: reading hunks, finding their place, and the
    result of applying them. */
module PatchSpec {
  import opened Wrappers
  import opened PatchLines

  /** A hunk: the line its header declares, its old text and its new text. */
  datatype Hunk = Hunk(start: nat, before: seq<string>, after: seq<string>)

  // ---- reading ------------------------------------------------------------------------------

  predicate StartsWith(s: string, prefix: string) {
    |prefix| <= |s| && s[..|prefix|] == prefix
  }

  predicate IsDigit(s: string) {
    s != "" && '0' <= s[0] <= '9'
  }

  function IntFrom(s: string, v: nat): (nat, string)
    decreases |s|
  {
    if IsDigit(s) then IntFrom(s[1..], v * 10 + (s[0] as int - '0' as int)) else (v, s)
  }

  /** parse_int; None is an exit. */
  function ParseInt(s: string): Option<(nat, string)> {
    if IsDigit(s) then Some(IntFrom(s, 0)) else None
  }

  /** A count after a comma, 1 when it is left out. */
  function ParseCount(s: string): Option<(nat, string)> {
    if s != "" && s[0] == ',' then ParseInt(s[1..]) else Some((1, s))
  }

  function SkipSpaces(s: string): (r: string)
    ensures |r| <= |s|
  {
    if s != "" && s[0] == ' ' then SkipSpaces(s[1..]) else s
  }

  datatype Header = Header(start: nat, oldCount: nat, newCount: nat)

  /** The part of a hunk header after "@@ -". */
  function ParseHeader(s: string): Option<Header> {
    match ParseInt(s)
    case None => None
    case Some(a) =>
      match ParseCount(a.1)
      case None => None
      case Some(b) =>
        var h := SkipSpaces(b.1);
        if h == "" || h[0] != '+' then None
        else
          match ParseInt(h[1..])
          case None => None
          case Some(c) =>
            match ParseCount(c.1)
            case None => None
            case Some(d) => Some(Header(a.0, b.0, d.0))
  }

  /** The lines of a hunk from line i on, until both counts are met. */
  function ParseBody(p: seq<string>, i: nat, h: Header, before: seq<string>, after: seq<string>): (r: Option<(Hunk, nat)>)
    requires |before| <= h.oldCount && |after| <= h.newCount
    ensures r.Some? ==> i <= r.value.1 <= |p| || r.value.1 == i
    ensures r.Some? ==> r.value.0.start == h.start && |r.value.0.before| == h.oldCount && |r.value.0.after| == h.newCount
    ensures r.Some? ==> |after| + (r.value.1 - i) >= h.newCount
    decreases |p| - i
  {
    if |before| >= h.oldCount && |after| >= h.newCount then Some((Hunk(h.start, before, after), i))
    else if i >= |p| then None
    else
      var l := p[i];
      if l == "" || l[0] == ' ' then
        // A blank context line may have lost its space.
        var body := if l == "" then l else l[1..];
        if |before| >= h.oldCount || |after| >= h.newCount then None
        else ParseBody(p, i + 1, h, before + [body], after + [body])
      else if l[0] == '-' then
        if |before| >= h.oldCount then None else ParseBody(p, i + 1, h, before + [l[1..]], after)
      else if l[0] == '+' then
        if |after| >= h.newCount then None else ParseBody(p, i + 1, h, before, after + [l[1..]])
      else None
  }

  predicate IsHunk(p: seq<string>, i: nat) {
    i < |p| && StartsWith(p[i], "@@ -")
  }

  function ParseHunk(p: seq<string>, i: nat): (r: Option<(Hunk, nat)>)
    requires IsHunk(p, i)
    ensures r.Some? ==> i < r.value.1 <= |p| && |r.value.0.after| < r.value.1 - i
  {
    match ParseHeader(p[i][4..])
    case None => None
    case Some(h) => ParseBody(p, i + 1, h, [], [])
  }

  /** The hunks of one file. */
  function ParseHunks(p: seq<string>, i: nat): (r: Option<(seq<Hunk>, nat)>)
    ensures r.Some? ==> i <= r.value.1 && (i <= |p| ==> r.value.1 <= |p|)
    decreases |p| - i
  {
    if !IsHunk(p, i) then Some(([], i))
    else
      match ParseHunk(p, i)
      case None => None
      case Some(h) =>
        match ParseHunks(p, h.1)
        case None => None
        case Some(more) => Some(([h.0] + more.0, more.1))
  }

  // ---- finding ------------------------------------------------------------------------------

  /** match_at */
  predicate MatchAt(o: seq<string>, pos: int, h: seq<string>) {
    0 <= pos && pos + |h| <= |o| && o[pos..pos + |h|] == h
  }

  function Max(a: int, b: int): int {
    if a < b then b else a
  }

  function Abs(v: int): int {
    if v < 0 then -v else v
  }

  /** The search of find_hunk from distance delta on; -1 is no match. */
  function FindFrom(o: seq<string>, hint: int, floor: int, h: seq<string>, delta: nat): (pos: int)
    decreases |o| + 1 - delta
  {
    if delta > |o| then -1
    else if hint + delta >= floor && MatchAt(o, hint + delta, h) then hint + delta
    else if delta > 0 && hint - delta >= floor && MatchAt(o, hint - delta, h) then hint - delta
    else FindFrom(o, hint, floor, h, delta + 1)
  }

  function Find(o: seq<string>, hint: int, floor: nat, h: seq<string>): int {
    FindFrom(o, Max(hint, floor), floor, h, 0)
  }

  /** A match is at least this far from the hint. */
  predicate Farther(q: int, hint: int, delta: int) {
    Abs(q - hint) >= delta
  }

  lemma {:induction false} FindFromNearest(o: seq<string>, hint: int, floor: int, h: seq<string>, delta: nat)
    ensures var pos := FindFrom(o, hint, floor, h, delta);
      && (pos >= 0 ==> pos >= floor && MatchAt(o, pos, h) && delta <= Abs(pos - hint) <= |o|)
      && (pos < 0 ==> pos == -1)
      && forall q :: MatchAt(o, q, h) && q >= floor && Farther(q, hint, delta) ==>
           if pos < 0 then Abs(q - hint) > |o| else Abs(q - hint) > Abs(pos - hint) || (Abs(q - hint) == Abs(pos - hint) && q <= pos)
    decreases |o| + 1 - delta
  {
    if delta <= |o| && !(hint + delta >= floor && MatchAt(o, hint + delta, h))
       && !(delta > 0 && hint - delta >= floor && MatchAt(o, hint - delta, h)) {
      FindFromNearest(o, hint, floor, h, delta + 1);
      forall q | MatchAt(o, q, h) && q >= floor && Farther(q, hint, delta)
        ensures Farther(q, hint, delta + 1)
      {
      }
    }
  }

  /** find_hunk returns the match at or after the floor that is nearest to the hint (which is never
      taken below the floor), the later one of two equally near, and -1 exactly if no match lies
      within as many lines of it as the file has. */
  lemma FindNearest(o: seq<string>, hint: int, floor: nat, h: seq<string>)
    ensures var pos := Find(o, hint, floor, h); var at := Max(hint, floor);
      && (pos == -1 || (pos >= floor && MatchAt(o, pos, h) && Abs(pos - at) <= |o|))
      && (pos == -1 <==> forall q :: MatchAt(o, q, h) && q >= floor ==> Abs(q - at) > |o|)
      && (pos != -1 ==> forall q :: MatchAt(o, q, h) && q >= floor && q != pos ==>
           Abs(q - at) > Abs(pos - at) || (Abs(q - at) == Abs(pos - at) && q < pos))
  {
    FindFromNearest(o, Max(hint, floor), floor, h, 0);
    assert forall q :: MatchAt(o, q, h) && q >= floor ==> Farther(q, Max(hint, floor), 0);
  }

  // ---- applying -----------------------------------------------------------------------------

  datatype Choice = Fails | Skips(pos: nat) | Applies(pos: nat)

  /** Old text, or new text that is already there and nearer to the declared line. */
  function Choose(o: seq<string>, h: Hunk, cur: nat): (c: Choice)
    ensures c.Skips? ==> cur <= c.pos && MatchAt(o, c.pos, h.after)
    ensures c.Applies? ==> cur <= c.pos && MatchAt(o, c.pos, h.before)
  {
    var hint := h.start - 1;
    var pos := Find(o, hint, cur, h.before);
    var posNew := Find(o, hint, cur, h.after);
    FindNearest(o, hint, cur, h.before);
    FindNearest(o, hint, cur, h.after);
    if pos < 0 && posNew < 0 then Fails
    else if pos < 0 || (posNew >= 0 && Abs(posNew - hint) < Abs(pos - hint)) then Skips(posNew)
    else Applies(pos)
  }

  /** The rest of the file from line cur on, patched. */
  function ApplyAll(o: seq<string>, hs: seq<Hunk>, cur: nat): Option<seq<string>>
    requires cur <= |o|
    decreases |hs|
  {
    if hs == [] then Some(o[cur..])
    else
      match Choose(o, hs[0], cur)
      case Fails => None
      case Skips(pos) =>
        var end := pos + |hs[0].after|;
        Prepend(o[cur..end], ApplyAll(o, hs[1..], end))
      case Applies(pos) => Prepend(o[cur..pos] + hs[0].after, ApplyAll(o, hs[1..], pos + |hs[0].before|))
  }

  function Prepend(a: seq<string>, b: Option<seq<string>>): Option<seq<string>> {
    match b case None => None case Some(v) => Some(a + v)
  }

  /** One file's section of the patch: at least one hunk, all of them applied. */
  function Section(o: seq<string>, p: seq<string>, i: nat): Option<(seq<string>, nat)> {
    match ParseHunks(p, i)
    case None => None
    case Some((hs, end)) =>
      if hs == [] then None
      else
        match ApplyAll(o, hs, 0)
        case None => None
        case Some(r) => Some((r, end))
  }

  // ---- a clean patch --------------------------------------------------------------------------

  /** Every old text is found at its declared line, in order and without overlap. */
  predicate Clean(o: seq<string>, hs: seq<Hunk>, cur: nat)
    decreases |hs|
  {
    hs == [] || (hs[0].start >= 1 && cur <= hs[0].start - 1 && MatchAt(o, hs[0].start - 1, hs[0].before)
                 && Clean(o, hs[1..], hs[0].start - 1 + |hs[0].before|))
  }

  /** The file with each old block replaced by its new block. */
  function Replaced(o: seq<string>, hs: seq<Hunk>, cur: nat): seq<string>
    requires cur <= |o| && Clean(o, hs, cur)
    decreases |hs|
  {
    if hs == [] then o[cur..]
    else o[cur..hs[0].start - 1] + hs[0].after + Replaced(o, hs[1..], hs[0].start - 1 + |hs[0].before|)
  }

  /** A clean patch does exactly what it says. */
  lemma {:induction false} ApplyIsExact(o: seq<string>, hs: seq<Hunk>, cur: nat)
    requires cur <= |o| && Clean(o, hs, cur)
    ensures ApplyAll(o, hs, cur) == Some(Replaced(o, hs, cur))
    decreases |hs|
  {
    if hs != [] {
      var at := hs[0].start - 1;
      FindAtHint(o, at, cur, hs[0].before);
      assert Choose(o, hs[0], cur) == Applies(at);
      ApplyIsExact(o, hs[1..], at + |hs[0].before|);
    }
  }

  lemma FindAtHint(o: seq<string>, hint: int, floor: nat, h: seq<string>)
    requires hint >= floor && MatchAt(o, hint, h)
    ensures Find(o, hint, floor, h) == hint
  {
  }

  // ---- running a patch again --------------------------------------------------------------------

  /** Where the new blocks are in the patched file: base lines of it are behind us when line cur of
      the original is reached. */
  function NewPlace(h: Hunk, cur: nat, base: nat): int {
    base + (h.start - 1 - cur)
  }

  /** The new text of h stands at a place behind base and within reach, is not found nearer to the declared
      line or as near and later, and the old text, where it is within reach, is farther from that line. */
  ghost predicate Standing(f: seq<string>, h: Hunk, base: nat, at: nat) {
    var hint := Max(h.start - 1, base);
    && MatchAt(f, at, h.after) && base <= at && Abs(at - hint) <= |f|
    && (forall q :: MatchAt(f, q, h.after) && q >= base && q != at ==> Abs(q - hint) > Abs(at - hint) || (Abs(q - hint) == Abs(at - hint) && q < at))
    && (forall q :: MatchAt(f, q, h.before) && q >= base && Abs(q - hint) <= |f| ==> Abs(q - (h.start - 1)) > Abs(at - (h.start - 1)))
  }

  /** That is exactly when the program takes the hunk for applied there. */
  lemma SkippedExactly(f: seq<string>, h: Hunk, base: nat, at: nat)
    ensures Choose(f, h, base) == Skips(at) <==> Standing(f, h, base, at)
  {
    hide MatchAt, Find;
    FindNearest(f, h.start - 1, base, h.before);
    FindNearest(f, h.start - 1, base, h.after);
    var posNew := Find(f, h.start - 1, base, h.after);
    if Standing(f, h, base, at) {
      assert posNew == at;
    }
  }

  /** In the file every new text stands where the search comes to it, each behind the one before. */
  ghost predicate Applied(f: seq<string>, hs: seq<Hunk>, base: nat)
    decreases |hs|, 1
  {
    hs == [] || exists at: nat :: AppliedAt(f, hs, base, at)
  }

  ghost predicate AppliedAt(f: seq<string>, hs: seq<Hunk>, base: nat, at: nat)
    requires hs != []
    decreases |hs|, 0
  {
    Standing(f, hs[0], base, at) && (|hs| > 1 ==> Applied(f, hs[1..], at + |hs[0].after|))
  }

  /** No old text occurs in the file, and the new one nowhere else. */
  ghost predicate OnlyAt(f: seq<string>, h: Hunk, at: int) {
    && (forall q {:trigger MatchAt(f, q, h.before)} :: !MatchAt(f, q, h.before))
    && (forall q {:trigger MatchAt(f, q, h.after)} :: MatchAt(f, q, h.after) ==> q == at)
  }

  /** Every hunk from line base on is skipped. */
  ghost predicate AllSkipped(f: seq<string>, hs: seq<Hunk>, base: nat)
    decreases |hs|
  {
    hs == [] || (Choose(f, hs[0], base).Skips? && AllSkipped(f, hs[1..], Choose(f, hs[0], base).pos + |hs[0].after|))
  }

  lemma AppliedPlace(f: seq<string>, hs: seq<Hunk>, base: nat) returns (at: nat)
    requires hs != [] && Applied(f, hs, base)
    ensures AppliedAt(f, hs, base, at)
  {
    at :| AppliedAt(f, hs, base, at);
  }

  /** A file has the hunks applied exactly if the program skips them all. */
  lemma {:induction false} AppliedExactly(f: seq<string>, hs: seq<Hunk>, base: nat)
    ensures Applied(f, hs, base) <==> AllSkipped(f, hs, base)
    decreases |hs|
  {
    hide Choose, Standing;
    if hs != [] {
      var h := hs[0];
      if Applied(f, hs, base) {
        var at := AppliedPlace(f, hs, base);
        SkippedExactly(f, h, base, at);
        AppliedExactly(f, hs[1..], at + |h.after|);
      }
      if AllSkipped(f, hs, base) {
        var at := Choose(f, h, base).pos;
        SkippedExactly(f, h, base, at);
        AppliedExactly(f, hs[1..], at + |h.after|);
        assert AppliedAt(f, hs, base, at);
      }
    }
  }

  /** A patch changes nothing in a file in which it has been applied, however that came about. */
  lemma {:induction false} RunAgain(f: seq<string>, hs: seq<Hunk>, base: nat)
    requires base <= |f| && Applied(f, hs, base)
    ensures ApplyAll(f, hs, base) == Some(f[base..])
    decreases |hs|
  {
    hide MatchAt, Find, Choose, ApplyAll, Standing;
    if hs == [] {
      NothingToApply(f, base);
    } else {
      var h := hs[0];
      var at: nat :| AppliedAt(f, hs, base, at);
      var end := at + |h.after|;
      SkippedExactly(f, h, base, at);
      StandingMatch(f, h, base, at);
      MatchWithin(f, at, h.after);
      assert Applied(f, hs[1..], end);
      RunAgain(f, hs[1..], end);
      SkipApplied(f, hs, base, at);
      assert f[base..end] + f[end..] == f[base..];
    }
  }

  lemma StandingMatch(f: seq<string>, h: Hunk, base: nat, at: nat)
    requires Standing(f, h, base, at)
    ensures MatchAt(f, at, h.after) && base <= at
  {
  }

  lemma MatchWithin(f: seq<string>, at: nat, h: seq<string>)
    requires MatchAt(f, at, h)
    ensures at + |h| <= |f|
  {
  }

  /** In the patched file no old text occurs, and each new text occurs nowhere but in its place and
      within reach of its declared line. */
  ghost predicate Settled(f: seq<string>, hs: seq<Hunk>, cur: nat, base: nat)
    decreases |hs|
  {
    hs == [] ||
    (var h := hs[0]; var at := NewPlace(h, cur, base);
     && OnlyAt(f, h, at)
     && Abs(at - Max(h.start - 1, base)) <= |f|
     && at >= base
     && Settled(f, hs[1..], h.start - 1 + |h.before|, at + |h.after|))
  }

  /** The result of a clean patch has it applied: the new texts stand where they were put. */
  lemma {:induction false} CleanApplied(o: seq<string>, hs: seq<Hunk>, cur: nat, f: seq<string>, base: nat)
    requires cur <= |o| && Clean(o, hs, cur) && base <= |f| && f[base..] == Replaced(o, hs, cur) && Settled(f, hs, cur, base)
    ensures Applied(f, hs, base)
    decreases |hs|
  {
    hide MatchAt, Replaced, OnlyAt, Standing, Abs, Max;
    if hs != [] {
      var h := hs[0];
      var at := NewPlace(h, cur, base);
      var cur1 := h.start - 1 + |h.before|;
      MatchInside(o, h);
      FirstReplaced(o, hs, cur);
      TailParts(f, base, o[cur..h.start - 1], h.after, Replaced(o, hs[1..], cur1));
      MatchHere(f, at, h.after);
      OnlyStanding(f, h, base, at);
      CleanApplied(o, hs[1..], cur1, f, at + |h.after|);
      assert AppliedAt(f, hs, base, at);
    }
  }

  lemma OnlyStanding(f: seq<string>, h: Hunk, base: nat, at: nat)
    requires OnlyAt(f, h, at) && MatchAt(f, at, h.after) && base <= at && Abs(at - Max(h.start - 1, base)) <= |f|
    ensures Standing(f, h, base, at)
  {
    hide MatchAt;
  }

  lemma MatchInside(o: seq<string>, h: Hunk)
    requires MatchAt(o, h.start - 1, h.before)
    ensures 0 <= h.start - 1 && h.start - 1 + |h.before| <= |o|
  {
  }

  lemma MatchHere(f: seq<string>, at: nat, h: seq<string>)
    requires at + |h| <= |f| && f[at..at + |h|] == h
    ensures MatchAt(f, at, h)
  {
  }

  lemma NothingToApply(f: seq<string>, base: nat)
    requires base <= |f|
    ensures ApplyAll(f, [], base) == Some(f[base..])
  {
  }

  lemma FirstReplaced(o: seq<string>, hs: seq<Hunk>, cur: nat)
    requires cur <= |o| && Clean(o, hs, cur) && hs != [] && hs[0].start - 1 + |hs[0].before| <= |o|
    ensures Replaced(o, hs, cur) == o[cur..hs[0].start - 1] + hs[0].after + Replaced(o, hs[1..], hs[0].start - 1 + |hs[0].before|)
  {
    hide MatchAt;
  }

  lemma SkipApplied(f: seq<string>, hs: seq<Hunk>, base: nat, at: nat)
    requires base <= |f| && hs != [] && Choose(f, hs[0], base) == Skips(at) && base <= at && at + |hs[0].after| <= |f|
    ensures ApplyAll(f, hs, base) == Prepend(f[base..at + |hs[0].after|], ApplyAll(f, hs[1..], at + |hs[0].after|))
  {
    hide MatchAt, Choose;
  }

  lemma TailParts(f: seq<string>, base: nat, a: seq<string>, b: seq<string>, c: seq<string>)
    requires base <= |f| && f[base..] == a + b + c
    ensures var at := base + |a|; at + |b| <= |f| && f[at..at + |b|] == b && f[at + |b|..] == c
  {
    var t := a + b + c;
    assert f[base + |a|..base + |a| + |b|] == t[|a|..|a| + |b|];
    assert f[base + |a| + |b|..] == t[|a| + |b|..];
  }

  // ---- a last line that is lost -------------------------------------------------------------------

  /** The new text of h ends the file, and neither of its texts stands anywhere else. */
  ghost predicate EndsFile(f: seq<string>, h: Hunk) {
    h.after != [] && |h.after| <= |f| && OnlyAt(f, h, |f| - |h.after|)
  }

  /** If a clean patch leaves an empty last line, and the original has none, the last hunk ends with it. */
  lemma {:induction false} LastHunk(o: seq<string>, hs: seq<Hunk>, cur: nat, f: seq<string>, base: nat)
    requires cur <= |o| && Clean(o, hs, cur) && base <= |f| && f[base..] == Replaced(o, hs, cur) && Settled(f, hs, cur, base)
    requires hs != [] && f != [] && f[|f| - 1] == "" && (o == [] || o[|o| - 1] != "")
    ensures EndsFile(f, hs[|hs| - 1])
    decreases |hs|
  {
    hide MatchAt, Replaced, Abs, Max, OnlyAt;
    var h := hs[0];
    var at := NewPlace(h, cur, base);
    var cur1 := h.start - 1 + |h.before|;
    MatchInside(o, h);
    FirstReplaced(o, hs, cur);
    var gap, rest := o[cur..h.start - 1], Replaced(o, hs[1..], cur1);
    TailParts(f, base, gap, h.after, rest);
    SomeAfter(f, h, at);
    if |hs| == 1 {
      assert hs[1..] == [];
      assert rest == o[cur1..] by { NothingReplaced(o, cur1); }
      SameEnd(f, at + |h.after|, o, cur1);
    } else {
      LastHunk(o, hs[1..], cur1, f, at + |h.after|);
      assert hs[1..][|hs| - 2] == hs[|hs| - 1];
    }
  }

  lemma SameEnd(f: seq<string>, k: nat, o: seq<string>, cur: nat)
    requires k <= |f| && cur <= |o| && f[k..] == o[cur..]
    ensures k < |f| ==> cur < |o| && f[|f| - 1] == o[|o| - 1]
  {
    if k < |f| {
      assert f[|f| - 1] == f[k..][|f| - k - 1] == o[cur..][|f| - k - 1];
    }
  }

  lemma NothingReplaced(o: seq<string>, cur: nat)
    requires cur <= |o|
    ensures Clean(o, [], cur) && Replaced(o, [], cur) == o[cur..]
  {
  }

  /** No text at all would stand everywhere. */
  lemma SomeAfter(f: seq<string>, h: Hunk, at: int)
    requires f != [] && OnlyAt(f, h, at)
    ensures h.after != []
  {
    if h.after == [] {
      assert MatchAt(f, 0, h.after) && MatchAt(f, 1, h.after);
    }
  }

  ghost predicate Nowhere(g: seq<string>, h: Hunk) {
    (forall q :: !MatchAt(g, q, h.before)) && (forall q :: !MatchAt(g, q, h.after))
  }

  /** Without its last line the file has neither text of that hunk. */
  lemma NoLongerThere(f: seq<string>, h: Hunk)
    requires EndsFile(f, h)
    ensures Nowhere(f[..|f| - 1], h)
  {
    hide MatchAt;
    var g := f[..|f| - 1];
    forall q
      ensures !MatchAt(g, q, h.before)
    {
      MatchShorter(f, q, h.before);
    }
    forall q
      ensures !MatchAt(g, q, h.after)
    {
      MatchShorter(f, q, h.after);
    }
  }

  lemma MatchShorter(f: seq<string>, q: int, h: seq<string>)
    requires f != []
    ensures MatchAt(f[..|f| - 1], q, h) ==> MatchAt(f, q, h) && q + |h| < |f|
  {
    var g := f[..|f| - 1];
    if MatchAt(g, q, h) {
      assert f[q..q + |h|] == g[q..q + |h|];
    }
  }

  /** A hunk of which neither text occurs stops the program. */
  lemma {:induction false} LastFails(g: seq<string>, hs: seq<Hunk>, cur: nat)
    requires cur <= |g| && hs != []
    requires Nowhere(g, hs[|hs| - 1])
    ensures ApplyAll(g, hs, cur) == None
    decreases |hs|
  {
    hide Find;
    var h := hs[0];
    var c := Choose(g, h, cur);
    if |hs| == 1 {
      assert c.Fails?;
    } else {
      assert hs[1..][|hs| - 2] == hs[|hs| - 1];
      if c.Skips? {
        LastFails(g, hs[1..], c.pos + |h.after|);
      } else if c.Applies? {
        LastFails(g, hs[1..], c.pos + |h.before|);
      }
    }
  }

  // ---- lines stay lines -------------------------------------------------------------------------

  predicate NoNewlines(v: seq<string>) {
    forall k :: 0 <= k < |v| ==> '\n' !in v[k]
  }

  lemma {:induction false} BodyLines(p: seq<string>, i: nat, h: Header, before: seq<string>, after: seq<string>)
    requires NoNewlines(p) && NoNewlines(before) && NoNewlines(after) && |before| <= h.oldCount && |after| <= h.newCount
    ensures ParseBody(p, i, h, before, after).Some? ==> NoNewlines(ParseBody(p, i, h, before, after).value.0.after)
    decreases |p| - i
  {
    if !(|before| >= h.oldCount && |after| >= h.newCount) && i < |p| {
      var l := p[i];
      var body := if l == "" then l else l[1..];
      assert '\n' !in body;
      if |before| < h.oldCount && |after| < h.newCount { BodyLines(p, i + 1, h, before + [body], after + [body]); }
      if |before| < h.oldCount { BodyLines(p, i + 1, h, before + [body], after); }
      if |after| < h.newCount { BodyLines(p, i + 1, h, before, after + [body]); }
    }
  }

  predicate NewLines(hs: seq<Hunk>) {
    forall k :: 0 <= k < |hs| ==> NoNewlines(hs[k].after)
  }

  lemma {:induction false} HunkLines(p: seq<string>, i: nat)
    requires NoNewlines(p)
    ensures ParseHunks(p, i).Some? ==> NewLines(ParseHunks(p, i).value.0)
    decreases |p| - i
  {
    hide ParseBody, ParseHeader, NoNewlines;
    if IsHunk(p, i) && ParseHunk(p, i).Some? {
      assert NoNewlines([]) by { NothingNew(); }
      BodyLines(p, i + 1, ParseHeader(p[i][4..]).value, [], []);
      HunkLines(p, ParseHunk(p, i).value.1);
    }
  }

  lemma NothingNew()
    ensures NoNewlines([])
  {
  }

  lemma {:induction false} ReplacedLines(o: seq<string>, hs: seq<Hunk>, cur: nat)
    requires cur <= |o| && Clean(o, hs, cur) && NoNewlines(o) && NewLines(hs)
    ensures NoNewlines(Replaced(o, hs, cur))
    decreases |hs|
  {
    if hs != [] {
      ReplacedLines(o, hs[1..], hs[0].start - 1 + |hs[0].before|);
      assert NoNewlines(hs[0].after);
    }
  }
}
