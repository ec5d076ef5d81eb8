/** Files as lines: the splitting in place and the writing of boot-patch. */
module PatchLines {

  const NUL := '\0'

  /** The lines of a file; a last line without a newline counts. */
  function Lines(t: string): (v: seq<string>)
    ensures v == [] <==> t == ""
    decreases |t|
  {
    if t == "" then []
    else
      var n := LineEnd(t);
      [t[..n]] + if n < |t| then Lines(t[n + 1..]) else []
  }

  /** The position of the first newline, or the length. */
  function LineEnd(t: string): (n: nat)
    ensures n <= |t|
    ensures forall k :: 0 <= k < n ==> t[k] != '\n'
    ensures n < |t| ==> t[n] == '\n'
  {
    if t == "" || t[0] == '\n' then 0 else 1 + LineEnd(t[1..])
  }

  predicate Trailing(t: string) {
    t != "" && t[|t| - 1] == '\n'
  }

  lemma {:induction false} LinesClean(t: string)
    ensures forall k :: 0 <= k < |Lines(t)| ==> '\n' !in Lines(t)[k] && (NUL !in t ==> NUL !in Lines(t)[k])
    decreases |t|
  {
    if t != "" && LineEnd(t) < |t| {
      LinesClean(t[LineEnd(t) + 1..]);
    }
  }

  /** What write_result writes. */
  function Unsplit(v: seq<string>, trailing: bool): string {
    if v == [] then ""
    else if |v| == 1 then v[0] + if trailing then "\n" else ""
    else v[0] + "\n" + Unsplit(v[1..], trailing)
  }

  lemma LinesUnfolded(t: string)
    requires t != ""
    ensures Lines(t) == [t[..LineEnd(t)]] + if LineEnd(t) < |t| then Lines(t[LineEnd(t) + 1..]) else []
  {
    hide LineEnd;
  }

  /** The first line and the others. */
  lemma FirstLine(t: string)
    requires t != ""
    ensures var n := LineEnd(t);
      if n < |t| then Lines(t) == [t[..n]] + Lines(t[n + 1..]) && Lines(t)[1..] == Lines(t[n + 1..]) && Lines(t)[0] == t[..n]
      else Lines(t) == [t]
  {
    hide LineEnd, Lines;
    LinesUnfolded(t);
    var n := LineEnd(t);
    if n < |t| {
      HeadAndTail(t[..n], Lines(t[n + 1..]));
    } else {
      assert t[..n] == t;
      HeadAndTail(t, []);
    }
  }

  lemma HeadAndTail(x: string, v: seq<string>)
    ensures ([x] + v)[0] == x && ([x] + v)[1..] == v && [x] + [] == [x]
  {
  }

  lemma Rejoin(t: string, n: nat)
    requires n < |t| && t[n] == '\n'
    ensures t == t[..n] + "\n" + t[n + 1..]
    ensures t[n + 1..] != "" ==> Trailing(t[n + 1..]) == Trailing(t)
    ensures t[n + 1..] == "" ==> Trailing(t)
  {
  }

  /** Writing the lines of a file gives the file back, with or without a newline at its end. */
  lemma {:induction false} SplitUnsplit(t: string)
    ensures Unsplit(Lines(t), Trailing(t)) == t
    decreases |t|
  {
    hide Lines, Trailing;
    if t == "" {
      assert Lines(t) == [];
    } else {
      var n := LineEnd(t);
      FirstLine(t);
      if n == |t| {
        assert !Trailing(t) by { NoTrailing(t); }
      } else {
        SplitUnsplit(t[n + 1..]);
        Rejoin(t, n);
        assert Lines("") == [];
      }
    }
  }

  lemma NoTrailing(t: string)
    requires LineEnd(t) == |t|
    ensures !Trailing(t)
  {
  }

  /** Lines without newlines in them are the lines of what is written, except that a single empty
      line without a newline is the empty file. */
  lemma {:induction false} UnsplitSplit(v: seq<string>, trailing: bool)
    requires forall k :: 0 <= k < |v| ==> '\n' !in v[k]
    requires trailing || v == [] || v[|v| - 1] != ""
    ensures Lines(Unsplit(v, trailing)) == v && (Trailing(Unsplit(v, trailing)) <==> trailing && v != [])
    decreases |v|
  {
    hide Lines, Trailing, LineEnd, Unsplit;
    UnsplitShape(v, trailing);
    if v == [] {
      NoLines("");
      assert !Trailing("") by { EmptyTrails(); }
    } else if |v| == 1 {
      OneLine(v[0], trailing);
    } else {
      UnsplitSplit(v[1..], trailing);
      LineBefore(v[0], Unsplit(v[1..], trailing));
      assert v == [v[0]] + v[1..];
    }
  }

  /** An empty last line without a newline is not written. */
  lemma {:induction false} LostLine(v: seq<string>)
    ensures Unsplit(v + [""], false) == if v == [] then "" else Unsplit(v, true)
    decreases |v|
  {
    var w := v + [""];
    if v == [] {
      assert w == [""];
    } else {
      assert w[0] == v[0] && w[1..] == v[1..] + [""];
      LostLine(v[1..]);
      if |v| == 1 {
        assert Unsplit(w, false) == v[0] + "\n" + "";
      }
    }
  }

  lemma {:induction false} LastLine(t: string)
    requires t != "" && !Trailing(t)
    ensures Lines(t) != [] && Lines(t)[|Lines(t)| - 1] != ""
    decreases |t|
  {
    hide Lines;
    var n := LineEnd(t);
    FirstLine(t);
    if n < |t| {
      Rejoin(t, n);
      LastLine(t[n + 1..]);
    }
  }

  lemma EmptyTrails()
    ensures !Trailing("")
  {
  }

  lemma UnsplitShape(v: seq<string>, trailing: bool)
    ensures Unsplit(v, trailing) == if v == [] then "" else if |v| == 1 then v[0] + (if trailing then "\n" else "")
                                    else v[0] + "\n" + Unsplit(v[1..], trailing)
  {
  }

  lemma OneLine(l: string, trailing: bool)
    requires '\n' !in l && (trailing || l != "")
    ensures var t := l + if trailing then "\n" else ""; Lines(t) == [l] && Trailing(t) == trailing
  {
    hide Lines, LineEnd;
    var t := l + if trailing then "\n" else "";
    LineEndIs(t, |l|);
    FirstLine(t);
    if trailing {
      assert t[..|l|] == l && t[|l| + 1..] == "";
      NoLines("");
    } else {
      assert t == l;
    }
  }

  lemma LineBefore(l: string, rest: string)
    requires '\n' !in l && rest != ""
    ensures var t := l + "\n" + rest; Lines(t) == [l] + Lines(rest) && Trailing(t) == Trailing(rest)
  {
    hide Lines, LineEnd;
    var t := l + "\n" + rest;
    LineEndIs(t, |l|);
    FirstLine(t);
    assert t[..|l|] == l && t[|l| + 1..] == rest;
  }

  lemma LineEndIs(t: string, n: nat)
    requires n <= |t| && (forall k :: 0 <= k < n ==> t[k] != '\n') && (n < |t| ==> t[n] == '\n')
    ensures LineEnd(t) == n
  {
  }

  /** The string that starts at a position of a buffer and ends at the next NUL. */
  function CString(b: seq<char>, at: nat): (s: string)
    requires at < |b| && b[|b| - 1] == NUL
    ensures at + |s| < |b| && b[at..at + |s|] == s && b[at + |s|] == NUL && NUL !in s
    decreases |b| - at
  {
    if b[at] == NUL then "" else [b[at]] + CString(b, at + 1)
  }

  /** The string s, ended by a NUL, stands at a position of a buffer. */
  ghost predicate StandsAt(b: seq<char>, at: nat, s: string) {
    && at + |s| < |b| && b[|b| - 1] == NUL && b[at + |s|] == NUL && NUL !in s
    && forall j :: 0 <= j < |s| ==> b[at + j] == s[j]
  }

  lemma {:induction false} CStringIs(b: seq<char>, at: nat, s: string)
    requires StandsAt(b, at, s)
    ensures at < |b| && b[|b| - 1] == NUL && CString(b, at) == s
    decreases |s|
  {
    if s != "" {
      assert b[at + 0] == s[0];
      forall j | 0 <= j < |s| - 1
        ensures b[at + 1 + j] == s[1..][j]
      {
        assert b[at + (j + 1)] == s[j + 1];
      }
      CStringIs(b, at + 1, s[1..]);
      assert s == [s[0]] + s[1..];
    }
  }

  /** Where the lines begin. */
  function Starts(t: string, at: nat): seq<nat>
    decreases |t|
  {
    if t == "" then []
    else
      var n := LineEnd(t);
      [at] + if n < |t| then Starts(t[n + 1..], at + n + 1) else []
  }

  /** Newlines become NULs. */
  function Cut(t: string): (b: seq<char>)
    ensures |b| == |t|
  {
    seq(|t|, k requires 0 <= k < |t| => if t[k] == '\n' then NUL else t[k])
  }

  function Newlines(t: string): nat {
    if t == "" then 0 else (if t[0] == '\n' then 1 else 0) + Newlines(t[1..])
  }

  lemma NewlinesFrom(t: string, i: nat)
    requires i < |t|
    ensures Newlines(t[i..]) == (if t[i] == '\n' then 1 else 0) + Newlines(t[i + 1..])
  {
    assert t[i..][0] == t[i] && t[i..][1..] == t[i + 1..];
  }

  lemma StartsWhole(t: string)
    ensures Starts(t[0..], 0) == Starts(t, 0) && (forall at: nat :: Starts("", at) == []) && Newlines(t[0..]) == Newlines(t) && Newlines("") == 0
    ensures t[0..] == t && t[|t|..] == ""
    ensures Cut(t[..0]) == []
  {
    assert t[0..] == t;
  }

  lemma {:induction false} StartsLength(t: string, at: nat)
    ensures |Starts(t, at)| == |Lines(t)|
    decreases |t|
  {
    hide LineEnd, Lines, Starts;
    if t == "" {
      NoLines(t);
      StartsWhole(t);
    } else {
      FirstStart(t, at);
      FirstLine(t);
      if LineEnd(t) < |t| {
        StartsLength(t[LineEnd(t) + 1..], at + LineEnd(t) + 1);
      }
    }
  }

  lemma FirstStart(t: string, at: nat)
    requires t != ""
    ensures Starts(t, at) == [at] + if LineEnd(t) < |t| then Starts(t[LineEnd(t) + 1..], at + LineEnd(t) + 1) else []
  {
    hide LineEnd;
  }

  lemma StartsFrom(t: string, i: nat)
    requires i < |t|
    ensures var n := i + LineEnd(t[i..]); n <= |t| && Starts(t[i..], i) == [i] + if n < |t| then Starts(t[n + 1..], n + 1) else []
  {
    hide LineEnd, Starts;
    var n := LineEnd(t[i..]);
    FirstStart(t[i..], i);
    if n < |t[i..]| {
      assert t[i..][n + 1..] == t[i + n + 1..];
    }
  }

  lemma {:induction false} CountLines(t: string)
    ensures |Lines(t)| == Newlines(t) + if t != "" && !Trailing(t) then 1 else 0
    decreases |t|
  {
    hide Lines, LineEnd, Newlines, Trailing;
    NoLines(t);
    if t == "" {
      StartsWhole(t);
    } else {
      var n := LineEnd(t);
      SkipLine(t, n);
      FirstLine(t);
      if n < |t| {
        CountLines(t[n + 1..]);
        Rejoin(t, n);
      } else {
        NoTrailing(t);
      }
    }
  }

  lemma {:induction false} SkipLine(t: string, n: nat)
    requires n == LineEnd(t)
    ensures Newlines(t) == if n < |t| then 1 + Newlines(t[n + 1..]) else 0
    decreases n
  {
    if n > 0 {
      SkipLine(t[1..], n - 1);
      if n < |t| {
        assert t[1..][n..] == t[n + 1..];
      }
    }
  }

  /** The strings in the cut buffer at the starts of the lines are the lines. */
  lemma {:induction false} CutLines(before: seq<char>, t: string, k: nat)
    requires NUL !in t && k < |Lines(t)|
    ensures k < |Starts(t, |before|)|
    ensures var b := before + Cut(t) + [NUL]; var v := Starts(t, |before|);
      v[k] < |b| && CString(b, v[k]) == Lines(t)[k]
    decreases |t|, 1
  {
    hide Lines, CString, LineEnd, Starts, Cut;
    NoLines(t);
    FirstLine(t);
    FirstStart(t, |before|);
    var n := LineEnd(t);
    if k == 0 {
      CutFirst(before, t, n);
    } else {
      CutLaterLines(before, t, n, k);
    }
  }

  lemma {:induction false} CutLaterLines(before: seq<char>, t: string, n: nat, k: nat)
    requires NUL !in t && 0 < k < |Lines(t)| && n == LineEnd(t) < |t|
    ensures k < |Starts(t, |before|)|
    ensures var b := before + Cut(t) + [NUL]; var v := Starts(t, |before|);
      v[k] < |b| && CString(b, v[k]) == Lines(t)[k]
    decreases |t|, 0
  {
    hide Lines, CString, LineEnd, Starts, Cut;
    var rest := t[n + 1..];
    var before1 := before + Cut(t)[..n + 1];
    FirstLine(t);
    StartsLength(t, |before|);
    LaterStart(t, |before|, n, k);
    CutRest(before, t, n);
    CutLines(before1, rest, k - 1);
  }

  lemma LaterStart(t: string, at: nat, n: nat, k: nat)
    requires n == LineEnd(t) < |t| && 0 < k < |Starts(t, at)|
    ensures k - 1 < |Starts(t[n + 1..], at + n + 1)| && Starts(t, at)[k] == Starts(t[n + 1..], at + n + 1)[k - 1]
  {
    hide LineEnd, Starts;
    FirstStart(t, at);
  }

  lemma NoLines(t: string)
    ensures Lines(t) == [] <==> t == ""
  {
  }

  lemma CutFirst(before: seq<char>, t: string, n: nat)
    requires n == LineEnd(t) && NUL !in t
    ensures var b := before + Cut(t) + [NUL]; CString(b, |before|) == t[..n]
  {
    hide *;
    CutFirstStands(before, t, n);
    CStringIs(before + Cut(t) + [NUL], |before|, t[..n]);
  }

  lemma CutFirstStands(before: seq<char>, t: string, n: nat)
    requires n == LineEnd(t) && NUL !in t
    ensures StandsAt(before + Cut(t) + [NUL], |before|, t[..n])
  {
    hide LineEnd;
    var b, s := before + Cut(t) + [NUL], t[..n];
    forall j | 0 <= j < |s|
      ensures b[|before| + j] == s[j]
    {
    }
  }

  lemma CutRest(before: seq<char>, t: string, n: nat)
    requires n < |t|
    ensures before + Cut(t) + [NUL] == (before + Cut(t)[..n + 1]) + Cut(t[n + 1..]) + [NUL]
  {
    assert Cut(t) == Cut(t)[..n + 1] + Cut(t[n + 1..]);
  }

  /** The line vector v points at the strings of s. */
  ghost predicate PointsAt(b: seq<char>, v: seq<nat>, s: seq<string>) {
    && |v| == |s| && |b| > 0 && b[|b| - 1] == NUL
    && forall k :: 0 <= k < |v| ==> v[k] < |b| && CString(b, v[k]) == s[k]
  }

  lemma CutPointsAt(t: string)
    requires NUL !in t
    ensures PointsAt(Cut(t) + [NUL], Starts(t, 0), Lines(t))
  {
    hide CString, Lines, Starts;
    StartsLength(t, 0);
    forall k | 0 <= k < |Starts(t, 0)|
      ensures Starts(t, 0)[k] < |t| + 1 && CString(Cut(t) + [NUL], Starts(t, 0)[k]) == Lines(t)[k]
    {
      CutLines([], t, k);
      assert [] + Cut(t) + [NUL] == Cut(t) + [NUL];
    }
  }

  /** The first loop of split_lines: the number of lines. */
  method LineCount(buf: array<char>, size: nat, ghost t: string) returns (n: nat)
    requires size < buf.Length && buf[..size] == t
    ensures n == |Lines(t)|
  {
    hide Lines, Newlines;
    StartsWhole(t);
    n := 0;
    var i := 0;
    while i < size
      invariant i <= size && n + Newlines(t[i..]) == Newlines(t)
    {
      NewlinesFrom(t, i);
      assert t[i] == buf[i];
      if buf[i] == '\n' { n := n + 1; }
      i := i + 1;
    }
    if size > 0 {
      assert t[size - 1] == buf[size - 1];
      if buf[size - 1] != '\n' { n := n + 1; }
    }
    CountLines(t);
  }

  /** split_lines: every newline of the buffer becomes a NUL, and the vector points at the lines. */
  method SplitLines(buf: array<char>, size: nat) returns (v: array<nat>, n: nat)
    requires size + 1 == buf.Length && buf[size] == NUL && NUL !in buf[..size]
    modifies buf
    ensures n + 1 == v.Length && fresh(v)
    ensures PointsAt(buf[..], v[..n], Lines(old(buf[..size])))
  {
    hide Lines, PointsAt, Starts, LineEnd, CString;
    ghost var t := buf[..size];
    StartsWhole(t);
    StartsLength(t, 0);
    n := LineCount(buf, size, t);
    v := new nat[n + 1];
    n := 0;
    var i := 0;
    while i < size
      invariant i <= size && v.Length == |Lines(t)| + 1 && n + |Starts(t[i..], i)| == |Lines(t)|
      invariant v[..n] + Starts(t[i..], i) == Starts(t, 0)
      invariant buf[size] == NUL && forall k :: 0 <= k < size ==> buf[k] == if k < i then Cut(t)[k] else t[k]
    {
      StartsFrom(t, i);
      v[n] := i;
      n := n + 1;
      i := LineScan(buf, size, i, t);
      if i < size {
        buf[i] := NUL;
        i := i + 1;
      }
    }
    assert t[..size] == t && t[size..] == "";
    CutPointsAt(t);
    assert v[..n] + [] == v[..n] && buf[..] == Cut(t) + [NUL];
  }

  /** The inner loop: the end of the line that starts at start. */
  method LineScan(buf: array<char>, size: nat, start: nat, ghost t: string) returns (i: nat)
    requires start < size == |t| < buf.Length && forall k :: start <= k < size ==> buf[k] == t[k]
    ensures i == start + LineEnd(t[start..]) && (forall k :: start <= k < i ==> t[k] != '\n') && (i < size ==> t[i] == '\n')
  {
    i := start;
    while i < size
      invariant start <= i <= size && forall k :: start <= k < i ==> t[k] != '\n'
    {
      if buf[i] == '\n' { break; }
      i := i + 1;
    }
    LineEndIs(t[start..], i - start);
  }
}
