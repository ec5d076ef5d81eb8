/** The patcher: the globals and loops of boot-patch, against the meaning of a patch. */
module BootPatch {
  import opened Wrappers
  import opened PatchLines
  import opened PatchSpec

  /** A file's text after its section of the patch, and where the section ends. */
  function PatchText(text: string, p: seq<string>, i: nat): Option<(string, nat)> {
    match Section(Lines(text), p, i)
    case None => None
    case Some((r, end)) => Some((Unsplit(r, Trailing(text)), end))
  }

  /** A clean patch writes the original with each old block replaced by its new one, and everything
      else, the final newline included, as it was. */
  lemma PatchIsExact(text: string, p: seq<string>, i: nat)
    requires ParseHunks(p, i).Some? && ParseHunks(p, i).value.0 != []
    requires Clean(Lines(text), ParseHunks(p, i).value.0, 0)
    ensures var (hs, end) := ParseHunks(p, i).value;
      PatchText(text, p, i) == Some((Unsplit(Replaced(Lines(text), hs, 0), Trailing(text)), end))
  {
    ApplyIsExact(Lines(text), ParseHunks(p, i).value.0, 0);
  }

  /** Running a patch again writes the file as it is, if in the file no old text occurs and each new text
      exactly once, in order and within reach. */
  lemma PatchAgain(text: string, p: seq<string>, i: nat)
    requires ParseHunks(p, i).Some? && ParseHunks(p, i).value.0 != [] && Applied(Lines(text), ParseHunks(p, i).value.0, 0)
    ensures PatchText(text, p, i) == Some((text, ParseHunks(p, i).value.1))
  {
    hide Applied, ParseHunks, ApplyAll;
    var f := Lines(text);
    RunAgain(f, ParseHunks(p, i).value.0, 0);
    assert f[0..] == f;
    SplitUnsplit(text);
  }

  /** When running a clean patch on the file it has written changes nothing: there the new texts stand
      in order, and only that they and the old ones stand nowhere else has to be asked. But an empty last
      line without a newline is not written, and then, and only then, the second run does not apply. */
  lemma CleanAgain(text: string, patch: string, i: nat)
    requires var p := Lines(patch); ParseHunks(p, i).Some? && ParseHunks(p, i).value.0 != [] && Clean(Lines(text), ParseHunks(p, i).value.0, 0)
    requires Settled(Replaced(Lines(text), ParseHunks(Lines(patch), i).value.0, 0), ParseHunks(Lines(patch), i).value.0, 0, 0)
    ensures var p := Lines(patch); var f := Replaced(Lines(text), ParseHunks(p, i).value.0, 0); var once := PatchText(text, p, i);
      && once.Some?
      && (PatchText(once.value.0, p, i) == once <==> Trailing(text) || f == [] || f[|f| - 1] != "")
  {
    hide Settled, Applied, ParseHunks, ApplyAll, Replaced, Clean, Lines, Unsplit, Trailing;
    var p := Lines(patch);
    var (hs, end) := ParseHunks(p, i).value;
    var o := Lines(text);
    var f := Replaced(o, hs, 0);
    LinesClean(patch);
    LinesClean(text);
    HunkLines(p, i);
    ReplacedLines(o, hs, 0);
    PatchIsExact(text, p, i);
    assert f[0..] == f;
    if Trailing(text) || f == [] || f[|f| - 1] != "" {
      UnsplitSplit(f, Trailing(text));
      CleanApplied(o, hs, 0, f, 0);
      PatchAgain(Unsplit(f, Trailing(text)), p, i);
    } else {
      var g := f[..|f| - 1];
      assert f == g + [""];
      LostLine(g);
      UnsplitSplit(g, true);
      NothingWritten();
      if text != "" { LastLine(text); }
      LastHunk(o, hs, 0, f, 0);
      NoLongerThere(f, hs[|hs| - 1]);
      LastFails(g, hs, 0);
    }
  }

  lemma NothingWritten()
    ensures Lines("") == [] && Unsplit([], true) == ""
  {
  }

  class Patcher {
    var plines: seq<string>
    var olines: seq<string>
    var otrail: bool
    var rlines: array<string>
    var rcount: nat

    constructor (plines: seq<string>)
      ensures this.plines == plines
    {
      this.plines := plines;
      olines, otrail, rcount := [], false, 0;
      rlines := new string[16](_ => "");
    }

    method MatchLines(pos: int, hunk: array<string>, n: nat) returns (r: bool)
      requires n <= hunk.Length
      ensures r <==> MatchAt(olines, pos, hunk[..n])
    {
      var i := 0;
      if pos < 0 || pos + n > |olines| {
        return false;
      }
      while i < n
        invariant i <= n && forall k :: 0 <= k < i ==> olines[pos + k] == hunk[k]
      {
        if olines[pos + i] != hunk[i] {
          assert olines[pos..pos + n][i] != hunk[..n][i];
          return false;
        }
        i := i + 1;
      }
      return true;
    }

    method FindHunk(hint0: int, floor: nat, hunk: array<string>, n: nat) returns (pos: int)
      requires n <= hunk.Length
      ensures pos == Find(olines, hint0, floor, hunk[..n])
    {
      var delta := 0;
      var hint := hint0;
      if hint < floor {
        hint := floor;
      }
      while delta <= |olines|
        invariant FindFrom(olines, hint, floor, hunk[..n], delta) == Find(olines, hint0, floor, hunk[..n])
        decreases |olines| + 1 - delta
      {
        var cand := hint + delta;
        if cand >= floor {
          var m := MatchLines(cand, hunk, n);
          if m { return cand; }
        }
        cand := hint - delta;
        if delta > 0 {
          if cand >= floor {
            var m := MatchLines(cand, hunk, n);
            if m { return cand; }
          }
        }
        delta := delta + 1;
      }
      return -1;
    }

    /** The loop that reads the lines of a hunk. */
    method ReadBody(i0: nat, h: Header) returns (ok: bool, i: nat, oldl: array<string>, newl: array<string>)
      ensures fresh(oldl) && fresh(newl)
      ensures var r := ParseBody(plines, i0, h, [], []);
        && (ok <==> r.Some?)
        && (ok ==> i == r.value.1 && h.oldCount < oldl.Length && h.newCount < newl.Length
                   && oldl[..h.oldCount] == r.value.0.before && newl[..h.newCount] == r.value.0.after)
    {
      ok, i := false, i0;
      oldl := new string[h.oldCount + 1](_ => "");
      newl := new string[h.newCount + 1](_ => "");
      var on, nn := 0, 0;
      while !(on >= h.oldCount && nn >= h.newCount)
        invariant on <= h.oldCount && nn <= h.newCount && fresh(oldl) && fresh(newl) && oldl != newl
        invariant h.oldCount < oldl.Length && h.newCount < newl.Length
        invariant ParseBody(plines, i, h, oldl[..on], newl[..nn]) == ParseBody(plines, i0, h, [], [])
        decreases |plines| - i
      {
        if i >= |plines| {
          return;
        }
        var l := plines[i];
        if l == "" || l[0] == ' ' {
          if on >= h.oldCount || nn >= h.newCount {
            return;
          }
          var body := if l == "" then l else l[1..];
          oldl[on] := body;
          newl[nn] := body;
          assert oldl[..on + 1] == oldl[..on] + [body] && newl[..nn + 1] == newl[..nn] + [body];
          on := on + 1;
          nn := nn + 1;
        } else if l[0] == '-' {
          if on >= h.oldCount {
            return;
          }
          oldl[on] := l[1..];
          assert oldl[..on + 1] == oldl[..on] + [l[1..]];
          on := on + 1;
        } else if l[0] == '+' {
          if nn >= h.newCount {
            return;
          }
          newl[nn] := l[1..];
          assert newl[..nn + 1] == newl[..nn] + [l[1..]];
          nn := nn + 1;
        } else {
          return;
        }
        i := i + 1;
      }
      ok := true;
    }

    /** Lines cur to end of the original go to the result. */
    method CopyTo(cur: nat, end: nat)
      requires cur <= end <= |olines| && rcount + (end - cur) <= rlines.Length
      modifies this`rcount, rlines
      ensures rcount == old(rcount) + (end - cur) && rlines[..rcount] == old(rlines[..rcount]) + olines[cur..end]
    {
      var c := cur;
      while c < end
        invariant cur <= c <= end && rcount == old(rcount) + (c - cur)
        invariant rlines[..rcount] == old(rlines[..rcount]) + olines[cur..c]
      {
        rlines[rcount] := olines[c];
        rcount := rcount + 1;
        c := c + 1;
      }
    }

    method CopyNew(newl: array<string>, n: nat)
      requires n <= newl.Length && rcount + n <= rlines.Length && newl != rlines
      modifies this`rcount, rlines
      ensures rcount == old(rcount) + n && rlines[..rcount] == old(rlines[..rcount]) + old(newl[..n])
    {
      var k := 0;
      while k < n
        invariant k <= n && rcount == old(rcount) + k && newl[..] == old(newl[..])
        invariant rlines[..rcount] == old(rlines[..rcount]) + newl[..k]
      {
        rlines[rcount] := newl[k];
        rcount := rcount + 1;
        k := k + 1;
      }
    }

    /** One hunk, whose header is line i: the choice between applying and skipping it. */
    method ApplyHunk(i0: nat, cur0: nat) returns (ok: bool, i: nat, cur: nat)
      requires IsHunk(plines, i0) && cur0 <= |olines| && rlines.Length == |olines| + |plines| + 16
      requires rcount <= cur0 + i0
      modifies this`rcount, rlines
      ensures var h := ParseHunk(plines, i0);
        && (ok <==> h.Some? && !Choose(olines, h.value.0, cur0).Fails?)
        && (ok ==> i == h.value.1 && i0 < i <= |plines| && cur0 <= cur <= |olines| && rcount <= cur + i)
        && (ok ==> match Choose(olines, h.value.0, cur0)
                   case Skips(pos) => cur == pos + |h.value.0.after| && rlines[..rcount] == old(rlines[..rcount]) + olines[cur0..cur]
                   case Applies(pos) => cur == pos + |h.value.0.before|
                                        && rlines[..rcount] == old(rlines[..rcount]) + (olines[cur0..pos] + h.value.0.after)
                   case Fails => false)
    {
      hide ParseHeader, ParseBody, Find, MatchAt;
      ok, i, cur := false, i0, cur0;
      var header := ParseHeader(plines[i0][4..]);
      if header.None? {
        return;
      }
      var oldcnt, newcnt := header.value.oldCount, header.value.newCount;
      var oldl, newl;
      ok, i, oldl, newl := ReadBody(i0 + 1, header.value);
      if !ok {
        return;
      }
      var hint := header.value.start - 1;
      var pos := FindHunk(hint, cur0, oldl, oldcnt);
      var posNew := FindHunk(hint, cur0, newl, newcnt);
      if pos < 0 {
        if posNew < 0 {
          return false, i, cur;
        }
      }
      var skip := false;
      if pos < 0 {
        skip := true;
      } else if posNew >= 0 {
        if Abs(posNew - hint) < Abs(pos - hint) {
          skip := true;
        }
      }
      ghost var h := ParseHunk(plines, i0).value.0;
      MatchFits(olines, h, cur0);
      if skip {
        CopyTo(cur, posNew + newcnt);
        cur := posNew + newcnt;
      } else {
        CopyTo(cur, pos);
        CopyNew(newl, newcnt);
        cur := pos + oldcnt;
      }
    }

    /** The section of a file: its hunks one after the other, then the rest of the file. */
    method PatchFile(text: string, i0: nat) returns (ok: bool, i: nat, result: string)
      requires i0 <= |plines|
      modifies this`olines, this`otrail, this`rlines, this`rcount
      ensures var r := PatchText(text, plines, i0);
        && (ok <==> r.Some?) && (ok ==> result == r.value.0 && i == r.value.1)
    {
      hide Choose, ParseHunk, Lines, IsHunk, Rest, Unsplit;
      result := "";
      olines := Lines(text);
      otrail := Trailing(text);
      rlines := new string[|olines| + |plines| + 16](_ => "");
      rcount := 0;
      i := i0;
      var cur: nat := 0;
      var hunks := 0;
      ghost var section := Section(olines, plines, i0);
      RestStart(olines, plines, i0);
      assert rlines[..rcount] == [];
      while IsHunk(plines, i)
        invariant i <= |plines| && cur <= |olines| && rcount <= cur + i && fresh(rlines) && rlines.Length == |olines| + |plines| + 16
        invariant olines == Lines(text) && plines == old(plines) && otrail == Trailing(text)
        invariant section == Rest(hunks > 0, rlines[..rcount], olines, plines, i, cur)
        decreases |plines| - i
      {
        ghost var done := rlines[..rcount];
        RestStep(hunks > 0, done, olines, plines, i, cur);
        var i1: nat, cur1: nat;
        ok, i1, cur1 := ApplyHunk(i, cur);
        if !ok {
          return;
        }
        i, cur := i1, cur1;
        hunks := hunks + 1;
      }
      RestEnd(hunks > 0, rlines[..rcount], olines, plines, i, cur);
      ok := hunks > 0;
      if !ok {
        return;
      }
      result := Finish(cur);
    }

    /** The lines behind the last hunk, and the file. */
    method Finish(cur: nat) returns (result: string)
      requires cur <= |olines| && rcount + (|olines| - cur) <= rlines.Length
      modifies this`rcount, rlines
      ensures result == Unsplit(old(rlines[..rcount]) + olines[cur..], otrail)
    {
      CopyTo(cur, |olines|);
      assert olines[cur..|olines|] == olines[cur..];
      result := WriteResult();
    }

    method WriteResult() returns (f: string)
      requires rcount <= rlines.Length
      ensures f == Unsplit(rlines[..rcount], otrail)
    {
      f := "";
      var i := 0;
      while i < rcount
        invariant i <= rcount
        invariant f + Unsplit(rlines[i..rcount], otrail) == Unsplit(rlines[..rcount], otrail)
      {
        assert rlines[i..rcount][0] == rlines[i] && rlines[i..rcount][1..] == rlines[i + 1..rcount];
        f := f + rlines[i];
        if i + 1 < rcount {
          f := f + "\n";
        } else if otrail {
          f := f + "\n";
        }
        i := i + 1;
      }
    }
  }

  lemma MatchFits(o: seq<string>, h: Hunk, cur: nat)
    ensures match Choose(o, h, cur)
      case Fails => true
      case Skips(pos) => cur <= pos && pos + |h.after| <= |o|
      case Applies(pos) => cur <= pos && pos + |h.before| <= |o|
  {
  }

  /** What is still to come: the lines done so far, then the hunks from line i on. */
  function Rest(some: bool, done: seq<string>, o: seq<string>, p: seq<string>, i: nat, cur: nat): Option<(seq<string>, nat)>
    requires cur <= |o|
  {
    match ParseHunks(p, i)
    case None => None
    case Some((hs, end)) =>
      if hs == [] && !some then None
      else
        match ApplyAll(o, hs, cur)
        case None => None
        case Some(r) => Some((done + r, end))
  }

  lemma Joined(done: seq<string>, more: seq<string>, rest: Option<seq<string>>)
    ensures rest.Some? ==> done + (more + rest.value) == (done + more) + rest.value
  {
  }

  lemma RestStep(some: bool, done: seq<string>, o: seq<string>, p: seq<string>, i: nat, cur: nat)
    requires cur <= |o| && IsHunk(p, i)
    ensures var h := ParseHunk(p, i);
      Rest(some, done, o, p, i, cur) ==
        if h.None? then None
        else
          match Choose(o, h.value.0, cur)
          case Fails => None
          case Skips(pos) => Rest(true, done + o[cur..pos + |h.value.0.after|], o, p, h.value.1, pos + |h.value.0.after|)
          case Applies(pos) => Rest(true, done + (o[cur..pos] + h.value.0.after), o, p, h.value.1, pos + |h.value.0.before|)
  {
    hide ParseHunk, Choose;
    var h := ParseHunk(p, i);
    if h.Some? {
      MatchFits(o, h.value.0, cur);
      var more := ParseHunks(p, h.value.1);
      if more.Some? {
        var hs := [h.value.0] + more.value.0;
        assert hs[1..] == more.value.0;
        match Choose(o, h.value.0, cur) {
          case Fails =>
          case Skips(pos) => Joined(done, o[cur..pos + |h.value.0.after|], ApplyAll(o, hs[1..], pos + |h.value.0.after|));
          case Applies(pos) => Joined(done, o[cur..pos] + h.value.0.after, ApplyAll(o, hs[1..], pos + |h.value.0.before|));
        }
      }
    }
  }

  lemma RestStart(o: seq<string>, p: seq<string>, i: nat)
    ensures Rest(false, [], o, p, i, 0) == Section(o, p, i)
  {
    var h := ParseHunks(p, i);
    if h.Some? && ApplyAll(o, h.value.0, 0).Some? {
      assert [] + ApplyAll(o, h.value.0, 0).value == ApplyAll(o, h.value.0, 0).value;
    }
  }

  lemma RestEnd(some: bool, done: seq<string>, o: seq<string>, p: seq<string>, i: nat, cur: nat)
    requires cur <= |o| && !IsHunk(p, i)
    ensures Rest(some, done, o, p, i, cur) == if some then Some((done + o[cur..], i)) else None
  {
  }
}
