/** The scanner of cc_macro.c, which edits the token list in place. A method that returns false has
    called exit. */
module Preprocessor {
  import opened Wrappers
  import opened IfGroups

  /** conditional_inclusion_top and what it links to. */
  datatype Inclusions = NoInclusion | Inclusion(previousConditionMatched: bool, prev: Inclusions)

  function StackOf(top: Inclusions): seq<bool> {
    match top case NoInclusion => [] case Inclusion(m, prev) => [m] + StackOf(prev)
  }

  lemma StackParts(top: Inclusions)
    requires top.Inclusion?
    ensures StackOf(top)[0] == top.previousConditionMatched && StackOf(top)[1..] == StackOf(top.prev)
  {
  }

  function Words(ts: seq<string>): seq<string> {
    if ts == [] then [] else (if Breaks(ts[0]) then [] else [ts[0]]) + Words(ts[1..])
  }

  lemma {:induction false} WordsAppend(ts: seq<string>, t: string)
    ensures Words(ts + [t]) == Words(ts) + if Breaks(t) then [] else [t]
    decreases |ts|
  {
    if ts == [] {
      assert [] + [t] == [t] && [t][1..] == [];
    } else {
      assert (ts + [t])[0] == ts[0] && (ts + [t])[1..] == ts[1..] + [t];
      WordsAppend(ts[1..], t);
    }
  }

  lemma WordsOfNone()
    ensures Words([]) == [] && Words([NEWLINE]) == []
  {
    assert [NEWLINE][1..] == [];
  }

  /** The tokenizer's only token that begins with a newline is the newline itself. */
  predicate Tokens(ts: seq<string>) {
    forall t :: t in ts && Breaks(t) ==> t == NEWLINE
  }

  class Scanner {
    const eval: Evaluator
    /** The token list: what stands in front of macro_token, and macro_token with what follows. */
    var before: seq<string>
    var after: seq<string>
    /** macro_token is a newline that eat_block has put in front of the list without linking it. */
    var unlinked: bool
    var macroEnv: Env
    var conditionalInclusionTop: Inclusions

    constructor (eval: Evaluator, tokens: seq<string>, env: Env)
      ensures this.eval == eval && before == [] && after == tokens && !unlinked && macroEnv == env && conditionalInclusionTop == NoInclusion
    {
      this.eval, before, after, unlinked, macroEnv, conditionalInclusionTop := eval, [], tokens, false, env, NoInclusion;
    }

    method PushConditionalInclusion(matched: bool)
      modifies this`conditionalInclusionTop
      ensures StackOf(conditionalInclusionTop) == [matched] + StackOf(old(conditionalInclusionTop))
    {
      conditionalInclusionTop := Inclusion(matched, conditionalInclusionTop);
    }

    method PopConditionalInclusion()
      requires conditionalInclusionTop.Inclusion?
      modifies this`conditionalInclusionTop
      ensures StackOf(conditionalInclusionTop) == StackOf(old(conditionalInclusionTop))[1..]
    {
      StackParts(conditionalInclusionTop);
      conditionalInclusionTop := conditionalInclusionTop.prev;
    }

    method EatCurrentToken()
      requires after != []
      modifies this`after
      ensures after == old(after)[1..]
    {
      after := after[1..];
    }

    method EatUntilEndif() returns (ok: bool)
      modifies this`after
      ensures var r := UntilEndif(old(after)); (ok <==> r.Some?) && (ok ==> after == r.value)
      decreases |after|
    {
      ghost var all := UntilEndif(after);
      while true
        invariant UntilEndif(after) == all && |after| <= |old(after)|
        decreases |after|
      {
        if after == [] {
          return false;
        }
        if IsIf(after[0]) {
          EatCurrentToken();
          ok := EatUntilEndif();
          if !ok { return; }
        }
        EatCurrentToken();
        if after == [] {
          return false;
        }
        if after[0] == "#endif" {
          return true;
        }
      }
    }

    method EatBlock() returns (ok: bool)
      requires !unlinked && (before == [] || before[|before| - 1] == NEWLINE)
      modifies this`before, this`after, this`unlinked
      ensures var r := Block(old(after)); (ok <==> r.Some?) && (ok ==> Rewound(old(before), r.value))
    {
      ghost var all := Block(after);
      while true
        invariant Block(after) == all && before == old(before) && !unlinked
        decreases |after|
      {
        if after == [] {
          return false;
        }
        if IsIf(after[0]) {
          EatCurrentToken();
          ok := EatUntilEndif();
          if !ok { return; }
        }
        EatCurrentToken();
        if after == [] {
          return false;
        }
        if after[0] == "#elif" || after[0] == "#else" || after[0] == "#endif" {
          break;
        }
      }
      if before != [] {
        // rewind the newline
        if before[|before| - 1] == NEWLINE {
          after := [NEWLINE] + after;
          before := before[..|before| - 1];
        }
      } else {
        unlinked := true;
      }
      ok := true;
    }

    /** macro_token is at the newline in front of u. */
    ghost predicate Rewound(b: seq<string>, u: seq<string>)
      reads this`before, this`after, this`unlinked
    {
      if b == [] then before == [] && unlinked && after == u
      else before == b[..|b| - 1] && !unlinked && after == [b[|b| - 1]] + u
    }

    /** The tokens up to the end of the line. */
    method EatLine() returns (line: seq<string>)
      modifies this`after
      ensures var n := LineLength(old(after)); line == old(after)[..n] && after == old(after)[n..]
    {
      ghost var t := after;
      line := [];
      assert t[0..] == t;
      while after != [] && !Breaks(after[0])
        invariant |line| <= |t| && line == t[..|line|] && after == t[|line|..]
        invariant |line| + LineLength(after) == LineLength(t)
        decreases |after|
      {
        line := line + [after[0]];
        EatCurrentToken();
      }
    }

    /** macro_directive for a token that begins with #. */
    method MacroDirective() returns (ok: bool)
      requires !unlinked && after != [] && (before == [] || before[|before| - 1] == NEWLINE)
      modifies this
      ensures var r := Directive(eval, old(after), old(macroEnv), StackOf(old(conditionalInclusionTop)));
        && (ok <==> r.Some?)
        && (ok ==> macroEnv == r.value.env && StackOf(conditionalInclusionTop) == r.value.stack)
        && (ok ==> if r.value.skipped then Rewound(old(before), r.value.after)
               else before == old(before) + LeftBehind(old(after)) && !unlinked && after == r.value.after)
    {
      hide Block, LineLength, Defined, Removed, Rewound, StackOf;
      ok := true;
      var d := after[0];
      if d == "#if" {
        EatCurrentToken();
        var cond := EatLine();
        var result := eval(cond, macroEnv);
        if result.None? { return false; }
        PushConditionalInclusion(result.value != 0);
        if result.value == 0 {
          ok := EatBlock();
        }
      } else if d == "#ifdef" {
        EatCurrentToken();
        if after == [] { return false; }
        var result := LookupMacro(after[0]);
        if result {
          EatCurrentToken();
        } else {
          ok := EatBlock();
        }
        PushConditionalInclusion(result);
      } else if d == "#ifndef" {
        EatCurrentToken();
        if after == [] { return false; }
        var found := LookupMacro(after[0]);
        if !found {
          EatCurrentToken();
        }
        PushConditionalInclusion(!found);
        if found {
          ok := EatBlock();
        }
      } else if d == "#elif" {
        if |after| == 1 { return false; }
        EatCurrentToken();
        var cond := EatLine();
        var result := eval(cond, macroEnv);
        EmptyStack(conditionalInclusionTop);
        if result.None? || conditionalInclusionTop.NoInclusion? { return false; }
        StackParts(conditionalInclusionTop);
        if result.value == 0 || conditionalInclusionTop.previousConditionMatched {
          ok := EatBlock();
        } else {
          ConsStack(true, conditionalInclusionTop.prev);
          conditionalInclusionTop := Inclusion(true, conditionalInclusionTop.prev);
        }
      } else if d == "#else" {
        if |after| == 1 { return false; }
        EatCurrentToken();
        EmptyStack(conditionalInclusionTop);
        if conditionalInclusionTop.NoInclusion? { return false; }
        StackParts(conditionalInclusionTop);
        if conditionalInclusionTop.previousConditionMatched {
          ok := EatBlock();
        }
      } else if d == "#endif" {
        EmptyStack(conditionalInclusionTop);
        if conditionalInclusionTop.NoInclusion? { return false; }
        EatCurrentToken();
        PopConditionalInclusion();
      } else if d == "#define" {
        ok := HandleDefine();
      } else if d == "#undef" {
        EatCurrentToken();
        if after == [] { return false; }
        ok := RemoveMacro(after[0]);
        if !ok { return; }
        EatCurrentToken();
      } else if d == "#error" {
        return false;
      } else if d == "#warning" {
        EatCurrentToken();
        var words := EatLine();
        if after == [] { return false; }
        before := before + words;
      } else {
        EatCurrentToken();
        var ignored := EatLine();
      }
    }

    method LookupMacro(name: string) returns (found: bool)
      ensures found == Defined(macroEnv, name)
    {
      if name == "__LINE__" || name == "__FILE__" {
        return true;
      }
      var k := 0;
      while k < |macroEnv|
        invariant k <= |macroEnv| && forall j :: 0 <= j < k ==> macroEnv[j].name != name
      {
        if macroEnv[k].name == name {
          return true;
        }
        k := k + 1;
      }
      return false;
    }

    method HandleDefine() returns (ok: bool)
      requires after != []
      modifies this`after, this`macroEnv
      ensures var u := old(after)[1..]; var n := LineLength(u);
        && (ok <==> 0 < n < |u|) && (ok ==> after == u[n..] && macroEnv == [Macro(u[0], Expansion(u[1..n]))] + old(macroEnv))
    {
      EatCurrentToken();
      var line := EatLine();
      if line == [] || after == [] {
        return false;
      }
      macroEnv := [Macro(line[0], Expansion(line[1..]))] + macroEnv;
      ok := true;
    }

    /** The first entry is looked at without a test; if there is none the program stops there. */
    method RemoveMacro(name: string) returns (ok: bool)
      modifies this`macroEnv
      ensures ok <==> old(macroEnv) != []
      ensures macroEnv == Removed(old(macroEnv), name)
    {
      if macroEnv == [] {
        return false;
      }
      ok := true;
      var k := 0;
      assert macroEnv[0..] == macroEnv;
      while k < |macroEnv| && macroEnv[k].name != name
        invariant k <= |macroEnv| && macroEnv == old(macroEnv)
        invariant macroEnv[..k] + Removed(macroEnv[k..], name) == Removed(macroEnv, name)
      {
        assert macroEnv[k..][1..] == macroEnv[k + 1..];
        assert macroEnv[..k] + ([macroEnv[k]] + Removed(macroEnv[k + 1..], name)) == macroEnv[..k + 1] + Removed(macroEnv[k + 1..], name);
        k := k + 1;
      }
      if k < |macroEnv| {
        assert macroEnv[k..][1..] == macroEnv[k + 1..];
        macroEnv := macroEnv[..k] + macroEnv[k + 1..];
      } else {
        assert macroEnv[..k] + [] == macroEnv;
      }
    }

    /** macro_token and what follows it. */
    ghost function Stream(): seq<string>
      reads this`after, this`unlinked
    {
      if unlinked then [NEWLINE] + after else after
    }

    method Preprocess() returns (ok: bool)
      requires before == [] && !unlinked && conditionalInclusionTop == NoInclusion && Tokens(after)
      modifies this
      ensures var r := Scan(eval, old(after), old(macroEnv), [], true);
        && (ok <==> r.Some?)
        && (ok ==> after == [] && !unlinked && Words(before) == r.value.tokens && macroEnv == r.value.env)
    {
      hide Directive, Words, Scan;
      ghost var all := Scan(eval, after, macroEnv, [], true);
      var startOfLine := true;
      WordsOfNone();
      PrependNothing(all);
      while unlinked || after != []
        invariant Prepend(Words(before), Scan(eval, Stream(), macroEnv, StackOf(conditionalInclusionTop), startOfLine)) == all
        invariant unlinked ==> before == []
        invariant startOfLine && !unlinked && after != [] && IsDirective(after[0]) ==> before == [] || before[|before| - 1] == NEWLINE
        invariant Tokens(before) && Tokens(after)
        decreases |after|, |before|, unlinked
      {
        ghost var t, b, env, stack := after, before, macroEnv, StackOf(conditionalInclusionTop);
        if !unlinked && startOfLine && IsDirective(after[0]) {
          ScanStart(eval, t, env, stack);
          ok := MacroDirective();
          if !ok { return; }
          if b != [] { WordsWithout(b); }
          LeftWords(b, t);
          StepKept(eval, t, Words(b), env, stack);
          ScanNewline(eval, Directive(eval, t, env, stack).value.after, macroEnv, StackOf(conditionalInclusionTop), true);
          if !unlinked && after != [] && !Breaks(after[0]) {
            return false;
          }
          StillTokens(eval, t, env, stack);
        } else if unlinked || Breaks(after[0]) {
          ghost var start := startOfLine;
          startOfLine := true;
          if unlinked {
            ScanNewline(eval, t, env, stack, start);
            unlinked := false;
          } else {
            assert t == [NEWLINE] + t[1..];
            ScanNewline(eval, t[1..], env, stack, start);
            WordsAppend(before, after[0]);
            assert Words(before) + [] == Words(before);
            before, after := before + [after[0]], after[1..];
          }
        } else {
          // maybe_expand
          ScanWord(eval, t, env, stack, startOfLine);
          startOfLine := false;
          if |after| == 1 {
            return false;
          }
          WordsAppend(before, after[0]);
          PrependTwice(Words(before), [t[0]], Scan(eval, t[1..], env, stack, false));
          before, after := before + [after[0]], after[1..];
        }
      }
      NothingToScan(eval, Words(before), macroEnv, StackOf(conditionalInclusionTop), startOfLine);
      ok := true;
    }

    /** eat_newline_tokens, from the head of the list on. */
    method EatNewlineTokens(head: seq<string>) returns (kept: seq<string>)
      ensures kept == Words(head)
    {
      kept := head;
      var k := 0;
      assert [] + Words(head[0..]) == Words(head) by { assert head[0..] == head; }
      while k < |kept|
        invariant k <= |kept| && kept[..k] + Words(kept[k..]) == Words(head)
        decreases |kept| - k
      {
        assert kept[k..][1..] == kept[k + 1..];
        if Breaks(kept[k]) {
          ghost var rest := kept[k + 1..];
          assert (kept[..k] + kept[k + 1..])[..k] == kept[..k] && (kept[..k] + kept[k + 1..])[k..] == rest;
          kept := kept[..k] + kept[k + 1..];
        } else {
          assert kept[..k] + ([kept[k]] + Words(kept[k + 1..])) == kept[..k + 1] + Words(kept[k + 1..]);
          k := k + 1;
        }
      }
      assert kept[..k] + [] == kept;
    }
  }

  lemma WordsWithout(b: seq<string>)
    requires b != []
    ensures b[|b| - 1] == NEWLINE ==> Words(b[..|b| - 1]) == Words(b)
  {
    assert b == b[..|b| - 1] + [b[|b| - 1]];
    WordsAppend(b[..|b| - 1], b[|b| - 1]);
  }

  lemma ScanStart(eval: Evaluator, t: seq<string>, env: Env, stack: seq<bool>)
    requires t != [] && IsDirective(t[0])
    ensures var r := Directive(eval, t, env, stack);
      Scan(eval, t, env, stack, true) ==
        if r.None? then None
        else if r.value.skipped || r.value.after == [] || Breaks(r.value.after[0])
          then Prepend(LeftBehind(t), Scan(eval, r.value.after, r.value.env, r.value.stack, true))
        else None
  {
    hide Directive;
  }

  /** What a directive leaves are words. */
  lemma LeftWords(b: seq<string>, t: seq<string>)
    requires t != [] && Tokens(t) && Tokens(b)
    ensures Words(b + LeftBehind(t)) == Words(b) + LeftBehind(t) && Tokens(b + LeftBehind(t))
  {
    var left := LeftBehind(t);
    assert forall w :: w in left ==> w in t && !Breaks(w);
    AllWords(b, left);
  }

  lemma {:induction false} AllWords(b: seq<string>, ws: seq<string>)
    requires forall w :: w in ws ==> !Breaks(w)
    ensures Words(b + ws) == Words(b) + ws
    decreases |ws|
  {
    if ws == [] {
      assert b + ws == b;
    } else {
      var n := |ws| - 1;
      assert b + ws == (b + ws[..n]) + [ws[n]];
      WordsAppend(b + ws[..n], ws[n]);
      AllWords(b, ws[..n]);
      assert ws == ws[..n] + [ws[n]];
    }
  }

  /** What has been kept so far, and what a directive leaves. */
  lemma StepKept(eval: Evaluator, t: seq<string>, kept: seq<string>, env: Env, stack: seq<bool>)
    requires t != [] && IsDirective(t[0]) && Directive(eval, t, env, stack).Some?
    ensures var r := Directive(eval, t, env, stack).value; var later := Scan(eval, r.after, r.env, r.stack, true);
      && Prepend(kept, Prepend(LeftBehind(t), later)) == Prepend(kept + LeftBehind(t), later)
      && (r.skipped ==> LeftBehind(t) == [] && kept + LeftBehind(t) == kept)
  {
    hide Scan, Defined, Block, Removed;
    var r := Directive(eval, t, env, stack).value;
    PrependTwice(kept, LeftBehind(t), Scan(eval, r.after, r.env, r.stack, true));
  }

  lemma ScanWord(eval: Evaluator, t: seq<string>, env: Env, stack: seq<bool>, start: bool)
    requires t != [] && !Breaks(t[0]) && !(start && IsDirective(t[0]))
    ensures Scan(eval, t, env, stack, start) == if |t| == 1 then None else Prepend([t[0]], Scan(eval, t[1..], env, stack, false))
  {
    hide Directive;
  }

  lemma NothingToScan(eval: Evaluator, kept: seq<string>, env: Env, stack: seq<bool>, start: bool)
    ensures Prepend(kept, Scan(eval, [], env, stack, start)) == Some(Kept(kept, env))
  {
    assert kept + [] == kept;
  }

  lemma TailTokens(t: seq<string>, n: nat)
    requires Tokens(t) && n <= |t|
    ensures Tokens(t[n..])
  {
  }

  lemma {:induction false} BlockTokens(t: seq<string>)
    requires Tokens(t)
    ensures (Block(t).Some? ==> Tokens(Block(t).value)) && (UntilEndif(t).Some? ==> Tokens(UntilEndif(t).value))
    decreases |t|
  {
    hide Tokens;
    if t != [] {
      TailTokens(t, 1);
      BlockTokens(t[1..]);
      if IsIf(t[0]) && UntilEndif(t[1..]).Some? {
        TailTokens(UntilEndif(t[1..]).value, 1);
        BlockTokens(UntilEndif(t[1..]).value[1..]);
      }
    }
  }

  /** What a directive leaves is the end of what there was. */
  lemma StillTokens(eval: Evaluator, t: seq<string>, env: Env, stack: seq<bool>)
    requires t != [] && Tokens(t) && Directive(eval, t, env, stack).Some?
    ensures Tokens(Directive(eval, t, env, stack).value.after)
  {
    hide Block, UntilEndif, Defined, Removed, LineLength, Tokens;
    var u := t[1..];
    var n := LineLength(u);
    TailTokens(t, 1);
    TailTokens(u, n);
    BlockTokens(u);
    BlockTokens(u[n..]);
    if u != [] {
      TailTokens(u, 1);
    }
  }

  lemma EmptyStack(top: Inclusions)
    ensures StackOf(top) == [] <==> top.NoInclusion?
  {
  }

  lemma ConsStack(m: bool, prev: Inclusions)
    ensures StackOf(Inclusion(m, prev)) == [m] + StackOf(prev)
  {
  }
}
