/** The one-pass compiler itself: every rule consumes tokens from global_token and appends to
    output_list as it goes. Each method is proved against the parse and the code of the tree it
    has read. A method that returns false has called exit; its state is then of no use. */
module M2Compiler {
  import opened Wrappers
  import opened Amd64
  import opened M2Grammar
  import opened M2Expr
  import opened M2Stmt
  import opened M2Labels
  import opened M2Function

  /** The grammar rules that are passed as function pointers. */
  datatype Rule = Primary | Postfix | LevelRule(l: nat) | Expression

  function ParseRule(f: Rule, t: seq<Token>, scope: seq<string>): (p: Parsed)
    ensures p.Got? ==> Resolved(p.e, scope) && |p.rest| < |t|
  {
    match f
    case Primary => ParsePrimary(t, scope)
    case Postfix => ParsePostfix(t, scope)
    case LevelRule(l) => ParseLevel(l, t, scope)
    case Expression => ParseExpr(t, scope)
  }

  /** An entry of function->locals: its name and its offset from the locals pointer. */
  datatype Local = Local(name: string, depth: int)

  function Names(locals: seq<Local>): (s: seq<string>)
    ensures |s| == |locals|
    ensures forall k :: 0 <= k < |s| ==> s[k] == locals[k].name
  {
    seq(|locals|, k requires 0 <= k < |locals| => locals[k].name)
  }

  lemma NamesAppend(locals: seq<Local>, a: Local)
    ensures Names(locals + [a]) == Names(locals) + [a.name]
  {
  }

  lemma Associate(a: seq<Instr>, b: seq<Instr>, c: seq<Instr>)
    ensures a + (b + c) == a + b + c
  {
  }

  lemma TwoAppended(a: seq<Instr>, x: Instr, y: Instr)
    ensures a + [x, y] == a + [x] + [y]
  {
  }

  lemma UpdateAppended(out: seq<Instr>, d: seq<Instr>, y: seq<Instr>, c: seq<Instr>)
    ensures out + d + ([PushRax] + y + [PopRbx]) + [PushRbx, LoadRbx] + c + [PopRbx, StoreRax] == out + (d + Saved(y, Update(c)))
  {
  }

  /** The code that gives the local at position k its initial value. */
  ghost function StoreInit(init: Option<M2Grammar.Expr>, k: nat, scope: seq<string>): seq<Instr>
    requires init.Some? ==> Resolved(init.value, scope)
  {
    if init.Some? then Code(init.value, scope) + [LeaRbx(Depth(k)), StoreRax] else []
  }

  lemma DeclAppended(out: seq<Instr>, name: string, init: Option<M2Grammar.Expr>, comma: bool, scope: seq<string>, more: Decls)
    requires ResolvedDecls(Declare(name, init, comma, more), scope)
    ensures out + ([Remark] + StoreInit(init, |scope|, scope + [name])) + GenDecls(more, scope + [name])
         == out + GenDecls(Declare(name, init, comma, more), scope)
    ensures more == NoMore ==>
      out + ([Remark] + StoreInit(init, |scope|, scope + [name])) == out + GenDecls(Declare(name, init, comma, more), scope)
  {
    hide *;
    DeclUnfolded(name, init, comma, scope, more);
    var store := StoreInit(init, |scope|, scope + [name]);
    var rest := GenDecls(more, scope + [name]);
    Associate([Remark], store, rest);
    Associate(out, [Remark] + store, rest);
    assert out + ([Remark] + store) + [] == out + ([Remark] + store);
  }

  lemma DeclUnfolded(name: string, init: Option<M2Grammar.Expr>, comma: bool, scope: seq<string>, more: Decls)
    requires ResolvedDecls(Declare(name, init, comma, more), scope)
    ensures (init.Some? ==> Resolved(init.value, scope + [name])) && ResolvedDecls(more, scope + [name])
    ensures GenDecls(Declare(name, init, comma, more), scope) == [Remark] + (StoreInit(init, |scope|, scope + [name]) + GenDecls(more, scope + [name]))
    ensures GenDecls(NoMore, scope + [name]) == []
  {
    hide Resolved, Code;
  }

  // What the pieces emitted for a compound statement add up to.

  lemma IfDone(out: seq<Instr>, c: M2Grammar.Expr, t: Stmt, scope: seq<string>, n: nat, loop: Target)
    requires Resolved(c, scope) && Legal(t, scope, loop.InLoop?)
    ensures var s := If(c, t);
      && Legal(s, scope, loop.InLoop?) && After(s, scope) == After(t, scope) && Count(s) == 1 + Count(t) && Slots(s) == Slots(t)
      && out + [Remark] + Branch(c, scope, Je(Label(Else, n))) + Gen(t, scope, n + 1, loop)
         + [LabelDef(Label(Else, n))] + [LabelDef(Label(EndIf, n))] == out + Gen(s, scope, n, loop)
  {
    hide *;
    IfUnfolded(c, t, scope, n, loop);
    IfAppended(out, n, Branch(c, scope, Je(Label(Else, n))), Gen(t, scope, n + 1, loop));
  }

  lemma IfUnfolded(c: M2Grammar.Expr, t: Stmt, scope: seq<string>, n: nat, loop: Target)
    requires Resolved(c, scope) && Legal(t, scope, loop.InLoop?)
    ensures var s := If(c, t);
      && Legal(s, scope, loop.InLoop?) && After(s, scope) == After(t, scope) && Count(s) == 1 + Count(t) && Slots(s) == Slots(t)
      && Gen(s, scope, n, loop) == IfCode(n, Branch(c, scope, Je(Label(Else, n))), Gen(t, scope, n + 1, loop))
  {
    hide Branch, Resolved, IfCode, LegalAll, AfterAll, CountAll, SlotsAll, GenAll, GenDecls, GenInit, Code;
  }

  lemma IfAppended(out: seq<Instr>, n: nat, test: seq<Instr>, thn: seq<Instr>)
    ensures out + [Remark] + test + thn + [LabelDef(Label(Else, n))] + [LabelDef(Label(EndIf, n))] == out + IfCode(n, test, thn)
  {
    var last := [LabelDef(Label(Else, n)), LabelDef(Label(EndIf, n))];
    Associate(out, [Remark], test + (thn + last));
    Associate(out + [Remark], test, thn + last);
    Associate(out + [Remark] + test, thn, last);
    TwoAppended(out + [Remark] + test + thn, last[0], last[1]);
  }

  lemma IfElseDone(out: seq<Instr>, c: M2Grammar.Expr, t: Stmt, u: Stmt, scope: seq<string>, n: nat, loop: Target)
    requires Resolved(c, scope) && Legal(t, scope, loop.InLoop?) && Legal(u, After(t, scope), loop.InLoop?)
    ensures var s := IfElse(c, t, u); var mid := n + 1 + Count(t);
      && Legal(s, scope, loop.InLoop?) && After(s, scope) == After(u, After(t, scope))
      && Count(s) == 1 + Count(t) + Count(u) && Slots(s) == Slots(t) + Slots(u)
      && out + [Remark] + Branch(c, scope, Je(Label(Else, n))) + Gen(t, scope, n + 1, loop) + [Jmp(Label(EndIf, n))]
         + [LabelDef(Label(Else, n))] + Gen(u, After(t, scope), mid, loop) + [LabelDef(Label(EndIf, n))] == out + Gen(s, scope, n, loop)
  {
    hide *;
    IfElseUnfolded(c, t, u, scope, n, loop);
    IfElseAppended(out, n, Branch(c, scope, Je(Label(Else, n))), Gen(t, scope, n + 1, loop), Gen(u, After(t, scope), n + 1 + Count(t), loop));
  }

  lemma IfElseUnfolded(c: M2Grammar.Expr, t: Stmt, u: Stmt, scope: seq<string>, n: nat, loop: Target)
    requires Resolved(c, scope) && Legal(t, scope, loop.InLoop?) && Legal(u, After(t, scope), loop.InLoop?)
    ensures var s := IfElse(c, t, u);
      && Legal(s, scope, loop.InLoop?) && After(s, scope) == After(u, After(t, scope))
      && Count(s) == 1 + Count(t) + Count(u) && Slots(s) == Slots(t) + Slots(u)
      && Gen(s, scope, n, loop) == IfElseCode(n, Branch(c, scope, Je(Label(Else, n))), Gen(t, scope, n + 1, loop),
                                              Gen(u, After(t, scope), n + 1 + Count(t), loop))
  {
    hide *;
    IfElseLegal(c, t, u, scope, loop.InLoop?);
    IfElseGen(c, t, u, scope, n, loop);
  }

  lemma IfElseLegal(c: M2Grammar.Expr, t: Stmt, u: Stmt, scope: seq<string>, inLoop: bool)
    requires Resolved(c, scope) && Legal(t, scope, inLoop) && Legal(u, After(t, scope), inLoop)
    ensures var s := IfElse(c, t, u);
      && Legal(s, scope, inLoop) && After(s, scope) == After(u, After(t, scope))
      && Count(s) == 1 + Count(t) + Count(u) && Slots(s) == Slots(t) + Slots(u)
  {
    hide Resolved, LegalAll, CountAll, SlotsAll;
  }

  lemma IfElseGen(c: M2Grammar.Expr, t: Stmt, u: Stmt, scope: seq<string>, n: nat, loop: Target)
    requires Resolved(c, scope) && Legal(t, scope, loop.InLoop?) && Legal(u, After(t, scope), loop.InLoop?)
    requires Legal(IfElse(c, t, u), scope, loop.InLoop?)
    ensures Gen(IfElse(c, t, u), scope, n, loop)
         == IfElseCode(n, Branch(c, scope, Je(Label(Else, n))), Gen(t, scope, n + 1, loop), Gen(u, After(t, scope), n + 1 + Count(t), loop))
  {
    hide Branch, Resolved, IfElseCode, Legal, LegalAll, After, AfterAll, Count, CountAll, Slots, GenAll, GenDecls, GenInit, Code;
  }

  lemma IfElseAppended(out: seq<Instr>, n: nat, test: seq<Instr>, thn: seq<Instr>, els: seq<Instr>)
    ensures out + [Remark] + test + thn + [Jmp(Label(EndIf, n))] + [LabelDef(Label(Else, n))] + els + [LabelDef(Label(EndIf, n))]
         == out + IfElseCode(n, test, thn, els)
  {
    var last := els + [LabelDef(Label(EndIf, n))];
    var middle := [Jmp(Label(EndIf, n)), LabelDef(Label(Else, n))];
    Associate(out, [Remark], test + (thn + (middle + last)));
    Associate(out + [Remark], test, thn + (middle + last));
    Associate(out + [Remark] + test, thn, middle + last);
    Associate(out + [Remark] + test + thn, middle, last);
    TwoAppended(out + [Remark] + test + thn, middle[0], middle[1]);
    Associate(out + [Remark] + test + thn + middle, els, [LabelDef(Label(EndIf, n))]);
  }

  lemma BlockDone(ss: Stmts, scope: seq<string>, n: nat, loop: Target)
    requires LegalAll(ss, scope, loop.InLoop?)
    ensures var s := Block(ss);
      && Legal(s, scope, loop.InLoop?) && After(s, scope) == scope && Count(s) == CountAll(ss) && Slots(s) == SlotsAll(ss)
      && Gen(s, scope, n, loop) == GenAll(ss, scope, n, loop)
    ensures GenAll(Nil, scope, n, loop) == [] && CountAll(Nil) == 0 && SlotsAll(Nil) == 0
  {
  }

  lemma WhileDone(out: seq<Instr>, c: M2Grammar.Expr, b: Stmt, scope: seq<string>, n: nat, loop: Target)
    requires Resolved(c, scope) && Legal(b, scope, true)
    ensures var s := While(c, b);
      && Legal(s, scope, loop.InLoop?) && After(s, scope) == After(b, scope) && Count(s) == 1 + Count(b) && Slots(s) == Slots(b)
      && out + [LabelDef(Label(WhileTop, n))] + Branch(c, scope, Je(Label(EndWhile, n))) + [Remark] + Gen(b, scope, n + 1, WhileTarget(n))
         + [Jmp(Label(WhileTop, n))] + [LabelDef(Label(EndWhile, n))] == out + Gen(s, scope, n, loop)
  {
    assert WhileTarget(n).InLoop?;
    hide *;
    WhileUnfolded(c, b, scope, n, loop);
    WhileAppended(out, n, Branch(c, scope, Je(Label(EndWhile, n))), Gen(b, scope, n + 1, WhileTarget(n)));
  }

  lemma WhileUnfolded(c: M2Grammar.Expr, b: Stmt, scope: seq<string>, n: nat, loop: Target)
    requires Resolved(c, scope) && Legal(b, scope, true)
    ensures var s := While(c, b);
      && Legal(s, scope, loop.InLoop?) && After(s, scope) == After(b, scope) && Count(s) == 1 + Count(b) && Slots(s) == Slots(b)
      && Gen(s, scope, n, loop) == WhileCode(n, Branch(c, scope, Je(Label(EndWhile, n))), Gen(b, scope, n + 1, WhileTarget(n)))
  {
    hide Branch, Resolved, WhileCode, LegalAll, AfterAll, CountAll, SlotsAll, GenAll, GenDecls, GenInit, Code;
  }

  lemma WhileAppended(out: seq<Instr>, n: nat, test: seq<Instr>, body: seq<Instr>)
    ensures out + [LabelDef(Label(WhileTop, n))] + test + [Remark] + body + [Jmp(Label(WhileTop, n))] + [LabelDef(Label(EndWhile, n))]
         == out + WhileCode(n, test, body)
  {
    var a, last := out + [LabelDef(Label(WhileTop, n))], [Jmp(Label(WhileTop, n)), LabelDef(Label(EndWhile, n))];
    Associate(out, [LabelDef(Label(WhileTop, n))], test + ([Remark] + (body + last)));
    Associate(a, test, [Remark] + (body + last));
    Associate(a + test, [Remark], body + last);
    Associate(a + test + [Remark], body, last);
    TwoAppended(a + test + [Remark] + body, last[0], last[1]);
  }

  lemma DoDone(out: seq<Instr>, b: Stmt, c: M2Grammar.Expr, scope: seq<string>, n: nat, loop: Target)
    requires Legal(b, scope, true) && Resolved(c, After(b, scope))
    ensures var s := DoWhile(b, c);
      && Legal(s, scope, loop.InLoop?) && After(s, scope) == After(b, scope) && Count(s) == 1 + Count(b) && Slots(s) == Slots(b)
      && out + [LabelDef(Label(DoTop, n))] + Gen(b, scope, n + 1, DoTarget(n)) + [LabelDef(Label(DoTest, n))]
         + Branch(c, After(b, scope), Jne(Label(DoTop, n))) + [LabelDef(Label(DoEnd, n))] == out + Gen(s, scope, n, loop)
  {
    assert DoTarget(n).InLoop?;
    hide *;
    DoUnfolded(b, c, scope, n, loop);
    DoAppended(out, n, Gen(b, scope, n + 1, DoTarget(n)), Branch(c, After(b, scope), Jne(Label(DoTop, n))));
  }

  lemma DoUnfolded(b: Stmt, c: M2Grammar.Expr, scope: seq<string>, n: nat, loop: Target)
    requires Legal(b, scope, true) && Resolved(c, After(b, scope))
    ensures var s := DoWhile(b, c);
      && Legal(s, scope, loop.InLoop?) && After(s, scope) == After(b, scope) && Count(s) == 1 + Count(b) && Slots(s) == Slots(b)
      && Gen(s, scope, n, loop) == DoCode(n, Gen(b, scope, n + 1, DoTarget(n)), Branch(c, After(b, scope), Jne(Label(DoTop, n))))
  {
    hide Branch, Resolved, DoCode, LegalAll, AfterAll, CountAll, SlotsAll, GenAll, GenDecls, GenInit, Code;
  }

  lemma DoAppended(out: seq<Instr>, n: nat, body: seq<Instr>, test: seq<Instr>)
    ensures out + [LabelDef(Label(DoTop, n))] + body + [LabelDef(Label(DoTest, n))] + test + [LabelDef(Label(DoEnd, n))] == out + DoCode(n, body, test)
  {
    var a, mark, last := out + [LabelDef(Label(DoTop, n))], [LabelDef(Label(DoTest, n))], [LabelDef(Label(DoEnd, n))];
    Associate(out, [LabelDef(Label(DoTop, n))], body + (mark + (test + last)));
    Associate(a, body, mark + (test + last));
    Associate(a + body, mark, test + last);
    Associate(a + body + mark, test, last);
  }

  lemma ForDone(out: seq<Instr>, init: ForInit, c: M2Grammar.Expr, st: M2Grammar.Expr, b: Stmt, scope: seq<string>, n: nat, loop: Target)
    requires var scope1 := InitScope(init, scope);
      ResolvedInit(init, scope) && Resolved(c, scope1) && Resolved(st, scope1) && Legal(b, scope1, true)
    ensures var s := For(init, c, st, b); var scope1 := InitScope(init, scope);
      && Legal(s, scope, loop.InLoop?) && After(s, scope) == After(b, scope1) && Count(s) == 1 + Count(b) && Slots(s) == InitCount(init) + Slots(b)
      && out + [Remark] + GenInit(init, scope) + [LabelDef(Label(ForTop, n))] + Code(c, scope1) + [TestRaxRax, Je(Label(ForEnd, n))]
         + [Jmp(Label(ForThen, n))] + [LabelDef(Label(ForIter, n))] + Code(st, scope1) + [Jmp(Label(ForTop, n))] + [LabelDef(Label(ForThen, n))]
         + Gen(b, scope1, n + 1, ForTarget(n)) + [Jmp(Label(ForIter, n))] + [LabelDef(Label(ForEnd, n))] == out + Gen(s, scope, n, loop)
  {
    hide Code, Resolved, GenInit, ResolvedInit, InitScope;
    var scope1 := InitScope(init, scope);
    ForAppended(out, n, GenInit(init, scope), Code(c, scope1), Code(st, scope1), Gen(b, scope1, n + 1, ForTarget(n)));
  }

  lemma ForAppended(out: seq<Instr>, n: nat, start: seq<Instr>, test: seq<Instr>, step: seq<Instr>, body: seq<Instr>)
    ensures out + [Remark] + start + [LabelDef(Label(ForTop, n))] + test + [TestRaxRax, Je(Label(ForEnd, n))]
            + [Jmp(Label(ForThen, n))] + [LabelDef(Label(ForIter, n))] + step + [Jmp(Label(ForTop, n))] + [LabelDef(Label(ForThen, n))]
            + body + [Jmp(Label(ForIter, n))] + [LabelDef(Label(ForEnd, n))]
         == out + ForCode(n, start, test + [TestRaxRax, Je(Label(ForEnd, n))], step, body)
  {
    var a := out + [Remark] + start + [LabelDef(Label(ForTop, n))] + test + [TestRaxRax, Je(Label(ForEnd, n))];
    var c := [Jmp(Label(ForTop, n)), LabelDef(Label(ForThen, n))] + (body + [Jmp(Label(ForIter, n)), LabelDef(Label(ForEnd, n))]);
    assert a + [Jmp(Label(ForThen, n))] + [LabelDef(Label(ForIter, n))] + step + [Jmp(Label(ForTop, n))] + [LabelDef(Label(ForThen, n))]
           + body + [Jmp(Label(ForIter, n))] + [LabelDef(Label(ForEnd, n))]
        == a + ([Jmp(Label(ForThen, n)), LabelDef(Label(ForIter, n))] + (step + c));
  }

  lemma ListAppended(out: seq<Instr>, s: Stmt, tail: Stmts, scope: seq<string>, n: nat, loop: Target)
    requires Legal(s, scope, loop.InLoop?) && LegalAll(tail, After(s, scope), loop.InLoop?)
    ensures LegalAll(Cons(s, tail), scope, loop.InLoop?)
    ensures out + Gen(s, scope, n, loop) + GenAll(tail, After(s, scope), n + Count(s), loop) == out + GenAll(Cons(s, tail), scope, n, loop)
    ensures CountAll(Cons(s, tail)) == Count(s) + CountAll(tail) && SlotsAll(Cons(s, tail)) == Slots(s) + SlotsAll(tail)
  {
    hide Gen, Legal, Count, Slots, After;
  }

  lemma BlockParsed(t: seq<Token>, scope: seq<string>, inLoop: bool)
    requires M2Stmt.At(t, LBrace) && !(|t| > 1 && t[1] == Colon)
    ensures ParseStmt(t, scope, inLoop) == if |t| == 1 then SFail
              else if ParseList(t[1..], scope, inLoop).LGot? then SGot(Block(ParseList(t[1..], scope, inLoop).ss), ParseList(t[1..], scope, inLoop).rest)
              else SFail
  {
    hide ParseList, Legal;
  }

  lemma ListParsed(t: seq<Token>, scope: seq<string>, inLoop: bool)
    ensures t == [] ==> ParseList(t, scope, inLoop) == LFail
    ensures M2Stmt.At(t, RBrace) ==> ParseList(t, scope, inLoop) == LGot(Nil, t[1..])
    ensures t != [] && t[0] != RBrace ==>
      var p := ParseStmt(t, scope, inLoop);
      ParseList(t, scope, inLoop) ==
        if p.SFail? then LFail
        else
          var q := ParseList(p.rest, After(p.s, scope), inLoop);
          if q.LGot? then LGot(Cons(p.s, q.ss), q.rest) else LFail
  {
    hide ParseStmt, Legal, LegalAll, After;
  }

  class Compiler {
    var globalToken: seq<Token>
    var outputList: seq<Instr>
    var currentCount: nat
    /** function->locals, innermost last. */
    var locals: seq<Local>
    var localsDepth: int
    /** break_target_head, continue_target_head and break_target_num. */
    var target: Target

    /** Every local has its own word below the one declared before it. */
    ghost predicate Valid()
      reads this`locals
    {
      forall k :: 0 <= k < |locals| ==> locals[k].depth == Depth(k)
    }

    ghost function Scope(): seq<string>
      reads this`locals
    {
      Names(locals)
    }

    constructor (t: seq<Token>)
      ensures globalToken == t && outputList == [] && target == NoLoop && locals == [] && Valid()
    {
      globalToken, outputList, currentCount, locals, localsDepth, target := t, [], 0, [], 0, NoLoop;
    }

    // ---- expressions ----------------------------------------------------------------------

    /** sym_lookup on the list of locals, from the most recent declaration back. */
    method SymLookup(s: string) returns (k: int)
      ensures k >= 0 <==> s in Scope()
      ensures k >= 0 ==> k == Lookup(Scope(), s)
    {
      k := |locals| - 1;
      while k >= 0 && locals[k].name != s
        invariant -1 <= k < |locals|
        invariant forall j :: k < j < |locals| ==> locals[j].name != s
      {
        k := k - 1;
      }
      assert k >= 0 ==> Scope()[k] == s;
    }

    method Apply(f: Rule) returns (ok: bool)
      requires Valid() && (f.LevelRule? ==> f.l <= 5)
      modifies this`globalToken, this`outputList
      ensures var p := ParseRule(f, old(globalToken), Scope());
        && (ok <==> p.Got?)
        && (ok ==> globalToken == p.rest && outputList == old(outputList) + Code(p.e, Scope()))
      decreases |globalToken|, 11
    {
      match f
      case Primary => ok := PrimaryExpr();
      case Postfix => ok := PostfixExpr();
      case LevelRule(l) => ok := LevelExpr(l);
      case Expression => ok := Expr();
    }

    method CommonRecursion(f: Rule) returns (ok: bool)
      requires Valid() && globalToken != [] && (f.LevelRule? ==> f.l <= 5)
      modifies this`globalToken, this`outputList
      ensures var p := ParseRule(f, old(globalToken)[1..], Scope());
        && (ok <==> p.Got?)
        && (ok ==> globalToken == p.rest && outputList == old(outputList) + ([PushRax] + Code(p.e, Scope()) + [PopRbx]))
      decreases |globalToken|, 0
    {
      outputList := outputList + [PushRax];
      globalToken := globalToken[1..];
      ok := Apply(f);
      if ok {
        outputList := outputList + [PopRbx];
      }
    }

    method PrimaryExpr() returns (ok: bool)
      requires Valid()
      modifies this`globalToken, this`outputList
      ensures var p := ParsePrimary(old(globalToken), Scope());
        && (ok <==> p.Got?)
        && (ok ==> globalToken == p.rest && outputList == old(outputList) + Code(p.e, Scope()))
      decreases |globalToken|, 2
    {
      hide ParseExpr, ParsePostfix;
      ok := false;
      if globalToken == [] {
        return;
      }
      match globalToken[0]
      case Num(n) =>
        outputList := outputList + LoadImm(n);
        ok := |globalToken| > 1;
        globalToken := globalToken[1..];
      case Name(s) => ok := VariableExpr(s);
      case Op(op) =>
        if op == Sub {
          ok := NegExpr();
        } else if op == Ne {
          ok := NotExpr();
        }
      case Bang => ok := NotExpr();
      case Tilde =>
        ok := ComplExpr();
      case LParen => ok := ParenExpr();
      case _ =>
    }

    method VariableExpr(s: string) returns (ok: bool)
      requires Valid() && globalToken != []
      modifies this`globalToken, this`outputList
      ensures ok <==> s in Scope() && |old(globalToken)| > 1
      ensures ok ==> globalToken == old(globalToken)[1..]
      ensures ok ==> outputList == old(outputList) + Code(Var(s, !IsAssign(globalToken[0])), Scope())
    {
      var k := SymLookup(s);
      ok := k >= 0 && |globalToken| > 1;
      if ok {
        outputList := outputList + [LeaRax(locals[k].depth)];
        globalToken := globalToken[1..];
        if !IsAssign(globalToken[0]) {
          outputList := outputList + [LoadRax];
        }
      }
    }

    method ComplExpr() returns (ok: bool)
      requires Valid() && globalToken != []
      modifies this`globalToken, this`outputList
      ensures var p := ParsePostfix(old(globalToken)[1..], Scope());
        && (ok <==> p.Got?)
        && (ok ==> globalToken == p.rest && outputList == old(outputList) + Code(Compl(p.e), Scope()))
      decreases |globalToken|, 1
    {
      ok := CommonRecursion(Postfix);
      outputList := outputList + [NotRax];
    }

    method NegExpr() returns (ok: bool)
      requires Valid() && globalToken != []
      modifies this`globalToken, this`outputList
      ensures var p := ParsePrimary(old(globalToken)[1..], Scope());
        && (ok <==> p.Got?)
        && (ok ==> globalToken == p.rest && outputList == old(outputList) + Code(Neg(p.e), Scope()))
      decreases |globalToken|, 1
    {
      outputList := outputList + LoadImm(0);
      ok := CommonRecursion(Primary);
      outputList := outputList + [SubRbxRax, MovRaxRbx];
    }

    method ParenExpr() returns (ok: bool)
      requires Valid() && globalToken != []
      modifies this`globalToken, this`outputList
      ensures var p := ParseExpr(old(globalToken)[1..], Scope());
        && (ok <==> p.Got? && p.rest[0] == RParen)
        && (ok ==> globalToken == p.rest[1..] && outputList == old(outputList) + Code(p.e, Scope()))
      decreases |globalToken|, 1
    {
      globalToken := globalToken[1..];
      ok := Expr();
      if ok {
        ok := globalToken[0] == RParen;
        globalToken := globalToken[1..];
      }
    }

    /** The branch for a token that starts with an exclamation mark. */
    method NotExpr() returns (ok: bool)
      requires Valid() && globalToken != []
      modifies this`globalToken, this`outputList
      ensures var p := ParsePostfix(old(globalToken)[1..], Scope());
        && (ok <==> p.Got?)
        && (ok ==> globalToken == p.rest && outputList == old(outputList) + Code(Not(old(globalToken)[0], p.e), Scope()))
      decreases |globalToken|, 1
    {
      outputList := outputList + LoadImm(1);
      ok := CommonRecursion(Postfix);
      outputList := outputList + [CmpRbxRax, SetAl(A), MovzxRaxAl];
    }

    method PostfixExpr() returns (ok: bool)
      requires Valid()
      modifies this`globalToken, this`outputList
      ensures var p := ParsePostfix(old(globalToken), Scope());
        && (ok <==> p.Got?)
        && (ok ==> globalToken == p.rest && outputList == old(outputList) + Code(p.e, Scope()))
      decreases |globalToken|, 3
    {
      ok := PrimaryExpr();
      ok := ok && globalToken != [] && !IsPostfix(globalToken[0]);
    }

    /** The five binary levels, additive_expr_a to bitwise_expr, above postfix_expr. */
    method LevelExpr(l: nat) returns (ok: bool)
      requires Valid() && l <= 5
      modifies this`globalToken, this`outputList
      ensures var p := ParseLevel(l, old(globalToken), Scope());
        && (ok <==> p.Got?)
        && (ok ==> globalToken == p.rest && outputList == old(outputList) + Code(p.e, Scope()))
      decreases |globalToken|, 4 + l
    {
      if l == 0 {
        ok := PostfixExpr();
      } else {
        ghost var p := ParseLevel(l - 1, globalToken, Scope());
        ghost var out := outputList;
        ok := LevelExpr(l - 1);
        if ok {
          ok := LevelStub(l, p.e, out);
        }
      }
    }

    method LevelStub(l: nat, ghost left: M2Grammar.Expr, ghost out: seq<Instr>) returns (ok: bool)
      requires Valid() && 1 <= l <= 5 && globalToken != []
      requires Resolved(left, Scope()) && outputList == out + Code(left, Scope())
      modifies this`globalToken, this`outputList
      ensures var p := ParseTail(l, left, old(globalToken), Scope());
        && (ok <==> p.Got?)
        && (ok ==> globalToken == p.rest && outputList == out + Code(p.e, Scope()))
      decreases |globalToken|, 1
    {
      ok := true;
      if globalToken[0].Op? && Level(globalToken[0].op) == l {
        var op := globalToken[0].op;
        ghost var p := ParseLevel(l - 1, globalToken[1..], Scope());
        ok := CommonRecursion(LevelRule(l - 1));
        if ok {
          outputList := outputList + OpCode(op);
          assert outputList == out + Code(Bin(op, left, p.e), Scope());
          ok := LevelStub(l, Bin(op, left, p.e), out);
        }
      }
    }

    method Expr() returns (ok: bool)
      requires Valid()
      modifies this`globalToken, this`outputList
      ensures var p := ParseExpr(old(globalToken), Scope());
        && (ok <==> p.Got?)
        && (ok ==> globalToken == p.rest && outputList == old(outputList) + Code(p.e, Scope()))
      decreases |globalToken|, 10
    {
      ghost var p := ParseLevel(5, globalToken, Scope());
      ghost var out := outputList;
      ok := LevelExpr(5);
      if !ok {
      } else if globalToken[0] == Assign {
        ok := AssignRest(p.e, out);
      } else if IsCompound(globalToken[0]) {
        ok := CompoundRest(p.e, out);
      }
    }

    method AssignRest(ghost dest: M2Grammar.Expr, ghost out: seq<Instr>) returns (ok: bool)
      requires Valid() && globalToken != [] && Resolved(dest, Scope()) && outputList == out + Code(dest, Scope())
      modifies this`globalToken, this`outputList
      ensures var p := ParseExpr(old(globalToken)[1..], Scope());
        && (ok <==> p.Got?)
        && (ok ==> globalToken == p.rest && outputList == out + Code(Set(dest, p.e), Scope()))
      decreases |globalToken|, 1
    {
      ok := CommonRecursion(Expression);
      outputList := outputList + [StoreRax];
    }

    method CompoundRest(ghost dest: M2Grammar.Expr, ghost out: seq<Instr>) returns (ok: bool)
      requires Valid() && globalToken != [] && globalToken[0].OpAssign? && Resolved(dest, Scope()) && outputList == out + Code(dest, Scope())
      modifies this`globalToken, this`outputList
      ensures var p := ParseExpr(old(globalToken)[1..], Scope());
        && (ok <==> p.Got?)
        && (ok ==> globalToken == p.rest && outputList == out + Code(SetOp(old(globalToken)[0].base, dest, p.e), Scope()))
      decreases |globalToken|, 1
    {
      var op := globalToken[0].base;
      ok := CommonRecursion(Expression);
      ghost var p := ParseExpr(old(globalToken)[1..], Scope());
      outputList := outputList + [PushRbx, LoadRbx];
      outputList := outputList + OpCode(op);
      outputList := outputList + [PopRbx, StoreRax];
      if ok {
        UpdateAppended(out, Code(dest, Scope()), Code(p.e, Scope()), OpCode(op));
      }
    }

    // ---- declarations ---------------------------------------------------------------------

    /** What a declarator list that has been read has left behind. */
    twostate predicate Declared(p: ParsedDecls, scope: seq<string>, ok: bool)
      requires p.DGot? ==> ResolvedDecls(p.ds, scope)
      reads this
    {
      && (ok <==> p.DGot?)
      && (ok ==> Valid() && globalToken == p.rest && outputList == old(outputList) + GenDecls(p.ds, scope)
                 && Scope() == DeclScope(p.ds, scope) && localsDepth == old(localsDepth) + 8 * DeclCount(p.ds))
    }

    method DeclareLocal(name: string)
      requires Valid()
      modifies this`outputList, this`locals, this`localsDepth
      ensures Valid() && Scope() == old(Scope()) + [name] && localsDepth == old(localsDepth) + 8
      ensures outputList == old(outputList) + [Remark]
    {
      outputList := outputList + [Remark];
      var offset := if locals == [] then 0 else locals[|locals| - 1].depth;
      var a := Local(name, offset - 8);
      NamesAppend(locals, a);
      localsDepth := localsDepth + 8;
      locals := locals + [a];
    }

    /** The initialiser of the local declared last. */
    method Initialise() returns (ok: bool)
      requires Valid() && globalToken != [] && locals != []
      modifies this`globalToken, this`outputList
      ensures var p := ParseExpr(old(globalToken)[1..], Scope());
        && (ok <==> p.Got?)
        && (ok ==> globalToken == p.rest && outputList == old(outputList) + StoreInit(Some(p.e), |locals| - 1, Scope()))
      decreases |globalToken|, 11
    {
      hide Code, ParseExpr, Resolved;
      globalToken := globalToken[1..];
      ok := Expr();
      if ok {
        var k := SymLookup(locals[|locals| - 1].name);
        outputList := outputList + [LeaRbx(locals[k].depth)];
        outputList := outputList + [StoreRax];
      }
    }

    /** One declarator: the new local is in scope in its own initialiser. */
    method Declarator() returns (ok: bool, ghost init: Option<M2Grammar.Expr>)
      requires Valid()
      modifies this`globalToken, this`outputList, this`locals, this`localsDepth
      ensures var t := old(globalToken); var scope := old(Scope());
        if |t| < 2 || !t[0].Name? then !ok
        else
          && ParseDecls(t, scope) == (if ok then MoreDecls(t[0].s, init, globalToken, Scope()) else DFail)
          && (ok ==> Valid() && |globalToken| < |t| && Scope() == scope + [t[0].s] && localsDepth == old(localsDepth) + 8
                     && (init.Some? ==> Resolved(init.value, Scope())))
          && (ok ==> outputList == old(outputList) + ([Remark] + StoreInit(init, |scope|, Scope())))
      decreases |globalToken|, 12
    {
      hide Code, ParseExpr, Resolved, MoreDecls;
      ok, init := false, None;
      if |globalToken| < 2 || !globalToken[0].Name? {
        return;
      }
      var name := globalToken[0].s;
      globalToken := globalToken[1..];
      DeclareLocal(name);
      if globalToken[0] == Assign {
        ghost var p := ParseExpr(globalToken[1..], Scope());
        ok := Initialise();
        if ok {
          init := Some(p.e);
        }
      } else {
        ok := true;
      }
    }

    /** The part of collect_local after the type name. */
    method CollectLocal() returns (ok: bool)
      requires Valid()
      modifies this`globalToken, this`outputList, this`locals, this`localsDepth
      ensures Declared(ParseDecls(old(globalToken), old(Scope())), old(Scope()), ok)
      decreases |globalToken|, 13
    {
      hide Code, ParseExpr, Resolved, StoreInit, GenDecls, Depth;
      ghost var p := ParseDecls(globalToken, Scope());
      var more := true;
      ok := false;
      while more
        invariant Valid()
        invariant !more ==> Declared(p, old(Scope()), true)
        invariant more ==> Declaring(p, old(Scope()))
        decreases |globalToken|, more
      {
        ghost var before, scope := outputList, Scope();
        ghost var t := globalToken;
        ghost var init;
        ok, init := Declarator();
        if !ok {
          return;
        }
        ghost var comma := globalToken != [] && globalToken[0] == Comma;
        if globalToken != [] && globalToken[0] == Comma {
          globalToken := globalToken[1..];
        }
        ok := globalToken != [];
        if !ok {
          return;
        }
        DeclAppended(before, t[0].s, init, comma, scope, NoMore);
        if globalToken[0] == Semi {
          assert DeclScope(NoMore, Scope()) == Scope() && DeclCount(NoMore) == 0;
          globalToken := globalToken[1..];
          more := false;
        } else if ParseDecls(globalToken, Scope()).DGot? {
          DeclAppended(before, t[0].s, init, comma, scope, ParseDecls(globalToken, Scope()).ds);
        }
      }
      ok := true;
    }

    /** The invariant of its loop: what is still to be read completes what has been read. */
    twostate predicate Declaring(p: ParsedDecls, scope: seq<string>)
      requires p.DGot? ==> ResolvedDecls(p.ds, scope)
      reads this
    {
      var q := ParseDecls(globalToken, Scope());
      && (p.DGot? <==> q.DGot?)
      && (p.DGot? ==> q.rest == p.rest && outputList + GenDecls(q.ds, Scope()) == old(outputList) + GenDecls(p.ds, scope)
                      && DeclScope(q.ds, Scope()) == DeclScope(p.ds, scope)
                      && localsDepth + 8 * DeclCount(q.ds) == old(localsDepth) + 8 * DeclCount(p.ds))
    }

    // ---- statements -----------------------------------------------------------------------

    /** What a statement that has been read has left behind. */
    twostate predicate Compiled(p: ParsedStmt, ok: bool)
      requires p.SGot? ==> Legal(p.s, old(Scope()), old(target).InLoop?)
      reads this
    {
      && (ok <==> p.SGot?)
      && (ok ==> Valid() && globalToken == p.rest && target == old(target) && Scope() == After(p.s, old(Scope()))
                 && outputList == old(outputList) + Gen(p.s, old(Scope()), old(currentCount), old(target))
                 && currentCount == old(currentCount) + Count(p.s) && localsDepth == old(localsDepth) + 8 * Slots(p.s))
    }

    /** A parenthesised condition and its jump. */
    method Condition(jump: Instr) returns (ok: bool)
      requires Valid()
      modifies this`globalToken, this`outputList
      ensures var p := ParseCond(old(globalToken), Scope());
        && (ok <==> p.Got?)
        && (ok ==> globalToken == p.rest && outputList == old(outputList) + Branch(p.e, Scope(), jump))
      decreases |globalToken|, 11
    {
      hide Code, ParseExpr, Resolved;
      ok := globalToken != [] && globalToken[0] == LParen;
      if ok {
        globalToken := globalToken[1..];
        ok := Expr();
      }
      if ok {
        outputList := outputList + [TestRaxRax, jump];
        ok := globalToken[0] == RParen;
        globalToken := globalToken[1..];
      }
    }

    method ProcessIf() returns (ok: bool)
      requires Valid() && M2Stmt.At(globalToken, KwIf)
      modifies this
      ensures Compiled(ParseIf(old(globalToken), old(Scope()), old(target).InLoop?), ok)
      decreases |globalToken|, 14
    {
      hide Names, Depth, Code, ParseExpr, ParseStmt, ParseCond, Resolved, Branch, Gen, Legal, After, Count, Slots;
      ghost var out, scope, loop := outputList, Scope(), target;
      var n := currentCount;
      currentCount := currentCount + 1;
      outputList := outputList + [Remark];
      globalToken := globalToken[1..];
      ghost var c := ParseCond(globalToken, scope);
      ok := Condition(Je(Label(Else, n)));
      if !ok { return; }
      ghost var a := ParseStmt(globalToken, scope, loop.InLoop?);
      ok := Statement();
      if !ok || globalToken == [] { return false; }
      var hasElse := globalToken[0] == KwElse;
      if hasElse {
        outputList := outputList + [Jmp(Label(EndIf, n))];
      }
      outputList := outputList + [LabelDef(Label(Else, n))];
      if hasElse {
        globalToken := globalToken[1..];
        ghost var b := ParseStmt(globalToken, Scope(), loop.InLoop?);
        ok := Statement();
        if !ok || globalToken == [] { return false; }
        IfElseDone(out, c.e, a.s, b.s, scope, n, loop);
      } else {
        IfDone(out, c.e, a.s, scope, n, loop);
      }
      outputList := outputList + [LabelDef(Label(EndIf, n))];
    }

    method ProcessWhile() returns (ok: bool)
      requires Valid() && M2Stmt.At(globalToken, KwWhile) && !(|globalToken| > 1 && globalToken[1] == Colon)
      modifies this
      ensures Compiled(ParseStmt(old(globalToken), old(Scope()), old(target).InLoop?), ok)
      decreases |globalToken|, 14
    {
      hide Names, Depth, Code, ParseExpr, ParseCond, Resolved, Branch, Gen, Legal, After, Count, Slots;
      ghost var out, scope, loop := outputList, Scope(), target;
      var nested := target;
      var n := currentCount;
      currentCount := currentCount + 1;
      target := WhileTarget(n);
      outputList := outputList + [LabelDef(Label(WhileTop, n))];
      globalToken := globalToken[1..];
      ghost var c := ParseCond(globalToken, scope);
      ok := Condition(Je(Label(EndWhile, n)));
      if !ok { return; }
      outputList := outputList + [Remark];
      ghost var b := ParseStmt(globalToken, scope, true);
      ok := Statement();
      if !ok || globalToken == [] { return false; }
      outputList := outputList + [Jmp(Label(WhileTop, n))];
      outputList := outputList + [LabelDef(Label(EndWhile, n))];
      target := nested;
      WhileDone(out, c.e, b.s, scope, n, loop);
    }

    method ProcessDo() returns (ok: bool)
      requires Valid() && M2Stmt.At(globalToken, KwDo)
      modifies this
      ensures Compiled(ParseDo(old(globalToken), old(Scope())), ok)
      decreases |globalToken|, 14
    {
      hide Names, Depth, Code, ParseExpr, ParseStmt, ParseCond, Resolved, Branch, Gen, Legal, After, Count, Slots;
      ghost var out, scope, loop := outputList, Scope(), target;
      var nested := target;
      var n := currentCount;
      currentCount := currentCount + 1;
      target := DoTarget(n);
      outputList := outputList + [LabelDef(Label(DoTop, n))];
      globalToken := globalToken[1..];
      ghost var b := ParseStmt(globalToken, scope, true);
      ok := Statement();
      if !ok { return; }
      outputList := outputList + [LabelDef(Label(DoTest, n))];
      ok := globalToken != [] && globalToken[0] == KwWhile;
      if !ok { return; }
      globalToken := globalToken[1..];
      ghost var c := ParseCond(globalToken, Scope());
      ok := Condition(Jne(Label(DoTop, n)));
      if !ok || globalToken == [] || globalToken[0] != Semi { return false; }
      globalToken := globalToken[1..];
      outputList := outputList + [LabelDef(Label(DoEnd, n))];
      target := nested;
      DoDone(out, b.s, c.e, scope, n, loop);
    }

    /** The first part of a for header. */
    method ForStart() returns (ok: bool)
      requires Valid()
      modifies this`globalToken, this`outputList, this`locals, this`localsDepth
      ensures var p := ParseInit(old(globalToken), old(Scope()));
        && (ok <==> p.IGot?)
        && (ok ==> Valid() && globalToken == p.rest && outputList == old(outputList) + GenInit(p.init, old(Scope()))
                   && Scope() == InitScope(p.init, old(Scope())) && localsDepth == old(localsDepth) + 8 * InitCount(p.init))
      decreases |globalToken|, 13
    {
      hide Code, ParseExpr, ParseDecls, Resolved, GenDecls;
      if globalToken != [] && globalToken[0] == KwInt {
        globalToken := globalToken[1..];
        ok := CollectLocal();
      } else if globalToken != [] && globalToken[0] == Semi {
        globalToken := globalToken[1..];
        ok := true;
      } else {
        ok := Expr();
        if ok {
          ok := globalToken[0] == Semi;
          globalToken := globalToken[1..];
        }
      }
    }

    /** A for statement up to the parenthesis that closes its header. */
    method ForHeader(n: nat) returns (ok: bool)
      requires Valid() && M2Stmt.At(globalToken, KwFor)
      modifies this`globalToken, this`outputList, this`locals, this`localsDepth
      ensures var t := old(globalToken); var scope := old(Scope());
        if !M2Stmt.At(t[1..], LParen) then !ok
        else
          var i := ParseInit(t[2..], scope);
          if i.IFail? then !ok
          else
            var scope1 := InitScope(i.init, scope);
            var c := ParseExpr(i.rest, scope1);
            if c.Fail? || c.rest[0] != Semi then !ok
            else
              var st := ParseExpr(c.rest[1..], scope1);
              if st.Fail? || st.rest[0] != RParen then !ok
              else
                && ok && Valid() && globalToken == st.rest[1..] && Scope() == scope1 && localsDepth == old(localsDepth) + 8 * InitCount(i.init)
                && outputList == old(outputList) + [Remark] + GenInit(i.init, scope) + [LabelDef(Label(ForTop, n))] + Code(c.e, scope1)
                     + [TestRaxRax, Je(Label(ForEnd, n))] + [Jmp(Label(ForThen, n))] + [LabelDef(Label(ForIter, n))] + Code(st.e, scope1)
                     + [Jmp(Label(ForTop, n))] + [LabelDef(Label(ForThen, n))]
      decreases |globalToken|, 13, 1
    {
      hide Code, ParseExpr, ParseInit, GenInit, InitScope, InitCount, ResolvedInit, Resolved, Names;
      outputList := outputList + [Remark];
      globalToken := globalToken[1..];
      ok := globalToken != [] && globalToken[0] == LParen;
      if !ok { return; }
      globalToken := globalToken[1..];
      ok := ForStart();
      if !ok { return; }
      outputList := outputList + [LabelDef(Label(ForTop, n))];
      ok := Expr();
      if !ok { return; }
      outputList := outputList + [TestRaxRax, Je(Label(ForEnd, n))];
      outputList := outputList + [Jmp(Label(ForThen, n))];
      outputList := outputList + [LabelDef(Label(ForIter, n))];
      if globalToken[0] != Semi { return false; }
      globalToken := globalToken[1..];
      ok := Expr();
      if !ok { return; }
      outputList := outputList + [Jmp(Label(ForTop, n))];
      outputList := outputList + [LabelDef(Label(ForThen, n))];
      if globalToken[0] != RParen { return false; }
      globalToken := globalToken[1..];
    }

    method ProcessFor() returns (ok: bool)
      requires Valid() && M2Stmt.At(globalToken, KwFor)
      modifies this
      ensures Compiled(ParseFor(old(globalToken), old(Scope())), ok)
      decreases |globalToken|, 14
    {
      hide Names, Depth, Code, ParseExpr, ParseStmt, ParseInit, GenInit, InitScope, InitCount, ResolvedInit, Resolved, Gen, Legal, After, Count, Slots;
      ghost var out, scope, loop := outputList, Scope(), target;
      var nested := target;
      var n := currentCount;
      currentCount := currentCount + 1;
      target := ForTarget(n);
      ghost var i := if M2Stmt.At(globalToken[1..], LParen) then ParseInit(globalToken[2..], scope) else IFail;
      ok := ForHeader(n);
      if !ok { return; }
      ghost var scope1 := InitScope(i.init, scope);
      ghost var c := ParseExpr(i.rest, scope1);
      ghost var st := ParseExpr(c.rest[1..], scope1);
      ghost var b := ParseStmt(globalToken, scope1, true);
      ok := Statement();
      if !ok || globalToken == [] { return false; }
      outputList := outputList + [Jmp(Label(ForIter, n))];
      outputList := outputList + [LabelDef(Label(ForEnd, n))];
      target := nested;
      ForDone(out, i.init, c.e, st.e, b.s, scope, n, loop);
    }

    method ReturnResult() returns (ok: bool)
      requires Valid() && M2Stmt.At(globalToken, KwReturn) && !(|globalToken| > 1 && globalToken[1] == Colon)
      modifies this`globalToken, this`outputList
      ensures Compiled(ParseStmt(old(globalToken), old(Scope()), old(target).InLoop?), ok)
      decreases |globalToken|, 14
    {
      hide Code, ParseExpr, Resolved;
      globalToken := globalToken[1..];
      ok := true;
      if globalToken == [] || globalToken[0] != Semi {
        ok := Expr();
      }
      if ok {
        ok := globalToken[0] == Semi;
        globalToken := globalToken[1..];
        outputList := outputList + [RestoreFrame];
        outputList := outputList + [Ret];
      }
    }

    method ProcessJump() returns (ok: bool)
      requires Valid() && (M2Stmt.At(globalToken, KwBreak) || M2Stmt.At(globalToken, KwContinue))
      requires !(|globalToken| > 1 && globalToken[1] == Colon)
      modifies this`globalToken, this`outputList
      ensures Compiled(ParseStmt(old(globalToken), old(Scope()), old(target).InLoop?), ok)
    {
      ok := target.InLoop? && |globalToken| > 1;
      if ok {
        var head := if globalToken[0] == KwBreak then target.brk else target.cont;
        outputList := outputList + [Jmp(Label(head, target.num))];
        ok := globalToken[1] == Semi;
        globalToken := globalToken[2..];
      }
    }

    /** The invariant of the loop over a block: what is still to be read completes what has been
        read. */
    twostate predicate Listing(p: ParsedList, scope: seq<string>)
      requires p.LGot? ==> LegalAll(p.ss, scope, old(target).InLoop?)
      reads this
    {
      && target == old(target)
      && var q := ParseList(globalToken, Scope(), target.InLoop?);
      && (p.LGot? <==> q.LGot?)
      && (p.LGot? ==> q.rest == p.rest
                      && outputList + GenAll(q.ss, Scope(), currentCount, target) == old(outputList) + GenAll(p.ss, scope, old(currentCount), target)
                      && currentCount + CountAll(q.ss) == old(currentCount) + CountAll(p.ss)
                      && localsDepth + 8 * SlotsAll(q.ss) == old(localsDepth) + 8 * SlotsAll(p.ss))
    }

    method RecursiveStatement() returns (ok: bool)
      requires Valid() && M2Stmt.At(globalToken, LBrace) && !(|globalToken| > 1 && globalToken[1] == Colon)
      modifies this
      ensures Compiled(ParseStmt(old(globalToken), old(Scope()), old(target).InLoop?), ok)
      decreases |globalToken|, 14
    {
      hide Depth, Gen, Legal, Count, Slots, After, GenAll, LegalAll, CountAll, SlotsAll, Names, ParseStmt, ParseList;
      BlockParsed(globalToken, Scope(), target.InLoop?);
      globalToken := globalToken[1..];
      ok := globalToken != [];
      if !ok { return; }
      var frame := locals;
      ghost var p := ParseList(globalToken, Scope(), target.InLoop?);
      while globalToken[0] != RBrace
        invariant Valid() && globalToken != [] && |globalToken| < |old(globalToken)|
        invariant Listing(p, old(Scope()))
        decreases |globalToken|
      {
        ghost var out, scope, n := outputList, Scope(), currentCount;
        ghost var a := ParseStmt(globalToken, scope, target.InLoop?);
        ListParsed(globalToken, scope, target.InLoop?);
        ok := Statement();
        ListParsed(globalToken, Scope(), target.InLoop?);
        if !ok || globalToken == [] { return false; }
        ghost var q := ParseList(globalToken, Scope(), target.InLoop?);
        if q.LGot? {
          ListAppended(out, a.s, q.ss, scope, n, target);
        }
      }
      ok := true;
      ListParsed(globalToken, Scope(), target.InLoop?);
      BlockDone(Nil, Scope(), currentCount, target);
      if p.LGot? {
        BlockDone(p.ss, old(Scope()), old(currentCount), target);
      }
      globalToken := globalToken[1..];
      locals := frame;
    }

    method DeclStatement() returns (ok: bool)
      requires Valid() && M2Stmt.At(globalToken, KwInt) && !(|globalToken| > 1 && globalToken[1] == Colon)
      modifies this`globalToken, this`outputList, this`locals, this`localsDepth
      ensures Compiled(ParseStmt(old(globalToken), old(Scope()), old(target).InLoop?), ok)
      decreases |globalToken|, 14
    {
      hide ParseDecls, GenDecls, DeclScope, DeclCount, ResolvedDecls;
      globalToken := globalToken[1..];
      ok := CollectLocal();
    }

    /** The last branch of statement. */
    method ExprStatement() returns (ok: bool)
      requires Valid() && globalToken != [] && !(|globalToken| > 1 && globalToken[1] == Colon)
      requires match globalToken[0] { case LBrace => false case KwInt => false case KwIf => false case KwDo => false case KwWhile => false
                                      case KwFor => false case KwReturn => false case KwBreak => false case KwContinue => false case _ => true }
      modifies this`globalToken, this`outputList
      ensures Compiled(ParseStmt(old(globalToken), old(Scope()), old(target).InLoop?), ok)
      decreases |globalToken|, 14
    {
      hide Code, ParseExpr, Resolved;
      ok := Expr();
      if ok {
        ok := globalToken[0] == Semi;
        globalToken := globalToken[1..];
      }
    }

    method Statement() returns (ok: bool)
      requires Valid()
      modifies this
      ensures Compiled(ParseStmt(old(globalToken), old(Scope()), old(target).InLoop?), ok)
      decreases |globalToken|, 15
    {
      hide Code, ParseExpr, ParseDecls, ParseIf, ParseDo, ParseFor, ParseList, ParseCond, Resolved, Gen, Legal, Slots, Count, After, GenDecls;
      if globalToken == [] || (|globalToken| > 1 && globalToken[1] == Colon) {
        return false;
      }
      match globalToken[0]
      case LBrace => ok := RecursiveStatement();
      case KwInt => ok := DeclStatement();
      case KwIf => ok := ProcessIf();
      case KwDo => ok := ProcessDo();
      case KwWhile => ok := ProcessWhile();
      case KwFor => ok := ProcessFor();
      case KwReturn => ok := ReturnResult();
      case KwBreak => ok := ProcessJump();
      case KwContinue => ok := ProcessJump();
      case _ => ok := ExprStatement();
    }

    // ---- functions ------------------------------------------------------------------------

    /** The body of a definition without parameters and what is put around it. The three text
        buffers of the frame are filled in where they were emitted once locals_depth is known. */
    method DeclareFunction(isMain: bool) returns (ok: bool)
      requires target == NoLoop
      modifies this
      ensures var p := ParseStmt(old(globalToken), [], false);
        && (ok <==> p.SGot?)
        && (ok ==> globalToken == p.rest && outputList == old(outputList) + Program(p.s, isMain))
        && (ok ==> target == NoLoop && localsDepth == 8 * Slots(p.s))
    {
      hide ParseStmt, Gen, Legal, After, Count, Slots;
      var before := outputList;
      currentCount, locals, localsDepth := 0, [], 0;
      outputList := outputList + [Remark, Remark];
      outputList := outputList + [SaveFrame];
      outputList := outputList + [ReserveFrame];
      ghost var p := ParseStmt(globalToken, [], false);
      ok := Statement();
      if !ok { return; }
      ghost var body := Gen(p.s, [], 0, NoLoop);
      assert outputList == before + (PROLOGUE + body);
      if !EndsInReturn(outputList) {
        if isMain {
          outputList := outputList + [XorEaxEax];
        }
        outputList := outputList + [RestoreFrame];
        outputList := outputList + [Ret];
      }
      assert outputList == before + FunctionCode(p.s, isMain);
      outputList := before + FillAll(outputList[|before|..], localsDepth);
    }
  }
}
