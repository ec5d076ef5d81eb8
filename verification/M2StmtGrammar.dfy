/** The token lists of statements: the descent of M2-Planet accepts exactly them. */
module M2StmtGrammar {
  import opened Wrappers
  import opened M2Grammar
  import opened M2Stmt

  // ---- the tokens of a tree ---------------------------------------------------------------------

  function RenderValue(init: Option<Expr>): seq<Token> {
    if init.Some? then [Assign] + Render(init.value) else []
  }

  /** The declarators behind "int", to the semicolon. */
  function RenderDecls(ds: Decls): seq<Token> {
    match ds
    case NoMore => [Semi]
    case Declare(name, init, comma, more) => [Name(name)] + (RenderValue(init) + ((if comma then [Comma] else []) + RenderDecls(more)))
  }

  function RenderInit(init: ForInit): seq<Token> {
    match init
    case NoInit => [Semi]
    case InitExpr(e) => Render(e) + [Semi]
    case InitDecl(ds) => [KwInt] + RenderDecls(ds)
  }

  function RenderCond(c: Expr): seq<Token> {
    [LParen] + (Render(c) + [RParen])
  }

  function RenderStmt(s: Stmt): seq<Token> {
    match s
    case Block(ss) => [LBrace] + RenderAll(ss)
    case Decl(ds) => [KwInt] + RenderDecls(ds)
    case If(c, t) => [KwIf] + (RenderCond(c) + RenderStmt(t))
    case IfElse(c, t, e) => [KwIf] + (RenderCond(c) + (RenderStmt(t) + ([KwElse] + RenderStmt(e))))
    case While(c, b) => [KwWhile] + (RenderCond(c) + RenderStmt(b))
    case DoWhile(b, c) => [KwDo] + (RenderStmt(b) + ([KwWhile] + (RenderCond(c) + [Semi])))
    case For(init, c, st, b) => [KwFor] + ([LParen] + (RenderInit(init) + (Render(c) + ([Semi] + (Render(st) + ([RParen] + RenderStmt(b)))))))
    case Return(v) => [KwReturn] + ((if v.Some? then Render(v.value) else []) + [Semi])
    case Break => [KwBreak] + [Semi]
    case Continue => [KwContinue] + [Semi]
    case ExprStmt(e) => Render(e) + [Semi]
  }

  /** The statements of a block, to the closing brace. */
  function RenderAll(ss: Stmts): seq<Token> {
    match ss
    case Nil => [RBrace]
    case Cons(s, tail) => RenderStmt(s) + RenderAll(tail)
  }

  // ---- the grammar --------------------------------------------------------------------------------

  predicate IsExpr(e: Expr, scope: seq<string>) {
    WellFormed(e, 6, false, scope)
  }

  /** One declarator or more, each in scope from its own initialiser on. */
  predicate AreDecls(ds: Decls, scope: seq<string>) {
    match ds
    case NoMore => false
    case Declare(name, init, _, more) =>
      (init.Some? ==> IsExpr(init.value, scope + [name])) && (more == NoMore || AreDecls(more, scope + [name]))
  }

  predicate IsInit(init: ForInit, scope: seq<string>) {
    match init
    case NoInit => true
    case InitExpr(e) => IsExpr(e, scope)
    case InitDecl(ds) => AreDecls(ds, scope)
  }

  /** An else behind the statement would belong to an if at its end. */
  predicate TakesElse(s: Stmt) {
    match s
    case If(_, _) => true
    case IfElse(_, _, e) => TakesElse(e)
    case While(_, b) => TakesElse(b)
    case For(_, _, _, b) => TakesElse(b)
    case _ => false
  }

  /** s is a tree of the grammar: its names are in scope where they are used, break and continue are in a
      loop, and an else belongs to the last if that can have it. */
  predicate IsStmt(s: Stmt, scope: seq<string>, inLoop: bool) {
    match s
    case Block(ss) => AreStmts(ss, scope, inLoop)
    case Decl(ds) => AreDecls(ds, scope)
    case If(c, t) => IsExpr(c, scope) && IsStmt(t, scope, inLoop)
    case IfElse(c, t, e) => IsExpr(c, scope) && IsStmt(t, scope, inLoop) && !TakesElse(t) && IsStmt(e, After(t, scope), inLoop)
    case While(c, b) => IsExpr(c, scope) && IsStmt(b, scope, true)
    case DoWhile(b, c) => IsStmt(b, scope, true) && IsExpr(c, After(b, scope))
    case For(init, c, st, b) =>
      var scope1 := InitScope(init, scope);
      IsInit(init, scope) && IsExpr(c, scope1) && IsExpr(st, scope1) && IsStmt(b, scope1, true)
    case Return(v) => v.Some? ==> IsExpr(v.value, scope)
    case Break => inLoop
    case Continue => inLoop
    case ExprStmt(e) => IsExpr(e, scope)
  }

  predicate AreStmts(ss: Stmts, scope: seq<string>, inLoop: bool) {
    match ss
    case Nil => true
    case Cons(s, tail) => IsStmt(s, scope, inLoop) && AreStmts(tail, After(s, scope), inLoop)
  }

  /** What may follow a statement: something, behind the ones that end in a statement, and no else that it
      would take. */
  predicate MayFollow(s: Stmt, rest: seq<Token>) {
    if rest == [] then !s.If? && !s.IfElse? && !s.While? && !s.For? else TakesElse(s) ==> rest[0] != KwElse
  }

  // ---- what has been accepted is the tokens of the tree ---------------------------------------------

  lemma Regroup3(a: seq<Token>, b: seq<Token>, c: seq<Token>)
    ensures (a + b) + c == a + (b + c)
  {
  }

  lemma NoTokens(a: seq<Token>)
    ensures [] + a == a
  {
  }

  lemma {:induction false} DeclsSound(t: seq<Token>, scope: seq<string>)
    requires ParseDecls(t, scope).DGot?
    ensures var p := ParseDecls(t, scope); t == RenderDecls(p.ds) + p.rest && AreDecls(p.ds, scope)
    decreases |t|, 0
  {
    hide ParseExpr, Render, WellFormed, Resolved, MoreDecls;
    var name, scope1 := t[0].s, scope + [t[0].s];
    HeadTail(t);
    if t[1] == Assign {
      var p := ParseExpr(t[2..], scope1);
      ExprSound(t[2..], scope1);
      HeadTail(t[1..]);
      assert t[1..][1..] == t[2..];
      Regroup3([Assign], Render(p.e), p.rest);
      MoreSound(name, Some(p.e), p.rest, scope1, t);
    } else {
      NoTokens(t[1..]);
      MoreSound(name, None, t[1..], scope1, t);
    }
  }

  lemma {:induction false} MoreSound(name: string, init: Option<Expr>, t: seq<Token>, scope: seq<string>, all: seq<Token>)
    requires MoreDecls(name, init, t, scope).DGot? && all == [Name(name)] + (RenderValue(init) + t) && (init.Some? ==> IsExpr(init.value, scope))
    ensures var ds := MoreDecls(name, init, t, scope).ds;
      && all == RenderDecls(ds) + MoreDecls(name, init, t, scope).rest
      && ds.Declare? && ds.name == name && ds.init == init && (ds.more == NoMore || AreDecls(ds.more, scope))
    decreases |t|, 1
  {
    hide ParseDecls, RenderValue, IsExpr;
    var comma := t[0] == Comma;
    var t1 := if comma then t[1..] else t;
    var sep := if comma then [Comma] else [];
    HeadTail(t);
    HeadTail(t1);
    NoTokens(t);
    assert t == sep + t1;
    var p := MoreDecls(name, init, t, scope);
    if t1[0] != Semi {
      DeclsSound(t1, scope);
    }
    assert t1 == RenderDecls(p.ds.more) + p.rest;
    Regroup3(sep, RenderDecls(p.ds.more), p.rest);
    Regroup3(RenderValue(init), sep + RenderDecls(p.ds.more), p.rest);
    Regroup3([Name(name)], RenderValue(init) + (sep + RenderDecls(p.ds.more)), p.rest);
  }

  lemma CondSound(t: seq<Token>, scope: seq<string>)
    requires ParseCond(t, scope).Got?
    ensures var p := ParseCond(t, scope); t == RenderCond(p.e) + p.rest && IsExpr(p.e, scope)
  {
    hide ParseExpr, Render, WellFormed, Resolved;
    var p := ParseExpr(t[1..], scope);
    ExprSound(t[1..], scope);
    HeadTail(t);
    HeadTail(p.rest);
    Regroup3(Render(p.e), [RParen], p.rest[1..]);
    Regroup3([LParen], Render(p.e) + [RParen], p.rest[1..]);
  }

  lemma ExprSemiSound(t: seq<Token>, scope: seq<string>)
    requires ParseExpr(t, scope).Got? && ParseExpr(t, scope).rest[0] == Semi
    ensures var p := ParseExpr(t, scope); t == (Render(p.e) + [Semi]) + p.rest[1..] && IsExpr(p.e, scope)
  {
    hide ParseExpr, Render, WellFormed, Resolved;
    var p := ParseExpr(t, scope);
    ExprSound(t, scope);
    HeadTail(p.rest);
    Regroup3(Render(p.e), [Semi], p.rest[1..]);
  }

  lemma InitSound(t: seq<Token>, scope: seq<string>)
    requires ParseInit(t, scope).IGot?
    ensures var p := ParseInit(t, scope); t == RenderInit(p.init) + p.rest && IsInit(p.init, scope)
  {
    hide ParseExpr, ParseDecls, Render, RenderDecls, WellFormed, Resolved, IsExpr, AreDecls;
    if t != [] { HeadTail(t); }
    if At(t, KwInt) {
      DeclsSound(t[1..], scope);
      Regroup3([KwInt], RenderDecls(ParseDecls(t[1..], scope).ds), ParseDecls(t[1..], scope).rest);
    } else if !At(t, Semi) {
      ExprSemiSound(t, scope);
    }
  }

  /** A token in front of a part and what follows it. */
  lemma Fronted(x: Token, t: seq<Token>, a: seq<Token>, rest: seq<Token>)
    requires t != [] && t[0] == x && t[1..] == a + rest
    ensures t == ([x] + a) + rest
  {
    HeadTail(t);
    Regroup3([x], a, rest);
  }

  lemma {:induction false} StmtSound(t: seq<Token>, scope: seq<string>, inLoop: bool)
    requires ParseStmt(t, scope, inLoop).SGot?
    ensures var p := ParseStmt(t, scope, inLoop); t == RenderStmt(p.s) + p.rest && IsStmt(p.s, scope, inLoop) && MayFollow(p.s, p.rest)
    decreases |t|, 1
  {
    hide ParseExpr, ParseDecls, ParseIf, ParseDo, ParseFor, ParseList, ParseCond, Render, RenderDecls, RenderCond, RenderAll, IsExpr, AreDecls, AreStmts,
         Resolved, Legal, LegalAll, ResolvedDecls;
    match t[0]
    case LBrace =>
      var p := ParseList(t[1..], scope, inLoop);
      ListSound(t[1..], scope, inLoop);
      Fronted(LBrace, t, RenderAll(p.ss), p.rest);
    case KwInt =>
      var p := ParseDecls(t[1..], scope);
      DeclsSound(t[1..], scope);
      Fronted(KwInt, t, RenderDecls(p.ds), p.rest);
    case KwIf => IfSound(t, scope, inLoop);
    case KwWhile =>
      var c := ParseCond(t[1..], scope);
      CondSound(t[1..], scope);
      var b := ParseStmt(c.rest, scope, true);
      StmtSound(c.rest, scope, true);
      Regroup3(RenderCond(c.e), RenderStmt(b.s), b.rest);
      Fronted(KwWhile, t, RenderCond(c.e) + RenderStmt(b.s), b.rest);
    case KwDo => DoSound(t, scope, inLoop);
    case KwFor => ForSound(t, scope, inLoop);
    case KwReturn =>
      if At(t[1..], Semi) {
        HeadTail(t[1..]);
        assert t[1..][1..] == t[2..];
        NoTokens([Semi]);
        Fronted(KwReturn, t, [Semi], t[2..]);
      } else {
        ExprSemiSound(t[1..], scope);
        var p := ParseExpr(t[1..], scope);
        Fronted(KwReturn, t, Render(p.e) + [Semi], p.rest[1..]);
      }
    case KwBreak =>
      HeadTail(t[1..]);
      assert t[1..][1..] == t[2..];
      Fronted(KwBreak, t, [Semi], t[2..]);
    case KwContinue =>
      HeadTail(t[1..]);
      assert t[1..][1..] == t[2..];
      Fronted(KwContinue, t, [Semi], t[2..]);
    case _ => ExprSemiSound(t, scope);
  }

  lemma {:induction false} IfSound(t: seq<Token>, scope: seq<string>, inLoop: bool)
    requires At(t, KwIf) && ParseIf(t, scope, inLoop).SGot?
    ensures var p := ParseIf(t, scope, inLoop); t == RenderStmt(p.s) + p.rest && IsStmt(p.s, scope, inLoop) && MayFollow(p.s, p.rest)
    decreases |t|, 0
  {
    hide ParseStmt, ParseCond, RenderCond, IsExpr, Resolved, Legal;
    var c := ParseCond(t[1..], scope);
    CondSound(t[1..], scope);
    var a := ParseStmt(c.rest, scope, inLoop);
    StmtSound(c.rest, scope, inLoop);
    if a.rest[0] == KwElse {
      var b := ParseStmt(a.rest[1..], After(a.s, scope), inLoop);
      StmtSound(a.rest[1..], After(a.s, scope), inLoop);
      Fronted(KwElse, a.rest, RenderStmt(b.s), b.rest);
      var els := [KwElse] + RenderStmt(b.s);
      Regroup3(RenderStmt(a.s), els, b.rest);
      Regroup3(RenderCond(c.e), RenderStmt(a.s) + els, b.rest);
      Fronted(KwIf, t, RenderCond(c.e) + (RenderStmt(a.s) + els), b.rest);
    } else {
      Regroup3(RenderCond(c.e), RenderStmt(a.s), a.rest);
      Fronted(KwIf, t, RenderCond(c.e) + RenderStmt(a.s), a.rest);
    }
  }

  lemma {:induction false} DoSound(t: seq<Token>, scope: seq<string>, inLoop: bool)
    requires At(t, KwDo) && ParseDo(t, scope).SGot?
    ensures var p := ParseDo(t, scope); t == RenderStmt(p.s) + p.rest && IsStmt(p.s, scope, inLoop) && MayFollow(p.s, p.rest)
    decreases |t|, 0
  {
    hide ParseStmt, ParseCond, RenderCond, IsExpr, Resolved, Legal;
    var b := ParseStmt(t[1..], scope, true);
    StmtSound(t[1..], scope, true);
    var c := ParseCond(b.rest[1..], After(b.s, scope));
    CondSound(b.rest[1..], After(b.s, scope));
    var rest := c.rest[1..];
    HeadTail(c.rest);
    Regroup3(RenderCond(c.e), [Semi], rest);
    Fronted(KwWhile, b.rest, RenderCond(c.e) + [Semi], rest);
    var end := [KwWhile] + (RenderCond(c.e) + [Semi]);
    Regroup3(RenderStmt(b.s), end, rest);
    Fronted(KwDo, t, RenderStmt(b.s) + end, rest);
  }

  lemma {:induction false} ForSound(t: seq<Token>, scope: seq<string>, inLoop: bool)
    requires At(t, KwFor) && ParseFor(t, scope).SGot?
    ensures var p := ParseFor(t, scope); t == RenderStmt(p.s) + p.rest && IsStmt(p.s, scope, inLoop) && MayFollow(p.s, p.rest)
    decreases |t|, 0
  {
    hide ParseStmt, ParseInit, ParseExpr, Render, RenderInit, WellFormed, IsInit, Resolved, Legal, InitScope;
    assert t[1..][1..] == t[2..];
    var i := ParseInit(t[2..], scope);
    InitSound(t[2..], scope);
    var scope1 := InitScope(i.init, scope);
    var c := ParseExpr(i.rest, scope1);
    ExprSound(i.rest, scope1);
    var st := ParseExpr(c.rest[1..], scope1);
    ExprSound(c.rest[1..], scope1);
    var b := ParseStmt(st.rest[1..], scope1, true);
    StmtSound(st.rest[1..], scope1, true);
    Fronted(RParen, st.rest, RenderStmt(b.s), b.rest);
    var x1 := [RParen] + RenderStmt(b.s);
    Regroup3(Render(st.e), x1, b.rest);
    var x2 := Render(st.e) + x1;
    Fronted(Semi, c.rest, x2, b.rest);
    var x3 := [Semi] + x2;
    Regroup3(Render(c.e), x3, b.rest);
    var x4 := Render(c.e) + x3;
    Regroup3(RenderInit(i.init), x4, b.rest);
    var x5 := RenderInit(i.init) + x4;
    Fronted(LParen, t[1..], x5, b.rest);
    Fronted(KwFor, t, [LParen] + x5, b.rest);
  }

  lemma {:induction false} ListSound(t: seq<Token>, scope: seq<string>, inLoop: bool)
    requires ParseList(t, scope, inLoop).LGot?
    ensures var p := ParseList(t, scope, inLoop); t == RenderAll(p.ss) + p.rest && AreStmts(p.ss, scope, inLoop)
    decreases |t|, 2
  {
    hide ParseStmt, RenderStmt, IsStmt, Legal;
    HeadTail(t);
    if t[0] != RBrace {
      var p := ParseStmt(t, scope, inLoop);
      StmtSound(t, scope, inLoop);
      var q := ParseList(p.rest, After(p.s, scope), inLoop);
      ListSound(p.rest, After(p.s, scope), inLoop);
      Regroup3(RenderStmt(p.s), RenderAll(q.ss), q.rest);
    }
  }

  // ---- the tokens of every tree are accepted ---------------------------------------------------------

  /** How an expression begins, and that no colon is in it. */
  lemma {:induction false} ExprTokens(e: Expr, l: nat, target: bool, scope: seq<string>)
    requires WellFormed(e, l, target, scope)
    ensures var x := Render(e)[0]; x.Num? || x.Name? || x == LParen || x == Op(Sub) || x == Bang || x == Op(Ne) || x == Tilde
    ensures Colon !in Render(e)
    decreases e
  {
    match e
    case Lit(_) =>
    case Var(_, _) =>
    case Paren(x) => ExprTokens(x, 6, false, scope);
    case Neg(x) => ExprTokens(x, 0, target, scope);
    case Not(_, x) => ExprTokens(x, 0, target, scope);
    case Compl(x) => ExprTokens(x, 0, target, scope);
    case Bin(op, x, y) => ExprTokens(x, Level(op), false, scope); ExprTokens(y, Level(op) - 1, target, scope);
    case Set(d, v) => ExprTokens(d, 5, true, scope); ExprTokens(v, 6, false, scope);
    case SetOp(_, d, v) => ExprTokens(d, 5, true, scope); ExprTokens(v, 6, false, scope);
  }

  lemma ExprComplete(e: Expr, f: Token, rest: seq<Token>, scope: seq<string>)
    requires IsExpr(e, scope) && (f == Semi || f == RParen || f == Comma || f.Name?)
    ensures ParseExpr(Render(e) + ([f] + rest), scope) == Got(e, [f] + rest)
  {
    hide ParseExpr, Render;
    Complete(e, 6, [f] + rest, scope);
  }

  lemma CondComplete(c: Expr, rest: seq<Token>, scope: seq<string>)
    requires IsExpr(c, scope)
    ensures ParseCond(RenderCond(c) + rest, scope) == Got(c, rest)
  {
    hide ParseExpr, Render, IsExpr;
    var t := RenderCond(c) + rest;
    var more := [RParen] + rest;
    Regroup3(Render(c), [RParen], rest);
    Regroup3([LParen], Render(c) + [RParen], rest);
    assert t[0] == LParen && t[1..] == Render(c) + more && more[1..] == rest;
    ExprComplete(c, RParen, rest, scope);
  }

  /** The token behind a declarator. */
  lemma DeclsFirst(ds: Decls)
    ensures RenderDecls(ds) != [] && var x := RenderDecls(ds)[0]; if ds == NoMore then x == Semi else x.Name?
  {
  }

  lemma {:induction false} DeclsComplete(ds: Decls, rest: seq<Token>, scope: seq<string>)
    requires AreDecls(ds, scope)
    ensures ParseDecls(RenderDecls(ds) + rest, scope) == DGot(ds, rest)
    decreases ds
  {
    hide ParseExpr, Render, RenderValue, WellFormed, Resolved, MoreDecls, RenderDecls;
    var t := RenderDecls(ds) + rest;
    var scope1 := scope + [ds.name];
    var sep := if ds.comma then [Comma] else [];
    var more := sep + (RenderDecls(ds.more) + rest);
    DeclShape(ds, rest);
    DeclsFirst(ds.more);
    assert more != [];
    MoreComplete(ds, rest, scope);
    assert t[0] == Name(ds.name) && t[1..] == RenderValue(ds.init) + more;
    if ds.init.Some? {
      var e := ds.init.value;
      ValueShape(e, more);
      HeadTail(more);
      ExprComplete(e, more[0], more[1..], scope1);
      assert t[1] == t[1..][0] == Assign && t[2..] == t[1..][1..] == Render(e) + more;
    } else {
      assert RenderValue(None) == [] by { NoValue(); }
      NoTokens(more);
      assert t[1] == t[1..][0] == more[0];
    }
  }

  lemma NoValue()
    ensures RenderValue(None) == []
  {
  }

  lemma ValueShape(e: Expr, more: seq<Token>)
    ensures var t := RenderValue(Some(e)) + more; t != [] && t[0] == Assign && t[1..] == Render(e) + more
  {
    hide Render;
    Regroup3([Assign], Render(e), more);
  }

  lemma DeclShape(ds: Decls, rest: seq<Token>)
    requires ds.Declare?
    ensures RenderDecls(ds) + rest
      == [Name(ds.name)] + (RenderValue(ds.init) + ((if ds.comma then [Comma] else []) + (RenderDecls(ds.more) + rest)))
  {
    hide RenderValue;
    var sep := if ds.comma then [Comma] else [];
    var d := RenderDecls(ds.more);
    Regroup3([Name(ds.name)], RenderValue(ds.init) + (sep + d), rest);
    Regroup3(RenderValue(ds.init), sep + d, rest);
    Regroup3(sep, d, rest);
  }

  /** What follows a declarator. */
  lemma {:induction false} MoreComplete(ds: Decls, rest: seq<Token>, scope: seq<string>)
    requires AreDecls(ds, scope)
    ensures var more := (if ds.comma then [Comma] else []) + (RenderDecls(ds.more) + rest);
      MoreDecls(ds.name, ds.init, more, scope + [ds.name]) == DGot(ds, rest)
    decreases ds, 0
  {
    hide ParseDecls, RenderDecls, IsExpr;
    var t1 := RenderDecls(ds.more) + rest;
    var more := (if ds.comma then [Comma] else []) + t1;
    DeclsFirst(ds.more);
    NoTokens(t1);
    assert ds.comma ==> more[0] == Comma && more[1..] == t1;
    assert !ds.comma ==> more == t1 && more[0] != Comma;
    if ds.more == NoMore {
      assert RenderDecls(NoMore) == [Semi] by { LastDecl(); }
      assert t1[1..] == rest;
    } else {
      DeclsComplete(ds.more, rest, scope + [ds.name]);
    }
  }

  lemma LastDecl()
    ensures RenderDecls(NoMore) == [Semi]
  {
  }

  lemma InitComplete(init: ForInit, rest: seq<Token>, scope: seq<string>)
    requires IsInit(init, scope)
    ensures ParseInit(RenderInit(init) + rest, scope) == IGot(init, rest)
  {
    hide ParseExpr, ParseDecls, Render, RenderDecls, WellFormed, Resolved, AreDecls;
    var t := RenderInit(init) + rest;
    match init
    case NoInit => assert t[1..] == rest;
    case InitExpr(e) =>
      Regroup3(Render(e), [Semi], rest);
      ExprTokens(e, 6, false, scope);
      assert t[0] == Render(e)[0] && ([Semi] + rest)[1..] == rest;
      ExprComplete(e, Semi, rest, scope);
    case InitDecl(ds) =>
      Regroup3([KwInt], RenderDecls(ds), rest);
      assert t[0] == KwInt && t[1..] == RenderDecls(ds) + rest;
      DeclsComplete(ds, rest, scope);
  }

  /** No statement begins like a label. */
  lemma {:induction false} NoColon(s: Stmt, scope: seq<string>, inLoop: bool)
    requires IsStmt(s, scope, inLoop)
    ensures |RenderStmt(s)| >= 2 && RenderStmt(s)[1] != Colon
    decreases s
  {
    hide Render, IsExpr;
    match s
    case Block(ss) => AllBegin(ss, scope, inLoop);
    case Decl(ds) => assert RenderDecls(ds)[0].Name?;
    case If(c, _) => assert RenderCond(c)[0] == LParen;
    case IfElse(c, _, _) => assert RenderCond(c)[0] == LParen;
    case While(c, _) => assert RenderCond(c)[0] == LParen;
    case DoWhile(b, _) => StmtBegins(b, scope, true);
    case For(_, _, _, _) =>
    case Return(v) => if v.Some? { ExprBegins(v.value, scope); }
    case Break =>
    case Continue =>
    case ExprStmt(e) => ExprBegins(e, scope);
  }

  lemma ExprBegins(e: Expr, scope: seq<string>)
    requires IsExpr(e, scope)
    ensures Render(e)[0] != Colon && Render(e)[0] != Semi && Colon !in Render(e) && (Render(e) + [Semi])[1] != Colon
  {
    ExprTokens(e, 6, false, scope);
  }

  lemma {:induction false} StmtBegins(s: Stmt, scope: seq<string>, inLoop: bool)
    requires IsStmt(s, scope, inLoop)
    ensures RenderStmt(s) != [] && RenderStmt(s)[0] !in {Colon, RBrace, KwElse}
  {
    if s.ExprStmt? {
      ExprTokens(s.e, 6, false, scope);
    }
  }

  lemma AllBegin(ss: Stmts, scope: seq<string>, inLoop: bool)
    requires AreStmts(ss, scope, inLoop)
    ensures RenderAll(ss) != [] && RenderAll(ss)[0] != Colon
  {
    hide RenderStmt, IsStmt;
    if ss.Cons? {
      StmtBegins(ss.head, scope, inLoop);
    }
  }

  lemma {:induction false} StmtComplete(s: Stmt, rest: seq<Token>, scope: seq<string>, inLoop: bool)
    requires IsStmt(s, scope, inLoop) && MayFollow(s, rest)
    ensures ParseStmt(RenderStmt(s) + rest, scope, inLoop) == SGot(s, rest)
    decreases s, 1
  {
    hide ParseExpr, ParseDecls, ParseIf, ParseDo, ParseFor, ParseList, ParseCond, Render, RenderDecls, RenderCond, RenderAll, IsExpr, AreDecls, AreStmts,
         Resolved, Legal, LegalAll, ResolvedDecls;
    var t := RenderStmt(s) + rest;
    NoColon(s, scope, inLoop);
    assert t[0] == RenderStmt(s)[0] && t[1] == RenderStmt(s)[1];
    match s
    case Block(ss) =>
      Behind(LBrace, RenderAll(ss), rest);
      ListComplete(ss, rest, scope, inLoop);
    case Decl(ds) =>
      Behind(KwInt, RenderDecls(ds), rest);
      DeclsComplete(ds, rest, scope);
    case If(c, a) => IfComplete(s, rest, scope, inLoop);
    case IfElse(c, a, b) => IfComplete(s, rest, scope, inLoop);
    case While(c, b) =>
      Behind(KwWhile, RenderCond(c) + RenderStmt(b), rest);
      Regroup3(RenderCond(c), RenderStmt(b), rest);
      CondComplete(c, RenderStmt(b) + rest, scope);
      StmtComplete(b, rest, scope, true);
    case DoWhile(_, _) => DoComplete(s, rest, scope, inLoop);
    case For(_, _, _, _) => ForComplete(s, rest, scope, inLoop);
    case Return(v) => ReturnComplete(v, rest, scope, inLoop);
    case Break => assert t[1..][0] == Semi && t[2..] == rest;
    case Continue => assert t[1..][0] == Semi && t[2..] == rest;
    case ExprStmt(e) =>
      Regroup3(Render(e), [Semi], rest);
      ExprTokens(e, 6, false, scope) by { assert WellFormed(e, 6, false, scope) by { IsExprIs(e, scope); } }
      ExprComplete(e, Semi, rest, scope);
      assert ([Semi] + rest)[1..] == rest;
  }

  lemma IsExprIs(e: Expr, scope: seq<string>)
    requires IsExpr(e, scope)
    ensures WellFormed(e, 6, false, scope)
  {
  }

  lemma Behind(x: Token, a: seq<Token>, rest: seq<Token>)
    ensures var t := ([x] + a) + rest; t[0] == x && t[1..] == a + rest && |t| == 1 + |a| + |rest|
  {
    Regroup3([x], a, rest);
  }

  lemma ReturnComplete(v: Option<Expr>, rest: seq<Token>, scope: seq<string>, inLoop: bool)
    requires v.Some? ==> IsExpr(v.value, scope)
    ensures ParseStmt(RenderStmt(Return(v)) + rest, scope, inLoop) == SGot(Return(v), rest)
  {
    hide ParseExpr, Render, WellFormed, Resolved, Legal;
    var t := RenderStmt(Return(v)) + rest;
    if v.Some? {
      var e := v.value;
      Behind(KwReturn, Render(e) + [Semi], rest);
      Regroup3(Render(e), [Semi], rest);
      ExprBegins(e, scope);
      assert t[1] == t[1..][0] == Render(e)[0];
      ExprComplete(e, Semi, rest, scope);
      assert ([Semi] + rest)[1..] == rest;
    } else {
      NoTokens([Semi]);
      assert t[1..][0] == t[1] == Semi && t[2..] == rest;
    }
  }

  lemma {:induction false} IfComplete(s: Stmt, rest: seq<Token>, scope: seq<string>, inLoop: bool)
    requires (s.If? || s.IfElse?) && IsStmt(s, scope, inLoop) && MayFollow(s, rest)
    ensures var t := RenderStmt(s) + rest; At(t, KwIf) && ParseIf(t, scope, inLoop) == SGot(s, rest)
    decreases s, 0
  {
    hide ParseStmt, ParseCond, RenderCond, IsExpr, Resolved, Legal, ParseIf;
    if s.If? {
      Behind(KwIf, RenderCond(s.cond) + RenderStmt(s.thn), rest);
      Regroup3(RenderCond(s.cond), RenderStmt(s.thn), rest);
      CondComplete(s.cond, RenderStmt(s.thn) + rest, scope);
      StmtComplete(s.thn, rest, scope, inLoop);
      IfUnfold(RenderStmt(s) + rest, scope, inLoop);
    } else {
      var els := [KwElse] + RenderStmt(s.els);
      var more := els + rest;
      Behind(KwIf, RenderCond(s.cond) + (RenderStmt(s.thn) + els), rest);
      Regroup3(RenderCond(s.cond), RenderStmt(s.thn) + els, rest);
      Regroup3(RenderStmt(s.thn), els, rest);
      CondComplete(s.cond, RenderStmt(s.thn) + more, scope);
      Behind(KwElse, RenderStmt(s.els), rest);
      StmtComplete(s.thn, more, scope, inLoop);
      StmtComplete(s.els, rest, After(s.thn, scope), inLoop);
      IfUnfold(RenderStmt(s) + rest, scope, inLoop);
    }
  }

  lemma IfUnfold(t: seq<Token>, scope: seq<string>, inLoop: bool)
    requires At(t, KwIf) && ParseCond(t[1..], scope).Got?
    ensures var c := ParseCond(t[1..], scope); var a := ParseStmt(c.rest, scope, inLoop);
      && (a.SGot? && a.rest != [] && a.rest[0] != KwElse ==> ParseIf(t, scope, inLoop) == SGot(If(c.e, a.s), a.rest))
      && (a.SGot? && a.rest != [] && a.rest[0] == KwElse ==>
            var b := ParseStmt(a.rest[1..], After(a.s, scope), inLoop);
            b.SGot? && b.rest != [] ==> ParseIf(t, scope, inLoop) == SGot(IfElse(c.e, a.s, b.s), b.rest))
  {
    hide ParseStmt, ParseCond, Resolved, Legal;
  }

  lemma {:induction false} DoComplete(s: Stmt, rest: seq<Token>, scope: seq<string>, inLoop: bool)
    requires s.DoWhile? && IsStmt(s, scope, inLoop)
    ensures var t := RenderStmt(s) + rest; At(t, KwDo) && ParseDo(t, scope) == SGot(s, rest)
    decreases s, 0
  {
    hide ParseStmt, ParseCond, RenderCond, IsExpr, Resolved, Legal;
    var b, c := s.loop, s.cond;
    var end := [KwWhile] + (RenderCond(c) + [Semi]);
    var more := end + rest;
    Behind(KwDo, RenderStmt(b) + end, rest);
    Regroup3(RenderStmt(b), end, rest);
    Behind(KwWhile, RenderCond(c) + [Semi], rest);
    Regroup3(RenderCond(c), [Semi], rest);
    StmtComplete(b, more, scope, true);
    CondComplete(c, [Semi] + rest, After(b, scope));
    assert ([Semi] + rest)[1..] == rest;
  }

  lemma {:induction false} ForComplete(s: Stmt, rest: seq<Token>, scope: seq<string>, inLoop: bool)
    requires s.For? && IsStmt(s, scope, inLoop) && MayFollow(s, rest)
    ensures var t := RenderStmt(s) + rest; At(t, KwFor) && ParseFor(t, scope) == SGot(s, rest)
    decreases s, 0
  {
    hide ParseStmt, ParseInit, ParseExpr, Render, RenderInit, WellFormed, IsInit, Resolved, Legal, InitScope, IsExpr;
    var scope1 := InitScope(s.init, scope);
    var x1 := [RParen] + RenderStmt(s.loop);
    var x2 := Render(s.step) + x1;
    var x3 := [Semi] + x2;
    var x4 := Render(s.cond) + x3;
    var x5 := RenderInit(s.init) + x4;
    var t := RenderStmt(s) + rest;
    Behind(KwFor, [LParen] + x5, rest);
    Behind(LParen, x5, rest);
    assert t[2..] == t[1..][1..] == x5 + rest;
    Regroup3(RenderInit(s.init), x4, rest);
    InitComplete(s.init, x4 + rest, scope);
    Regroup3(Render(s.cond), x3, rest);
    Regroup3([Semi], x2, rest);
    ExprComplete(s.cond, Semi, x2 + rest, scope1);
    assert ([Semi] + (x2 + rest))[1..] == x2 + rest;
    Regroup3(Render(s.step), x1, rest);
    Regroup3([RParen], RenderStmt(s.loop), rest);
    ExprComplete(s.step, RParen, RenderStmt(s.loop) + rest, scope1);
    assert ([RParen] + (RenderStmt(s.loop) + rest))[1..] == RenderStmt(s.loop) + rest;
    StmtComplete(s.loop, rest, scope1, true);
  }

  lemma {:induction false} ListComplete(ss: Stmts, rest: seq<Token>, scope: seq<string>, inLoop: bool)
    requires AreStmts(ss, scope, inLoop)
    ensures ParseList(RenderAll(ss) + rest, scope, inLoop) == LGot(ss, rest)
    decreases ss, 0
  {
    hide ParseStmt, RenderStmt, IsStmt, Legal;
    var t := RenderAll(ss) + rest;
    match ss
    case Nil => assert t[1..] == rest;
    case Cons(s, tail) =>
      var more := RenderAll(tail) + rest;
      Regroup3(RenderStmt(s), RenderAll(tail), rest);
      StmtBegins(s, scope, inLoop);
      assert t[0] == RenderStmt(s)[0];
      NextBegins(s, tail, rest, scope, inLoop);
      StmtComplete(s, more, scope, inLoop);
      ListComplete(tail, rest, After(s, scope), inLoop);
  }

  /** Inside a block a statement is followed by another one or by the closing brace. */
  lemma NextBegins(s: Stmt, tail: Stmts, rest: seq<Token>, scope: seq<string>, inLoop: bool)
    requires AreStmts(Cons(s, tail), scope, inLoop)
    ensures MayFollow(s, RenderAll(tail) + rest)
  {
    hide RenderStmt, IsStmt, TakesElse;
    if tail.Cons? {
      StmtBegins(tail.head, After(s, scope), inLoop);
      assert (RenderAll(tail) + rest)[0] == RenderStmt(tail.head)[0];
    }
  }

  /** The statement rule reads s and leaves rest exactly of the tokens of s followed by rest, where s is a
      tree of the grammar that rest can follow. */
  lemma StmtExactly(t: seq<Token>, s: Stmt, rest: seq<Token>, scope: seq<string>, inLoop: bool)
    ensures ParseStmt(t, scope, inLoop) == SGot(s, rest) <==> t == RenderStmt(s) + rest && IsStmt(s, scope, inLoop) && MayFollow(s, rest)
  {
    hide ParseStmt, RenderStmt, IsStmt, MayFollow;
    if ParseStmt(t, scope, inLoop) == SGot(s, rest) {
      StmtSound(t, scope, inLoop);
    }
    if t == RenderStmt(s) + rest && IsStmt(s, scope, inLoop) && MayFollow(s, rest) {
      StmtComplete(s, rest, scope, inLoop);
    }
  }
}
