/** Labels of the emitted code: within a function each is defined once, and each jump of a
    statement leads to a label of the statement or to its loop's break or continue target. */
module M2Labels {
  import opened Word64
  import opened Wrappers
  import opened Amd64
  import opened M2Grammar
  import opened M2Expr
  import opened M2Stmt

  function Defined(code: seq<Instr>): set<Label> {
    set k | 0 <= k < |code| && code[k].LabelDef? :: code[k].name
  }

  ghost predicate Unique(code: seq<Instr>) {
    forall i, j :: 0 <= i < j < |code| && code[i].LabelDef? && code[j].LabelDef? ==> code[i] != code[j]
  }

  /** No label is defined twice, and each either belongs to the statement with number n, with a
      kind among own, or to an inner statement with a number from lo up to hi. */
  ghost predicate Labelled(code: seq<Instr>, own: set<LabelKind>, n: nat, lo: nat, hi: nat) {
    Unique(code)
    && forall k :: 0 <= k < |code| && code[k].LabelDef? ==>
         var l := code[k].name; (l.num == n && l.kind in own) || lo <= l.num < hi
  }

  lemma Join(a: seq<Instr>, ka: set<LabelKind>, b: seq<Instr>, kb: set<LabelKind>, n: nat, lo: nat, mid: nat, hi: nat)
    requires n < lo <= mid <= hi && ka !! kb
    requires Labelled(a, ka, n, lo, mid) && Labelled(b, kb, n, mid, hi)
    ensures Labelled(a + b, ka + kb, n, lo, hi)
  {
    var c := a + b;
    forall i, j | 0 <= i < j < |c| && c[i].LabelDef? && c[j].LabelDef?
      ensures c[i] != c[j]
    {
      if i < |a| <= j {
        assert c[i] == a[i] && c[j] == b[j - |a|];
      }
    }
  }

  lemma StraightUnlabelled(code: seq<Instr>, n: nat, lo: nat)
    requires AllStraight(code)
    ensures Labelled(code, {}, n, lo, lo)
  {
  }

  lemma BranchUnlabelled(c: Expr, scope: seq<string>, jump: Instr, n: nat, lo: nat)
    requires Resolved(c, scope) && !jump.LabelDef?
    ensures Labelled(Branch(c, scope, jump), {}, n, lo, lo)
  {
    CodeStraight(c, scope);
  }

  lemma {:induction false} DeclsStraight(ds: Decls, scope: seq<string>)
    requires ResolvedDecls(ds, scope)
    ensures AllStraight(GenDecls(ds, scope))
    decreases ds
  {
    if ds.Declare? {
      if ds.init.Some? {
        CodeStraight(ds.init.value, scope + [ds.name]);
      }
      DeclsStraight(ds.more, scope + [ds.name]);
    }
  }

  lemma InitStraight(init: ForInit, scope: seq<string>)
    requires ResolvedInit(init, scope)
    ensures AllStraight(GenInit(init, scope))
  {
    match init
    case NoInit =>
    case InitExpr(e) => CodeStraight(e, scope);
    case InitDecl(ds) => DeclsStraight(ds, scope);
  }

  /** The code of a statement nested in the one numbered n. */
  lemma Nested(code: seq<Instr>, n: nat, lo: nat, hi: nat)
    requires Unique(code) && forall l :: l in Defined(code) ==> lo <= l.num < hi
    ensures Labelled(code, {}, n, lo, hi)
  {
    forall k | 0 <= k < |code| && code[k].LabelDef?
      ensures lo <= code[k].name.num < hi
    {
      assert code[k].name in Defined(code);
    }
  }

  /** The labels of a whole statement numbered n whose inner numbers end at hi. */
  ghost predicate Numbered(code: seq<Instr>, n: nat, hi: nat) {
    Unique(code) && forall l :: l in Defined(code) ==> n <= l.num < hi
  }

  lemma Whole(code: seq<Instr>, own: set<LabelKind>, n: nat, hi: nat)
    requires n < hi && Labelled(code, own, n, n + 1, hi)
    ensures Numbered(code, n, hi)
  {
  }

  lemma JoinPlain(a: seq<Instr>, b: seq<Instr>, own: set<LabelKind>, n: nat, lo: nat, mid: nat, hi: nat)
    requires n < lo <= mid <= hi && Labelled(a, {}, n, lo, mid) && Labelled(b, own, n, mid, hi)
    ensures Labelled(a + b, own, n, lo, hi)
  {
    assert {} + own == own;
    Join(a, {}, b, own, n, lo, mid, hi);
  }

  lemma IfShape(n: nat, test: seq<Instr>, thn: seq<Instr>, hi: nat)
    requires n < hi && Labelled(test, {}, n, n + 1, n + 1) && Labelled(thn, {}, n, n + 1, hi)
    ensures Numbered(IfCode(n, test, thn), n, hi)
  {
    var r := [LabelDef(Label(Else, n)), LabelDef(Label(EndIf, n))];
    var own := {Else, EndIf};
    JoinPlain(thn, r, own, n, n + 1, hi, hi);
    JoinPlain(test, thn + r, own, n, n + 1, n + 1, hi);
    JoinPlain([Remark], test + (thn + r), own, n, n + 1, n + 1, hi);
    Whole([Remark] + (test + (thn + r)), own, n, hi);
  }

  lemma IfElseShape(n: nat, test: seq<Instr>, thn: seq<Instr>, els: seq<Instr>, mid: nat, hi: nat)
    requires n < mid <= hi && Labelled(test, {}, n, n + 1, n + 1)
    requires Labelled(thn, {}, n, n + 1, mid) && Labelled(els, {}, n, mid, hi)
    ensures Numbered(IfElseCode(n, test, thn, els), n, hi)
  {
    var e1 := [Jmp(Label(EndIf, n)), LabelDef(Label(Else, n))];
    var e2 := [LabelDef(Label(EndIf, n))];
    JoinPlain(els, e2, {EndIf}, n, mid, hi, hi);
    Join(e1, {Else}, els + e2, {EndIf}, n, mid, mid, hi);
    var r := e1 + (els + e2);
    var own := {Else} + {EndIf};
    JoinPlain(thn, r, own, n, n + 1, mid, hi);
    JoinPlain(test, thn + r, own, n, n + 1, n + 1, hi);
    JoinPlain([Remark], test + (thn + r), own, n, n + 1, n + 1, hi);
    Whole([Remark] + (test + (thn + r)), own, n, hi);
  }

  lemma WhileShape(n: nat, test: seq<Instr>, body: seq<Instr>, hi: nat)
    requires n < hi && Labelled(test, {}, n, n + 1, n + 1) && Labelled(body, {}, n, n + 1, hi)
    ensures Numbered(WhileCode(n, test, body), n, hi)
  {
    var top := [LabelDef(Label(WhileTop, n))];
    var end := [Jmp(Label(WhileTop, n)), LabelDef(Label(EndWhile, n))];
    JoinPlain(body, end, {EndWhile}, n, n + 1, hi, hi);
    JoinPlain([Remark], body + end, {EndWhile}, n, n + 1, n + 1, hi);
    JoinPlain(test, [Remark] + (body + end), {EndWhile}, n, n + 1, n + 1, hi);
    Join(top, {WhileTop}, test + ([Remark] + (body + end)), {EndWhile}, n, n + 1, n + 1, hi);
    Whole(top + (test + ([Remark] + (body + end))), {WhileTop} + {EndWhile}, n, hi);
  }

  lemma DoShape(n: nat, body: seq<Instr>, test: seq<Instr>, hi: nat)
    requires n < hi && Labelled(test, {}, n, hi, hi) && Labelled(body, {}, n, n + 1, hi)
    ensures Numbered(DoCode(n, body, test), n, hi)
  {
    var top := [LabelDef(Label(DoTop, n))];
    var mark := [LabelDef(Label(DoTest, n))];
    var end := [LabelDef(Label(DoEnd, n))];
    JoinPlain(test, end, {DoEnd}, n, hi, hi, hi);
    Join(mark, {DoTest}, test + end, {DoEnd}, n, hi, hi, hi);
    JoinPlain(body, mark + (test + end), {DoTest} + {DoEnd}, n, n + 1, hi, hi);
    Join(top, {DoTop}, body + (mark + (test + end)), {DoTest} + {DoEnd}, n, n + 1, n + 1, hi);
    Whole(top + (body + (mark + (test + end))), {DoTop} + ({DoTest} + {DoEnd}), n, hi);
  }

  lemma ForLoopShape(n: nat, test: seq<Instr>, step: seq<Instr>, body: seq<Instr>, hi: nat)
    requires n < hi && Labelled(test, {}, n, n + 1, n + 1) && Labelled(step, {}, n, n + 1, n + 1) && Labelled(body, {}, n, n + 1, hi)
    ensures Labelled(ForLoopCode(n, test, step, body), {ForTop, ForIter, ForThen, ForEnd}, n, n + 1, hi)
  {
    var iter := [Jmp(Label(ForThen, n)), LabelDef(Label(ForIter, n))];
    var enter := [Jmp(Label(ForTop, n)), LabelDef(Label(ForThen, n))];
    var end := [Jmp(Label(ForIter, n)), LabelDef(Label(ForEnd, n))];
    JoinPlain(body, end, {ForEnd}, n, n + 1, hi, hi);
    Join(enter, {ForThen}, body + end, {ForEnd}, n, n + 1, n + 1, hi);
    var r4 := enter + (body + end);
    JoinPlain(step, r4, {ForThen} + {ForEnd}, n, n + 1, n + 1, hi);
    Join(iter, {ForIter}, step + r4, {ForThen} + {ForEnd}, n, n + 1, n + 1, hi);
    var r3 := iter + (step + r4);
    var k3 := {ForIter} + ({ForThen} + {ForEnd});
    JoinPlain(test, r3, k3, n, n + 1, n + 1, hi);
    Join([LabelDef(Label(ForTop, n))], {ForTop}, test + r3, k3, n, n + 1, n + 1, hi);
    assert {ForTop} + k3 == {ForTop, ForIter, ForThen, ForEnd};
  }

  lemma ForShape(n: nat, start: seq<Instr>, test: seq<Instr>, step: seq<Instr>, body: seq<Instr>, hi: nat)
    requires n < hi && Labelled(start, {}, n, n + 1, n + 1)
    requires Labelled(test, {}, n, n + 1, n + 1) && Labelled(step, {}, n, n + 1, n + 1) && Labelled(body, {}, n, n + 1, hi)
    ensures Numbered(ForCode(n, start, test, step, body), n, hi)
  {
    var own := {ForTop, ForIter, ForThen, ForEnd};
    var r := ForLoopCode(n, test, step, body);
    ForLoopShape(n, test, step, body, hi);
    JoinPlain(start, r, own, n, n + 1, n + 1, hi);
    JoinPlain([Remark], start + r, own, n, n + 1, n + 1, hi);
    Whole([Remark] + (start + r), own, n, hi);
  }

  lemma {:induction false} IfLabelled(c: Expr, t: Stmt, scope: seq<string>, n: nat, loop: Target)
    requires Resolved(c, scope) && Legal(t, scope, loop.InLoop?)
    ensures Numbered(IfCode(n, Branch(c, scope, Je(Label(Else, n))), Gen(t, scope, n + 1, loop)), n, n + 1 + Count(t))
    decreases t, 3
  {
    hide *;
    BranchUnlabelled(c, scope, Je(Label(Else, n)), n, n + 1);
    GenNested(t, scope, n, n + 1, loop);
    IfShape(n, Branch(c, scope, Je(Label(Else, n))), Gen(t, scope, n + 1, loop), n + 1 + Count(t));
  }

  lemma {:induction false} WhileLabelled(c: Expr, b: Stmt, scope: seq<string>, n: nat)
    requires Resolved(c, scope) && Legal(b, scope, true)
    ensures Numbered(WhileCode(n, Branch(c, scope, Je(Label(EndWhile, n))), Gen(b, scope, n + 1, WhileTarget(n))), n, n + 1 + Count(b))
    decreases b, 3
  {
    assert WhileTarget(n).InLoop?;
    hide *;
    BranchUnlabelled(c, scope, Je(Label(EndWhile, n)), n, n + 1);
    GenNested(b, scope, n, n + 1, WhileTarget(n));
    WhileShape(n, Branch(c, scope, Je(Label(EndWhile, n))), Gen(b, scope, n + 1, WhileTarget(n)), n + 1 + Count(b));
  }

  lemma {:induction false} DoLabelled(b: Stmt, c: Expr, scope: seq<string>, n: nat)
    requires Resolved(c, After(b, scope)) && Legal(b, scope, true)
    ensures Numbered(DoCode(n, Gen(b, scope, n + 1, DoTarget(n)), Branch(c, After(b, scope), Jne(Label(DoTop, n)))), n, n + 1 + Count(b))
    decreases b, 3
  {
    assert DoTarget(n).InLoop?;
    hide *;
    BranchUnlabelled(c, After(b, scope), Jne(Label(DoTop, n)), n, n + 1 + Count(b));
    GenNested(b, scope, n, n + 1, DoTarget(n));
    DoShape(n, Gen(b, scope, n + 1, DoTarget(n)), Branch(c, After(b, scope), Jne(Label(DoTop, n))), n + 1 + Count(b));
  }

  lemma {:induction false} ForLabelled(start: seq<Instr>, c: Expr, st: Expr, b: Stmt, scope: seq<string>, n: nat)
    requires Resolved(c, scope) && Resolved(st, scope) && Legal(b, scope, true) && AllStraight(start)
    ensures Numbered(ForCode(n, start, Branch(c, scope, Je(Label(ForEnd, n))), Code(st, scope), Gen(b, scope, n + 1, ForTarget(n))),
                     n, n + 1 + Count(b))
    decreases b, 3
  {
    assert ForTarget(n).InLoop?;
    hide *;
    CodeStraight(st, scope);
    BranchUnlabelled(c, scope, Je(Label(ForEnd, n)), n, n + 1);
    StraightUnlabelled(start, n, n + 1);
    StraightUnlabelled(Code(st, scope), n, n + 1);
    GenNested(b, scope, n, n + 1, ForTarget(n));
    ForShape(n, start, Branch(c, scope, Je(Label(ForEnd, n))), Code(st, scope), Gen(b, scope, n + 1, ForTarget(n)), n + 1 + Count(b));
  }

  lemma StraightNumbered(code: seq<Instr>, n: nat)
    requires AllStraight(code)
    ensures Numbered(code, n, n) && Numbered(code + [RestoreFrame, Ret], n, n)
  {
  }

  lemma {:induction false} IfElseLabelled(c: Expr, t: Stmt, e: Stmt, scope: seq<string>, n: nat, loop: Target)
    requires Legal(IfElse(c, t, e), scope, loop.InLoop?)
    ensures Numbered(IfElseCode(n, Branch(c, scope, Je(Label(Else, n))), Gen(t, scope, n + 1, loop),
                                Gen(e, After(t, scope), n + 1 + Count(t), loop)), n, n + 1 + Count(t) + Count(e))
    decreases IfElse(c, t, e), 0
  {
    var mid := n + 1 + Count(t);
    BranchUnlabelled(c, scope, Je(Label(Else, n)), n, n + 1);
    GenNested(t, scope, n, n + 1, loop);
    GenNested(e, After(t, scope), n, mid, loop);
    IfElseShape(n, Branch(c, scope, Je(Label(Else, n))), Gen(t, scope, n + 1, loop), Gen(e, After(t, scope), mid, loop),
                mid, mid + Count(e));
  }

  /** The labels of a statement compiled at count n are distinct and carry numbers from n up to
      the count after it. */
  lemma {:induction false} GenLabelled(s: Stmt, scope: seq<string>, n: nat, loop: Target)
    requires Legal(s, scope, loop.InLoop?)
    ensures Numbered(Gen(s, scope, n, loop), n, n + Count(s))
    decreases s, 1
  {
    hide Labelled, Resolved, Code;
    match s
    case Block(ss) => GenAllLabelled(ss, scope, n, loop);
    case Decl(ds) =>
      DeclsStraight(ds, scope);
      StraightNumbered(GenDecls(ds, scope), n);
    case If(c, t) => IfLabelled(c, t, scope, n, loop);
    case IfElse(c, t, e) => IfElseLabelled(c, t, e, scope, n, loop);
    case While(c, b) => WhileLabelled(c, b, scope, n);
    case DoWhile(b, c) => DoLabelled(b, c, scope, n);
    case For(init, c, st, b) =>
      InitStraight(init, scope);
      ForLabelled(GenInit(init, scope), c, st, b, InitScope(init, scope), n);
    case Return(v) =>
      if v.Some? { CodeStraight(v.value, scope); }
      StraightNumbered(if v.Some? then Code(v.value, scope) else [], n);
    case ExprStmt(e) =>
      CodeStraight(e, scope);
      StraightNumbered(Code(e, scope), n);
    case Break =>
    case Continue =>
  }

  lemma {:induction false} GenNested(s: Stmt, scope: seq<string>, n: nat, lo: nat, loop: Target)
    requires Legal(s, scope, loop.InLoop?)
    ensures Labelled(Gen(s, scope, lo, loop), {}, n, lo, lo + Count(s))
    decreases s, 2
  {
    GenLabelled(s, scope, lo, loop);
    Nested(Gen(s, scope, lo, loop), n, lo, lo + Count(s));
  }

  lemma {:induction false} GenAllLabelled(ss: Stmts, scope: seq<string>, n: nat, loop: Target)
    requires LegalAll(ss, scope, loop.InLoop?)
    ensures Numbered(GenAll(ss, scope, n, loop), n, n + CountAll(ss))
    decreases ss, 1
  {
    hide Gen, Legal, Count, After;
    if ss.Cons? {
      GenLabelled(ss.head, scope, n, loop);
      GenAllLabelled(ss.tail, After(ss.head, scope), n + Count(ss.head), loop);
      JoinShifted(Gen(ss.head, scope, n, loop), GenAll(ss.tail, After(ss.head, scope), n + Count(ss.head), loop),
                  n, n + Count(ss.head), n + CountAll(ss));
    }
  }

  /** Two pieces with numbers from n up to mid and from mid up to hi. */
  lemma JoinShifted(a: seq<Instr>, b: seq<Instr>, n: nat, mid: nat, hi: nat)
    requires Unique(a) && Unique(b) && n <= mid <= hi
    requires forall l :: l in Defined(a) ==> n <= l.num < mid
    requires forall l :: l in Defined(b) ==> mid <= l.num < hi
    ensures Unique(a + b) && forall l :: l in Defined(a + b) ==> n <= l.num < hi
  {
    var c := a + b;
    forall k | 0 <= k < |c| && c[k].LabelDef?
      ensures if k < |a| then c[k] == a[k] && c[k].name in Defined(a) else c[k] == b[k - |a|] && c[k].name in Defined(b)
    {
    }
  }

  // ---- every jump has its label --------------------------------------------------------------

  predicate IsJump(i: Instr) {
    i.Jmp? || i.Je? || i.Jne?
  }

  function LoopLabels(loop: Target): set<Label> {
    if loop.InLoop? then {Label(loop.brk, loop.num), Label(loop.cont, loop.num)} else {}
  }

  ghost predicate JumpsWithin(code: seq<Instr>, allowed: set<Label>) {
    forall k :: 0 <= k < |code| && IsJump(code[k]) ==> code[k].target in allowed
  }

  lemma DefinedConcat(a: seq<Instr>, b: seq<Instr>)
    ensures Defined(a + b) == Defined(a) + Defined(b)
  {
    var c := a + b;
    forall l | l in Defined(a) + Defined(b)
      ensures l in Defined(c)
    {
      if l in Defined(a) {
        var k :| 0 <= k < |a| && a[k].LabelDef? && a[k].name == l;
        assert c[k] == a[k];
      } else {
        var k :| 0 <= k < |b| && b[k].LabelDef? && b[k].name == l;
        assert c[|a| + k] == b[k];
      }
    }
    forall l | l in Defined(c)
      ensures l in Defined(a) + Defined(b)
    {
      var k :| 0 <= k < |c| && c[k].LabelDef? && c[k].name == l;
      if k < |a| { assert a[k] == c[k]; } else { assert b[k - |a|] == c[k]; }
    }
  }

  /** The labels of a piece are labels of the whole. */
  lemma PartLabels(whole: seq<Instr>, before: seq<Instr>, part: seq<Instr>, after: seq<Instr>, allowed: set<Label>)
    requires whole == before + (part + after) && Defined(whole) <= allowed
    ensures Defined(part) <= allowed
  {
    DefinedConcat(before, part + after);
    DefinedConcat(part, after);
  }

  lemma OneLabel(code: seq<Instr>, k: nat, allowed: set<Label>)
    requires k < |code| && code[k].LabelDef? && Defined(code) <= allowed
    ensures code[k].name in allowed
  {
    assert code[k].name in Defined(code);
  }

  lemma IfParts(n: nat, test: seq<Instr>, thn: seq<Instr>, allowed: set<Label>)
    requires Defined(IfCode(n, test, thn)) <= allowed
    ensures Label(Else, n) in allowed && Defined(thn) <= allowed
  {
    var end := [LabelDef(Label(Else, n)), LabelDef(Label(EndIf, n))];
    PartLabels(IfCode(n, test, thn), [Remark] + test, thn, end, allowed);
    PartLabels(IfCode(n, test, thn), [Remark] + test + thn, end, [], allowed);
    OneLabel(end, 0, allowed);
  }

  lemma IfElseParts(n: nat, test: seq<Instr>, thn: seq<Instr>, els: seq<Instr>, allowed: set<Label>)
    requires Defined(IfElseCode(n, test, thn, els)) <= allowed
    ensures Label(Else, n) in allowed && Label(EndIf, n) in allowed && Defined(thn) <= allowed && Defined(els) <= allowed
  {
    var c := IfElseCode(n, test, thn, els);
    var mid := [Jmp(Label(EndIf, n)), LabelDef(Label(Else, n))];
    var end := [LabelDef(Label(EndIf, n))];
    PartLabels(c, [Remark] + test, thn, mid + (els + end), allowed);
    PartLabels(c, [Remark] + test + thn, mid, els + end, allowed);
    PartLabels(c, [Remark] + test + thn + mid, els, end, allowed);
    PartLabels(c, [Remark] + test + thn + mid + els, end, [], allowed);
    OneLabel(mid, 1, allowed);
    OneLabel(end, 0, allowed);
  }

  lemma WhileParts(n: nat, test: seq<Instr>, body: seq<Instr>, allowed: set<Label>)
    requires Defined(WhileCode(n, test, body)) <= allowed
    ensures LoopLabels(WhileTarget(n)) <= allowed && Defined(body) <= allowed
  {
    var c := WhileCode(n, test, body);
    var top := [LabelDef(Label(WhileTop, n))];
    var end := [Jmp(Label(WhileTop, n)), LabelDef(Label(EndWhile, n))];
    PartLabels(c, [], top, test + ([Remark] + (body + end)), allowed);
    PartLabels(c, top + test + [Remark], body, end, allowed);
    PartLabels(c, top + test + [Remark] + body, end, [], allowed);
    OneLabel(top, 0, allowed);
    OneLabel(end, 1, allowed);
  }

  lemma DoParts(n: nat, body: seq<Instr>, test: seq<Instr>, allowed: set<Label>)
    requires Defined(DoCode(n, body, test)) <= allowed
    ensures LoopLabels(DoTarget(n)) <= allowed && Label(DoTop, n) in allowed && Defined(body) <= allowed
  {
    var c := DoCode(n, body, test);
    var top := [LabelDef(Label(DoTop, n))];
    var mark := [LabelDef(Label(DoTest, n))];
    var end := [LabelDef(Label(DoEnd, n))];
    PartLabels(c, [], top, body + (mark + (test + end)), allowed);
    PartLabels(c, top, body, mark + (test + end), allowed);
    PartLabels(c, top + body, mark, test + end, allowed);
    PartLabels(c, top + body + mark + test, end, [], allowed);
    OneLabel(top, 0, allowed);
    OneLabel(mark, 0, allowed);
    OneLabel(end, 0, allowed);
  }

  lemma ForParts(n: nat, test: seq<Instr>, step: seq<Instr>, body: seq<Instr>, allowed: set<Label>)
    requires Defined(ForLoopCode(n, test, step, body)) <= allowed
    ensures LoopLabels(ForTarget(n)) <= allowed && Label(ForTop, n) in allowed && Label(ForThen, n) in allowed && Defined(body) <= allowed
  {
    var c := ForLoopCode(n, test, step, body);
    var top := [LabelDef(Label(ForTop, n))];
    var iter := [Jmp(Label(ForThen, n)), LabelDef(Label(ForIter, n))];
    var enter := [Jmp(Label(ForTop, n)), LabelDef(Label(ForThen, n))];
    var end := [Jmp(Label(ForIter, n)), LabelDef(Label(ForEnd, n))];
    var r := enter + (body + end);
    var a := top + test;
    PartLabels(c, [], top, test + (iter + (step + r)), allowed);
    PartLabels(c, a, iter, step + r, allowed);
    PartLabels(c, a + iter + step, enter, body + end, allowed);
    PartLabels(c, a + iter + step + enter, body, end, allowed);
    PartLabels(c, a + iter + step + enter + body, end, [], allowed);
    OneLabel(top, 0, allowed);
    OneLabel(iter, 1, allowed);
    OneLabel(enter, 1, allowed);
    OneLabel(end, 1, allowed);
  }

  lemma IfJumpShape(n: nat, test: seq<Instr>, thn: seq<Instr>, allowed: set<Label>)
    requires JumpsWithin(test, allowed) && JumpsWithin(thn, allowed)
    ensures JumpsWithin(IfCode(n, test, thn), allowed)
  {
  }

  lemma JumpsConcat(a: seq<Instr>, b: seq<Instr>, allowed: set<Label>)
    requires JumpsWithin(a, allowed) && JumpsWithin(b, allowed)
    ensures JumpsWithin(a + b, allowed)
  {
  }

  lemma IfElseJumpShape(n: nat, test: seq<Instr>, thn: seq<Instr>, els: seq<Instr>, allowed: set<Label>)
    requires JumpsWithin(test, allowed) && JumpsWithin(thn, allowed) && JumpsWithin(els, allowed) && Label(EndIf, n) in allowed
    ensures JumpsWithin(IfElseCode(n, test, thn, els), allowed)
  {
    var mid := [Jmp(Label(EndIf, n)), LabelDef(Label(Else, n))];
    var end := [LabelDef(Label(EndIf, n))];
    JumpsConcat(mid, els + end, allowed);
    JumpsConcat(thn, mid + (els + end), allowed);
    JumpsConcat(test, thn + (mid + (els + end)), allowed);
  }

  lemma ForJumpShape(n: nat, start: seq<Instr>, test: seq<Instr>, step: seq<Instr>, body: seq<Instr>, allowed: set<Label>)
    requires JumpsWithin(start, allowed) && JumpsWithin(test, allowed) && JumpsWithin(step, allowed) && JumpsWithin(body, allowed)
    requires LoopLabels(ForTarget(n)) <= allowed && Label(ForTop, n) in allowed && Label(ForThen, n) in allowed
    ensures JumpsWithin(ForCode(n, start, test, step, body), allowed)
  {
    assert Label(ForIter, n) in LoopLabels(ForTarget(n));
    var iter := [Jmp(Label(ForThen, n)), LabelDef(Label(ForIter, n))];
    var enter := [Jmp(Label(ForTop, n)), LabelDef(Label(ForThen, n))];
    var end := [Jmp(Label(ForIter, n)), LabelDef(Label(ForEnd, n))];
    JumpsConcat(body, end, allowed);
    JumpsConcat(enter, body + end, allowed);
    JumpsConcat(step, enter + (body + end), allowed);
    JumpsConcat(iter, step + (enter + (body + end)), allowed);
    JumpsConcat(test, iter + (step + (enter + (body + end))), allowed);
    JumpsConcat([LabelDef(Label(ForTop, n))], test + (iter + (step + (enter + (body + end)))), allowed);
    JumpsConcat(start, ForLoopCode(n, test, step, body), allowed);
  }

  lemma BranchJumps(c: Expr, scope: seq<string>, jump: Instr, allowed: set<Label>)
    requires Resolved(c, scope) && IsJump(jump) && jump.target in allowed
    ensures JumpsWithin(Branch(c, scope, jump), allowed)
  {
    CodeStraight(c, scope);
  }

  /** In any code that contains the labels of s and of the loop around it, every jump of s finds
      its label. */
  lemma {:induction false} GenJumps(s: Stmt, scope: seq<string>, n: nat, loop: Target, allowed: set<Label>)
    requires Legal(s, scope, loop.InLoop?)
    requires Defined(Gen(s, scope, n, loop)) <= allowed && LoopLabels(loop) <= allowed
    ensures JumpsWithin(Gen(s, scope, n, loop), allowed)
    decreases s, 1
  {
    match s
    case Block(ss) => GenAllJumps(ss, scope, n, loop, allowed);
    case Decl(ds) => DeclsStraight(ds, scope);
    case If(c, t) => IfJumps(c, t, scope, n, loop, allowed);
    case IfElse(c, t, e) => IfElseJumps(c, t, e, scope, n, loop, allowed);
    case While(c, b) => WhileJumps(c, b, scope, n, allowed);
    case DoWhile(b, c) => DoJumps(b, c, scope, n, allowed);
    case For(init, c, st, b) =>
      InitStraight(init, scope);
      ForJumps(GenInit(init, scope), c, st, b, InitScope(init, scope), n, allowed);
    case Return(v) => if v.Some? { CodeStraight(v.value, scope); }
    case ExprStmt(e) => CodeStraight(e, scope);
    case Break => assert Label(loop.brk, loop.num) in LoopLabels(loop);
    case Continue => assert Label(loop.cont, loop.num) in LoopLabels(loop);
  }

  lemma {:induction false} IfJumps(c: Expr, t: Stmt, scope: seq<string>, n: nat, loop: Target, allowed: set<Label>)
    requires Resolved(c, scope) && Legal(t, scope, loop.InLoop?) && LoopLabels(loop) <= allowed
    requires Defined(IfCode(n, Branch(c, scope, Je(Label(Else, n))), Gen(t, scope, n + 1, loop))) <= allowed
    ensures JumpsWithin(IfCode(n, Branch(c, scope, Je(Label(Else, n))), Gen(t, scope, n + 1, loop)), allowed)
    decreases t, 2
  {
    var test := Branch(c, scope, Je(Label(Else, n)));
    IfParts(n, test, Gen(t, scope, n + 1, loop), allowed);
    BranchJumps(c, scope, Je(Label(Else, n)), allowed);
    GenJumps(t, scope, n + 1, loop, allowed);
    IfJumpShape(n, test, Gen(t, scope, n + 1, loop), allowed);
  }

  lemma {:induction false} IfElseJumps(c: Expr, t: Stmt, e: Stmt, scope: seq<string>, n: nat, loop: Target, allowed: set<Label>)
    requires Legal(IfElse(c, t, e), scope, loop.InLoop?) && LoopLabels(loop) <= allowed
    requires Defined(Gen(IfElse(c, t, e), scope, n, loop)) <= allowed
    ensures JumpsWithin(Gen(IfElse(c, t, e), scope, n, loop), allowed)
    decreases IfElse(c, t, e), 0
  {
    var test := Branch(c, scope, Je(Label(Else, n)));
    var thn := Gen(t, scope, n + 1, loop);
    var els := Gen(e, After(t, scope), n + 1 + Count(t), loop);
    IfElseParts(n, test, thn, els, allowed);
    BranchJumps(c, scope, Je(Label(Else, n)), allowed);
    GenJumps(t, scope, n + 1, loop, allowed);
    GenJumps(e, After(t, scope), n + 1 + Count(t), loop, allowed);
    IfElseJumpShape(n, test, thn, els, allowed);
  }

  lemma {:induction false} WhileJumps(c: Expr, b: Stmt, scope: seq<string>, n: nat, allowed: set<Label>)
    requires Resolved(c, scope) && Legal(b, scope, true)
    requires Defined(WhileCode(n, Branch(c, scope, Je(Label(EndWhile, n))), Gen(b, scope, n + 1, WhileTarget(n)))) <= allowed
    ensures JumpsWithin(WhileCode(n, Branch(c, scope, Je(Label(EndWhile, n))), Gen(b, scope, n + 1, WhileTarget(n))), allowed)
    decreases b, 2
  {
    var test := Branch(c, scope, Je(Label(EndWhile, n)));
    var body := Gen(b, scope, n + 1, WhileTarget(n));
    WhileParts(n, test, body, allowed);
    assert Label(EndWhile, n) in LoopLabels(WhileTarget(n)) && Label(WhileTop, n) in LoopLabels(WhileTarget(n));
    BranchJumps(c, scope, Je(Label(EndWhile, n)), allowed);
    GenJumps(b, scope, n + 1, WhileTarget(n), allowed);
    var end := [Jmp(Label(WhileTop, n)), LabelDef(Label(EndWhile, n))];
    JumpsConcat(body, end, allowed);
    JumpsConcat([Remark], body + end, allowed);
    JumpsConcat(test, [Remark] + (body + end), allowed);
  }

  lemma {:induction false} DoJumps(b: Stmt, c: Expr, scope: seq<string>, n: nat, allowed: set<Label>)
    requires Resolved(c, After(b, scope)) && Legal(b, scope, true)
    requires Defined(DoCode(n, Gen(b, scope, n + 1, DoTarget(n)), Branch(c, After(b, scope), Jne(Label(DoTop, n))))) <= allowed
    ensures JumpsWithin(DoCode(n, Gen(b, scope, n + 1, DoTarget(n)), Branch(c, After(b, scope), Jne(Label(DoTop, n)))), allowed)
    decreases b, 2
  {
    var test := Branch(c, After(b, scope), Jne(Label(DoTop, n)));
    var body := Gen(b, scope, n + 1, DoTarget(n));
    DoParts(n, body, test, allowed);
    BranchJumps(c, After(b, scope), Jne(Label(DoTop, n)), allowed);
    GenJumps(b, scope, n + 1, DoTarget(n), allowed);
    var end := [LabelDef(Label(DoEnd, n))];
    JumpsConcat(test, end, allowed);
    JumpsConcat([LabelDef(Label(DoTest, n))], test + end, allowed);
    JumpsConcat(body, [LabelDef(Label(DoTest, n))] + (test + end), allowed);
  }

  lemma {:induction false} ForJumps(start: seq<Instr>, c: Expr, st: Expr, b: Stmt, scope: seq<string>, n: nat, allowed: set<Label>)
    requires AllStraight(start) && Resolved(c, scope) && Resolved(st, scope) && Legal(b, scope, true)
    requires Defined(ForCode(n, start, Branch(c, scope, Je(Label(ForEnd, n))), Code(st, scope), Gen(b, scope, n + 1, ForTarget(n)))) <= allowed
    ensures JumpsWithin(ForCode(n, start, Branch(c, scope, Je(Label(ForEnd, n))), Code(st, scope), Gen(b, scope, n + 1, ForTarget(n))), allowed)
    decreases b, 2
  {
    CodeStraight(st, scope);
    var test := Branch(c, scope, Je(Label(ForEnd, n)));
    var step := Code(st, scope);
    var body := Gen(b, scope, n + 1, ForTarget(n));
    var r := ForLoopCode(n, test, step, body);
    PartLabels([Remark] + (start + r), [Remark] + start, r, [], allowed);
    ForParts(n, test, step, body, allowed);
    assert Label(ForEnd, n) in LoopLabels(ForTarget(n));
    BranchJumps(c, scope, Je(Label(ForEnd, n)), allowed);
    GenJumps(b, scope, n + 1, ForTarget(n), allowed);
    ForJumpShape(n, start, test, step, body, allowed);
  }

  lemma {:induction false} GenAllJumps(ss: Stmts, scope: seq<string>, n: nat, loop: Target, allowed: set<Label>)
    requires LegalAll(ss, scope, loop.InLoop?)
    requires Defined(GenAll(ss, scope, n, loop)) <= allowed && LoopLabels(loop) <= allowed
    ensures JumpsWithin(GenAll(ss, scope, n, loop), allowed)
    decreases ss, 1
  {
    if ss.Cons? {
      DefinedConcat(Gen(ss.head, scope, n, loop), GenAll(ss.tail, After(ss.head, scope), n + Count(ss.head), loop));
      GenJumps(ss.head, scope, n, loop, allowed);
      GenAllJumps(ss.tail, After(ss.head, scope), n + Count(ss.head), loop, allowed);
    }
  }

  // ---- the text of labels --------------------------------------------------------------------

  /** The head that the emitter puts before the function name. */
  function Head(k: LabelKind): string {
    match k
    case Else => "ELSE_"
    case EndIf => "_END_IF_"
    case WhileTop => "WHILE_"
    case EndWhile => "END_WHILE_"
    case DoTop => "DO_"
    case DoTest => "DO_TEST_"
    case DoEnd => "DO_END_"
    case ForTop => "FOR_"
    case ForIter => "FOR_ITER_"
    case ForThen => "FOR_THEN_"
    case ForEnd => "FOR_END_"
  }

  function Digit(d: nat): char
    requires d < 10
  {
    ['0', '1', '2', '3', '4', '5', '6', '7', '8', '9'][d]
  }

  function Decimal(n: nat): (s: string)
    ensures s != []
    ensures forall i :: 0 <= i < |s| ==> s[i] != '_'
    decreases n
  {
    if n < 10 then [Digit(n)] else Decimal(n / 10) + [Digit(n % 10)]
  }

  /** The text after the colon of a label of function f. */
  function Text(l: Label, f: string): string {
    Head(l.kind) + f + "_" + Decimal(l.num)
  }

  lemma DigitInjective(a: nat, b: nat)
    requires a < 10 && b < 10 && Digit(a) == Digit(b)
    ensures a == b
  {
  }

  lemma {:induction false} DecimalInjective(a: nat, b: nat)
    requires Decimal(a) == Decimal(b)
    ensures a == b
    decreases a
  {
    var x := Decimal(a);
    assert |x| == 1 <==> a < 10;
    assert |x| == 1 <==> b < 10;
    if |x| == 1 {
      assert x[0] == Digit(a) == Digit(b);
      DigitInjective(a, b);
    } else {
      assert x[..|x| - 1] == Decimal(a / 10) && x[..|x| - 1] == Decimal(b / 10);
      assert x[|x| - 1] == Digit(a % 10) && x[|x| - 1] == Digit(b % 10);
      DecimalInjective(a / 10, b / 10);
      DigitInjective(a % 10, b % 10);
    }
  }

  /** The last underscore of a text is found the same way in equal texts. */
  lemma LastUnderscore(a: string, x: string, b: string, y: string)
    requires a + "_" + x == b + "_" + y
    requires (forall i :: 0 <= i < |x| ==> x[i] != '_') && (forall i :: 0 <= i < |y| ==> y[i] != '_')
    ensures a == b && x == y
  {
    var s := a + "_" + x;
    assert s[|a|] == '_' && s[|b|] == '_';
    assert forall i :: |a| < i < |s| ==> s[i] == x[i - |a| - 1];
    assert forall i :: |b| < i < |s| ==> s[i] == y[i - |b| - 1];
    assert |a| == |b|;
    assert a == s[..|a|] && b == s[..|b|];
    assert x == s[|a| + 1..] && y == s[|b| + 1..];
  }

  lemma HeadInjective(j: LabelKind, k: LabelKind, f: string)
    requires Head(j) + f == Head(k) + f
    ensures j == k
  {
    assert Head(j) == (Head(j) + f)[..|Head(j)|];
    assert Head(k) == (Head(k) + f)[..|Head(k)|];
    assert |Head(j)| == |Head(k)|;
    HeadsDiffer(j, k);
  }

  lemma HeadsDiffer(j: LabelKind, k: LabelKind)
    requires Head(j) == Head(k)
    ensures j == k
  {
    var a, b := Head(j), Head(k);
    if |a| > 4 && |b| > 4 {
      assert a[0] == b[0] && a[1] == b[1] && a[4] == b[4] && a[|a| - 2] == b[|b| - 2] && a[|a| - 3] == b[|b| - 3];
    }
  }

  /** Within one function, different labels have different texts. */
  lemma TextInjective(l: Label, m: Label, f: string)
    requires Text(l, f) == Text(m, f)
    ensures l == m
  {
    LastUnderscore(Head(l.kind) + f, Decimal(l.num), Head(m.kind) + f, Decimal(m.num));
    HeadInjective(l.kind, m.kind, f);
    DecimalInjective(l.num, m.num);
  }
}
