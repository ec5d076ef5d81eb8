/** The jump code of a statement does what the structured statement means: it ends at the place
    the meaning ends at with the same locals, it faults when the meaning traps, and it keeps
    running when the meaning does not end. */
module M2Correct {
  import opened Word64
  import opened Wrappers
  import opened Amd64
  import opened M2Grammar
  import opened M2Expr
  import opened M2Stmt
  import opened M2Labels

  // ---- finding the pieces of a statement in a program ----------------------------------------

  /** Every label below position hi is the one its name leads to. */
  ghost predicate Found(p: seq<Instr>, hi: nat)
    requires hi <= |p|
    decreases hi
  {
    hi == 0 || (Found(p, hi - 1) && (p[hi - 1].LabelDef? ==> Find(p, p[hi - 1].name) == hi - 1))
  }

  ghost predicate Linked(p: seq<Instr>) {
    Found(p, |p|)
  }

  lemma {:induction false} UniqueFound(p: seq<Instr>, hi: nat)
    requires Unique(p) && hi <= |p|
    ensures Found(p, hi)
    decreases hi
  {
    if hi > 0 {
      UniqueFound(p, hi - 1);
    }
  }

  lemma {:induction false} FoundBelow(p: seq<Instr>, hi: nat, k: nat)
    requires hi <= |p| && Found(p, hi) && k < hi && p[k].LabelDef?
    ensures Find(p, p[k].name) == k
    decreases hi
  {
    if k < hi - 1 {
      FoundBelow(p, hi - 1, k);
    }
  }

  lemma LabelAt(p: seq<Instr>, frame: nat, at: nat, c: seq<Instr>, k: nat)
    requires Linked(p) && CodeAt(p, frame, at, c) && k < |c| && c[k].LabelDef?
    ensures at + k < |p| && p[at + k] == c[k] && Find(p, c[k].name) == at + k
  {
    InstrAt(p, frame, at, c, k);
    FoundBelow(p, |p|, at + k);
  }

  lemma IfAt(p: seq<Instr>, frame: nat, at: nat, n: nat, test: seq<Instr>, thn: seq<Instr>)
    requires Linked(p) && CodeAt(p, frame, at, IfCode(n, test, thn))
    ensures var a := at + 1 + |test|; var b := a + |thn|;
      && p[at] == Remark && CodeAt(p, frame, at + 1, test) && CodeAt(p, frame, a, thn)
      && |p| >= b + 2 && p[b].LabelDef? && p[b + 1].LabelDef? && Find(p, Label(Else, n)) == b
  {
    var end := [LabelDef(Label(Else, n)), LabelDef(Label(EndIf, n))];
    CodeAtSplit(p, frame, at, [Remark], test + (thn + end));
    CodeAtSplit(p, frame, at + 1, test, thn + end);
    CodeAtSplit(p, frame, at + 1 + |test|, thn, end);
    InstrAt(p, frame, at, [Remark], 0);
    LabelAt(p, frame, at + 1 + |test| + |thn|, end, 0);
    LabelAt(p, frame, at + 1 + |test| + |thn|, end, 1);
  }

  lemma IfElseAt(p: seq<Instr>, frame: nat, at: nat, n: nat, test: seq<Instr>, thn: seq<Instr>, els: seq<Instr>)
    requires Linked(p) && CodeAt(p, frame, at, IfElseCode(n, test, thn, els))
    ensures var a := at + 1 + |test|; var b := a + |thn|; var c := b + 2 + |els|;
      && p[at] == Remark && CodeAt(p, frame, at + 1, test) && CodeAt(p, frame, a, thn)
      && |p| >= c + 1 && p[b] == Jmp(Label(EndIf, n)) && p[b + 1].LabelDef? && Find(p, Label(Else, n)) == b + 1
      && CodeAt(p, frame, b + 2, els) && p[c].LabelDef? && Find(p, Label(EndIf, n)) == c
  {
    var mid := [Jmp(Label(EndIf, n)), LabelDef(Label(Else, n))];
    var end := [LabelDef(Label(EndIf, n))];
    var a := at + 1 + |test|;
    var b := a + |thn|;
    CodeAtSplit(p, frame, at, [Remark], test + (thn + (mid + (els + end))));
    CodeAtSplit(p, frame, at + 1, test, thn + (mid + (els + end)));
    CodeAtSplit(p, frame, a, thn, mid + (els + end));
    CodeAtSplit(p, frame, b, mid, els + end);
    CodeAtSplit(p, frame, b + 2, els, end);
    InstrAt(p, frame, at, [Remark], 0);
    InstrAt(p, frame, b, mid, 0);
    LabelAt(p, frame, b, mid, 1);
    LabelAt(p, frame, b + 2 + |els|, end, 0);
  }

  lemma WhileAt(p: seq<Instr>, frame: nat, at: nat, n: nat, test: seq<Instr>, body: seq<Instr>)
    requires Linked(p) && CodeAt(p, frame, at, WhileCode(n, test, body))
    ensures var a := at + 1 + |test|; var b := a + 1 + |body|;
      && p[at].LabelDef? && Find(p, Label(WhileTop, n)) == at && CodeAt(p, frame, at + 1, test)
      && |p| >= b + 2 && p[a] == Remark && CodeAt(p, frame, a + 1, body)
      && p[b] == Jmp(Label(WhileTop, n)) && p[b + 1].LabelDef? && Find(p, Label(EndWhile, n)) == b + 1
  {
    var top := [LabelDef(Label(WhileTop, n))];
    var end := [Jmp(Label(WhileTop, n)), LabelDef(Label(EndWhile, n))];
    var a := at + 1 + |test|;
    var b := a + 1 + |body|;
    CodeAtSplit(p, frame, at, top, test + ([Remark] + (body + end)));
    CodeAtSplit(p, frame, at + 1, test, [Remark] + (body + end));
    CodeAtSplit(p, frame, a, [Remark], body + end);
    CodeAtSplit(p, frame, a + 1, body, end);
    LabelAt(p, frame, at, top, 0);
    InstrAt(p, frame, a, [Remark], 0);
    InstrAt(p, frame, b, end, 0);
    LabelAt(p, frame, b, end, 1);
  }

  lemma DoAt(p: seq<Instr>, frame: nat, at: nat, n: nat, body: seq<Instr>, test: seq<Instr>)
    requires Linked(p) && CodeAt(p, frame, at, DoCode(n, body, test))
    ensures var a := at + 1 + |body|; var b := a + 1 + |test|;
      && p[at].LabelDef? && Find(p, Label(DoTop, n)) == at && CodeAt(p, frame, at + 1, body)
      && |p| >= b + 1 && p[a].LabelDef? && Find(p, Label(DoTest, n)) == a && CodeAt(p, frame, a + 1, test)
      && p[b].LabelDef? && Find(p, Label(DoEnd, n)) == b
  {
    var top := [LabelDef(Label(DoTop, n))];
    var mark := [LabelDef(Label(DoTest, n))];
    var end := [LabelDef(Label(DoEnd, n))];
    var a := at + 1 + |body|;
    CodeAtSplit(p, frame, at, top, body + (mark + (test + end)));
    CodeAtSplit(p, frame, at + 1, body, mark + (test + end));
    CodeAtSplit(p, frame, a, mark, test + end);
    CodeAtSplit(p, frame, a + 1, test, end);
    LabelAt(p, frame, at, top, 0);
    LabelAt(p, frame, a, mark, 0);
    LabelAt(p, frame, a + 1 + |test|, end, 0);
  }

  /** The positions of a for loop after its initialisation: condition, step, body, end. */
  lemma ForLoopAt(p: seq<Instr>, frame: nat, at: nat, n: nat, test: seq<Instr>, step: seq<Instr>, body: seq<Instr>)
    requires Linked(p) && CodeAt(p, frame, at, ForLoopCode(n, test, step, body))
    ensures var a := at + 1 + |test|; var b := a + 2 + |step|; var c := b + 2 + |body|;
      && p[at].LabelDef? && Find(p, Label(ForTop, n)) == at && CodeAt(p, frame, at + 1, test)
      && |p| >= c + 2 && p[a] == Jmp(Label(ForThen, n)) && p[a + 1].LabelDef? && Find(p, Label(ForIter, n)) == a + 1
      && CodeAt(p, frame, a + 2, step) && p[b] == Jmp(Label(ForTop, n)) && p[b + 1].LabelDef? && Find(p, Label(ForThen, n)) == b + 1
      && CodeAt(p, frame, b + 2, body) && p[c] == Jmp(Label(ForIter, n)) && p[c + 1].LabelDef? && Find(p, Label(ForEnd, n)) == c + 1
  {
    var top := [LabelDef(Label(ForTop, n))];
    var iter := [Jmp(Label(ForThen, n)), LabelDef(Label(ForIter, n))];
    var enter := [Jmp(Label(ForTop, n)), LabelDef(Label(ForThen, n))];
    var end := [Jmp(Label(ForIter, n)), LabelDef(Label(ForEnd, n))];
    var a := at + 1 + |test|;
    var b := a + 2 + |step|;
    var c := b + 2 + |body|;
    var r := enter + (body + end);
    CodeAtSplit(p, frame, at, top, test + (iter + (step + r)));
    CodeAtSplit(p, frame, at + 1, test, iter + (step + r));
    CodeAtSplit(p, frame, a, iter, step + r);
    CodeAtSplit(p, frame, a + 2, step, r);
    CodeAtSplit(p, frame, b, enter, body + end);
    CodeAtSplit(p, frame, b + 2, body, end);
    LabelAt(p, frame, at, top, 0);
    InstrAt(p, frame, a, iter, 0);
    LabelAt(p, frame, a, iter, 1);
    InstrAt(p, frame, b, enter, 0);
    LabelAt(p, frame, b, enter, 1);
    InstrAt(p, frame, c, end, 0);
    LabelAt(p, frame, c, end, 1);
  }

  // ---- runs -----------------------------------------------------------------------------------

  /** Position pc with the given locals, the frame of m and the memory above it kept. */
  ghost predicate Stands(c: Config, pc: nat, vars: Locals, n: nat, m: Cpu) {
    c.At? && c.pc == pc && Represents(vars, n, c.cpu) && Keeps(m, c.cpu, n)
  }

  /** After k steps from start the machine stands there. */
  ghost predicate On(f: Config -> Config, start: Config, k: nat, pc: nat, vars: Locals, n: nat, m: Cpu)
    decreases k
  {
    if k == 0 then Stands(start, pc, vars, n, m) else On(f, f(start), k - 1, pc, vars, n, m)
  }

  lemma {:induction false} OnSteps(f: Config -> Config, start: Config, k: nat, pc: nat, vars: Locals, n: nat, m: Cpu)
    ensures On(f, start, k, pc, vars, n, m) <==> Stands(Steps(f, start, k), pc, vars, n, m)
    decreases k
  {
    if k > 0 {
      OnSteps(f, f(start), k - 1, pc, vars, n, m);
    }
  }

  /** After a return, rsp is where it was before the frame was reserved. */
  ghost predicate Returned(m: Cpu, m': Cpu, v: Option<int>, n: nat) {
    && m'.rsp == (if n == 0 then m.rsp else m.r13) && m'.r13 == m.r13
    && (v.Some? ==> m'.rax == W(v.value))
    && forall a :: a in m.mem && a >= m.rsp && (n == 0 || a + 8 <= m.r13 - 8 * n || a >= m.r13) ==> a in m'.mem && m'.mem[a] == m.mem[a]
  }

  /** Where the code of a statement can lead: past its end, or to the labels of its loop. */
  datatype Exits = Exits(end: nat, inLoop: bool, brk: nat, cont: nat)

  function ExitsOf(p: seq<Instr>, loop: Target, end: nat): Exits {
    match loop
    case NoLoop => Exits(end, false, 0, 0)
    case InLoop(b, c, num) => Exits(end, true, Find(p, Label(b, num)), Find(p, Label(c, num)))
  }

  /** c is where and how the meaning r ends; when r is not finished the machine is still running
      and has taken at least the given number of steps. */
  ghost predicate Final(c: Config, r: Result, x: Exits, n: nat, m: Cpu, enough: bool) {
    match r
    case Done(flow, vars) =>
      (match flow
       case Normal => Stands(c, x.end, vars, n, m)
       case Breaks => x.inLoop && Stands(c, x.brk, vars, n, m)
       case Continues => x.inLoop && Stands(c, x.cont, vars, n, m)
       case Returns(v) => c.Halted? && Returned(m, c.cpu, v, n))
    case Trapped => c == Fault
    case Undef => true
    case NoFuel => c.At? && enough
  }

  /** k steps from start end as the meaning r does, being at least least many if r is unfinished. */
  ghost predicate Ends(f: Config -> Config, start: Config, r: Result, x: Exits, n: nat, m: Cpu, least: int, k: nat)
    decreases k
  {
    if k == 0 then Final(start, r, x, n, m, least <= 0) else Ends(f, f(start), r, x, n, m, least - 1, k - 1)
  }

  lemma {:induction false} EndsSteps(f: Config -> Config, start: Config, r: Result, x: Exits, n: nat, m: Cpu, least: int, k: nat)
    ensures Ends(f, start, r, x, n, m, least, k) <==> Final(Steps(f, start, k), r, x, n, m, least <= k)
    decreases k
  {
    if k > 0 {
      EndsSteps(f, f(start), r, x, n, m, least - 1, k - 1);
    }
  }

  /** Code that stops at its own end. */
  lemma OnEnds(f: Config -> Config, start: Config, vars: Locals, x: Exits, n: nat, m: Cpu, least: int, k: nat)
    requires On(f, start, k, x.end, vars, n, m)
    ensures Ends(f, start, Done(Normal, vars), x, n, m, least, k)
  {
    OnSteps(f, start, k, x.end, vars, n, m);
    EndsSteps(f, start, Done(Normal, vars), x, n, m, least, k);
  }

  lemma Unfinished(f: Config -> Config, start: Config, pc: nat, vars: Locals, x: Exits, n: nat, m: Cpu, k: nat)
    requires On(f, start, k, pc, vars, n, m)
    ensures Ends(f, start, NoFuel, x, n, m, k, k)
  {
    OnSteps(f, start, k, pc, vars, n, m);
    EndsSteps(f, start, NoFuel, x, n, m, k, k);
  }

  /** From position a, j steps lead to position b whatever the processor state. */
  ghost predicate Leads(f: Config -> Config, a: nat, j: nat, b: nat) {
    forall m: Cpu {:trigger Steps(f, At(a, m), j)} :: Steps(f, At(a, m), j) == At(b, m)
  }

  lemma LeadsSkip(f: Config -> Config, p: seq<Instr>, a: nat)
    requires Runs(f, p) && a < |p| && (p[a].LabelDef? || p[a] == Remark)
    ensures Leads(f, a, 1, a + 1)
  {
    forall m: Cpu
      ensures Steps(f, At(a, m), 1) == At(a + 1, m)
    {
      assert Step(p, At(a, m)) == At(a + 1, m);
      assert Steps(f, At(a, m), 1) == Steps(f, At(a + 1, m), 0);
    }
  }

  lemma LeadsJump(f: Config -> Config, p: seq<Instr>, a: nat)
    requires Runs(f, p) && a < |p| && p[a].Jmp? && Find(p, p[a].target) < |p|
    ensures Leads(f, a, 1, Find(p, p[a].target))
  {
    forall m: Cpu
      ensures Steps(f, At(a, m), 1) == At(Find(p, p[a].target), m)
    {
      assert Step(p, At(a, m)) == At(Find(p, p[a].target), m);
      assert Steps(f, At(a, m), 1) == Steps(f, At(Find(p, p[a].target), m), 0);
    }
  }

  lemma LeadsOn(f: Config -> Config, a: nat, i: nat, b: nat, j: nat, c: nat)
    requires Leads(f, a, i, b) && Leads(f, b, j, c)
    ensures Leads(f, a, i + j, c)
  {
    forall m: Cpu
      ensures Steps(f, At(a, m), i + j) == At(c, m)
    {
      StepsAdd(f, At(a, m), i, j);
      assert Steps(f, At(a, m), i) == At(b, m);
      assert Steps(f, At(b, m), j) == At(c, m);
    }
  }

  lemma LeadsNowhere(f: Config -> Config, a: nat)
    ensures Leads(f, a, 0, a)
  {
  }

  lemma Hop(f: Config -> Config, start: Config, k: nat, a: nat, vars: Locals, n: nat, m: Cpu, j: nat, b: nat)
    requires On(f, start, k, a, vars, n, m) && Leads(f, a, j, b)
    ensures On(f, start, k + j, b, vars, n, m)
  {
    OnSteps(f, start, k, a, vars, n, m);
    OnSteps(f, start, k + j, b, vars, n, m);
    StepsAdd(f, start, k, j);
    var c := Steps(f, start, k);
    assert Steps(f, At(a, c.cpu), j) == At(b, c.cpu);
  }

  /** Code that would end at x.end goes on to e. */
  lemma EndsOn(f: Config -> Config, start: Config, r: Result, x: Exits, n: nat, m: Cpu, least: int, k: nat, j: nat, e: nat) returns (k': nat)
    requires Ends(f, start, r, x, n, m, least, k) && Leads(f, x.end, j, e)
    ensures k' >= k && Ends(f, start, r, x.(end := e), n, m, least, k')
  {
    EndsSteps(f, start, r, x, n, m, least, k);
    if r.Done? && r.flow == Normal {
      OnSteps(f, start, k, x.end, r.vars, n, m);
      Hop(f, start, k, x.end, r.vars, n, m, j, e);
      OnEnds(f, start, r.vars, x.(end := e), n, m, least, k + j);
      k' := k + j;
    } else {
      EndsSteps(f, start, r, x.(end := e), n, m, least, k);
      k' := k;
    }
  }

  lemma LoopBody(f: Config -> Config, start: Config, r: Result, body: Exits, x: Exits, n: nat, m: Cpu, least: int, k: nat, j: nat) returns (k': nat)
    requires body.inLoop && Ends(f, start, r, body, n, m, least, k)
    requires Leads(f, body.end, j, body.cont) && Leads(f, body.brk, 1, x.end)
    ensures k' >= k
    ensures Again(r) ==> On(f, start, k', body.cont, r.vars, n, m)
    ensures !Again(r) ==> Ends(f, start, LoopExit(r), x, n, m, least, k')
  {
    EndsSteps(f, start, r, body, n, m, least, k);
    if r.Done? && r.flow == Normal {
      OnSteps(f, start, k, body.end, r.vars, n, m);
      Hop(f, start, k, body.end, r.vars, n, m, j, body.cont);
      k' := k + j;
    } else if r.Done? && r.flow == Continues {
      OnSteps(f, start, k, body.cont, r.vars, n, m);
      k' := k;
    } else if r.Done? && r.flow == Breaks {
      OnSteps(f, start, k, body.brk, r.vars, n, m);
      Hop(f, start, k, body.brk, r.vars, n, m, 1, x.end);
      OnEnds(f, start, r.vars, x, n, m, least, k + 1);
      k' := k + 1;
    } else {
      EndsSteps(f, start, r, x, n, m, least, k);
      k' := k;
    }
  }

  // ---- straight code in a program ---------------------------------------------------------------

  ghost predicate DeclResult(r: Option<Cpu>, val: Value, n: nat, m: Cpu) {
    match val
    case Ok(_, vars) => r.Some? && Represents(vars, n, r.value) && Keeps(m, r.value, n)
    case Trap => r.None?
    case Undefined => true
  }

  /** What code with the result val leads to in k steps. */
  ghost predicate Gone(f: Config -> Config, start: Config, val: Value, pc: nat, n: nat, m: Cpu, k: nat) {
    match val
    case Ok(_, vars) => On(f, start, k, pc, vars, n, m)
    case Trap => Steps(f, start, k) == Fault
    case Undefined => true
  }

  /** A statement that is one expression or declaration, or stops in one. */
  lemma GoneEnds(f: Config -> Config, start: Config, val: Value, x: Exits, n: nat, m: Cpu, least: int, k: nat)
    requires Gone(f, start, val, x.end, n, m, k)
    ensures Ends(f, start, if val.Ok? then Done(Normal, val.vars) else Failed(val), x, n, m, least, k)
  {
    if val.Ok? {
      OnEnds(f, start, val.vars, x, n, m, least, k);
    } else {
      EndsSteps(f, start, Failed(val), x, n, m, least, k);
    }
  }

  lemma PlainOn(code: seq<Instr>, val: Value, vars: Locals, f: Config -> Config, p: seq<Instr>, n: nat, at: nat, m: Cpu, start: Config, k: nat, m1: Cpu)
    requires Runs(f, p) && Steps(f, start, k) == At(at, m1) && Keeps(m, m1, n)
    requires AllStraight(code) && CodeAt(p, 8 * n, at, code) && DeclResult(Run(code, m1), val, n, m1)
    ensures Gone(f, start, val, at + |code|, n, m, k + |code|)
    ensures val.Ok? ==> Steps(f, start, k + |code|) == At(at + |code|, Run(code, m1).value)
  {
    StepsStraight(f, p, 8 * n, at, code, m1);
    StepsAdd(f, start, k, |code|);
    if val.Ok? {
      KeepsTransitive(m, m1, Run(code, m1).value, n);
      OnSteps(f, start, k + |code|, at + |code|, val.vars, n, m);
    }
  }

  lemma ExprOn(e: Expr, scope: seq<string>, vars: Locals, f: Config -> Config, p: seq<Instr>, n: nat, at: nat, m: Cpu, start: Config, k: nat)
    requires Resolved(e, scope) && |scope| <= n && 8 * Need(e) <= m.rsp
    requires Runs(f, p) && On(f, start, k, at, vars, n, m) && CodeAt(p, 8 * n, at, Code(e, scope))
    ensures var val := Eval(e, scope, vars); var k' := k + |Code(e, scope)|;
      && Gone(f, start, val, at + |Code(e, scope)|, n, m, k')
      && (val.Ok? ==> InRange(val.v) && Steps(f, start, k').At? && Steps(f, start, k').cpu.rax == W(val.v))
  {
    hide Code, Need, Resolved, Runs, Eval;
    OnSteps(f, start, k, at, vars, n, m);
    var m1 := Steps(f, start, k).cpu;
    var code := Code(e, scope);
    var val := Eval(e, scope, vars);
    ExprCorrect(e, scope, vars, n, m1);
    CodeStraight(e, scope);
    assert DeclResult(Run(code, m1), val, n, m1);
    PlainOn(code, val, vars, f, p, n, at, m, start, k, m1);
  }

  lemma TestJump(f: Config -> Config, p: seq<Instr>, at: nat, jump: Instr, v: int, m: Cpu) returns (c: Config)
    requires Runs(f, p) && at + 1 < |p| && p[at] == TestRaxRax && p[at + 1] == jump
    requires (jump.Je? || jump.Jne?) && Find(p, jump.target) < |p|
    requires m.rax == W(v) && InRange(v)
    ensures c == Steps(f, At(at, m), 2) && c.At? && SameMemory(m, c.cpu)
    ensures c.pc == BranchTo(p, jump, v, at + 2)
  {
    IsZero(v);
    var m2 := m.(flags := Flags(m.rax == 0, false, m.rax >= HALF, false));
    assert Step(p, At(at, m)) == At(at + 1, m2);
    c := Step(p, At(at + 1, m2));
    assert Steps(f, At(at, m), 2) == Steps(f, At(at + 1, m2), 1) == Steps(f, c, 0);
  }

  function BranchTo(p: seq<Instr>, jump: Instr, v: int, next: nat): nat
    requires jump.Je? || jump.Jne?
  {
    if jump.Je? == (v == 0) then Find(p, jump.target) else next
  }

  /** A condition and its jump: where the machine goes next. */
  lemma BranchOn(e: Expr, scope: seq<string>, jump: Instr, vars: Locals, f: Config -> Config, p: seq<Instr>, n: nat, at: nat, m: Cpu, start: Config, k: nat)
    returns (k': nat)
    requires Resolved(e, scope) && |scope| <= n && 8 * Need(e) <= m.rsp && (jump.Je? || jump.Jne?)
    requires Runs(f, p) && On(f, start, k, at, vars, n, m)
    requires CodeAt(p, 8 * n, at, Branch(e, scope, jump)) && Find(p, jump.target) < |p|
    ensures k' >= k
    ensures var val := Eval(e, scope, vars);
      Gone(f, start, val, if val.Ok? then BranchTo(p, jump, val.v, at + |Branch(e, scope, jump)|) else 0, n, m, k')
  {
    hide Code, Eval, Need, Resolved, Keeps, Represents, Runs;
    var code := Code(e, scope);
    var test := [TestRaxRax, jump];
    CodeAtSplit(p, 8 * n, at, code, test);
    ExprOn(e, scope, vars, f, p, n, at, m, start, k);
    k' := k + |code|;
    var val := Eval(e, scope, vars);
    if val.Ok? {
      var b := at + |code|;
      InstrAt(p, 8 * n, b, test, 0);
      InstrAt(p, 8 * n, b, test, 1);
      OnSteps(f, start, k', b, val.vars, n, m);
      var c1 := Steps(f, start, k');
      StepsAdd(f, start, k', 2);
      var c := TestJump(f, p, b, jump, val.v, c1.cpu);
      SameMemoryRepresents(val.vars, n, m, c1.cpu, c.cpu);
      OnSteps(f, start, k' + 2, c.pc, val.vars, n, m);
      k' := k' + 2;
    }
  }

  // ---- declarations ---------------------------------------------------------------------------

  lemma KeepsSelf(m: Cpu, n: nat)
    ensures Keeps(m, m, n)
  {
  }

  lemma ForgetRepresents(vars: Locals, fewer: Locals, n: nat, m: Cpu)
    requires Represents(vars, n, m) && fewer.Keys <= vars.Keys
    requires forall k :: k in fewer ==> fewer[k] == vars[k]
    ensures Represents(fewer, n, m)
  {
  }

  lemma LeaRuns(k: nat, m: Cpu)
    requires 8 * (k + 1) <= 0x8000_0000 && Slot(m, k) >= 0
    ensures Exec1(LeaRbx(Depth(k)), m) == Some(m.(rbx := Slot(m, k)))
  {
    assert SExt32(Depth(k)) == Depth(k);
    assert W(Slot(m, k)) == Slot(m, k);
  }

  /** lea rbx; mov [rbx],rax */
  lemma InitStoreRuns(k: nat, m: Cpu)
    requires 8 * (k + 1) <= 0x8000_0000 && Slot(m, k) >= 0
    ensures Run([LeaRbx(Depth(k)), StoreRax], m) == Some(m.(rbx := Slot(m, k), mem := Store(m.mem, Slot(m, k), m.rax)))
  {
    LeaRuns(k, m);
    RunShort([LeaRbx(Depth(k)), StoreRax], m);
    assert [LeaRbx(Depth(k)), StoreRax][1..] == [StoreRax];
    RunShort([StoreRax], m.(rbx := Slot(m, k)));
  }

  /** The store that initialises the local at position k. */
  lemma InitStore(k: nat, v: int, vars: Locals, n: nat, m: Cpu)
    requires Represents(vars, n, m) && k < n && InRange(v) && m.rax == W(v)
    ensures DeclResult(Run([LeaRbx(Depth(k)), StoreRax], m), Ok(0, vars[k := v]), n, m)
  {
    InitStoreRuns(k, m);
    StoreRepresents(vars, k, v, n, m);
    var m1 := m.(mem := Store(m.mem, Slot(m, k), W(v)));
    SameMemoryRepresents(vars[k := v], n, m, m1, m1.(rbx := Slot(m, k)));
  }

  function InitCode(e: Expr, k: nat, scope: seq<string>): seq<Instr>
    requires Resolved(e, scope)
  {
    Code(e, scope) + [LeaRbx(Depth(k)), StoreRax]
  }

  function InitValue(val: Value, k: nat): Value {
    if val.Ok? then Ok(0, val.vars[k := val.v]) else val
  }

  lemma InitRuns(e: Expr, k: nat, scope: seq<string>, vars: Locals, n: nat, m: Cpu)
    requires Ready(e, scope, vars, n, m) && k < n
    ensures DeclResult(Run(InitCode(e, k, scope), m), InitValue(Eval(e, scope, vars), k), n, m)
  {
    ExprCorrect(e, scope, vars, n, m);
    RunConcat(Code(e, scope), [LeaRbx(Depth(k)), StoreRax], m);
    var val := Eval(e, scope, vars);
    if val.Ok? {
      var m1 := Run(Code(e, scope), m).value;
      InitStore(k, val.v, val.vars, n, m1);
      KeepsTransitive(m, m1, Run([LeaRbx(Depth(k)), StoreRax], m1).value, n);
    }
  }

  /** The results of two pieces of straight code in sequence. */
  lemma DeclResultThen(a: seq<Instr>, b: seq<Instr>, val: Value, val2: Value, n: nat, m: Cpu)
    requires DeclResult(Run(a, m), val, n, m)
    requires val.Ok? ==> DeclResult(Run(b, Run(a, m).value), val2, n, Run(a, m).value)
    ensures DeclResult(Run(a + b, m), if val.Ok? then val2 else val, n, m)
  {
    RunConcat(a, b, m);
    if val.Ok? && val2.Ok? {
      KeepsTransitive(m, Run(a, m).value, Run(b, Run(a, m).value).value, n);
    }
  }

  lemma {:induction false} DeclsRun(ds: Decls, scope: seq<string>, vars: Locals, n: nat, m: Cpu)
    requires ResolvedDecls(ds, scope) && |scope| + DeclCount(ds) <= n && 8 * NeedDecls(ds) <= m.rsp && Represents(vars, n, m)
    ensures DeclResult(Run(GenDecls(ds, scope), m), ExecDecls(ds, scope, vars), n, m)
    decreases ds
  {
    match ds
    case NoMore => KeepsSelf(m, n);
    case Declare(name, init, _, more) =>
      var scope1 := scope + [name];
      var vars1 := vars - {|scope|};
      ForgetRepresents(vars, vars1, n, m);
      KeepsSelf(m, n);
      RunShort([Remark], m);
      var rest := GenDecls(more, scope1);
      match init
      case None =>
        assert [] + rest == rest;
        DeclsRun(more, scope1, vars1, n, m);
        DeclResultThen([Remark], rest, Ok(0, vars1), ExecDecls(more, scope1, vars1), n, m);
      case Some(e) =>
        var first := InitCode(e, |scope|, scope1);
        var val := InitValue(Eval(e, scope1, vars1), |scope|);
        InitRuns(e, |scope|, scope1, vars1, n, m);
        if val.Ok? {
          DeclsRun(more, scope1, val.vars, n, Run(first, m).value);
        }
        var all := if val.Ok? then ExecDecls(more, scope1, val.vars) else val;
        DeclResultThen(first, rest, val, all, n, m);
        DeclResultThen([Remark], first + rest, Ok(0, vars1), all, n, m);
  }

  lemma InitCorrect(init: ForInit, scope: seq<string>, vars: Locals, n: nat, m: Cpu)
    requires ResolvedInit(init, scope) && |scope| + InitCount(init) <= n && 8 * NeedInit(init) <= m.rsp && Represents(vars, n, m)
    ensures DeclResult(Run(GenInit(init, scope), m), ExecInit(init, scope, vars), n, m)
  {
    match init
    case NoInit => KeepsSelf(m, n);
    case InitExpr(e) => ExprCorrect(e, scope, vars, n, m);
    case InitDecl(ds) => DeclsRun(ds, scope, vars, n, m);
  }

  lemma InitOn(init: ForInit, scope: seq<string>, vars: Locals, f: Config -> Config, p: seq<Instr>, n: nat, at: nat, m: Cpu, start: Config, k: nat)
    requires ResolvedInit(init, scope) && |scope| + InitCount(init) <= n && 8 * NeedInit(init) <= m.rsp
    requires Runs(f, p) && On(f, start, k, at, vars, n, m) && CodeAt(p, 8 * n, at, GenInit(init, scope))
    ensures Gone(f, start, ExecInit(init, scope, vars), at + |GenInit(init, scope)|, n, m, k + |GenInit(init, scope)|)
  {
    hide GenInit, ExecInit, NeedInit, InitCount, ResolvedInit, Runs;
    OnSteps(f, start, k, at, vars, n, m);
    var m1 := Steps(f, start, k).cpu;
    InitCorrect(init, scope, vars, n, m1);
    InitStraight(init, scope);
    PlainOn(GenInit(init, scope), ExecInit(init, scope, vars), vars, f, p, n, at, m, start, k, m1);
  }

  // ---- statements -----------------------------------------------------------------------------

  /** The labels of the enclosing loop are in the program. */
  ghost predicate Placed(p: seq<Instr>, loop: Target) {
    loop.InLoop? ==> Find(p, Label(loop.brk, loop.num)) < |p| && Find(p, Label(loop.cont, loop.num)) < |p|
  }

  /** f runs a program p that is linked and knows the loop around s. */
  ghost predicate Context(f: Config -> Config, p: seq<Instr>, loop: Target) {
    Runs(f, p) && Linked(p) && Placed(p, loop)
  }

  /** The frame of n words and the stack below it are large enough for s. */
  ghost predicate Room(s: Stmt, scope: seq<string>, n: nat, m: Cpu) {
    |scope| + Slots(s) <= n && 8 * NeedStmt(s) <= m.rsp
  }

  lemma LowerLeast(f: Config -> Config, start: Config, r: Result, x: Exits, n: nat, m: Cpu, least: int, lower: int, k: nat)
    requires Ends(f, start, r, x, n, m, least, k) && lower <= least
    ensures Ends(f, start, r, x, n, m, lower, k)
  {
    EndsSteps(f, start, r, x, n, m, least, k);
    EndsSteps(f, start, r, x, n, m, lower, k);
  }

  // ---- sites ----------------------------------------------------------------------------------

  // Where the parts of a compound statement are in a program, and how the machine passes between
  // them; test, thn, els, step and body stand for the code of the parts.

  ghost predicate IfSite(f: Config -> Config, p: seq<Instr>, frame: nat, at: nat, num: nat, test: seq<Instr>, thn: seq<Instr>) {
    var a := at + 1 + |test|; var b := a + |thn|;
    && Leads(f, at, 1, at + 1) && CodeAt(p, frame, at + 1, test) && CodeAt(p, frame, a, thn)
    && b < |p| && Find(p, Label(Else, num)) == b && Leads(f, b, 2, b + 2)
  }

  lemma IfSited(f: Config -> Config, p: seq<Instr>, frame: nat, at: nat, num: nat, test: seq<Instr>, thn: seq<Instr>)
    requires Runs(f, p) && Linked(p) && CodeAt(p, frame, at, IfCode(num, test, thn))
    ensures IfSite(f, p, frame, at, num, test, thn) && |IfCode(num, test, thn)| == 3 + |test| + |thn|
  {
    var b := at + 1 + |test| + |thn|;
    IfAt(p, frame, at, num, test, thn);
    LeadsSkip(f, p, at);
    LeadsSkip(f, p, b);
    LeadsSkip(f, p, b + 1);
    LeadsOn(f, b, 1, b + 1, 1, b + 2);
  }

  ghost predicate IfElseSite(f: Config -> Config, p: seq<Instr>, frame: nat, at: nat, num: nat, test: seq<Instr>, thn: seq<Instr>, els: seq<Instr>) {
    var a := at + 1 + |test|; var b := a + |thn|; var d := b + 2 + |els|;
    && Leads(f, at, 1, at + 1) && CodeAt(p, frame, at + 1, test) && CodeAt(p, frame, a, thn)
    && d < |p| && Find(p, Label(Else, num)) == b + 1 && Leads(f, b, 2, d + 1) && Leads(f, b + 1, 1, b + 2)
    && CodeAt(p, frame, b + 2, els) && Leads(f, d, 1, d + 1)
  }

  lemma IfElseSited(f: Config -> Config, p: seq<Instr>, frame: nat, at: nat, num: nat, test: seq<Instr>, thn: seq<Instr>, els: seq<Instr>)
    requires Runs(f, p) && Linked(p) && CodeAt(p, frame, at, IfElseCode(num, test, thn, els))
    ensures IfElseSite(f, p, frame, at, num, test, thn, els)
    ensures |IfElseCode(num, test, thn, els)| == 4 + |test| + |thn| + |els|
  {
    var b := at + 1 + |test| + |thn|;
    var d := b + 2 + |els|;
    IfElseAt(p, frame, at, num, test, thn, els);
    LeadsSkip(f, p, at);
    LeadsJump(f, p, b);
    LeadsSkip(f, p, b + 1);
    LeadsSkip(f, p, d);
    LeadsOn(f, b, 1, d, 1, d + 1);
  }

  ghost predicate WhileSite(f: Config -> Config, p: seq<Instr>, frame: nat, at: nat, num: nat, test: seq<Instr>, body: seq<Instr>) {
    var a := at + 1 + |test|; var b := a + 1 + |body|;
    && Leads(f, at, 1, at + 1) && CodeAt(p, frame, at + 1, test) && Leads(f, a, 1, a + 1) && CodeAt(p, frame, a + 1, body)
    && b + 1 < |p| && Leads(f, b, 1, at) && Leads(f, b + 1, 1, b + 2)
    && Find(p, Label(WhileTop, num)) == at && Find(p, Label(EndWhile, num)) == b + 1
  }

  lemma WhileSited(f: Config -> Config, p: seq<Instr>, frame: nat, at: nat, num: nat, test: seq<Instr>, body: seq<Instr>)
    requires Runs(f, p) && Linked(p) && CodeAt(p, frame, at, WhileCode(num, test, body))
    ensures WhileSite(f, p, frame, at, num, test, body) && |WhileCode(num, test, body)| == 4 + |test| + |body|
  {
    var a := at + 1 + |test|;
    var b := a + 1 + |body|;
    WhileAt(p, frame, at, num, test, body);
    LeadsSkip(f, p, at);
    LeadsSkip(f, p, a);
    LeadsJump(f, p, b);
    LeadsSkip(f, p, b + 1);
  }

  ghost predicate DoSite(f: Config -> Config, p: seq<Instr>, frame: nat, at: nat, num: nat, body: seq<Instr>, test: seq<Instr>) {
    var a := at + 1 + |body|; var b := a + 1 + |test|;
    && Leads(f, at, 1, at + 1) && CodeAt(p, frame, at + 1, body) && Leads(f, a, 1, a + 1) && CodeAt(p, frame, a + 1, test)
    && b < |p| && Leads(f, b, 1, b + 1)
    && Find(p, Label(DoTop, num)) == at && Find(p, Label(DoTest, num)) == a && Find(p, Label(DoEnd, num)) == b
  }

  lemma DoSited(f: Config -> Config, p: seq<Instr>, frame: nat, at: nat, num: nat, body: seq<Instr>, test: seq<Instr>)
    requires Runs(f, p) && Linked(p) && CodeAt(p, frame, at, DoCode(num, body, test))
    ensures DoSite(f, p, frame, at, num, body, test) && |DoCode(num, body, test)| == 3 + |test| + |body|
  {
    var a := at + 1 + |body|;
    DoAt(p, frame, at, num, body, test);
    LeadsSkip(f, p, at);
    LeadsSkip(f, p, a);
    LeadsSkip(f, p, a + 1 + |test|);
  }

  ghost predicate ForSite(f: Config -> Config, p: seq<Instr>, frame: nat, at: nat, num: nat, test: seq<Instr>, step: seq<Instr>, body: seq<Instr>) {
    var a := at + 1 + |test|; var b := a + 2 + |step|; var d := b + 2 + |body|;
    && Leads(f, at, 1, at + 1) && CodeAt(p, frame, at + 1, test) && Leads(f, a, 2, b + 2) && Leads(f, a + 1, 1, a + 2)
    && CodeAt(p, frame, a + 2, step) && Leads(f, b, 1, at) && CodeAt(p, frame, b + 2, body)
    && d + 1 < |p| && Leads(f, d, 1, a + 1) && Leads(f, d + 1, 1, d + 2)
    && Find(p, Label(ForIter, num)) == a + 1 && Find(p, Label(ForEnd, num)) == d + 1
  }

  lemma ForSited(f: Config -> Config, p: seq<Instr>, frame: nat, at: nat, num: nat, test: seq<Instr>, step: seq<Instr>, body: seq<Instr>)
    requires Runs(f, p) && Linked(p) && CodeAt(p, frame, at, ForLoopCode(num, test, step, body))
    ensures ForSite(f, p, frame, at, num, test, step, body) && |ForLoopCode(num, test, step, body)| == 7 + |test| + |step| + |body|
  {
    hide Leads, Runs, CodeAt, Linked;
    var a := at + 1 + |test|;
    var b := a + 2 + |step|;
    var d := b + 2 + |body|;
    ForLoopAt(p, frame, at, num, test, step, body);
    LeadsSkip(f, p, at);
    LeadsJump(f, p, a);
    LeadsSkip(f, p, a + 1);
    LeadsJump(f, p, b);
    LeadsSkip(f, p, b + 1);
    LeadsOn(f, a, 1, b + 1, 1, b + 2);
    LeadsJump(f, p, d);
    LeadsSkip(f, p, d + 1);
  }

  /** Where a test with the result val leads. */
  function Way(val: Value, yes: nat, no: nat): nat {
    if val.Ok? && val.v != 0 then yes else no
  }

  // ---- entering compound statements --------------------------------------------------------------

  lemma IfEnter(e: Expr, thn: seq<Instr>, scope: seq<string>, num: nat, vars: Locals, f: Config -> Config, p: seq<Instr>, n: nat, at: nat,
                m: Cpu, start: Config, k0: nat) returns (k: nat)
    requires Runs(f, p) && On(f, start, k0, at, vars, n, m)
    requires Resolved(e, scope) && |scope| <= n && 8 * Need(e) <= m.rsp
    requires IfSite(f, p, 8 * n, at, num, Branch(e, scope, Je(Label(Else, num))), thn)
    ensures k > k0
    ensures var val := Eval(e, scope, vars); var a := at + 1 + |Branch(e, scope, Je(Label(Else, num)))|;
      Gone(f, start, val, Way(val, a, a + |thn| + 2), n, m, k)
  {
    var jump := Je(Label(Else, num));
    Hop(f, start, k0, at, vars, n, m, 1, at + 1);
    k := BranchOn(e, scope, jump, vars, f, p, n, at + 1, m, start, k0 + 1);
    var val := Eval(e, scope, vars);
    if val.Ok? && val.v == 0 {
      var b := at + 1 + |Branch(e, scope, jump)| + |thn|;
      Hop(f, start, k, b, val.vars, n, m, 2, b + 2);
      k := k + 2;
    }
  }

  lemma IfElseEnter(e: Expr, thn: seq<Instr>, els: seq<Instr>, scope: seq<string>, num: nat, vars: Locals, f: Config -> Config, p: seq<Instr>,
                    n: nat, at: nat, m: Cpu, start: Config, k0: nat) returns (k: nat)
    requires Runs(f, p) && On(f, start, k0, at, vars, n, m)
    requires Resolved(e, scope) && |scope| <= n && 8 * Need(e) <= m.rsp
    requires IfElseSite(f, p, 8 * n, at, num, Branch(e, scope, Je(Label(Else, num))), thn, els)
    ensures k > k0
    ensures var val := Eval(e, scope, vars); var a := at + 1 + |Branch(e, scope, Je(Label(Else, num)))|;
      Gone(f, start, val, Way(val, a, a + |thn| + 2), n, m, k)
  {
    var jump := Je(Label(Else, num));
    Hop(f, start, k0, at, vars, n, m, 1, at + 1);
    k := BranchOn(e, scope, jump, vars, f, p, n, at + 1, m, start, k0 + 1);
    var val := Eval(e, scope, vars);
    if val.Ok? && val.v == 0 {
      var b := at + 1 + |Branch(e, scope, jump)| + |thn|;
      Hop(f, start, k, b + 1, val.vars, n, m, 1, b + 2);
      k := k + 1;
    }
  }

  lemma WhileEnter(e: Expr, body: seq<Instr>, scope: seq<string>, num: nat, vars: Locals, f: Config -> Config, p: seq<Instr>, n: nat, at: nat,
                   m: Cpu, start: Config, k0: nat) returns (k: nat)
    requires Runs(f, p) && On(f, start, k0, at, vars, n, m)
    requires Resolved(e, scope) && |scope| <= n && 8 * Need(e) <= m.rsp
    requires WhileSite(f, p, 8 * n, at, num, Branch(e, scope, Je(Label(EndWhile, num))), body)
    ensures k > k0
    ensures var val := Eval(e, scope, vars); var a := at + 2 + |Branch(e, scope, Je(Label(EndWhile, num)))|;
      Gone(f, start, val, Way(val, a, a + |body| + 2), n, m, k)
  {
    hide Code, Eval, Need, Resolved, Runs, CodeAt, Represents, Keeps;
    var jump := Je(Label(EndWhile, num));
    Hop(f, start, k0, at, vars, n, m, 1, at + 1);
    k := BranchOn(e, scope, jump, vars, f, p, n, at + 1, m, start, k0 + 1);
    var val := Eval(e, scope, vars);
    if val.Ok? {
      var a := at + 1 + |Branch(e, scope, jump)|;
      if val.v == 0 {
        Hop(f, start, k, a + 2 + |body|, val.vars, n, m, 1, a + 3 + |body|);
      } else {
        Hop(f, start, k, a, val.vars, n, m, 1, a + 1);
      }
      k := k + 1;
    }
  }

  /** The test of a do loop, from its DO_TEST label: back to the top or past the end. */
  lemma DoTestOn(e: Expr, body: seq<Instr>, scope: seq<string>, num: nat, vars: Locals, f: Config -> Config, p: seq<Instr>, n: nat, at: nat,
                 m: Cpu, start: Config, k0: nat) returns (k: nat)
    requires Runs(f, p) && On(f, start, k0, at + 1 + |body|, vars, n, m)
    requires Resolved(e, scope) && |scope| <= n && 8 * Need(e) <= m.rsp
    requires DoSite(f, p, 8 * n, at, num, body, Branch(e, scope, Jne(Label(DoTop, num))))
    ensures k > k0
    ensures var val := Eval(e, scope, vars); var b := at + 2 + |body| + |Branch(e, scope, Jne(Label(DoTop, num)))|;
      Gone(f, start, val, Way(val, at, b + 1), n, m, k)
  {
    hide Code, Eval, Need, Resolved, Runs, CodeAt, Represents, Keeps;
    var jump := Jne(Label(DoTop, num));
    var a := at + 1 + |body|;
    Hop(f, start, k0, a, vars, n, m, 1, a + 1);
    k := BranchOn(e, scope, jump, vars, f, p, n, a + 1, m, start, k0 + 1);
    var val := Eval(e, scope, vars);
    if val.Ok? && val.v == 0 {
      var b := a + 1 + |Branch(e, scope, jump)|;
      Hop(f, start, k, b, val.vars, n, m, 1, b + 1);
      k := k + 1;
    }
  }

  lemma ForEnter(e: Expr, step: seq<Instr>, body: seq<Instr>, scope: seq<string>, num: nat, vars: Locals, f: Config -> Config, p: seq<Instr>,
                 n: nat, at: nat, m: Cpu, start: Config, k0: nat) returns (k: nat)
    requires Runs(f, p) && On(f, start, k0, at, vars, n, m)
    requires Resolved(e, scope) && |scope| <= n && 8 * Need(e) <= m.rsp
    requires ForSite(f, p, 8 * n, at, num, Branch(e, scope, Je(Label(ForEnd, num))), step, body)
    ensures k > k0
    ensures var val := Eval(e, scope, vars); var b := at + 5 + |Branch(e, scope, Je(Label(ForEnd, num)))| + |step|;
      Gone(f, start, val, Way(val, b, b + |body| + 2), n, m, k)
  {
    hide Code, Eval, Need, Resolved, Runs, CodeAt, Represents, Keeps;
    var jump := Je(Label(ForEnd, num));
    Hop(f, start, k0, at, vars, n, m, 1, at + 1);
    k := BranchOn(e, scope, jump, vars, f, p, n, at + 1, m, start, k0 + 1);
    var val := Eval(e, scope, vars);
    if val.Ok? {
      var a := at + 1 + |Branch(e, scope, jump)|;
      var b := a + 4 + |step|;
      if val.v == 0 {
        Hop(f, start, k, b + |body| + 1, val.vars, n, m, 1, b + |body| + 2);
        k := k + 1;
      } else {
        Hop(f, start, k, a, val.vars, n, m, 2, b);
        k := k + 2;
      }
    }
  }

  /** The step of a for loop, from its FOR_ITER label back to the condition. */
  lemma ForStepOn(e: Expr, test: seq<Instr>, body: seq<Instr>, scope: seq<string>, num: nat, vars: Locals, f: Config -> Config, p: seq<Instr>,
                  n: nat, at: nat, m: Cpu, start: Config, k0: nat) returns (k: nat)
    requires Runs(f, p) && On(f, start, k0, at + 2 + |test|, vars, n, m)
    requires Resolved(e, scope) && |scope| <= n && 8 * Need(e) <= m.rsp
    requires ForSite(f, p, 8 * n, at, num, test, Code(e, scope), body)
    ensures k > k0 && Gone(f, start, Eval(e, scope, vars), at, n, m, k)
  {
    hide Code, Eval, Need, Resolved, Runs, CodeAt, Represents, Keeps;
    var a := at + 2 + |test|;
    Hop(f, start, k0, a, vars, n, m, 1, a + 1);
    ExprOn(e, scope, vars, f, p, n, a + 1, m, start, k0 + 1);
    k := k0 + 1 + |Code(e, scope)|;
    var val := Eval(e, scope, vars);
    if val.Ok? {
      Hop(f, start, k, a + 1 + |Code(e, scope)|, val.vars, n, m, 1, at);
      k := k + 1;
    }
  }

  // ---- loops ----------------------------------------------------------------------------------

  /** For some number of steps from k0 on, the run ends as r does. */
  ghost predicate EndsSome(f: Config -> Config, start: Config, r: Result, x: Exits, n: nat, m: Cpu, k0: nat, least: int) {
    exists k: nat :: k >= k0 && Ends(f, start, r, x, n, m, least, k)
  }

  /** Whenever the machine is at position at, it goes on as meaning does, towards the exits x. */
  ghost predicate Simulates(f: Config -> Config, start: Config, meaning: StmtMeaning, at: nat, x: Exits, n: nat, m: Cpu) {
    forall vars: Locals, fuel: nat, k0: nat {:trigger On(f, start, k0, at, vars, n, m), meaning(vars, fuel)} ::
      On(f, start, k0, at, vars, n, m) ==> EndsSome(f, start, meaning(vars, fuel), x, n, m, k0, k0 + fuel)
  }

  ghost predicate GoneSome(f: Config -> Config, start: Config, val: Value, yes: nat, no: nat, n: nat, m: Cpu, k0: nat) {
    exists k: nat :: k > k0 && Gone(f, start, val, Way(val, yes, no), n, m, k)
  }

  /** Whenever the machine is at position at, it evaluates meaning and goes to yes or no. */
  ghost predicate Tests(f: Config -> Config, start: Config, meaning: ExprMeaning, at: nat, yes: nat, no: nat, n: nat, m: Cpu) {
    forall vars: Locals, k0: nat {:trigger On(f, start, k0, at, vars, n, m), meaning(vars)} ::
      On(f, start, k0, at, vars, n, m) ==> GoneSome(f, start, meaning(vars), yes, no, n, m, k0)
  }

  lemma TestOnce(f: Config -> Config, start: Config, test: ExprMeaning, at: nat, yes: nat, no: nat, n: nat, m: Cpu, vars: Locals, k0: nat)
    returns (k: nat)
    requires Tests(f, start, test, at, yes, no, n, m) && On(f, start, k0, at, vars, n, m)
    ensures var val := test(vars);
      k > k0 && Gone(f, start, val, Way(val, yes, no), n, m, k)
  {
    var val := test(vars);
    assert GoneSome(f, start, val, yes, no, n, m, k0);
    k :| k > k0 && Gone(f, start, val, Way(val, yes, no), n, m, k);
  }

  /** One run of the body of a loop, up to the point where the loop goes on or is over. */
  lemma BodyOnce(f: Config -> Config, start: Config, body: StmtMeaning, at: nat, inner: Exits, x: Exits, n: nat, m: Cpu, j: nat,
                 vars: Locals, fuel: nat, k0: nat, least: int) returns (k: nat)
    requires Simulates(f, start, body, at, inner, n, m) && inner.inLoop && least <= k0 + fuel
    requires Leads(f, inner.end, j, inner.cont) && Leads(f, inner.brk, 1, x.end)
    requires On(f, start, k0, at, vars, n, m)
    ensures var r := body(vars, fuel);
      && k >= k0
      && (Again(r) ==> On(f, start, k, inner.cont, r.vars, n, m))
      && (!Again(r) ==> Ends(f, start, LoopExit(r), x, n, m, least, k))
  {
    var r := body(vars, fuel);
    assert EndsSome(f, start, r, inner, n, m, k0, k0 + fuel);
    k :| k >= k0 && Ends(f, start, r, inner, n, m, k0 + fuel, k);
    k := LoopBody(f, start, r, inner, x, n, m, k0 + fuel, k, j);
    if !Again(r) {
      LowerLeast(f, start, LoopExit(r), x, n, m, k0 + fuel, least, k);
    }
  }

  lemma {:induction false} WhileRuns(f: Config -> Config, start: Config, test: ExprMeaning, body: StmtMeaning, at: nat, in_: nat, inner: Exits, x: Exits,
                                     n: nat, m: Cpu, vars: Locals, fuel: nat, k0: nat) returns (k: nat)
    requires Tests(f, start, test, at, in_, x.end, n, m) && Simulates(f, start, body, in_, inner, n, m)
    requires inner.inLoop && inner.cont == at && Leads(f, inner.end, 1, at) && Leads(f, inner.brk, 1, x.end)
    requires On(f, start, k0, at, vars, n, m)
    ensures k >= k0 && Ends(f, start, WhileMeaning(test, body, vars, fuel), x, n, m, k0 + fuel, k)
    decreases fuel
  {
    if fuel == 0 {
      k := k0;
      Unfinished(f, start, at, vars, x, n, m, k);
    } else {
      k := TestOnce(f, start, test, at, in_, x.end, n, m, vars, k0);
      var val := test(vars);
      if val.Ok? && val.v != 0 {
        k := BodyOnce(f, start, body, in_, inner, x, n, m, 1, val.vars, fuel, k, k0 + fuel);
        var r := body(val.vars, fuel);
        if Again(r) {
          var k2 := k;
          k := WhileRuns(f, start, test, body, at, in_, inner, x, n, m, r.vars, fuel - 1, k2);
          LowerLeast(f, start, WhileMeaning(test, body, r.vars, fuel - 1), x, n, m, k2 + fuel - 1, k0 + fuel, k);
        }
      } else {
        GoneEnds(f, start, val, x, n, m, k0 + fuel, k);
      }
    }
  }

  lemma {:induction false} DoRuns(f: Config -> Config, start: Config, body: StmtMeaning, test: ExprMeaning, at: nat, inner: Exits, x: Exits,
                                  n: nat, m: Cpu, vars: Locals, fuel: nat, k0: nat) returns (k: nat)
    requires Simulates(f, start, body, at + 1, inner, n, m) && Tests(f, start, test, inner.cont, at, x.end, n, m)
    requires inner.inLoop && inner.end == inner.cont && Leads(f, at, 1, at + 1) && Leads(f, inner.brk, 1, x.end)
    requires On(f, start, k0, at, vars, n, m)
    ensures k >= k0 && Ends(f, start, DoMeaning(body, test, vars, fuel), x, n, m, k0 + fuel, k)
    decreases fuel
  {
    if fuel == 0 {
      k := k0;
      Unfinished(f, start, at, vars, x, n, m, k);
    } else {
      Hop(f, start, k0, at, vars, n, m, 1, at + 1);
      LeadsNowhere(f, inner.end);
      k := BodyOnce(f, start, body, at + 1, inner, x, n, m, 0, vars, fuel, k0 + 1, k0 + fuel);
      var r := body(vars, fuel);
      if Again(r) {
        k := TestOnce(f, start, test, inner.cont, at, x.end, n, m, r.vars, k);
        var val := test(r.vars);
        if val.Ok? && val.v != 0 {
          var k2 := k;
          k := DoRuns(f, start, body, test, at, inner, x, n, m, val.vars, fuel - 1, k2);
          LowerLeast(f, start, DoMeaning(body, test, val.vars, fuel - 1), x, n, m, k2 + fuel - 1, k0 + fuel, k);
        } else {
          GoneEnds(f, start, val, x, n, m, k0 + fuel, k);
        }
      }
    }
  }

  lemma {:induction false} ForRuns(f: Config -> Config, start: Config, test: ExprMeaning, step: ExprMeaning, body: StmtMeaning, at: nat, in_: nat,
                                   inner: Exits, x: Exits, n: nat, m: Cpu, vars: Locals, fuel: nat, k0: nat) returns (k: nat)
    requires Tests(f, start, test, at, in_, x.end, n, m) && Tests(f, start, step, inner.cont, at, at, n, m)
    requires Simulates(f, start, body, in_, inner, n, m)
    requires inner.inLoop && Leads(f, inner.end, 1, inner.cont) && Leads(f, inner.brk, 1, x.end)
    requires On(f, start, k0, at, vars, n, m)
    ensures k >= k0 && Ends(f, start, ForMeaning(test, step, body, vars, fuel), x, n, m, k0 + fuel, k)
    decreases fuel
  {
    if fuel == 0 {
      k := k0;
      Unfinished(f, start, at, vars, x, n, m, k);
    } else {
      k := TestOnce(f, start, test, at, in_, x.end, n, m, vars, k0);
      var val := test(vars);
      if val.Ok? && val.v != 0 {
        k := BodyOnce(f, start, body, in_, inner, x, n, m, 1, val.vars, fuel, k, k0 + fuel);
        var r := body(val.vars, fuel);
        if Again(r) {
          k := TestOnce(f, start, step, inner.cont, at, at, n, m, r.vars, k);
          var next := step(r.vars);
          if next.Ok? {
            var k2 := k;
            k := ForRuns(f, start, test, step, body, at, in_, inner, x, n, m, next.vars, fuel - 1, k2);
            LowerLeast(f, start, ForMeaning(test, step, body, next.vars, fuel - 1), x, n, m, k2 + fuel - 1, k0 + fuel, k);
          } else {
            EndsSteps(f, start, Failed(next), x, n, m, k0 + fuel, k);
          }
        }
      } else {
        GoneEnds(f, start, val, x, n, m, k0 + fuel, k);
      }
    }
  }

  /** A branch of a conditional and the way to its end. */
  lemma PartRuns(f: Config -> Config, start: Config, part: StmtMeaning, at: nat, inner: Exits, x: Exits, n: nat, m: Cpu, j: nat,
                 vars: Locals, fuel: nat, k0: nat, least: int) returns (k: nat)
    requires Simulates(f, start, part, at, inner, n, m) && least <= k0 + fuel && On(f, start, k0, at, vars, n, m)
    requires Leads(f, inner.end, j, x.end) && x == inner.(end := x.end)
    ensures k >= k0 && Ends(f, start, part(vars, fuel), x, n, m, least, k)
  {
    var r := part(vars, fuel);
    assert EndsSome(f, start, r, inner, n, m, k0, k0 + fuel);
    k :| k >= k0 && Ends(f, start, r, inner, n, m, k0 + fuel, k);
    k := EndsOn(f, start, r, inner, n, m, k0 + fuel, k, j, x.end);
    LowerLeast(f, start, r, x, n, m, k0 + fuel, least, k);
  }

  // ---- the compound statements around the meanings of their parts --------------------------------

  lemma IfTests(e: Expr, thn: seq<Instr>, scope: seq<string>, num: nat, f: Config -> Config, p: seq<Instr>, n: nat, at: nat, m: Cpu, start: Config)
    requires Runs(f, p) && Resolved(e, scope) && |scope| <= n && 8 * Need(e) <= m.rsp
    requires IfSite(f, p, 8 * n, at, num, Branch(e, scope, Je(Label(Else, num))), thn)
    ensures var a := at + 1 + |Branch(e, scope, Je(Label(Else, num)))|;
      Tests(f, start, EvalFn(e, scope), at, a, a + |thn| + 2, n, m)
  {
    hide On, Gone, Code, Branch, Resolved, Need, Eval;
    var a := at + 1 + |Branch(e, scope, Je(Label(Else, num)))|;
    forall vars: Locals, k0: nat | On(f, start, k0, at, vars, n, m)
      ensures GoneSome(f, start, EvalFn(e, scope)(vars), a, a + |thn| + 2, n, m, k0)
    {
      var k := IfEnter(e, thn, scope, num, vars, f, p, n, at, m, start, k0);
    }
  }

  lemma IfElseTests(e: Expr, thn: seq<Instr>, els: seq<Instr>, scope: seq<string>, num: nat, f: Config -> Config, p: seq<Instr>, n: nat, at: nat,
                    m: Cpu, start: Config)
    requires Runs(f, p) && Resolved(e, scope) && |scope| <= n && 8 * Need(e) <= m.rsp
    requires IfElseSite(f, p, 8 * n, at, num, Branch(e, scope, Je(Label(Else, num))), thn, els)
    ensures var a := at + 1 + |Branch(e, scope, Je(Label(Else, num)))|;
      Tests(f, start, EvalFn(e, scope), at, a, a + |thn| + 2, n, m)
  {
    hide On, Gone, Code, Branch, Resolved, Need, Eval;
    var a := at + 1 + |Branch(e, scope, Je(Label(Else, num)))|;
    forall vars: Locals, k0: nat | On(f, start, k0, at, vars, n, m)
      ensures GoneSome(f, start, EvalFn(e, scope)(vars), a, a + |thn| + 2, n, m, k0)
    {
      var k := IfElseEnter(e, thn, els, scope, num, vars, f, p, n, at, m, start, k0);
    }
  }

  lemma WhileTests(e: Expr, body: seq<Instr>, scope: seq<string>, num: nat, f: Config -> Config, p: seq<Instr>, n: nat, at: nat, m: Cpu, start: Config)
    requires Runs(f, p) && Resolved(e, scope) && |scope| <= n && 8 * Need(e) <= m.rsp
    requires WhileSite(f, p, 8 * n, at, num, Branch(e, scope, Je(Label(EndWhile, num))), body)
    ensures var a := at + 2 + |Branch(e, scope, Je(Label(EndWhile, num)))|;
      Tests(f, start, EvalFn(e, scope), at, a, a + |body| + 2, n, m)
  {
    hide On, Gone, Code, Branch, Resolved, Need, Eval;
    var a := at + 2 + |Branch(e, scope, Je(Label(EndWhile, num)))|;
    forall vars: Locals, k0: nat | On(f, start, k0, at, vars, n, m)
      ensures GoneSome(f, start, EvalFn(e, scope)(vars), a, a + |body| + 2, n, m, k0)
    {
      var k := WhileEnter(e, body, scope, num, vars, f, p, n, at, m, start, k0);
    }
  }

  lemma DoTests(e: Expr, body: seq<Instr>, scope: seq<string>, num: nat, f: Config -> Config, p: seq<Instr>, n: nat, at: nat, m: Cpu, start: Config)
    requires Runs(f, p) && Resolved(e, scope) && |scope| <= n && 8 * Need(e) <= m.rsp
    requires DoSite(f, p, 8 * n, at, num, body, Branch(e, scope, Jne(Label(DoTop, num))))
    ensures Tests(f, start, EvalFn(e, scope), at + 1 + |body|, at, at + 3 + |body| + |Branch(e, scope, Jne(Label(DoTop, num)))|, n, m)
  {
    hide On, Gone, Code, Branch, Resolved, Need, Eval, DoSite;
    var end := at + 3 + |body| + |Branch(e, scope, Jne(Label(DoTop, num)))|;
    forall vars: Locals, k0: nat | On(f, start, k0, at + 1 + |body|, vars, n, m)
      ensures GoneSome(f, start, EvalFn(e, scope)(vars), at, end, n, m, k0)
    {
      var k := DoTestOn(e, body, scope, num, vars, f, p, n, at, m, start, k0);
    }
  }

  lemma ForTests(e: Expr, step: seq<Instr>, body: seq<Instr>, scope: seq<string>, num: nat, f: Config -> Config, p: seq<Instr>, n: nat, at: nat, m: Cpu, start: Config)
    requires Runs(f, p) && Resolved(e, scope) && |scope| <= n && 8 * Need(e) <= m.rsp
    requires ForSite(f, p, 8 * n, at, num, Branch(e, scope, Je(Label(ForEnd, num))), step, body)
    ensures var b := at + 5 + |Branch(e, scope, Je(Label(ForEnd, num)))| + |step|;
      Tests(f, start, EvalFn(e, scope), at, b, b + |body| + 2, n, m)
  {
    hide On, Gone, Code, Branch, Resolved, Need, Eval;
    var b := at + 5 + |Branch(e, scope, Je(Label(ForEnd, num)))| + |step|;
    forall vars: Locals, k0: nat | On(f, start, k0, at, vars, n, m)
      ensures GoneSome(f, start, EvalFn(e, scope)(vars), b, b + |body| + 2, n, m, k0)
    {
      var k := ForEnter(e, step, body, scope, num, vars, f, p, n, at, m, start, k0);
    }
  }

  lemma ForSteps(e: Expr, test: seq<Instr>, body: seq<Instr>, scope: seq<string>, num: nat, f: Config -> Config, p: seq<Instr>, n: nat, at: nat, m: Cpu, start: Config)
    requires Runs(f, p) && Resolved(e, scope) && |scope| <= n && 8 * Need(e) <= m.rsp
    requires ForSite(f, p, 8 * n, at, num, test, Code(e, scope), body)
    ensures Tests(f, start, EvalFn(e, scope), at + 2 + |test|, at, at, n, m)
  {
    hide On, Gone, Code, Branch, Resolved, Need, Eval;
    forall vars: Locals, k0: nat | On(f, start, k0, at + 2 + |test|, vars, n, m)
      ensures GoneSome(f, start, EvalFn(e, scope)(vars), at, at, n, m, k0)
    {
      var k := ForStepOn(e, test, body, scope, num, vars, f, p, n, at, m, start, k0);
      assert Way(EvalFn(e, scope)(vars), at, at) == at;
    }
  }

  lemma IfRuns(f: Config -> Config, start: Config, test: ExprMeaning, thn: StmtMeaning, at: nat, in_: nat, inner: Exits, x: Exits,
               n: nat, m: Cpu, j: nat, vars: Locals, fuel: nat, k0: nat) returns (k: nat)
    requires Tests(f, start, test, at, in_, x.end, n, m) && Simulates(f, start, thn, in_, inner, n, m)
    requires Leads(f, inner.end, j, x.end) && x == inner.(end := x.end)
    requires On(f, start, k0, at, vars, n, m)
    ensures k >= k0 && Ends(f, start, IfMeaning(test, thn, vars, fuel), x, n, m, k0 + fuel, k)
  {
    k := TestOnce(f, start, test, at, in_, x.end, n, m, vars, k0);
    var val := test(vars);
    if val.Ok? && val.v != 0 {
      k := PartRuns(f, start, thn, in_, inner, x, n, m, j, val.vars, fuel, k, k0 + fuel);
    } else {
      GoneEnds(f, start, val, x, n, m, k0 + fuel, k);
    }
  }

  lemma IfElseRuns(f: Config -> Config, start: Config, test: ExprMeaning, thn: StmtMeaning, els: StmtMeaning, at: nat, a: nat, b: nat,
                   yes: Exits, no: Exits, x: Exits, n: nat, m: Cpu, vars: Locals, fuel: nat, k0: nat) returns (k: nat)
    requires Tests(f, start, test, at, a, b, n, m) && Simulates(f, start, thn, a, yes, n, m) && Simulates(f, start, els, b, no, n, m)
    requires Leads(f, yes.end, 2, x.end) && x == yes.(end := x.end) && Leads(f, no.end, 1, x.end) && x == no.(end := x.end)
    requires On(f, start, k0, at, vars, n, m)
    ensures k >= k0 && Ends(f, start, IfElseMeaning(test, thn, els, vars, fuel), x, n, m, k0 + fuel, k)
  {
    k := TestOnce(f, start, test, at, a, b, n, m, vars, k0);
    var val := test(vars);
    if !val.Ok? {
      EndsSteps(f, start, Failed(val), x, n, m, k0 + fuel, k);
    } else if val.v != 0 {
      k := PartRuns(f, start, thn, a, yes, x, n, m, 2, val.vars, fuel, k, k0 + fuel);
    } else {
      k := PartRuns(f, start, els, b, no, x, n, m, 1, val.vars, fuel, k, k0 + fuel);
    }
  }

  lemma IfPart(e: Expr, thn: seq<Instr>, meaning: StmtMeaning, scope: seq<string>, num: nat, loop: Target, vars: Locals, fuel: nat,
               f: Config -> Config, p: seq<Instr>, n: nat, at: nat, m: Cpu, start: Config, k0: nat) returns (k: nat)
    requires Runs(f, p) && On(f, start, k0, at, vars, n, m) && Resolved(e, scope) && |scope| <= n && 8 * Need(e) <= m.rsp
    requires IfSite(f, p, 8 * n, at, num, Branch(e, scope, Je(Label(Else, num))), thn)
    requires var a := at + 1 + |Branch(e, scope, Je(Label(Else, num)))|;
      Simulates(f, start, meaning, a, ExitsOf(p, loop, a + |thn|), n, m)
    ensures k >= k0
    ensures Ends(f, start, IfMeaning(EvalFn(e, scope), meaning, vars, fuel),
                 ExitsOf(p, loop, at + 3 + |Branch(e, scope, Je(Label(Else, num)))| + |thn|), n, m, k0 + fuel, k)
  {
    hide Tests, Simulates, Code, Branch, EvalFn, On, Ends, Runs, Resolved, Need, CodeAt;
    var test := Branch(e, scope, Je(Label(Else, num)));
    var a := at + 1 + |test|;
    IfTests(e, thn, scope, num, f, p, n, at, m, start);
    k := IfRuns(f, start, EvalFn(e, scope), meaning, at, a, ExitsOf(p, loop, a + |thn|), ExitsOf(p, loop, a + |thn| + 2), n, m, 2, vars, fuel, k0);
  }

  lemma IfElsePart(e: Expr, thn: seq<Instr>, yes: StmtMeaning, els: seq<Instr>, no: StmtMeaning, scope: seq<string>, num: nat, loop: Target,
                   vars: Locals, fuel: nat, f: Config -> Config, p: seq<Instr>, n: nat, at: nat, m: Cpu, start: Config, k0: nat) returns (k: nat)
    requires Runs(f, p) && On(f, start, k0, at, vars, n, m) && Resolved(e, scope) && |scope| <= n && 8 * Need(e) <= m.rsp
    requires IfElseSite(f, p, 8 * n, at, num, Branch(e, scope, Je(Label(Else, num))), thn, els)
    requires var a := at + 1 + |Branch(e, scope, Je(Label(Else, num)))|; var b := a + |thn| + 2;
      Simulates(f, start, yes, a, ExitsOf(p, loop, a + |thn|), n, m) && Simulates(f, start, no, b, ExitsOf(p, loop, b + |els|), n, m)
    ensures k >= k0
    ensures Ends(f, start, IfElseMeaning(EvalFn(e, scope), yes, no, vars, fuel),
                 ExitsOf(p, loop, at + 4 + |Branch(e, scope, Je(Label(Else, num)))| + |thn| + |els|), n, m, k0 + fuel, k)
  {
    hide Tests, Simulates, Code, Branch, EvalFn, On, Ends, Runs, Resolved, Need, CodeAt;
    var test := Branch(e, scope, Je(Label(Else, num)));
    var a := at + 1 + |test|;
    var b := a + |thn| + 2;
    IfElseTests(e, thn, els, scope, num, f, p, n, at, m, start);
    k := IfElseRuns(f, start, EvalFn(e, scope), yes, no, at, a, b, ExitsOf(p, loop, a + |thn|), ExitsOf(p, loop, b + |els|),
                    ExitsOf(p, loop, b + |els| + 1), n, m, vars, fuel, k0);
  }

  lemma WhilePart(e: Expr, body: seq<Instr>, meaning: StmtMeaning, scope: seq<string>, num: nat, loop: Target, vars: Locals, fuel: nat,
                  f: Config -> Config, p: seq<Instr>, n: nat, at: nat, m: Cpu, start: Config, k0: nat) returns (k: nat)
    requires Runs(f, p) && On(f, start, k0, at, vars, n, m) && Resolved(e, scope) && |scope| <= n && 8 * Need(e) <= m.rsp
    requires WhileSite(f, p, 8 * n, at, num, Branch(e, scope, Je(Label(EndWhile, num))), body)
    requires var a := at + 2 + |Branch(e, scope, Je(Label(EndWhile, num)))|;
      Simulates(f, start, meaning, a, ExitsOf(p, WhileTarget(num), a + |body|), n, m)
    ensures k >= k0
    ensures Ends(f, start, WhileMeaning(EvalFn(e, scope), meaning, vars, fuel),
                 ExitsOf(p, loop, at + 4 + |Branch(e, scope, Je(Label(EndWhile, num)))| + |body|), n, m, k0 + fuel, k)
  {
    hide Tests, Simulates, Code, Branch, EvalFn, On, Ends, Runs, Resolved, Need, CodeAt;
    var test := Branch(e, scope, Je(Label(EndWhile, num)));
    var a := at + 2 + |test|;
    WhileTests(e, body, scope, num, f, p, n, at, m, start);
    k := WhileRuns(f, start, EvalFn(e, scope), meaning, at, a, ExitsOf(p, WhileTarget(num), a + |body|),
                   ExitsOf(p, loop, a + |body| + 2), n, m, vars, fuel, k0);
  }

  lemma DoPart(body: seq<Instr>, meaning: StmtMeaning, e: Expr, scope: seq<string>, num: nat, loop: Target, vars: Locals, fuel: nat,
               f: Config -> Config, p: seq<Instr>, n: nat, at: nat, m: Cpu, start: Config, k0: nat) returns (k: nat)
    requires Runs(f, p) && On(f, start, k0, at, vars, n, m) && Resolved(e, scope) && |scope| <= n && 8 * Need(e) <= m.rsp
    requires DoSite(f, p, 8 * n, at, num, body, Branch(e, scope, Jne(Label(DoTop, num))))
    requires Simulates(f, start, meaning, at + 1, ExitsOf(p, DoTarget(num), at + 1 + |body|), n, m)
    ensures k >= k0
    ensures Ends(f, start, DoMeaning(meaning, EvalFn(e, scope), vars, fuel),
                 ExitsOf(p, loop, at + 3 + |Branch(e, scope, Jne(Label(DoTop, num)))| + |body|), n, m, k0 + fuel, k)
  {
    hide Tests, Simulates, Code, Branch, EvalFn, On, Ends, Runs, Resolved, Need, CodeAt;
    var test := Branch(e, scope, Jne(Label(DoTop, num)));
    var a := at + 1 + |body|;
    DoTests(e, body, scope, num, f, p, n, at, m, start);
    k := DoRuns(f, start, meaning, EvalFn(e, scope), at, ExitsOf(p, DoTarget(num), a), ExitsOf(p, loop, a + 2 + |test|), n, m, vars, fuel, k0);
  }

  lemma ForAround(test: seq<Instr>, testMeaning: ExprMeaning, step: seq<Instr>, stepMeaning: ExprMeaning, body: seq<Instr>, meaning: StmtMeaning,
                  num: nat, loop: Target, vars: Locals, fuel: nat, f: Config -> Config, p: seq<Instr>, n: nat, at: nat, m: Cpu, start: Config, k0: nat)
    returns (k: nat)
    requires On(f, start, k0, at, vars, n, m) && ForSite(f, p, 8 * n, at, num, test, step, body)
    requires var b := at + 5 + |test| + |step|;
      && Tests(f, start, testMeaning, at, b, b + |body| + 2, n, m) && Tests(f, start, stepMeaning, at + 2 + |test|, at, at, n, m)
      && Simulates(f, start, meaning, b, ExitsOf(p, ForTarget(num), b + |body|), n, m)
    ensures k >= k0
    ensures Ends(f, start, ForMeaning(testMeaning, stepMeaning, meaning, vars, fuel),
                 ExitsOf(p, loop, at + 7 + |test| + |step| + |body|), n, m, k0 + fuel, k)
  {
    hide Tests, Simulates, Code, Branch, EvalFn, On, Ends, Runs, Resolved, Need, CodeAt;
    var b := at + 5 + |test| + |step|;
    k := ForRuns(f, start, testMeaning, stepMeaning, meaning, at, b, ExitsOf(p, ForTarget(num), b + |body|),
                 ExitsOf(p, loop, b + |body| + 2), n, m, vars, fuel, k0);
  }

  lemma ForPart(c: Expr, st: Expr, body: seq<Instr>, meaning: StmtMeaning, scope: seq<string>, num: nat, loop: Target, vars: Locals, fuel: nat,
                f: Config -> Config, p: seq<Instr>, n: nat, at: nat, m: Cpu, start: Config, k0: nat) returns (k: nat)
    requires Runs(f, p) && On(f, start, k0, at, vars, n, m)
    requires Resolved(c, scope) && Resolved(st, scope) && |scope| <= n && 8 * Need(c) <= m.rsp && 8 * Need(st) <= m.rsp
    requires ForSite(f, p, 8 * n, at, num, Branch(c, scope, Je(Label(ForEnd, num))), Code(st, scope), body)
    requires var b := at + 5 + |Branch(c, scope, Je(Label(ForEnd, num)))| + |Code(st, scope)|;
      Simulates(f, start, meaning, b, ExitsOf(p, ForTarget(num), b + |body|), n, m)
    ensures k >= k0
    ensures Ends(f, start, ForMeaning(EvalFn(c, scope), EvalFn(st, scope), meaning, vars, fuel),
                 ExitsOf(p, loop, at + 7 + |Branch(c, scope, Je(Label(ForEnd, num)))| + |Code(st, scope)| + |body|), n, m, k0 + fuel, k)
  {
    hide *;
    var test := Branch(c, scope, Je(Label(ForEnd, num)));
    var step := Code(st, scope);
    var b := at + 5 + |test| + |step|;
    ForTests(c, step, body, scope, num, f, p, n, at, m, start);
    ForSteps(st, test, body, scope, num, f, p, n, at, m, start);
    k := ForAround(test, EvalFn(c, scope), step, EvalFn(st, scope), body, meaning, num, loop, vars, fuel, f, p, n, at, m, start, k0);
  }

  // ---- the induction --------------------------------------------------------------------------

  /** The induction hypothesis for a part of a statement. */
  lemma {:induction false} PartSimulates(s: Stmt, scope: seq<string>, num: nat, inner: Target, f: Config -> Config, p: seq<Instr>, n: nat, at: nat, m: Cpu, start: Config)
    requires Context(f, p, inner)
    requires Legal(s, scope, inner.InLoop?) && Room(s, scope, n, m) && CodeAt(p, 8 * n, at, Gen(s, scope, num, inner))
    ensures Simulates(f, start, ExecFn(s, scope, inner.InLoop?), at, ExitsOf(p, inner, at + |Gen(s, scope, num, inner)|), n, m)
    decreases s, 4
  {
    var x := ExitsOf(p, inner, at + |Gen(s, scope, num, inner)|);
    forall vars: Locals, fuel: nat, k0: nat | On(f, start, k0, at, vars, n, m)
      ensures EndsSome(f, start, ExecFn(s, scope, inner.InLoop?)(vars, fuel), x, n, m, k0, k0 + fuel)
    {
      var k := StmtCorrect(s, scope, num, inner, vars, fuel, f, p, n, at, m, start, k0);
    }
  }

  lemma {:induction false} IfCorrect(e: Expr, t: Stmt, scope: seq<string>, num: nat, loop: Target, vars: Locals, fuel: nat,
                            f: Config -> Config, p: seq<Instr>, n: nat, at: nat, m: Cpu, start: Config, k0: nat) returns (k: nat)
    requires Context(f, p, loop) && On(f, start, k0, at, vars, n, m)
    requires Legal(If(e, t), scope, loop.InLoop?) && Room(If(e, t), scope, n, m) && CodeAt(p, 8 * n, at, Gen(If(e, t), scope, num, loop))
    ensures k >= k0
    ensures Ends(f, start, Exec(If(e, t), scope, loop.InLoop?, vars, fuel), ExitsOf(p, loop, at + |Gen(If(e, t), scope, num, loop)|), n, m, k0 + fuel, k)
    decreases t, 5
  {
    hide Tests, Simulates, Code, Branch, EvalFn, ExecFn, On, Ends, Runs, Resolved, Need, CodeAt, Leads, IfMeaning, IfElseMeaning, WhileMeaning, DoMeaning, ForMeaning, ExitsOf, Linked, Placed;
    var test := Branch(e, scope, Je(Label(Else, num)));
    var thn := Gen(t, scope, num + 1, loop);
    assert Gen(If(e, t), scope, num, loop) == IfCode(num, test, thn);
    IfSited(f, p, 8 * n, at, num, test, thn);
    assert CodeAt(p, 8 * n, at + 1 + |test|, thn);
    PartSimulates(t, scope, num + 1, loop, f, p, n, at + 1 + |test|, m, start);
    k := IfPart(e, thn, ExecFn(t, scope, loop.InLoop?), scope, num, loop, vars, fuel, f, p, n, at, m, start, k0);
  }

  lemma {:induction false} IfElseCorrect(e: Expr, t: Stmt, u: Stmt, scope: seq<string>, num: nat, loop: Target, vars: Locals, fuel: nat,
                            f: Config -> Config, p: seq<Instr>, n: nat, at: nat, m: Cpu, start: Config, k0: nat) returns (k: nat)
    requires Context(f, p, loop) && On(f, start, k0, at, vars, n, m)
    requires Legal(IfElse(e, t, u), scope, loop.InLoop?) && Room(IfElse(e, t, u), scope, n, m) && CodeAt(p, 8 * n, at, Gen(IfElse(e, t, u), scope, num, loop))
    ensures k >= k0
    ensures Ends(f, start, Exec(IfElse(e, t, u), scope, loop.InLoop?, vars, fuel), ExitsOf(p, loop, at + |Gen(IfElse(e, t, u), scope, num, loop)|), n, m, k0 + fuel, k)
    decreases IfElse(e, t, u), 1
  {
    hide Tests, Simulates, Code, Branch, EvalFn, ExecFn, On, Ends, Runs, Resolved, Need, CodeAt, Leads, IfMeaning, IfElseMeaning, WhileMeaning, DoMeaning, ForMeaning, ExitsOf, Linked, Placed;
    var test := Branch(e, scope, Je(Label(Else, num)));
    var thn := Gen(t, scope, num + 1, loop);
    var scope1 := After(t, scope);
    var els := Gen(u, scope1, num + 1 + Count(t), loop);
    assert Gen(IfElse(e, t, u), scope, num, loop) == IfElseCode(num, test, thn, els);
    IfElseSited(f, p, 8 * n, at, num, test, thn, els);
    AfterLength(t, scope);
    PartSimulates(t, scope, num + 1, loop, f, p, n, at + 1 + |test|, m, start);
    PartSimulates(u, scope1, num + 1 + Count(t), loop, f, p, n, at + 1 + |test| + |thn| + 2, m, start);
    k := IfElsePart(e, thn, ExecFn(t, scope, loop.InLoop?), els, ExecFn(u, scope1, loop.InLoop?), scope, num, loop, vars, fuel,
                    f, p, n, at, m, start, k0);
  }

  lemma {:induction false} WhileCorrect(e: Expr, body: Stmt, scope: seq<string>, num: nat, loop: Target, vars: Locals, fuel: nat,
                            f: Config -> Config, p: seq<Instr>, n: nat, at: nat, m: Cpu, start: Config, k0: nat) returns (k: nat)
    requires Context(f, p, loop) && On(f, start, k0, at, vars, n, m)
    requires Legal(While(e, body), scope, loop.InLoop?) && Room(While(e, body), scope, n, m) && CodeAt(p, 8 * n, at, Gen(While(e, body), scope, num, loop))
    ensures k >= k0
    ensures Ends(f, start, Exec(While(e, body), scope, loop.InLoop?, vars, fuel), ExitsOf(p, loop, at + |Gen(While(e, body), scope, num, loop)|), n, m, k0 + fuel, k)
    decreases body, 5
  {
    hide Tests, Simulates, Code, Branch, EvalFn, ExecFn, On, Ends, Runs, Resolved, Need, CodeAt, Leads, IfMeaning, IfElseMeaning, WhileMeaning, DoMeaning, ForMeaning, ExitsOf, Linked;
    var test := Branch(e, scope, Je(Label(EndWhile, num)));
    var code := Gen(body, scope, num + 1, WhileTarget(num));
    assert Gen(While(e, body), scope, num, loop) == WhileCode(num, test, code);
    WhileSited(f, p, 8 * n, at, num, test, code);
    PartSimulates(body, scope, num + 1, WhileTarget(num), f, p, n, at + 2 + |test|, m, start);
    k := WhilePart(e, code, ExecFn(body, scope, true), scope, num, loop, vars, fuel, f, p, n, at, m, start, k0);
  }

  lemma {:induction false} DoCorrect(body: Stmt, e: Expr, scope: seq<string>, num: nat, loop: Target, vars: Locals, fuel: nat,
                            f: Config -> Config, p: seq<Instr>, n: nat, at: nat, m: Cpu, start: Config, k0: nat) returns (k: nat)
    requires Context(f, p, loop) && On(f, start, k0, at, vars, n, m)
    requires Legal(DoWhile(body, e), scope, loop.InLoop?) && Room(DoWhile(body, e), scope, n, m) && CodeAt(p, 8 * n, at, Gen(DoWhile(body, e), scope, num, loop))
    ensures k >= k0
    ensures Ends(f, start, Exec(DoWhile(body, e), scope, loop.InLoop?, vars, fuel), ExitsOf(p, loop, at + |Gen(DoWhile(body, e), scope, num, loop)|), n, m, k0 + fuel, k)
    decreases body, 5
  {
    hide Tests, Simulates, Code, Branch, EvalFn, ExecFn, On, Ends, Runs, Resolved, Need, CodeAt, Leads, IfMeaning, IfElseMeaning, WhileMeaning, DoMeaning, ForMeaning, ExitsOf, Linked;
    var scope1 := After(body, scope);
    var test := Branch(e, scope1, Jne(Label(DoTop, num)));
    var code := Gen(body, scope, num + 1, DoTarget(num));
    assert Gen(DoWhile(body, e), scope, num, loop) == DoCode(num, code, test);
    DoSited(f, p, 8 * n, at, num, code, test);
    AfterLength(body, scope);
    PartSimulates(body, scope, num + 1, DoTarget(num), f, p, n, at + 1, m, start);
    k := DoPart(code, ExecFn(body, scope, true), e, scope1, num, loop, vars, fuel, f, p, n, at, m, start, k0);
  }

  /** A for statement up to its condition. */
  lemma ForInitOn(init: ForInit, scope: seq<string>, round: seq<Instr>, vars: Locals, f: Config -> Config, p: seq<Instr>, n: nat, at: nat,
                  m: Cpu, start: Config, k0: nat)
    requires ResolvedInit(init, scope) && |scope| + InitCount(init) <= n && 8 * NeedInit(init) <= m.rsp
    requires Runs(f, p) && On(f, start, k0, at, vars, n, m) && CodeAt(p, 8 * n, at, [Remark] + (GenInit(init, scope) + round))
    ensures var b := at + 1 + |GenInit(init, scope)|;
      CodeAt(p, 8 * n, b, round) && Gone(f, start, ExecInit(init, scope, vars), b, n, m, k0 + 1 + |GenInit(init, scope)|)
  {
    hide GenInit, ExecInit, NeedInit, ResolvedInit, Represents, Keeps;
    var first := GenInit(init, scope);
    CodeAtSplit(p, 8 * n, at, [Remark], first + round);
    CodeAtSplit(p, 8 * n, at + 1, first, round);
    InstrAt(p, 8 * n, at, [Remark], 0);
    LeadsSkip(f, p, at);
    Hop(f, start, k0, at, vars, n, m, 1, at + 1);
    InitOn(init, scope, vars, f, p, n, at + 1, m, start, k0 + 1);
  }

  lemma {:induction false} ForCorrect(init: ForInit, c: Expr, st: Expr, body: Stmt, scope: seq<string>, num: nat, loop: Target, vars: Locals, fuel: nat,
                            f: Config -> Config, p: seq<Instr>, n: nat, at: nat, m: Cpu, start: Config, k0: nat) returns (k: nat)
    requires Context(f, p, loop) && On(f, start, k0, at, vars, n, m)
    requires Legal(For(init, c, st, body), scope, loop.InLoop?) && Room(For(init, c, st, body), scope, n, m) && CodeAt(p, 8 * n, at, Gen(For(init, c, st, body), scope, num, loop))
    ensures k >= k0
    ensures Ends(f, start, Exec(For(init, c, st, body), scope, loop.InLoop?, vars, fuel), ExitsOf(p, loop, at + |Gen(For(init, c, st, body), scope, num, loop)|), n, m, k0 + fuel, k)
    decreases body, 5
  {
    hide Tests, Simulates, Code, Branch, EvalFn, ExecFn, On, Ends, Runs, Resolved, Need, CodeAt, Leads, IfMeaning, IfElseMeaning, WhileMeaning, DoMeaning, ForMeaning, ExitsOf, Linked;
    hide ForLoopCode, ExecInit, GenInit, NeedInit, ResolvedInit;
    var scope1 := InitScope(init, scope);
    var first := GenInit(init, scope);
    var test := Branch(c, scope1, Je(Label(ForEnd, num)));
    var step := Code(st, scope1);
    var code := Gen(body, scope1, num + 1, ForTarget(num));
    var round := ForLoopCode(num, test, step, code);
    assert Gen(For(init, c, st, body), scope, num, loop) == [Remark] + (first + round);
    ForInitOn(init, scope, round, vars, f, p, n, at, m, start, k0);
    var b := at + 1 + |first|;
    k := k0 + 1 + |first|;
    ForSited(f, p, 8 * n, b, num, test, step, code);
    var val := ExecInit(init, scope, vars);
    assert |Gen(For(init, c, st, body), scope, num, loop)| == 1 + |first| + |round|;
    if val.Ok? {
      InitScopeLength(init, scope);
      PartSimulates(body, scope1, num + 1, ForTarget(num), f, p, n, b + 5 + |test| + |step|, m, start);
      k := ForPart(c, st, code, ExecFn(body, scope1, true), scope1, num, loop, val.vars, fuel, f, p, n, b, m, start, k);
      LowerLeast(f, start, ForMeaning(EvalFn(c, scope1), EvalFn(st, scope1), ExecFn(body, scope1, true), val.vars, fuel),
                 ExitsOf(p, loop, b + |round|), n, m, k0 + 1 + |first| + fuel, k0 + fuel, k);
    } else {
      EndsSteps(f, start, Failed(val), ExitsOf(p, loop, b + |round|), n, m, k0 + fuel, k);
    }
  }

  lemma JumpCorrect(s: Stmt, scope: seq<string>, num: nat, loop: Target, vars: Locals, fuel: nat,
                            f: Config -> Config, p: seq<Instr>, n: nat, at: nat, m: Cpu, start: Config, k0: nat) returns (k: nat)
    requires Context(f, p, loop) && On(f, start, k0, at, vars, n, m)
    requires s.Break? || s.Continue?
    requires Legal(s, scope, loop.InLoop?) && Room(s, scope, n, m) && CodeAt(p, 8 * n, at, Gen(s, scope, num, loop))
    ensures k >= k0
    ensures Ends(f, start, Exec(s, scope, loop.InLoop?, vars, fuel), ExitsOf(p, loop, at + |Gen(s, scope, num, loop)|), n, m, k0 + fuel, k)
  {
    hide Find;
    var code := Gen(s, scope, num, loop);
    InstrAt(p, 8 * n, at, code, 0);
    LeadsJump(f, p, at);
    var x := ExitsOf(p, loop, at + |code|);
    k := k0 + 1;
    Hop(f, start, k0, at, vars, n, m, 1, if s.Break? then x.brk else x.cont);
    OnSteps(f, start, k, if s.Break? then x.brk else x.cont, vars, n, m);
    EndsSteps(f, start, Exec(s, scope, loop.InLoop?, vars, fuel), x, n, m, k0 + fuel, k);
  }

  /** mov rsp,r13 (or nothing when there is no frame) and ret. */
  lemma ReturnOn(f: Config -> Config, p: seq<Instr>, n: nat, at: nat, start: Config, k: nat)
    requires Runs(f, p) && CodeAt(p, 8 * n, at, [RestoreFrame, Ret])
    requires Steps(f, start, k).At? && Steps(f, start, k).pc == at
    ensures var c := Steps(f, start, k);
      Steps(f, start, k + 2) == Halted(if n == 0 then c.cpu else c.cpu.(rsp := c.cpu.r13))
  {
    hide CodeAt;
    var c := Steps(f, start, k);
    InstrAt(p, 8 * n, at, [RestoreFrame, Ret], 0);
    InstrAt(p, 8 * n, at, [RestoreFrame, Ret], 1);
    var m2 := if n == 0 then c.cpu else c.cpu.(rsp := c.cpu.r13);
    assert Step(p, c) == At(at + 1, m2);
    assert Step(p, At(at + 1, m2)) == Halted(m2);
    assert Steps(f, c, 2) == Steps(f, At(at + 1, m2), 1) == Steps(f, Halted(m2), 0);
    StepsAdd(f, start, k, 2);
  }

  lemma ReturnCorrect(v: Option<Expr>, scope: seq<string>, num: nat, loop: Target, vars: Locals, fuel: nat,
                            f: Config -> Config, p: seq<Instr>, n: nat, at: nat, m: Cpu, start: Config, k0: nat) returns (k: nat)
    requires Context(f, p, loop) && On(f, start, k0, at, vars, n, m)
    requires Legal(Return(v), scope, loop.InLoop?) && Room(Return(v), scope, n, m) && CodeAt(p, 8 * n, at, Gen(Return(v), scope, num, loop))
    ensures k >= k0
    ensures Ends(f, start, Exec(Return(v), scope, loop.InLoop?, vars, fuel), ExitsOf(p, loop, at + |Gen(Return(v), scope, num, loop)|), n, m, k0 + fuel, k)
  {
    hide Code, Eval, Need, Resolved, Runs, CodeAt, Linked, Represents;
    var code := if v.Some? then Code(v.value, scope) else [];
    CodeAtSplit(p, 8 * n, at, code, [RestoreFrame, Ret]);
    k := k0 + |code|;
    var r := Exec(Return(v), scope, loop.InLoop?, vars, fuel);
    var x := ExitsOf(p, loop, at + |Gen(Return(v), scope, num, loop)|);
    if v.Some? {
      ExprOn(v.value, scope, vars, f, p, n, at, m, start, k0);
    }
    if r.Done? {
      OnSteps(f, start, k, at + |code|, r.vars, n, m);
      ReturnOn(f, p, n, at + |code|, start, k);
      k := k + 2;
    }
    EndsSteps(f, start, r, x, n, m, k0 + fuel, k);
  }

  lemma DeclCorrect(ds: Decls, scope: seq<string>, num: nat, loop: Target, vars: Locals, fuel: nat,
                            f: Config -> Config, p: seq<Instr>, n: nat, at: nat, m: Cpu, start: Config, k0: nat) returns (k: nat)
    requires Context(f, p, loop) && On(f, start, k0, at, vars, n, m)
    requires Legal(Decl(ds), scope, loop.InLoop?) && Room(Decl(ds), scope, n, m) && CodeAt(p, 8 * n, at, Gen(Decl(ds), scope, num, loop))
    ensures k >= k0
    ensures Ends(f, start, Exec(Decl(ds), scope, loop.InLoop?, vars, fuel), ExitsOf(p, loop, at + |Gen(Decl(ds), scope, num, loop)|), n, m, k0 + fuel, k)
  {
    hide GenDecls, ExecDecls, NeedDecls, ResolvedDecls, Runs;
    var x := ExitsOf(p, loop, at + |GenDecls(ds, scope)|);
    InitOn(InitDecl(ds), scope, vars, f, p, n, at, m, start, k0);
    k := k0 + |GenDecls(ds, scope)|;
    GoneEnds(f, start, ExecDecls(ds, scope, vars), x, n, m, k0 + fuel, k);
  }

  lemma ExprStmtCorrect(e: Expr, scope: seq<string>, num: nat, loop: Target, vars: Locals, fuel: nat,
                            f: Config -> Config, p: seq<Instr>, n: nat, at: nat, m: Cpu, start: Config, k0: nat) returns (k: nat)
    requires Context(f, p, loop) && On(f, start, k0, at, vars, n, m)
    requires Legal(ExprStmt(e), scope, loop.InLoop?) && Room(ExprStmt(e), scope, n, m) && CodeAt(p, 8 * n, at, Gen(ExprStmt(e), scope, num, loop))
    ensures k >= k0
    ensures Ends(f, start, Exec(ExprStmt(e), scope, loop.InLoop?, vars, fuel), ExitsOf(p, loop, at + |Gen(ExprStmt(e), scope, num, loop)|), n, m, k0 + fuel, k)
  {
    hide Code, Eval, Need, Resolved, Runs;
    var x := ExitsOf(p, loop, at + |Code(e, scope)|);
    ExprOn(e, scope, vars, f, p, n, at, m, start, k0);
    k := k0 + |Code(e, scope)|;
    GoneEnds(f, start, Eval(e, scope, vars), x, n, m, k0 + fuel, k);
  }

  lemma LeaveEnds(f: Config -> Config, start: Config, r: Result, scope: seq<string>, x: Exits, n: nat, m: Cpu, least: int, k: nat)
    requires Ends(f, start, r, x, n, m, least, k)
    ensures Ends(f, start, Leave(r, scope), x, n, m, least, k)
  {
    EndsSteps(f, start, r, x, n, m, least, k);
    EndsSteps(f, start, Leave(r, scope), x, n, m, least, k);
    var c := Steps(f, start, k);
    if r.Done? && c.At? && !r.flow.Returns? {
      ForgetRepresents(r.vars, Leave(r, scope).vars, n, c.cpu);
    }
  }

  /** Statements in sequence. */
  lemma ThenEnds(f: Config -> Config, start: Config, r: Result, x: Exits, y: Exits, n: nat, m: Cpu, least: int, k: nat)
    requires Ends(f, start, r, x, n, m, least, k) && y == x.(end := y.end)
    requires !(r.Done? && r.flow == Normal)
    ensures Ends(f, start, r, y, n, m, least, k)
  {
    EndsSteps(f, start, r, x, n, m, least, k);
    EndsSteps(f, start, r, y, n, m, least, k);
  }

  lemma {:induction false} ListCorrect(ss: Stmts, scope: seq<string>, num: nat, loop: Target, vars: Locals, fuel: nat,
                                       f: Config -> Config, p: seq<Instr>, n: nat, at: nat, m: Cpu, start: Config, k0: nat) returns (k: nat)
    requires Context(f, p, loop) && On(f, start, k0, at, vars, n, m)
    requires LegalAll(ss, scope, loop.InLoop?) && |scope| + SlotsAll(ss) <= n && 8 * NeedAll(ss) <= m.rsp
    requires CodeAt(p, 8 * n, at, GenAll(ss, scope, num, loop))
    ensures k >= k0
    ensures Ends(f, start, ExecAll(ss, scope, loop.InLoop?, vars, fuel), ExitsOf(p, loop, at + |GenAll(ss, scope, num, loop)|), n, m, k0 + fuel, k)
    decreases ss, 4
  {
    hide Gen, Exec, Legal, NeedStmt, Slots, On, Runs, CodeAt, Linked, Represents, Keeps, After, Count;
    match ss
    case Nil =>
      k := k0;
      OnEnds(f, start, vars, ExitsOf(p, loop, at), n, m, k0 + fuel, k);
    case Cons(s, tail) =>
      var first := Gen(s, scope, num, loop);
      var rest := GenAll(tail, After(s, scope), num + Count(s), loop);
      CodeAtSplit(p, 8 * n, at, first, rest);
      k := StmtCorrect(s, scope, num, loop, vars, fuel, f, p, n, at, m, start, k0);
      var r := Exec(s, scope, loop.InLoop?, vars, fuel);
      var x := ExitsOf(p, loop, at + |first|);
      if r.Done? && r.flow == Normal {
        EndsSteps(f, start, r, x, n, m, k0 + fuel, k);
        OnSteps(f, start, k, at + |first|, r.vars, n, m);
        AfterLength(s, scope);
        var k1 := k;
        k := ListCorrect(tail, After(s, scope), num + Count(s), loop, r.vars, fuel, f, p, n, at + |first|, m, start, k1);
        LowerLeast(f, start, ExecAll(tail, After(s, scope), loop.InLoop?, r.vars, fuel),
                   ExitsOf(p, loop, at + |first| + |rest|), n, m, k1 + fuel, k0 + fuel, k);
      } else {
        ThenEnds(f, start, r, x, ExitsOf(p, loop, at + |first| + |rest|), n, m, k0 + fuel, k);
      }
  }

  lemma {:induction false} BlockCorrect(ss: Stmts, scope: seq<string>, num: nat, loop: Target, vars: Locals, fuel: nat,
                            f: Config -> Config, p: seq<Instr>, n: nat, at: nat, m: Cpu, start: Config, k0: nat) returns (k: nat)
    requires Context(f, p, loop) && On(f, start, k0, at, vars, n, m)
    requires Legal(Block(ss), scope, loop.InLoop?) && Room(Block(ss), scope, n, m) && CodeAt(p, 8 * n, at, Gen(Block(ss), scope, num, loop))
    ensures k >= k0
    ensures Ends(f, start, Exec(Block(ss), scope, loop.InLoop?, vars, fuel), ExitsOf(p, loop, at + |Gen(Block(ss), scope, num, loop)|), n, m, k0 + fuel, k)
    decreases ss, 5
  {
    hide On, Ends, Runs, CodeAt, Linked, Placed, ExitsOf, Leave;
    k := ListCorrect(ss, scope, num, loop, vars, fuel, f, p, n, at, m, start, k0);
    LeaveEnds(f, start, ExecAll(ss, scope, loop.InLoop?, vars, fuel), scope, ExitsOf(p, loop, at + |GenAll(ss, scope, num, loop)|), n, m, k0 + fuel, k);
  }

  /** The emitted code simulates the meaning of every statement, for every fuel: it stops where
      and as the meaning stops, faults when a division does, and has taken at least fuel steps
      when the meaning is not finished. */
  lemma {:induction false} StmtCorrect(s: Stmt, scope: seq<string>, num: nat, loop: Target, vars: Locals, fuel: nat,
                                       f: Config -> Config, p: seq<Instr>, n: nat, at: nat, m: Cpu, start: Config, k0: nat) returns (k: nat)
    requires Context(f, p, loop) && On(f, start, k0, at, vars, n, m)
    requires Legal(s, scope, loop.InLoop?) && Room(s, scope, n, m) && CodeAt(p, 8 * n, at, Gen(s, scope, num, loop))
    ensures k >= k0
    ensures Ends(f, start, Exec(s, scope, loop.InLoop?, vars, fuel), ExitsOf(p, loop, at + |Gen(s, scope, num, loop)|), n, m, k0 + fuel, k)
    decreases s, 3
  {
    hide On, Ends, Runs, CodeAt, Linked, Placed, Room, ExitsOf;
    match s
    case Block(ss) => k := BlockCorrect(ss, scope, num, loop, vars, fuel, f, p, n, at, m, start, k0);
    case Decl(ds) => k := DeclCorrect(ds, scope, num, loop, vars, fuel, f, p, n, at, m, start, k0);
    case If(e, t) => k := IfCorrect(e, t, scope, num, loop, vars, fuel, f, p, n, at, m, start, k0);
    case IfElse(e, t, u) => k := IfElseCorrect(e, t, u, scope, num, loop, vars, fuel, f, p, n, at, m, start, k0);
    case While(e, b) => k := WhileCorrect(e, b, scope, num, loop, vars, fuel, f, p, n, at, m, start, k0);
    case DoWhile(b, e) => k := DoCorrect(b, e, scope, num, loop, vars, fuel, f, p, n, at, m, start, k0);
    case For(init, e, st, b) => k := ForCorrect(init, e, st, b, scope, num, loop, vars, fuel, f, p, n, at, m, start, k0);
    case Return(v) => k := ReturnCorrect(v, scope, num, loop, vars, fuel, f, p, n, at, m, start, k0);
    case ExprStmt(e) => k := ExprStmtCorrect(e, scope, num, loop, vars, fuel, f, p, n, at, m, start, k0);
    case _ => k := JumpCorrect(s, scope, num, loop, vars, fuel, f, p, n, at, m, start, k0);
  }
}
