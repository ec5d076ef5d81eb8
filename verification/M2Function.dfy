/** A whole function without parameters: the frame set-up that is emitted empty and filled in
    afterwards, the body, and the return that is added when the body does not end in one. */
module M2Function {
  import opened Word64
  import opened Wrappers
  import opened Amd64
  import opened M2Grammar
  import opened M2Expr
  import opened M2Stmt
  import opened M2Labels
  import opened M2Correct

  /** The comment, the FUNCTION_ label (nothing in the function jumps to it) and the two text
      buffers of the frame. */
  const PROLOGUE: seq<Instr> := [Remark, Remark, SaveFrame, ReserveFrame]

  predicate EndsInReturn(code: seq<Instr>) {
    code != [] && code[|code| - 1] == Ret
  }

  function Epilogue(body: seq<Instr>, isMain: bool): seq<Instr> {
    if EndsInReturn(body) then []
    else (if isMain then [XorEaxEax] else []) + [RestoreFrame, Ret]
  }

  function FunctionCode(s: Stmt, isMain: bool): seq<Instr>
    requires Legal(s, [], false)
  {
    var body := Gen(s, [], 0, NoLoop);
    PROLOGUE + (body + Epilogue(body, isMain))
  }

  /** The emitted text once locals_depth is known. */
  function Program(s: Stmt, isMain: bool): seq<Instr>
    requires Legal(s, [], false)
  {
    FillAll(FunctionCode(s, isMain), 8 * Slots(s))
  }

  // ---- labels -----------------------------------------------------------------------------

  lemma ProgramUnique(s: Stmt, isMain: bool)
    requires Legal(s, [], false)
    ensures Unique(Program(s, isMain))
  {
    hide Gen, Legal, Slots;
    var body := Gen(s, [], 0, NoLoop);
    GenLabelled(s, [], 0, NoLoop);
    var code := FunctionCode(s, isMain);
    var p := Program(s, isMain);
    forall k | 0 <= k < |p| && p[k].LabelDef?
      ensures 4 <= k < 4 + |body| && p[k] == body[k - 4]
    {
      assert p[k] == Fill(code[k], 8 * Slots(s));
    }
  }

  /** Every jump of the function has its label in it, and the label that a name leads to is the one
      place that defines it. */
  lemma ProgramLinked(s: Stmt, isMain: bool)
    requires Legal(s, [], false)
    ensures JumpsWithin(Program(s, isMain), Defined(Program(s, isMain)))
    ensures Linked(Program(s, isMain))
  {
    hide Gen, Legal, Slots;
    var body := Gen(s, [], 0, NoLoop);
    GenJumps(s, [], 0, NoLoop, Defined(body));
    FilledJumps(FunctionCode(s, isMain), body, Epilogue(body, isMain), 8 * Slots(s));
    ProgramUnique(s, isMain);
    UniqueFound(Program(s, isMain), |Program(s, isMain)|);
  }

  lemma FilledJumps(code: seq<Instr>, body: seq<Instr>, end: seq<Instr>, frame: nat)
    requires code == PROLOGUE + (body + end) && JumpsWithin(body, Defined(body))
    requires forall k :: 0 <= k < |end| ==> !IsJump(end[k])
    ensures JumpsWithin(FillAll(code, frame), Defined(FillAll(code, frame)))
  {
    var p := FillAll(code, frame);
    forall k | 0 <= k < |p| && IsJump(p[k])
      ensures p[k].target in Defined(p)
    {
      assert p[k] == Fill(code[k], frame) == code[k];
      assert 4 <= k < 4 + |body| && code[k] == body[k - 4];
      var j :| 0 <= j < |body| && body[j].LabelDef? && body[j].name == p[k].target;
      assert p[4 + j] == Fill(code[4 + j], frame) == body[j];
    }
  }

  // ---- a body that ends in a return does not reach its end -------------------------------------

  lemma StraightEnd(code: seq<Instr>)
    requires AllStraight(code)
    ensures !EndsInReturn(code)
  {
  }

  lemma {:induction false} NeverFallsOff(s: Stmt, scope: seq<string>, n: nat, loop: Target, vars: Locals, fuel: nat)
    requires Legal(s, scope, loop.InLoop?) && EndsInReturn(Gen(s, scope, n, loop))
    ensures var r := Exec(s, scope, loop.InLoop?, vars, fuel); !(r.Done? && r.flow == Normal)
    decreases s, 0
  {
    match s
    case Block(ss) => NeverFallsOffList(ss, scope, n, loop, vars, fuel);
    case Decl(ds) =>
      DeclsStraight(ds, scope);
      StraightEnd(GenDecls(ds, scope));
    case ExprStmt(e) =>
      CodeStraight(e, scope);
      StraightEnd(Code(e, scope));
    case _ =>
  }

  lemma {:induction false} NeverFallsOffList(ss: Stmts, scope: seq<string>, n: nat, loop: Target, vars: Locals, fuel: nat)
    requires LegalAll(ss, scope, loop.InLoop?) && EndsInReturn(GenAll(ss, scope, n, loop))
    ensures var r := ExecAll(ss, scope, loop.InLoop?, vars, fuel); !(r.Done? && r.flow == Normal)
    decreases ss, 0
  {
    hide Gen, Exec, Legal;
    var s, tail := ss.head, ss.tail;
    var rest := GenAll(tail, After(s, scope), n + Count(s), loop);
    var r := Exec(s, scope, loop.InLoop?, vars, fuel);
    if rest == [] {
      assert Gen(s, scope, n, loop) + rest == Gen(s, scope, n, loop);
      NeverFallsOff(s, scope, n, loop, vars, fuel);
    } else if r.Done? && r.flow == Normal {
      NeverFallsOffList(tail, After(s, scope), n + Count(s), loop, r.vars, fuel);
    }
  }

  // ---- live locals --------------------------------------------------------------------------

  function DeclScopes(ds: Decls, scope: seq<string>): set<seq<string>> {
    match ds
    case NoMore => {scope}
    case Declare(name, _, _, more) => {scope + [name]} + DeclScopes(more, scope + [name])
  }

  /** Every list of locals that is in scope somewhere in a statement. */
  function Scopes(s: Stmt, scope: seq<string>): set<seq<string>> {
    {scope, After(s, scope)} +
    match s
    case Block(ss) => ScopesAll(ss, scope)
    case Decl(ds) => DeclScopes(ds, scope)
    case If(_, t) => Scopes(t, scope)
    case IfElse(_, t, e) => Scopes(t, scope) + Scopes(e, After(t, scope))
    case While(_, b) => Scopes(b, scope)
    case DoWhile(b, _) => Scopes(b, scope)
    case For(init, _, _, b) => (if init.InitDecl? then DeclScopes(init.ds, scope) else {}) + Scopes(b, InitScope(init, scope))
    case _ => {}
  }

  function ScopesAll(ss: Stmts, scope: seq<string>): set<seq<string>> {
    match ss
    case Nil => {scope}
    case Cons(s, tail) => Scopes(s, scope) + ScopesAll(tail, After(s, scope))
  }

  lemma {:induction false} DeclScopesFit(ds: Decls, scope: seq<string>, sc: seq<string>)
    requires sc in DeclScopes(ds, scope)
    ensures |sc| <= |scope| + DeclCount(ds)
    decreases ds
  {
    match ds
    case NoMore =>
    case Declare(name, _, _, more) => if sc != scope + [name] { DeclScopesFit(more, scope + [name], sc); }
  }

  lemma {:induction false} ScopesFit(s: Stmt, scope: seq<string>, sc: seq<string>)
    requires sc in Scopes(s, scope)
    ensures |sc| <= |scope| + Slots(s)
    decreases s, 0
  {
    AfterLength(s, scope);
    if sc != scope && sc != After(s, scope) {
      match s
      case Block(ss) => ScopesAllFit(ss, scope, sc);
      case Decl(ds) => DeclScopesFit(ds, scope, sc);
      case If(_, t) => ScopesFit(t, scope, sc);
      case IfElse(_, t, e) =>
        AfterLength(t, scope);
        if sc in Scopes(t, scope) { ScopesFit(t, scope, sc); } else { ScopesFit(e, After(t, scope), sc); }
      case While(_, b) => ScopesFit(b, scope, sc);
      case DoWhile(b, _) => ScopesFit(b, scope, sc);
      case For(init, _, _, b) =>
        InitScopeLength(init, scope);
        if sc in Scopes(b, InitScope(init, scope)) { ScopesFit(b, InitScope(init, scope), sc); } else { DeclScopesFit(init.ds, scope, sc); }
      case _ =>
    }
  }

  lemma {:induction false} ScopesAllFit(ss: Stmts, scope: seq<string>, sc: seq<string>)
    requires sc in ScopesAll(ss, scope)
    ensures |sc| <= |scope| + SlotsAll(ss)
    decreases ss, 0
  {
    match ss
    case Nil =>
    case Cons(s, tail) =>
      AfterLength(s, scope);
      if sc in Scopes(s, scope) { ScopesFit(s, scope, sc); } else { ScopesAllFit(tail, After(s, scope), sc); }
  }

  /** Wherever two locals are both in scope, however blocks and for-declarations nest, their words
      do not overlap; all lie in the frame of locals_depth bytes below the locals pointer and so
      above the stack pointer that Entered leaves. */
  lemma LiveLocalsDisjoint(s: Stmt, sc: seq<string>, i: nat, j: nat, m: Cpu)
    requires sc in Scopes(s, []) && i < |sc| && j < |sc| && i != j
    requires 8 * Slots(s) <= m.rsp
    ensures var m1 := Entered(m, Slots(s));
      && (Slot(m1, i) + 8 <= Slot(m1, j) || Slot(m1, j) + 8 <= Slot(m1, i))
      && m1.rsp <= Slot(m1, i) && Slot(m1, i) + 8 <= m.rsp
  {
    ScopesFit(s, [], sc);
    SlotsDisjoint(Entered(m, Slots(s)), i, j, Slots(s));
  }

  // ---- running it -------------------------------------------------------------------------

  /** The processor as the body starts: the locals pointer set and the frame below it. */
  function Entered(m: Cpu, n: nat): Cpu
    requires 8 * n <= m.rsp
  {
    if n == 0 then m else m.(r13 := m.rsp, rsp := m.rsp - 8 * n, flags := Unknown)
  }

  lemma PrologueOn(f: Config -> Config, p: seq<Instr>, n: nat, m: Cpu)
    requires Runs(f, p) && CodeAt(p, 8 * n, 0, PROLOGUE) && 8 * n <= m.rsp && 8 * n <= 0x8000_0000
    ensures On(f, At(0, m), 4, 4, map[], n, Entered(m, n))
  {
    var m1 := Entered(m, n);
    LeadsSkip(f, p, 0) by { InstrAt(p, 8 * n, 0, PROLOGUE, 0); }
    LeadsSkip(f, p, 1) by { InstrAt(p, 8 * n, 0, PROLOGUE, 1); }
    LeadsOn(f, 0, 1, 1, 1, 2);
    assert Steps(f, At(0, m), 2) == At(2, m);
    InstrAt(p, 8 * n, 0, PROLOGUE, 2);
    InstrAt(p, 8 * n, 0, PROLOGUE, 3);
    var m0 := if n == 0 then m else m.(r13 := m.rsp);
    assert Step(p, At(2, m)) == At(3, m0);
    assert Step(p, At(3, m0)) == At(4, m1);
    assert Steps(f, At(2, m), 2) == Steps(f, At(3, m0), 1) == Steps(f, At(4, m1), 0);
    StepsAdd(f, At(0, m), 2, 2);
    OnSteps(f, At(0, m), 4, 4, map[], n, m1);
  }

  /** What a function called with processor state m does when its body means r. */
  ghost predicate Answers(c: Config, r: Result, isMain: bool, m: Cpu, enough: bool) {
    match r
    case Done(flow, _) =>
      && c.Halted? && c.cpu.rsp == m.rsp
      && (flow == Normal || flow.Returns?)
      && (flow.Returns? && flow.v.Some? ==> c.cpu.rax == W(flow.v.value))
      && (flow == Normal && isMain ==> c.cpu.rax == 0)
      && forall a :: a in m.mem && a >= m.rsp ==> a in c.cpu.mem && c.cpu.mem[a] == m.mem[a]
    case Trapped => c == Fault
    case Undef => true
    case NoFuel => c.At? && enough
  }

  lemma EpilogueOn(f: Config -> Config, p: seq<Instr>, n: nat, at: nat, isMain: bool, m: Cpu, start: Config, k: nat, vars: Locals)
    returns (k': nat)
    requires 8 * n <= m.rsp && Runs(f, p) && On(f, start, k, at, vars, n, Entered(m, n))
    requires CodeAt(p, 8 * n, at, (if isMain then [XorEaxEax] else []) + [RestoreFrame, Ret])
    ensures k' >= k && Answers(Steps(f, start, k'), Done(Normal, vars), isMain, m, true)
  {
    var zero := if isMain then [XorEaxEax] else [];
    OnSteps(f, start, k, at, vars, n, Entered(m, n));
    CodeAtSplit(p, 8 * n, at, zero, [RestoreFrame, Ret]);
    k' := k;
    if isMain {
      var c := Steps(f, start, k);
      InstrAt(p, 8 * n, at, zero, 0);
      var m1 := c.cpu.(rax := 0, flags := Unknown);
      assert Step(p, c) == At(at + 1, m1);
      assert Steps(f, c, 1) == Steps(f, At(at + 1, m1), 0);
      StepsAdd(f, start, k, 1);
      k' := k + 1;
    }
    ReturnOn(f, p, n, at + |zero|, start, k');
    k' := k' + 2;
  }

  lemma ProgramParts(s: Stmt, isMain: bool)
    requires Legal(s, [], false)
    ensures var p := Program(s, isMain); var body := Gen(s, [], 0, NoLoop);
      && CodeAt(p, 8 * Slots(s), 0, PROLOGUE) && CodeAt(p, 8 * Slots(s), 4, body)
      && CodeAt(p, 8 * Slots(s), 4 + |body|, Epilogue(body, isMain))
  {
    hide Gen, Legal, Slots, Epilogue;
    var frame := 8 * Slots(s);
    var p := Program(s, isMain);
    var body := Gen(s, [], 0, NoLoop);
    CodeAtFilled(p, frame, 0, FunctionCode(s, isMain));
    CodeAtSplit(p, frame, 0, PROLOGUE, body + Epilogue(body, isMain));
    CodeAtSplit(p, frame, 4, body, Epilogue(body, isMain));
  }

  /** Calling a compiled function returns exactly when and what its body returns, with the stack
      pointer and the caller's memory as they were; main returns 0 when it falls off its end. It
      faults when the body divides by zero or overflows a division, and while the body needs more
      loop rounds than fuel the machine is still running after fuel steps. */
  lemma FunctionCorrect(s: Stmt, isMain: bool, fuel: nat, f: Config -> Config, m: Cpu) returns (k: nat)
    requires Legal(s, [], false) && Runs(f, Program(s, isMain))
    requires 8 * Slots(s) <= 0x8000_0000 && 8 * Slots(s) + 8 * NeedStmt(s) <= m.rsp
    ensures Answers(Steps(f, At(0, m), k), Exec(s, [], false, map[], fuel), isMain, m, k >= fuel)
  {
    hide Gen, Legal, Slots, NeedStmt, Exec, Program, CodeAt, Linked, Runs, On, Ends;
    var n := Slots(s);
    var p := Program(s, isMain);
    var body := Gen(s, [], 0, NoLoop);
    var m1 := Entered(m, n);
    ProgramParts(s, isMain);
    ProgramLinked(s, isMain);
    PrologueOn(f, p, n, m);
    k := StmtCorrect(s, [], 0, NoLoop, map[], fuel, f, p, n, 4, m1, At(0, m), 4);
    var r := Exec(s, [], false, map[], fuel);
    var x := ExitsOf(p, NoLoop, 4 + |body|);
    EndsSteps(f, At(0, m), r, x, n, m1, 4 + fuel, k);
    if r.Done? && r.flow == Normal {
      if EndsInReturn(body) {
        NeverFallsOff(s, [], 0, NoLoop, map[], fuel);
      } else {
        OnSteps(f, At(0, m), k, 4 + |body|, r.vars, n, m1);
        k := EpilogueOn(f, p, n, 4 + |body|, isMain, m, At(0, m), k, r.vars);
      }
    }
  }
}
