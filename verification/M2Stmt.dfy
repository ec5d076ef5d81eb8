/** Statements of the integer subset: the parse of M2-Planet's statement rules, the labels and
    jumps emitted for them, and their structured meaning. */
module M2Stmt {
  import opened Word64
  import opened Wrappers
  import opened Amd64
  import opened M2Grammar
  import opened M2Expr

  /** comma says that a comma stands behind the declarator, which makes no difference. */
  datatype Decls = NoMore | Declare(name: string, init: Option<Expr>, comma: bool, more: Decls)

  datatype ForInit = NoInit | InitExpr(e: Expr) | InitDecl(ds: Decls)

  datatype Stmt =
    | Block(body: Stmts)
    | Decl(ds: Decls)
    | If(cond: Expr, thn: Stmt)
    | IfElse(cond: Expr, thn: Stmt, els: Stmt)
    | While(cond: Expr, loop: Stmt)
    | DoWhile(loop: Stmt, cond: Expr)
    | For(init: ForInit, cond: Expr, step: Expr, loop: Stmt)
    | Return(val: Option<Expr>)
    | Break
    | Continue
    | ExprStmt(e: Expr)

  datatype Stmts = Nil | Cons(head: Stmt, tail: Stmts)

  // ---- scopes ---------------------------------------------------------------------------

  function DeclScope(ds: Decls, scope: seq<string>): seq<string> {
    match ds
    case NoMore => scope
    case Declare(name, _, _, more) => DeclScope(more, scope + [name])
  }

  function InitScope(init: ForInit, scope: seq<string>): seq<string> {
    if init.InitDecl? then DeclScope(init.ds, scope) else scope
  }

  /** The list of locals after a statement: only a block takes its declarations away again, so
      one made by a for stays until the enclosing block ends. */
  function After(s: Stmt, scope: seq<string>): seq<string> {
    match s
    case Decl(ds) => DeclScope(ds, scope)
    case If(_, t) => After(t, scope)
    case IfElse(_, t, e) => After(e, After(t, scope))
    case While(_, b) => After(b, scope)
    case DoWhile(b, _) => After(b, scope)
    case For(init, _, _, b) => After(b, InitScope(init, scope))
    case _ => scope
  }

  function AfterAll(ss: Stmts, scope: seq<string>): seq<string> {
    match ss
    case Nil => scope
    case Cons(s, tail) => AfterAll(tail, After(s, scope))
  }

  predicate ResolvedDecls(ds: Decls, scope: seq<string>) {
    match ds
    case NoMore => true
    case Declare(name, init, _, more) =>
      (init.Some? ==> Resolved(init.value, scope + [name])) && ResolvedDecls(more, scope + [name])
  }

  predicate ResolvedInit(init: ForInit, scope: seq<string>) {
    match init
    case NoInit => true
    case InitExpr(e) => Resolved(e, scope)
    case InitDecl(ds) => ResolvedDecls(ds, scope)
  }

  /** Every name is in scope where it is used, and break and continue are in a loop. */
  predicate Legal(s: Stmt, scope: seq<string>, inLoop: bool) {
    match s
    case Block(ss) => LegalAll(ss, scope, inLoop)
    case Decl(ds) => ResolvedDecls(ds, scope)
    case If(c, t) => Resolved(c, scope) && Legal(t, scope, inLoop)
    case IfElse(c, t, e) => Resolved(c, scope) && Legal(t, scope, inLoop) && Legal(e, After(t, scope), inLoop)
    case While(c, b) => Resolved(c, scope) && Legal(b, scope, true)
    case DoWhile(b, c) => Legal(b, scope, true) && Resolved(c, After(b, scope))
    case For(init, c, st, b) =>
      var scope1 := InitScope(init, scope);
      ResolvedInit(init, scope) && Resolved(c, scope1) && Resolved(st, scope1) && Legal(b, scope1, true)
    case Return(v) => v.Some? ==> Resolved(v.value, scope)
    case Break => inLoop
    case Continue => inLoop
    case ExprStmt(e) => Resolved(e, scope)
  }

  predicate LegalAll(ss: Stmts, scope: seq<string>, inLoop: bool) {
    match ss
    case Nil => true
    case Cons(s, tail) => Legal(s, scope, inLoop) && LegalAll(tail, After(s, scope), inLoop)
  }

  // ---- parsing --------------------------------------------------------------------------

  datatype ParsedDecls = DFail | DGot(ds: Decls, rest: seq<Token>)
  datatype ParsedInit = IFail | IGot(init: ForInit, rest: seq<Token>)
  datatype ParsedStmt = SFail | SGot(s: Stmt, rest: seq<Token>)
  datatype ParsedList = LFail | LGot(ss: Stmts, rest: seq<Token>)

  /** The next token exists and is t. */
  predicate At(ts: seq<Token>, t: Token) {
    ts != [] && ts[0] == t
  }

  /** After "int": one declarator or more. The comma between two is not insisted on. */
  function ParseDecls(t: seq<Token>, scope: seq<string>): (p: ParsedDecls)
    ensures p.DGot? ==> |p.rest| < |t|
    ensures p.DGot? ==> ResolvedDecls(p.ds, scope)
    decreases |t|, 0
  {
    if |t| < 2 || !t[0].Name? then DFail
    else
      var scope1 := scope + [t[0].s];
      if t[1] == Assign then
        var p := ParseExpr(t[2..], scope1);
        if p.Got? then MoreDecls(t[0].s, Some(p.e), p.rest, scope1) else DFail
      else MoreDecls(t[0].s, None, t[1..], scope1)
  }

  function MoreDecls(name: string, init: Option<Expr>, t: seq<Token>, scope: seq<string>): (p: ParsedDecls)
    ensures p.DGot? ==> |p.rest| < |t|
    ensures p.DGot? ==> p.ds.Declare? && p.ds.name == name && p.ds.init == init && ResolvedDecls(p.ds.more, scope)
    decreases |t|, 1
  {
    if t == [] then DFail
    else
      var comma := t[0] == Comma;
      var t1 := if comma then t[1..] else t;
      if t1 == [] then DFail
      else if t1[0] == Semi then DGot(Declare(name, init, comma, NoMore), t1[1..])
      else
        var p := ParseDecls(t1, scope);
        if p.DGot? then DGot(Declare(name, init, comma, p.ds), p.rest) else DFail
  }

  function ParseInit(t: seq<Token>, scope: seq<string>): (p: ParsedInit)
    ensures p.IGot? ==> |p.rest| < |t|
    ensures p.IGot? ==> ResolvedInit(p.init, scope)
  {
    if At(t, KwInt) then
      var p := ParseDecls(t[1..], scope);
      if p.DGot? then IGot(InitDecl(p.ds), p.rest) else IFail
    else if At(t, Semi) then IGot(NoInit, t[1..])
    else
      var p := ParseExpr(t, scope);
      if p.Got? && p.rest[0] == Semi then IGot(InitExpr(p.e), p.rest[1..]) else IFail
  }

  /** A parenthesised condition; what follows the closing parenthesis. */
  function ParseCond(t: seq<Token>, scope: seq<string>): (p: Parsed)
    ensures p.Got? ==> |p.rest| < |t|
    ensures p.Got? ==> Resolved(p.e, scope)
  {
    if !At(t, LParen) then Fail
    else
      var p := ParseExpr(t[1..], scope);
      if p.Got? && p.rest[0] == RParen then Got(p.e, p.rest[1..]) else Fail
  }

  function ParseStmt(t: seq<Token>, scope: seq<string>, inLoop: bool): (p: ParsedStmt)
    ensures p.SGot? ==> |p.rest| < |t|
    ensures p.SGot? ==> Legal(p.s, scope, inLoop)
    decreases |t|, 1
  {
    if t == [] || (|t| > 1 && t[1] == Colon) then SFail
    else
      match t[0]
      case LBrace =>
        if |t| == 1 then SFail
        else
          var p := ParseList(t[1..], scope, inLoop);
          if p.LGot? then SGot(Block(p.ss), p.rest) else SFail
      case KwInt =>
        var p := ParseDecls(t[1..], scope);
        if p.DGot? then SGot(Decl(p.ds), p.rest) else SFail
      case KwIf => ParseIf(t, scope, inLoop)
      case KwWhile =>
        var c := ParseCond(t[1..], scope);
        if c.Fail? then SFail
        else
          var b := ParseStmt(c.rest, scope, true);
          if b.SGot? && b.rest != [] then SGot(While(c.e, b.s), b.rest) else SFail
      case KwDo => ParseDo(t, scope)
      case KwFor => ParseFor(t, scope)
      case KwReturn =>
        if At(t[1..], Semi) then SGot(Return(None), t[2..])
        else
          var p := ParseExpr(t[1..], scope);
          if p.Got? && p.rest[0] == Semi then SGot(Return(Some(p.e)), p.rest[1..]) else SFail
      case KwBreak => if inLoop && At(t[1..], Semi) then SGot(Break, t[2..]) else SFail
      case KwContinue => if inLoop && At(t[1..], Semi) then SGot(Continue, t[2..]) else SFail
      case _ =>
        var p := ParseExpr(t, scope);
        if p.Got? && p.rest[0] == Semi then SGot(ExprStmt(p.e), p.rest[1..]) else SFail
  }

  function ParseIf(t: seq<Token>, scope: seq<string>, inLoop: bool): (p: ParsedStmt)
    requires At(t, KwIf)
    ensures p.SGot? ==> |p.rest| < |t|
    ensures p.SGot? ==> Legal(p.s, scope, inLoop)
    decreases |t|, 0
  {
    var c := ParseCond(t[1..], scope);
    if c.Fail? then SFail
    else
      var a := ParseStmt(c.rest, scope, inLoop);
      if a.SFail? || a.rest == [] then SFail
      else if a.rest[0] == KwElse then
        var b := ParseStmt(a.rest[1..], After(a.s, scope), inLoop);
        if b.SGot? && b.rest != [] then SGot(IfElse(c.e, a.s, b.s), b.rest) else SFail
      else SGot(If(c.e, a.s), a.rest)
  }

  function ParseDo(t: seq<Token>, scope: seq<string>): (p: ParsedStmt)
    requires At(t, KwDo)
    ensures p.SGot? ==> |p.rest| < |t|
    ensures p.SGot? ==> Legal(p.s, scope, true) && Legal(p.s, scope, false)
    decreases |t|, 0
  {
    var b := ParseStmt(t[1..], scope, true);
    if b.SFail? || !At(b.rest, KwWhile) then SFail
    else
      var c := ParseCond(b.rest[1..], After(b.s, scope));
      if c.Got? && At(c.rest, Semi) then SGot(DoWhile(b.s, c.e), c.rest[1..]) else SFail
  }

  function ParseFor(t: seq<Token>, scope: seq<string>): (p: ParsedStmt)
    requires At(t, KwFor)
    ensures p.SGot? ==> |p.rest| < |t|
    ensures p.SGot? ==> Legal(p.s, scope, true) && Legal(p.s, scope, false)
    decreases |t|, 0
  {
    if !At(t[1..], LParen) then SFail
    else
      var i := ParseInit(t[2..], scope);
      if i.IFail? then SFail
      else
        var scope1 := InitScope(i.init, scope);
        var c := ParseExpr(i.rest, scope1);
        if c.Fail? || c.rest[0] != Semi then SFail
        else
          var st := ParseExpr(c.rest[1..], scope1);
          if st.Fail? || st.rest[0] != RParen then SFail
          else
            var b := ParseStmt(st.rest[1..], scope1, true);
            if b.SGot? && b.rest != [] then SGot(For(i.init, c.e, st.e, b.s), b.rest) else SFail
  }

  function ParseList(t: seq<Token>, scope: seq<string>, inLoop: bool): (p: ParsedList)
    ensures p.LGot? ==> |p.rest| < |t|
    ensures p.LGot? ==> LegalAll(p.ss, scope, inLoop)
    decreases |t|, 2
  {
    if t == [] then LFail
    else if t[0] == RBrace then LGot(Nil, t[1..])
    else
      var p := ParseStmt(t, scope, inLoop);
      if p.SFail? then LFail
      else
        var q := ParseList(p.rest, After(p.s, scope), inLoop);
        if q.LGot? then LGot(Cons(p.s, q.ss), q.rest) else LFail
  }

  // ---- static facts -----------------------------------------------------------------------

  function DeclCount(ds: Decls): nat {
    match ds
    case NoMore => 0
    case Declare(_, _, _, more) => 1 + DeclCount(more)
  }

  function InitCount(init: ForInit): nat {
    if init.InitDecl? then DeclCount(init.ds) else 0
  }

  /** The number of locals declared anywhere in a statement: each reserves a word of the frame. */
  function Slots(s: Stmt): nat {
    match s
    case Block(ss) => SlotsAll(ss)
    case Decl(ds) => DeclCount(ds)
    case If(_, t) => Slots(t)
    case IfElse(_, t, e) => Slots(t) + Slots(e)
    case While(_, b) => Slots(b)
    case DoWhile(b, _) => Slots(b)
    case For(init, _, _, b) => InitCount(init) + Slots(b)
    case _ => 0
  }

  function SlotsAll(ss: Stmts): nat {
    match ss
    case Nil => 0
    case Cons(s, tail) => Slots(s) + SlotsAll(tail)
  }

  function Max(a: nat, b: nat): nat {
    if a > b then a else b
  }

  function NeedDecls(ds: Decls): nat {
    match ds
    case NoMore => 0
    case Declare(_, init, _, more) => Max(if init.Some? then Need(init.value) else 0, NeedDecls(more))
  }

  function NeedInit(init: ForInit): nat {
    match init
    case NoInit => 0
    case InitExpr(e) => Need(e)
    case InitDecl(ds) => NeedDecls(ds)
  }

  /** The number of stack words the expressions of a statement push at most. */
  function NeedStmt(s: Stmt): nat {
    match s
    case Block(ss) => NeedAll(ss)
    case Decl(ds) => NeedDecls(ds)
    case If(c, t) => Max(Need(c), NeedStmt(t))
    case IfElse(c, t, e) => Max(Need(c), Max(NeedStmt(t), NeedStmt(e)))
    case While(c, b) => Max(Need(c), NeedStmt(b))
    case DoWhile(b, c) => Max(Need(c), NeedStmt(b))
    case For(init, c, st, b) => Max(NeedInit(init), Max(Need(c), Max(Need(st), NeedStmt(b))))
    case Return(v) => if v.Some? then Need(v.value) else 0
    case ExprStmt(e) => Need(e)
    case _ => 0
  }

  function NeedAll(ss: Stmts): nat {
    match ss
    case Nil => 0
    case Cons(s, tail) => Max(NeedStmt(s), NeedAll(tail))
  }

  /** The number of label numbers a statement uses up. */
  function Count(s: Stmt): nat {
    match s
    case Block(ss) => CountAll(ss)
    case If(_, t) => 1 + Count(t)
    case IfElse(_, t, e) => 1 + Count(t) + Count(e)
    case While(_, b) => 1 + Count(b)
    case DoWhile(b, _) => 1 + Count(b)
    case For(_, _, _, b) => 1 + Count(b)
    case _ => 0
  }

  function CountAll(ss: Stmts): nat {
    match ss
    case Nil => 0
    case Cons(s, tail) => Count(s) + CountAll(tail)
  }

  lemma {:induction false} DeclScopeLength(ds: Decls, scope: seq<string>)
    ensures |DeclScope(ds, scope)| == |scope| + DeclCount(ds)
    ensures scope <= DeclScope(ds, scope)
    decreases ds
  {
    if ds.Declare? {
      DeclScopeLength(ds.more, scope + [ds.name]);
    }
  }

  lemma InitScopeLength(init: ForInit, scope: seq<string>)
    ensures |InitScope(init, scope)| == |scope| + InitCount(init)
  {
    if init.InitDecl? {
      DeclScopeLength(init.ds, scope);
    }
  }

  /** A statement only adds locals, and no more than it declares. */
  lemma {:induction false} AfterLength(s: Stmt, scope: seq<string>)
    ensures |scope| <= |After(s, scope)| <= |scope| + Slots(s) && scope <= After(s, scope)
    decreases s
  {
    match s
    case Decl(ds) => DeclScopeLength(ds, scope);
    case If(_, t) => AfterLength(t, scope);
    case IfElse(_, t, e) => AfterLength(t, scope); AfterLength(e, After(t, scope));
    case While(_, b) => AfterLength(b, scope);
    case DoWhile(b, _) => AfterLength(b, scope);
    case For(init, _, _, b) =>
      if init.InitDecl? { DeclScopeLength(init.ds, scope); }
      AfterLength(b, InitScope(init, scope));
    case _ =>
  }

  // ---- code -----------------------------------------------------------------------------

  /** Where break and continue lead: break_target_head, continue_target_head, break_target_num. */
  datatype Target = NoLoop | InLoop(brk: LabelKind, cont: LabelKind, num: nat)

  function GenDecls(ds: Decls, scope: seq<string>): seq<Instr>
    requires ResolvedDecls(ds, scope)
    decreases ds
  {
    match ds
    case NoMore => []
    case Declare(name, init, _, more) =>
      var store := if init.Some? then Code(init.value, scope + [name]) + [LeaRbx(Depth(|scope|)), StoreRax] else [];
      [Remark] + (store + GenDecls(more, scope + [name]))
  }

  function GenInit(init: ForInit, scope: seq<string>): seq<Instr>
    requires ResolvedInit(init, scope)
  {
    match init
    case NoInit => []
    case InitExpr(e) => Code(e, scope)
    case InitDecl(ds) => GenDecls(ds, scope)
  }

  function Branch(c: Expr, scope: seq<string>, jump: Instr): seq<Instr>
    requires Resolved(c, scope)
  {
    Code(c, scope) + [TestRaxRax, jump]
  }

  // The shapes of the compound statements numbered n, around the code of their parts.

  function IfCode(n: nat, test: seq<Instr>, thn: seq<Instr>): seq<Instr> {
    [Remark] + (test + (thn + [LabelDef(Label(Else, n)), LabelDef(Label(EndIf, n))]))
  }

  function IfElseCode(n: nat, test: seq<Instr>, thn: seq<Instr>, els: seq<Instr>): seq<Instr> {
    [Remark] + (test + (thn + ([Jmp(Label(EndIf, n)), LabelDef(Label(Else, n))] + (els + [LabelDef(Label(EndIf, n))]))))
  }

  function WhileCode(n: nat, test: seq<Instr>, body: seq<Instr>): seq<Instr> {
    [LabelDef(Label(WhileTop, n))] + (test + ([Remark] + (body + [Jmp(Label(WhileTop, n)), LabelDef(Label(EndWhile, n))])))
  }

  function DoCode(n: nat, body: seq<Instr>, test: seq<Instr>): seq<Instr> {
    [LabelDef(Label(DoTop, n))] + (body + ([LabelDef(Label(DoTest, n))] + (test + [LabelDef(Label(DoEnd, n))])))
  }

  function ForCode(n: nat, start: seq<Instr>, test: seq<Instr>, step: seq<Instr>, body: seq<Instr>): seq<Instr> {
    [Remark] + (start + ForLoopCode(n, test, step, body))
  }

  function ForLoopCode(n: nat, test: seq<Instr>, step: seq<Instr>, body: seq<Instr>): seq<Instr> {
    [LabelDef(Label(ForTop, n))] + (test
    + ([Jmp(Label(ForThen, n)), LabelDef(Label(ForIter, n))] + (step
    + ([Jmp(Label(ForTop, n)), LabelDef(Label(ForThen, n))] + (body
    + [Jmp(Label(ForIter, n)), LabelDef(Label(ForEnd, n))])))))
  }

  function WhileTarget(n: nat): Target { InLoop(EndWhile, WhileTop, n) }
  function DoTarget(n: nat): Target { InLoop(DoEnd, DoTest, n) }
  function ForTarget(n: nat): Target { InLoop(ForEnd, ForIter, n) }

  /** The code emitted for a statement when current_count is n. */
  function Gen(s: Stmt, scope: seq<string>, n: nat, loop: Target): seq<Instr>
    requires Legal(s, scope, loop.InLoop?)
    decreases s
  {
    match s
    case Block(ss) => GenAll(ss, scope, n, loop)
    case Decl(ds) => GenDecls(ds, scope)
    case If(c, t) => IfCode(n, Branch(c, scope, Je(Label(Else, n))), Gen(t, scope, n + 1, loop))
    case IfElse(c, t, e) =>
      IfElseCode(n, Branch(c, scope, Je(Label(Else, n))), Gen(t, scope, n + 1, loop),
                 Gen(e, After(t, scope), n + 1 + Count(t), loop))
    case While(c, b) =>
      WhileCode(n, Branch(c, scope, Je(Label(EndWhile, n))), Gen(b, scope, n + 1, WhileTarget(n)))
    case DoWhile(b, c) =>
      DoCode(n, Gen(b, scope, n + 1, DoTarget(n)), Branch(c, After(b, scope), Jne(Label(DoTop, n))))
    case For(init, c, st, b) =>
      var scope1 := InitScope(init, scope);
      ForCode(n, GenInit(init, scope), Branch(c, scope1, Je(Label(ForEnd, n))), Code(st, scope1),
              Gen(b, scope1, n + 1, ForTarget(n)))
    case Return(v) => (if v.Some? then Code(v.value, scope) else []) + [RestoreFrame, Ret]
    case Break => [Jmp(Label(loop.brk, loop.num))]
    case Continue => [Jmp(Label(loop.cont, loop.num))]
    case ExprStmt(e) => Code(e, scope)
  }

  function GenAll(ss: Stmts, scope: seq<string>, n: nat, loop: Target): seq<Instr>
    requires LegalAll(ss, scope, loop.InLoop?)
    decreases ss
  {
    match ss
    case Nil => []
    case Cons(s, tail) => Gen(s, scope, n, loop) + GenAll(tail, After(s, scope), n + Count(s), loop)
  }

  // ---- meaning --------------------------------------------------------------------------

  datatype Flow = Normal | Breaks | Continues | Returns(v: Option<int>)

  /** NoFuel: not finished within the given number of loop iterations. */
  datatype Result = Done(flow: Flow, vars: Locals) | Trapped | Undef | NoFuel

  function Failed(v: Value): Result
    requires !v.Ok?
  {
    if v.Trap? then Trapped else Undef
  }

  /** A declaration without initialiser leaves its local without a value. */
  function ExecDecls(ds: Decls, scope: seq<string>, vars: Locals): Value
    requires ResolvedDecls(ds, scope)
    decreases ds
  {
    match ds
    case NoMore => Ok(0, vars)
    case Declare(name, init, _, more) =>
      var scope1 := scope + [name];
      var vars1 := vars - {|scope|};
      match init
      case None => ExecDecls(more, scope1, vars1)
      case Some(e) =>
        match Eval(e, scope1, vars1)
        case Ok(v, vars2) => ExecDecls(more, scope1, vars2[|scope| := v])
        case r => r
  }

  function ExecInit(init: ForInit, scope: seq<string>, vars: Locals): Value
    requires ResolvedInit(init, scope)
  {
    match init
    case NoInit => Ok(0, vars)
    case InitExpr(e) => Eval(e, scope, vars)
    case InitDecl(ds) => ExecDecls(ds, scope, vars)
  }

  /** The locals of a block have no value once it is left. */
  function Leave(r: Result, scope: seq<string>): Result {
    if r.Done? then Done(r.flow, map k | k in r.vars && k < |scope| :: r.vars[k]) else r
  }

  /** The meaning of a statement as a function of the locals and the fuel, and of an expression. */
  type StmtMeaning = (Locals, nat) -> Result
  type ExprMeaning = Locals -> Value

  /** A body that ended this way lets its loop go on. */
  predicate Again(r: Result) {
    r.Done? && (r.flow == Normal || r.flow == Continues)
  }

  /** How a loop ends when its body does not let it go on. */
  function LoopExit(r: Result): Result {
    if r.Done? && r.flow == Breaks then Done(Normal, r.vars) else r
  }

  function IfMeaning(test: ExprMeaning, thn: StmtMeaning, vars: Locals, fuel: nat): Result {
    match test(vars)
    case Ok(v, vars1) => if v != 0 then thn(vars1, fuel) else Done(Normal, vars1)
    case r => Failed(r)
  }

  function IfElseMeaning(test: ExprMeaning, thn: StmtMeaning, els: StmtMeaning, vars: Locals, fuel: nat): Result {
    match test(vars)
    case Ok(v, vars1) => if v != 0 then thn(vars1, fuel) else els(vars1, fuel)
    case r => Failed(r)
  }

  function WhileMeaning(test: ExprMeaning, body: StmtMeaning, vars: Locals, fuel: nat): Result
    decreases fuel
  {
    if fuel == 0 then NoFuel
    else
      match test(vars)
      case Ok(v, vars1) =>
        if v == 0 then Done(Normal, vars1)
        else
          var r := body(vars1, fuel);
          if Again(r) then WhileMeaning(test, body, r.vars, fuel - 1) else LoopExit(r)
      case r => Failed(r)
  }

  function DoMeaning(body: StmtMeaning, test: ExprMeaning, vars: Locals, fuel: nat): Result
    decreases fuel
  {
    if fuel == 0 then NoFuel
    else
      var r := body(vars, fuel);
      if !Again(r) then LoopExit(r)
      else
        match test(r.vars)
        case Ok(v, vars1) => if v == 0 then Done(Normal, vars1) else DoMeaning(body, test, vars1, fuel - 1)
        case r => Failed(r)
  }

  /** A for loop from its condition on. */
  function ForMeaning(test: ExprMeaning, step: ExprMeaning, body: StmtMeaning, vars: Locals, fuel: nat): Result
    decreases fuel
  {
    if fuel == 0 then NoFuel
    else
      match test(vars)
      case Ok(v, vars1) =>
        if v == 0 then Done(Normal, vars1)
        else
          var r := body(vars1, fuel);
          if !Again(r) then LoopExit(r)
          else
            (match step(r.vars)
             case Ok(_, vars2) => ForMeaning(test, step, body, vars2, fuel - 1)
             case r => Failed(r))
      case r => Failed(r)
  }

  function EvalFn(e: Expr, scope: seq<string>): ExprMeaning
    requires Resolved(e, scope)
  {
    (vars: Locals) => Eval(e, scope, vars)
  }

  function ExecFn(s: Stmt, scope: seq<string>, inLoop: bool): StmtMeaning
    requires Legal(s, scope, inLoop)
    decreases s, 2
  {
    (vars: Locals, fuel: nat) => Exec(s, scope, inLoop, vars, fuel)
  }

  function Exec(s: Stmt, scope: seq<string>, inLoop: bool, vars: Locals, fuel: nat): Result
    requires Legal(s, scope, inLoop)
    decreases s, 1
  {
    match s
    case Block(ss) => Leave(ExecAll(ss, scope, inLoop, vars, fuel), scope)
    case Decl(ds) =>
      (match ExecDecls(ds, scope, vars)
       case Ok(_, vars1) => Done(Normal, vars1)
       case r => Failed(r))
    case If(c, t) => IfMeaning(EvalFn(c, scope), ExecFn(t, scope, inLoop), vars, fuel)
    case IfElse(c, t, e) =>
      IfElseMeaning(EvalFn(c, scope), ExecFn(t, scope, inLoop), ExecFn(e, After(t, scope), inLoop), vars, fuel)
    case While(c, b) => WhileMeaning(EvalFn(c, scope), ExecFn(b, scope, true), vars, fuel)
    case DoWhile(b, c) => DoMeaning(ExecFn(b, scope, true), EvalFn(c, After(b, scope)), vars, fuel)
    case For(init, c, st, b) =>
      var scope1 := InitScope(init, scope);
      (match ExecInit(init, scope, vars)
       case Ok(_, vars1) => ForMeaning(EvalFn(c, scope1), EvalFn(st, scope1), ExecFn(b, scope1, true), vars1, fuel)
       case r => Failed(r))
    case Return(v) =>
      if v.None? then Done(Returns(None), vars)
      else
        (match Eval(v.value, scope, vars)
         case Ok(x, vars1) => Done(Returns(Some(x)), vars1)
         case r => Failed(r))
    case Break => Done(Breaks, vars)
    case Continue => Done(Continues, vars)
    case ExprStmt(e) =>
      (match Eval(e, scope, vars)
       case Ok(_, vars1) => Done(Normal, vars1)
       case r => Failed(r))
  }

  function ExecAll(ss: Stmts, scope: seq<string>, inLoop: bool, vars: Locals, fuel: nat): Result
    requires LegalAll(ss, scope, inLoop)
    decreases ss, 0
  {
    match ss
    case Nil => Done(Normal, vars)
    case Cons(s, tail) =>
      match Exec(s, scope, inLoop, vars, fuel)
      case Done(flow, vars1) =>
        if flow == Normal then ExecAll(tail, After(s, scope), inLoop, vars1, fuel) else Done(flow, vars1)
      case r => r
  }
}
