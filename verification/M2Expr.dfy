/** Meaning of the integer expressions, the AMD64 code M2-Planet emits for them, and the
    proof that the code computes the meaning. */
module M2Expr {
  import opened Word64
  import opened Wrappers
  import opened Amd64
  import opened M2Grammar

  // ---- meaning --------------------------------------------------------------------------

  /** The local variables that have a value, by their position in the list of locals. */
  type Locals = map<nat, int>

  /** Trap is a division fault; Undefined is a use of a local without a value, or an assignment
      to something other than a variable. */
  datatype Value = Ok(v: int, vars: Locals) | Trap | Undefined

  /** The position of the innermost declaration of s. */
  function Lookup(scope: seq<string>, s: string): (k: nat)
    requires s in scope
    ensures k < |scope| && scope[k] == s
    ensures forall j :: k < j < |scope| ==> scope[j] != s
    decreases scope
  {
    if scope[|scope| - 1] == s then |scope| - 1
    else
      assert scope == scope[..|scope| - 1] + [scope[|scope| - 1]];
      Lookup(scope[..|scope| - 1], s)
  }

  function Truth(b: bool): int {
    if b then 1 else 0
  }

  /** C's arithmetic on signed 64-bit values with wrap-around; && and || are the bitwise
      operators, as in the grammar of the repository. None is a division fault. */
  function Apply(op: BinOp, a: int, b: int): Option<int> {
    match op
    case Mul => Some(Wrap(a * b))
    case Div => if b == 0 || (a == -HALF && b == -1) then None else Some(TruncDiv(a, b))
    case Rem => if b == 0 || (a == -HALF && b == -1) then None else Some(TruncRem(a, b))
    case Add => Some(Wrap(a + b))
    case Sub => Some(Wrap(a - b))
    case Shl => Some(Wrap(a * Pow2(b % 64)))
    case Shr => Some(a / Pow2(b % 64))
    case Lt => Some(Truth(a < b))
    case Le => Some(Truth(a <= b))
    case Ge => Some(Truth(a >= b))
    case Gt => Some(Truth(a > b))
    case Eq => Some(Truth(a == b))
    case Ne => Some(Truth(a != b))
    case And => Some(Signed(WordBits(BitAnd, W(a), W(b))))
    case AndAnd => Some(Signed(WordBits(BitAnd, W(a), W(b))))
    case Or => Some(Signed(WordBits(BitOr, W(a), W(b))))
    case OrOr => Some(Signed(WordBits(BitOr, W(a), W(b))))
    case Xor => Some(Signed(WordBits(BitXor, W(a), W(b))))
  }

  function Eval(e: Expr, scope: seq<string>, vars: Locals): Value
    requires Resolved(e, scope)
    decreases e
  {
    match e
    case Lit(n) => Ok(SExt32(n), vars)
    case Var(s, load) =>
      var k := Lookup(scope, s);
      if load && k in vars then Ok(vars[k], vars) else Undefined
    case Paren(x) => Eval(x, scope, vars)
    case Neg(x) =>
      (match Eval(x, scope, vars)
       case Ok(v, vars1) => Ok(Wrap(-v), vars1)
       case r => r)
    case Not(_, x) =>
      (match Eval(x, scope, vars)
       case Ok(v, vars1) => Ok(Truth(v == 0), vars1)
       case r => r)
    case Compl(x) =>
      (match Eval(x, scope, vars)
       case Ok(v, vars1) => Ok(-v - 1, vars1)
       case r => r)
    case Bin(op, x, y) =>
      (match Eval(x, scope, vars)
       case Ok(a, vars1) =>
         (match Eval(y, scope, vars1)
          case Ok(b, vars2) =>
            (match Apply(op, a, b)
             case Some(v) => Ok(v, vars2)
             case None => Trap)
          case r => r)
       case r => r)
    case Set(d, y) =>
      assert Resolved(d, scope);
      if !d.Var? || d.load then Undefined
      else
        (match Eval(y, scope, vars)
         case Ok(v, vars1) => Ok(v, vars1[Lookup(scope, d.name) := v])
         case r => r)
    case SetOp(op, d, y) =>
      assert Resolved(d, scope);
      if !d.Var? || d.load then Undefined
      else
        (match Eval(y, scope, vars)
         case Ok(b, vars1) =>
           var k := Lookup(scope, d.name);
           if k !in vars1 then Undefined
           else
             (match Apply(op, vars1[k], b)
              case Some(v) => Ok(v, vars1[k := v])
              case None => Trap)
         case r => r)
  }

  // ---- code -----------------------------------------------------------------------------

  /** The offset from r13 of the local at position k: each takes one 8-byte word, going down. */
  function Depth(k: nat): int {
    -8 * (k + 1)
  }

  /** The code that combines rbx (left operand) and rax (right operand) into rax. */
  function OpCode(op: BinOp): seq<Instr> {
    match op
    case Mul => [ImulRbx]
    case Div => [XchgRbxRax, Cqo, IdivRbx]
    case Rem => [XchgRbxRax, Cqo, IdivRbx, MovRaxRdx]
    case Add => [AddRaxRbx]
    case Sub => [SubRbxRax, MovRaxRbx]
    case Shl => [MovRcxRax, MovRaxRbx, SalRaxCl]
    case Shr => [MovRcxRax, MovRaxRbx, SarRaxCl]
    case Lt => [CmpRbxRax, SetAl(L), MovzxRaxAl]
    case Le => [CmpRbxRax, SetAl(LE), MovzxRaxAl]
    case Ge => [CmpRbxRax, SetAl(GE), MovzxRaxAl]
    case Gt => [CmpRbxRax, SetAl(G), MovzxRaxAl]
    case Eq => [CmpRbxRax, SetAl(E), MovzxRaxAl]
    case Ne => [CmpRbxRax, SetAl(NE), MovzxRaxAl]
    case And => [BitsRaxRbx(BitAnd)]
    case AndAnd => [BitsRaxRbx(BitAnd)]
    case Or => [BitsRaxRbx(BitOr)]
    case OrOr => [BitsRaxRbx(BitOr)]
    case Xor => [BitsRaxRbx(BitXor)]
  }

  function LoadImm(n: int): seq<Instr> {
    if n == 0 then [XorEaxEax] else [MovRaxImm(n)]
  }

  /** The code of a compound assignment around that of its operator. */
  function Update(code: seq<Instr>): seq<Instr> {
    [PushRbx, LoadRbx] + code + [PopRbx, StoreRax]
  }

  /** The code around an operand that is evaluated while rax is saved. */
  function Saved(x: seq<Instr>, after: seq<Instr>): seq<Instr> {
    [PushRax] + x + [PopRbx] + after
  }

  function Code(e: Expr, scope: seq<string>): seq<Instr>
    requires Resolved(e, scope)
    decreases e
  {
    match e
    case Lit(n) => LoadImm(n)
    case Var(s, load) => [LeaRax(Depth(Lookup(scope, s)))] + if load then [LoadRax] else []
    case Paren(x) => Code(x, scope)
    case Neg(x) => LoadImm(0) + Saved(Code(x, scope), [SubRbxRax, MovRaxRbx])
    case Not(_, x) => LoadImm(1) + Saved(Code(x, scope), [CmpRbxRax, SetAl(A), MovzxRaxAl])
    case Compl(x) => [] + Saved(Code(x, scope), [NotRax])
    case Bin(op, x, y) => Code(x, scope) + Saved(Code(y, scope), OpCode(op))
    case Set(d, y) => Code(d, scope) + Saved(Code(y, scope), [StoreRax])
    case SetOp(op, d, y) =>
      Code(d, scope) + Saved(Code(y, scope), Update(OpCode(op)))
  }

  lemma SavedStraight(before: seq<Instr>, x: seq<Instr>, after: seq<Instr>)
    requires AllStraight(before) && AllStraight(x) && AllStraight(after)
    ensures AllStraight(before + Saved(x, after))
  {
  }

  lemma OpStraight(op: BinOp)
    ensures AllStraight(OpCode(op)) && AllStraight(Update(OpCode(op)))
  {
  }

  lemma {:induction false} CodeStraight(e: Expr, scope: seq<string>)
    requires Resolved(e, scope)
    ensures AllStraight(Code(e, scope))
    decreases e
  {
    match e
    case Lit(_) =>
    case Var(_, _) =>
    case Paren(x) => CodeStraight(x, scope);
    case Neg(x) =>
      CodeStraight(x, scope);
      SavedStraight(LoadImm(0), Code(x, scope), [SubRbxRax, MovRaxRbx]);
    case Not(_, x) =>
      CodeStraight(x, scope);
      SavedStraight(LoadImm(1), Code(x, scope), [CmpRbxRax, SetAl(A), MovzxRaxAl]);
    case Compl(x) =>
      CodeStraight(x, scope);
      SavedStraight([], Code(x, scope), [NotRax]);
    case Bin(op, x, y) =>
      CodeStraight(x, scope);
      CodeStraight(y, scope);
      OpStraight(op);
      SavedStraight(Code(x, scope), Code(y, scope), OpCode(op));
    case Set(d, y) =>
      CodeStraight(d, scope);
      CodeStraight(y, scope);
      SavedStraight(Code(d, scope), Code(y, scope), [StoreRax]);
    case SetOp(op, d, y) =>
      CodeStraight(d, scope);
      CodeStraight(y, scope);
      OpStraight(op);
      SavedStraight(Code(d, scope), Code(y, scope), Update(OpCode(op)));
  }

  /** The number of stack words the code of e needs below rsp. */
  function Need(e: Expr): nat {
    match e
    case Lit(_) => 0
    case Var(_, _) => 0
    case Paren(x) => Need(x)
    case Neg(x) => 1 + Need(x)
    case Not(_, x) => 1 + Need(x)
    case Compl(x) => 1 + Need(x)
    case Bin(_, x, y) => if Need(x) > 1 + Need(y) then Need(x) else 1 + Need(y)
    case Set(d, y) => if Need(d) > 1 + Need(y) then Need(d) else 1 + Need(y)
    case SetOp(_, d, y) => if Need(d) > 1 + Need(y) then Need(d) else 1 + Need(y)
  }

  // ---- simulation -----------------------------------------------------------------------

  function Slot(m: Cpu, k: nat): int {
    m.r13 + Depth(k)
  }

  ghost predicate FrameAbove(n: nat, m: Cpu) {
    n == 0 || m.rsp + 8 * n <= m.r13
  }

  /** The frame of n words below r13 lies above rsp, and each local that has a value holds it
      in its own word of the frame. */
  ghost predicate Represents(vars: Locals, n: nat, m: Cpu) {
    && FrameAbove(n, m)
    && 8 * n <= 0x8000_0000
    && forall k :: k in vars ==> k < n && InRange(vars[k]) && Slot(m, k) in m.mem && m.mem[Slot(m, k)] == W(vars[k])
  }

  /** From m to m' nothing at or above rsp changed except inside the frame of n words. */
  ghost predicate Keeps(m: Cpu, m': Cpu, n: nat) {
    && m'.rsp == m.rsp && m'.r13 == m.r13
    && forall a :: a in m.mem && a >= m.rsp && (n == 0 || a + 8 <= m.r13 - 8 * n || a >= m.r13) ==> a in m'.mem && m'.mem[a] == m.mem[a]
  }

  /** Two different locals occupy words that do not overlap, inside the frame. */
  lemma SlotsDisjoint(m: Cpu, j: nat, k: nat, n: nat)
    requires j < n && k < n && j != k
    ensures Slot(m, j) + 8 <= Slot(m, k) || Slot(m, k) + 8 <= Slot(m, j)
    ensures m.r13 - 8 * n <= Slot(m, j) && Slot(m, j) + 8 <= m.r13
  {
  }

  /** A comparison of words read as signed numbers is what the flags say. */
  lemma SignedCompare(a: int, b: int)
    requires InRange(a) && InRange(b)
    ensures var f := CompareFlags(W(a), W(b));
      && (Holds(L, f) <==> a < b) && (Holds(LE, f) <==> a <= b)
      && (Holds(GE, f) <==> a >= b) && (Holds(G, f) <==> a > b)
      && (Holds(E, f) <==> a == b) && (Holds(NE, f) <==> a != b)
  {
    SignedOfW(a);
    SignedOfW(b);
    WSub(a, b);
    var d := W(W(a) - W(b));
    assert d == W(a - b);
    assert Signed(W(a)) == a && Signed(W(b)) == b;
  }

  lemma IsZero(v: int)
    requires InRange(v)
    ensures Holds(A, CompareFlags(W(1), W(v))) <==> v == 0
    ensures W(v) == 0 <==> v == 0
  {
  }

  lemma ApplyRange(op: BinOp, a: int, b: int)
    requires InRange(a) && InRange(b)
    ensures Apply(op, a, b).Some? ==> InRange(Apply(op, a, b).value)
  {
    match op
    case Div => if b != 0 { TruncDivRange(a, b); }
    case Rem => if b != 0 { TruncDivRange(a, b); }
    case Shr => SarRange(a, Pow2(b % 64));
    case _ =>
  }

  lemma RunShort(c: seq<Instr>, m: Cpu)
    requires c != []
    ensures Run(c, m) == match Exec1(c[0], m) { case None => None case Some(m') => Run(c[1..], m') }
    ensures |c| == 1 ==> Run(c, m) == Exec1(c[0], m)
  {
    if |c| == 1 {
      assert c[1..] == [];
      match Exec1(c[0], m)
      case None =>
      case Some(m') => assert Run(c[1..], m') == Some(m');
    }
  }

  /** Nothing but rax, rbx, rcx, rdx and the flags differs. */
  ghost predicate SameMemory(m: Cpu, m': Cpu) {
    m'.rsp == m.rsp && m'.r13 == m.r13 && m'.mem == m.mem
  }

  ghost predicate OpResult(r: Option<Cpu>, v: Option<int>, m: Cpu) {
    match v
    case None => r.None?
    case Some(x) => r.Some? && r.value.rax == W(x) && SameMemory(m, r.value)
  }

  /** xchg; cqo; idiv divides the saved left operand by rax and faults when C does. */
  lemma DivideCorrect(a: int, b: int, m: Cpu)
    requires InRange(a) && InRange(b) && m.rbx == W(a) && m.rax == W(b)
    ensures var r := Run([XchgRbxRax, Cqo, IdivRbx], m);
      && OpResult(r, Apply(Div, a, b), m)
      && (r.Some? ==> r.value.rdx == W(TruncRem(a, b)))
  {
    SignedOfW(a);
    SignedOfW(b);
    var m1 := m.(rax := m.rbx, rbx := m.rax);
    var m2 := m1.(rdx := if m1.rax < HALF then 0 else MOD - 1);
    assert Signed(m2.rdx) * MOD + m2.rax == a;
    RunShort([XchgRbxRax, Cqo, IdivRbx], m);
    assert [XchgRbxRax, Cqo, IdivRbx][1..] == [Cqo, IdivRbx];
    RunShort([Cqo, IdivRbx], m1);
    assert [Cqo, IdivRbx][1..] == [IdivRbx];
    RunShort([IdivRbx], m2);
    if b != 0 {
      TruncDivRange(a, b);
    }
  }

  lemma CompareCorrect(c: Cond, a: int, b: int, m: Cpu)
    requires m.rbx == W(a) && m.rax == W(b)
    ensures OpResult(Run([CmpRbxRax, SetAl(c), MovzxRaxAl], m), Some(Truth(Holds(c, CompareFlags(W(a), W(b))))), m)
  {
    var code := [CmpRbxRax, SetAl(c), MovzxRaxAl];
    var m1 := m.(flags := CompareFlags(m.rbx, m.rax));
    RunShort(code, m);
    assert code[1..] == [SetAl(c), MovzxRaxAl];
    RunShort(code[1..], m1);
    assert code[1..][1..] == [MovzxRaxAl];
    RunShort([MovzxRaxAl], Exec1(SetAl(c), m1).value);
  }

  lemma ShiftCorrect(op: BinOp, a: int, b: int, m: Cpu)
    requires op == Shl || op == Shr
    requires InRange(a) && InRange(b) && m.rbx == W(a) && m.rax == W(b)
    ensures OpResult(Run(OpCode(op), m), Apply(op, a, b), m)
  {
    SignedOfW(a);
    CountBits(b);
    var p := Pow2(b % 64);
    WMul(a, p);
    WrapInRange(a * p);
    var code := OpCode(op);
    var m1 := m.(rcx := m.rax);
    var m2 := m1.(rax := m.rbx);
    RunShort(code, m);
    assert code[1..] == [MovRaxRbx, code[2]];
    RunShort(code[1..], m1);
    assert code[1..][1..] == [code[2]];
    RunShort([code[2]], m2);
  }

  lemma SubCorrect(a: int, b: int, m: Cpu)
    requires m.rbx == W(a) && m.rax == W(b)
    ensures OpResult(Run([SubRbxRax, MovRaxRbx], m), Some(Wrap(a - b)), m)
  {
    WSub(a, b);
    WrapInRange(a - b);
    var code := [SubRbxRax, MovRaxRbx];
    RunShort(code, m);
    assert code[1..] == [MovRaxRbx];
    RunShort([MovRaxRbx], Exec1(SubRbxRax, m).value);
  }

  /** The code for an operator computes C's operator on the represented operands, and faults
      exactly when C's division does. */
  lemma OpCorrect(op: BinOp, a: int, b: int, m: Cpu)
    requires InRange(a) && InRange(b) && m.rbx == W(a) && m.rax == W(b)
    ensures OpResult(Run(OpCode(op), m), Apply(op, a, b), m)
  {
    match op
    case Div => DivideCorrect(a, b, m);
    case Rem => RemCorrect(a, b, m);
    case Mul => MulCorrect(a, b, m);
    case Add => AddCorrect(a, b, m);
    case Sub => SubCorrect(a, b, m);
    case Shl => ShiftCorrect(op, a, b, m);
    case Shr => ShiftCorrect(op, a, b, m);
    case Lt => CompareCorrect(L, a, b, m); SignedCompare(a, b);
    case Le => CompareCorrect(LE, a, b, m); SignedCompare(a, b);
    case Ge => CompareCorrect(GE, a, b, m); SignedCompare(a, b);
    case Gt => CompareCorrect(G, a, b, m); SignedCompare(a, b);
    case Eq => CompareCorrect(E, a, b, m); SignedCompare(a, b);
    case Ne => CompareCorrect(NE, a, b, m); SignedCompare(a, b);
    case And => BitsRuns(BitAnd, m);
    case AndAnd => BitsRuns(BitAnd, m);
    case Or => BitsRuns(BitOr, m);
    case OrOr => BitsRuns(BitOr, m);
    case Xor => BitsRuns(BitXor, m);
  }

  lemma MulCorrect(a: int, b: int, m: Cpu)
    requires InRange(a) && InRange(b) && m.rbx == W(a) && m.rax == W(b)
    ensures OpResult(Run([ImulRbx], m), Some(Wrap(a * b)), m)
  {
    SignedOfW(a);
    SignedOfW(b);
    RunShort([ImulRbx], m);
    WrapInRange(a * b);
    assert Signed(m.rax) * Signed(m.rbx) == b * a == a * b;
  }

  lemma AddCorrect(a: int, b: int, m: Cpu)
    requires m.rbx == W(a) && m.rax == W(b)
    ensures OpResult(Run([AddRaxRbx], m), Some(Wrap(a + b)), m)
  {
    RunShort([AddRaxRbx], m);
    WAdd(b, a);
    WrapInRange(a + b);
  }

  lemma RemCorrect(a: int, b: int, m: Cpu)
    requires InRange(a) && InRange(b) && m.rbx == W(a) && m.rax == W(b)
    ensures OpResult(Run([XchgRbxRax, Cqo, IdivRbx, MovRaxRdx], m), Apply(Rem, a, b), m)
  {
    DivideCorrect(a, b, m);
    var c := [XchgRbxRax, Cqo, IdivRbx];
    assert [XchgRbxRax, Cqo, IdivRbx, MovRaxRdx] == c + [MovRaxRdx];
    RunConcat(c, [MovRaxRdx], m);
    if Run(c, m).Some? {
      RunShort([MovRaxRdx], Run(c, m).value);
    }
  }

  lemma BitsRuns(bits: BitOp, m: Cpu)
    ensures OpResult(Run([BitsRaxRbx(bits)], m), Some(Signed(WordBits(bits, m.rbx, m.rax))), m)
  {
    RunShort([BitsRaxRbx(bits)], m);
    WordBitsCommute(bits, m.rbx, m.rax);
    WOfSigned(WordBits(bits, m.rbx, m.rax));
  }

  // ---- the induction over the expression ---------------------------------------------------

  ghost predicate Computes(r: Option<Cpu>, val: Value, n: nat, m: Cpu) {
    match val
    case Ok(v, vars) => r.Some? && r.value.rax == W(v) && InRange(v) && Represents(vars, n, r.value) && Keeps(m, r.value, n)
    case Trap => r.None?
    case Undefined => true
  }

  lemma KeepsTransitive(m: Cpu, m1: Cpu, m2: Cpu, n: nat)
    requires Keeps(m, m1, n) && Keeps(m1, m2, n)
    ensures Keeps(m, m2, n)
  {
  }

  lemma PopRuns(m: Cpu, m2: Cpu, n: nat)
    requires m.rsp >= 8 && FrameAbove(n, m)
    requires Keeps(Exec1(PushRax, m).value, m2, n)
    ensures Exec1(PopRbx, m2) == Some(m2.(rbx := m.rax, rsp := m.rsp))
    ensures Keeps(m, m2.(rbx := m.rax, rsp := m.rsp), n)
  {
    var m1 := Exec1(PushRax, m).value;
    assert m1.rsp == m.rsp - 8;
    assert m1.rsp in m1.mem && m1.mem[m1.rsp] == m.rax;
  }

  lemma RaiseRepresents(vars: Locals, n: nat, m: Cpu, b: Word, sp: Word)
    requires Represents(vars, n, m) && (n == 0 || sp + 8 * n <= m.r13)
    ensures Represents(vars, n, m.(rbx := b, rsp := sp))
  {
    var m3 := m.(rbx := b, rsp := sp);
    forall k | k in vars
      ensures Slot(m3, k) in m3.mem && m3.mem[Slot(m3, k)] == W(vars[k])
    {
      assert Slot(m3, k) == Slot(m, k);
    }
  }

  lemma SavedUnfolds(x: seq<Instr>, after: seq<Instr>, m: Cpu)
    ensures Run(Saved(x, after), m) ==
            match Run(x, Exec1(PushRax, m).value) { case None => None case Some(m2) => Run([PopRbx] + after, m2) }
  {
    assert Saved(x, after) == [PushRax] + (x + ([PopRbx] + after));
    RunConcat([PushRax], x + ([PopRbx] + after), m);
    RunShort([PushRax], m);
    RunConcat(x, [PopRbx] + after, Exec1(PushRax, m).value);
  }

  /** What a push and the matching pop around code for an operand amount to: the saved rax is
      in rbx, and the operand's value in rax. */
  lemma SavedRuns(x: seq<Instr>, after: seq<Instr>, val: Value, n: nat, m: Cpu) returns (m3: Cpu)
    requires m.rsp >= 8 && FrameAbove(n, m)
    requires Computes(Run(x, Exec1(PushRax, m).value), val, n, Exec1(PushRax, m).value)
    ensures val.Trap? ==> Run(Saved(x, after), m) == None
    ensures val.Ok? ==> Run(Saved(x, after), m) == Run(after, m3)
    ensures val.Ok? ==> Operand(val, m.rax, n, m, m3)
  {
    SavedUnfolds(x, after, m);
    m3 := m;
    if val.Ok? {
      var m2 := Run(x, Exec1(PushRax, m).value).value;
      PopRuns(m, m2, n);
      RunConcat([PopRbx], after, m2);
      RunShort([PopRbx], m2);
      m3 := m2.(rbx := m.rax, rsp := m.rsp);
      RaiseRepresents(val.vars, n, m2, m.rax, m.rsp);
    }
  }

  /** Between m and m', the operand val was evaluated with left saved. */
  ghost predicate Operand(val: Value, left: Word, n: nat, m: Cpu, m': Cpu)
    requires val.Ok?
  {
    m'.rbx == left && m'.rax == W(val.v) && InRange(val.v) && Represents(val.vars, n, m') && Keeps(m, m', n)
  }

  /** A pushed state represents the same locals. */
  lemma PushRepresents(vars: Locals, n: nat, m: Cpu)
    requires Represents(vars, n, m) && m.rsp >= 8
    ensures Represents(vars, n, Exec1(PushRax, m).value)
    ensures Exec1(PushRax, m).value.rsp == m.rsp - 8
  {
    var m1 := Exec1(PushRax, m).value;
    forall k | k in vars
      ensures Slot(m1, k) in m1.mem && m1.mem[Slot(m1, k)] == W(vars[k])
    {
      assert Slot(m1, k) == Slot(m, k) >= m.rsp;
    }
  }

  lemma AddressOf(s: string, scope: seq<string>, n: nat, m: Cpu)
    requires s in scope && |scope| <= n && FrameAbove(n, m) && 8 * n <= 0x8000_0000
    ensures var k := Lookup(scope, s);
      Exec1(LeaRax(Depth(k)), m) == Some(m.(rax := Slot(m, k))) && Slot(m, k) >= m.rsp
    ensures var k := Lookup(scope, s); Exec1(LeaRbx(Depth(k)), m) == Some(m.(rbx := Slot(m, k)))
  {
    var k := Lookup(scope, s);
    assert SExt32(Depth(k)) == Depth(k);
  }

  lemma LoadImmRuns(v: int, m: Cpu)
    ensures Run(LoadImm(v), m) == Exec1(LoadImm(v)[0], m)
    ensures Run(LoadImm(v), m).Some? && SameMemory(m, Run(LoadImm(v), m).value)
    ensures Run(LoadImm(v), m).value.rax == W(SExt32(v))
  {
    RunShort(LoadImm(v), m);
  }

  /** Storing into the word of a local changes that local only. */
  lemma StoreRepresents(vars: Locals, k: nat, v: int, n: nat, m: Cpu)
    requires Represents(vars, n, m) && k < n && InRange(v)
    ensures var m' := m.(mem := Store(m.mem, Slot(m, k), W(v)));
      Represents(vars[k := v], n, m') && Keeps(m, m', n)
  {
    var m' := m.(mem := Store(m.mem, Slot(m, k), W(v)));
    forall j | j in vars[k := v]
      ensures j < n && Slot(m', j) in m'.mem && m'.mem[Slot(m', j)] == W(vars[k := v][j])
    {
      if j != k {
        assert j in vars;
        SlotsDisjoint(m, j, k, n);
      }
    }
  }

  ghost predicate Ready(e: Expr, scope: seq<string>, vars: Locals, n: nat, m: Cpu) {
    Resolved(e, scope) && |scope| <= n && Represents(vars, n, m) && 8 * Need(e) <= m.rsp
  }

  lemma {:induction false} UnaryCorrect(x: Expr, before: seq<Instr>, after: seq<Instr>, scope: seq<string>, vars: Locals, n: nat, m: Cpu)
    returns (m3: Cpu)
    requires Ready(x, scope, vars, n, m) && 8 * (1 + Need(x)) <= m.rsp
    requires Run(before, m).Some? && SameMemory(m, Run(before, m).value)
    ensures Eval(x, scope, vars).Trap? ==> Run(before + Saved(Code(x, scope), after), m) == None
    ensures Eval(x, scope, vars).Ok? ==> Run(before + Saved(Code(x, scope), after), m) == Run(after, m3)
    ensures Eval(x, scope, vars).Ok? ==> Operand(Eval(x, scope, vars), Run(before, m).value.rax, n, m, m3)
    decreases x, 2
  {
    var m0 := Run(before, m).value;
    RunConcat(before, Saved(Code(x, scope), after), m);
    assert Represents(vars, n, m0);
    PushRepresents(vars, n, m0);
    ExprCorrect(x, scope, vars, n, Exec1(PushRax, m0).value);
    m3 := SavedRuns(Code(x, scope), after, Eval(x, scope, vars), n, m0);
  }

  /** The same without code before the push. */
  lemma {:induction false} SavedCorrect(x: Expr, after: seq<Instr>, scope: seq<string>, vars: Locals, n: nat, m: Cpu)
    returns (m3: Cpu)
    requires Ready(x, scope, vars, n, m) && 8 * (1 + Need(x)) <= m.rsp
    ensures Eval(x, scope, vars).Trap? ==> Run(Saved(Code(x, scope), after), m) == None
    ensures Eval(x, scope, vars).Ok? ==> Run(Saved(Code(x, scope), after), m) == Run(after, m3)
    ensures Eval(x, scope, vars).Ok? ==> Operand(Eval(x, scope, vars), m.rax, n, m, m3)
    decreases x, 3
  {
    m3 := UnaryCorrect(x, [], after, scope, vars, n, m);
    assert [] + Saved(Code(x, scope), after) == Saved(Code(x, scope), after);
  }

  lemma FinishBin(op: BinOp, a: int, vy: Value, n: nat, m: Cpu, m0: Cpu, m3: Cpu)
    requires vy.Ok? && InRange(a) && Keeps(m, m0, n) && Operand(vy, W(a), n, m0, m3)
    ensures var v := Apply(op, a, vy.v);
      Computes(Run(OpCode(op), m3), if v.Some? then Ok(v.value, vy.vars) else Trap, n, m)
  {
    OpCorrect(op, a, vy.v, m3);
    ApplyRange(op, a, vy.v);
    KeepsTransitive(m, m0, m3, n);
    if Apply(op, a, vy.v).Some? {
      SameMemoryRepresents(vy.vars, n, m, m3, Run(OpCode(op), m3).value);
    }
  }

  lemma SameMemoryRepresents(vars: Locals, n: nat, m: Cpu, m3: Cpu, m4: Cpu)
    requires Represents(vars, n, m3) && SameMemory(m3, m4) && Keeps(m, m3, n)
    ensures Represents(vars, n, m4) && Keeps(m, m4, n)
  {
    forall k | k in vars
      ensures Slot(m4, k) in m4.mem && m4.mem[Slot(m4, k)] == W(vars[k])
    {
      assert Slot(m4, k) == Slot(m3, k);
    }
  }

  lemma {:induction false} BinCorrect(op: BinOp, x: Expr, y: Expr, scope: seq<string>, vars: Locals, n: nat, m: Cpu)
    requires Ready(x, scope, vars, n, m) && Resolved(y, scope) && 8 * (1 + Need(y)) <= m.rsp
    ensures Computes(Run(Code(Bin(op, x, y), scope), m), Eval(Bin(op, x, y), scope, vars), n, m)
    decreases Bin(op, x, y), 0
  {
    RunConcat(Code(x, scope), Saved(Code(y, scope), OpCode(op)), m);
    ExprCorrect(x, scope, vars, n, m);
    var vx := Eval(x, scope, vars);
    if vx.Ok? {
      var m0 := Run(Code(x, scope), m).value;
      var m3 := SavedCorrect(y, OpCode(op), scope, vx.vars, n, m0);
      var vy := Eval(y, scope, vx.vars);
      if vy.Ok? {
        FinishBin(op, vx.v, vy, n, m, m0, m3);
      }
    }
  }

  lemma VariableAddress(d: Expr, scope: seq<string>, n: nat, m: Cpu)
    requires d.Var? && !d.load && Resolved(d, scope)
    requires |scope| <= n && FrameAbove(n, m) && 8 * n <= 0x8000_0000
    ensures var k := Lookup(scope, d.name); Run(Code(d, scope), m) == Some(m.(rax := Slot(m, k))) && k < n
  {
    var k := Lookup(scope, d.name);
    AddressOf(d.name, scope, n, m);
    RunShort([LeaRax(Depth(k))], m);
    assert Code(d, scope) == [LeaRax(Depth(k))];
  }

  lemma {:induction false} SetCorrect(d: Expr, y: Expr, scope: seq<string>, vars: Locals, n: nat, m: Cpu)
    requires d.Var? && !d.load && Resolved(d, scope)
    requires Ready(y, scope, vars, n, m) && 8 * (1 + Need(y)) <= m.rsp
    ensures Computes(Run(Code(Set(d, y), scope), m), Eval(Set(d, y), scope, vars), n, m)
    decreases Set(d, y), 0
  {
    var k := Lookup(scope, d.name);
    VariableAddress(d, scope, n, m);
    var m3 := UnaryCorrect(y, Code(d, scope), [StoreRax], scope, vars, n, m);
    var vy := Eval(y, scope, vars);
    if vy.Ok? {
      RunShort([StoreRax], m3);
      assert m3.rbx == Slot(m3, k);
      StoreRepresents(vy.vars, k, vy.v, n, m3);
      KeepsTransitive(m, m3, m3.(mem := Store(m3.mem, Slot(m3, k), W(vy.v))), n);
    }
  }

  lemma {:induction false} SetOpCorrect(op: BinOp, d: Expr, y: Expr, scope: seq<string>, vars: Locals, n: nat, m: Cpu)
    requires d.Var? && !d.load && Resolved(d, scope)
    requires Ready(y, scope, vars, n, m) && 8 * (1 + Need(y)) <= m.rsp
    ensures Computes(Run(Code(SetOp(op, d, y), scope), m), Eval(SetOp(op, d, y), scope, vars), n, m)
    decreases SetOp(op, d, y), 0
  {
    var k := Lookup(scope, d.name);
    VariableAddress(d, scope, n, m);
    var m3 := UnaryCorrect(y, Code(d, scope), Update(OpCode(op)), scope, vars, n, m);
    var vy := Eval(y, scope, vars);
    if vy.Ok? && k in vy.vars {
      assert m3.rbx == Slot(m3, k);
      UpdateRuns(op, k, vy.v, vy.vars, n, m3);
      if Apply(op, vy.vars[k], vy.v).Some? {
        KeepsTransitive(m, m3, Run(Update(OpCode(op)), m3).value, n);
      }
    }
  }

  lemma UpdateUnfolds(code: seq<Instr>, m: Cpu, m1: Cpu, m2: Cpu)
    requires Exec1(PushRbx, m) == Some(m1) && Exec1(LoadRbx, m1) == Some(m2)
    ensures Run(Update(code), m) == match Run(code, m2) { case None => None case Some(m3) => Run([PopRbx] + [StoreRax], m3) }
  {
    var tail := code + ([PopRbx] + [StoreRax]);
    assert Update(code) == [PushRbx] + ([LoadRbx] + tail);
    RunConcat([PushRbx], [LoadRbx] + tail, m);
    RunShort([PushRbx], m);
    RunConcat([LoadRbx], tail, m1);
    RunShort([LoadRbx], m1);
    RunConcat(code, [PopRbx] + [StoreRax], m2);
  }

  /** A push leaves the words of the frame alone. */
  lemma PushKeepsSlot(vars: Locals, k: nat, n: nat, m: Cpu, v: Word)
    requires Represents(vars, n, m) && k in vars
    ensures Slot(m, k) in Store(m.mem, m.rsp - 8, v) && Store(m.mem, m.rsp - 8, v)[Slot(m, k)] == W(vars[k])
  {
    assert Slot(m, k) >= m.rsp;
  }

  /** The state in which the operation of a compound assignment runs, from one with the address
      of local k in rbx: the address saved and the local's value in rbx. */
  function Loaded(m: Cpu, value: int): Cpu
    requires m.rsp >= 8
  {
    m.(rsp := m.rsp - 8, mem := Store(m.mem, m.rsp - 8, m.rbx), rbx := W(value))
  }

  lemma LoadedRuns(code: seq<Instr>, k: nat, vars: Locals, n: nat, m: Cpu)
    requires Represents(vars, n, m) && k in vars && m.rsp >= 8 && m.rbx == Slot(m, k)
    ensures Run(Update(code), m) ==
      match Run(code, Loaded(m, vars[k])) { case None => None case Some(m3) => Run([PopRbx] + [StoreRax], m3) }
  {
    PushKeepsSlot(vars, k, n, m, m.rbx);
    var m1 := m.(rsp := m.rsp - 8, mem := Store(m.mem, m.rsp - 8, m.rbx));
    UpdateUnfolds(code, m, m1, Loaded(m, vars[k]));
  }

  /** The read-modify-write of a compound assignment, with the address in rbx and the right
      operand in rax. */
  lemma UpdateRuns(op: BinOp, k: nat, b: int, vars: Locals, n: nat, m: Cpu)
    requires Represents(vars, n, m) && k in vars && InRange(b) && m.rsp >= 8
    requires m.rbx == Slot(m, k) && m.rax == W(b)
    ensures var v := Apply(op, vars[k], b);
      Computes(Run(Update(OpCode(op)), m), if v.Some? then Ok(v.value, vars[k := v.value]) else Trap, n, m)
  {
    LoadedRuns(OpCode(op), k, vars, n, m);
    OpCorrect(op, vars[k], b, Loaded(m, vars[k]));
    ApplyRange(op, vars[k], b);
    FinishUpdate(Run(OpCode(op), Loaded(m, vars[k])), k, Apply(op, vars[k], b), vars, n, m);
  }

  lemma PopStoreRuns(m: Cpu, address: Word)
    requires m.rsp in m.mem && m.mem[m.rsp] == address && m.rsp + 8 < MOD
    ensures Run([PopRbx] + [StoreRax], m) == Some(m.(rbx := address, rsp := m.rsp + 8, mem := Store(m.mem, address, m.rax)))
  {
    RunConcat([PopRbx], [StoreRax], m);
    RunShort([PopRbx], m);
    RunShort([StoreRax], m.(rbx := address, rsp := m.rsp + 8));
  }

  lemma FinishUpdate(r: Option<Cpu>, k: nat, v: Option<int>, vars: Locals, n: nat, m: Cpu)
    requires Represents(vars, n, m) && k in vars && m.rsp >= 8 && m.rbx == Slot(m, k)
    requires OpResult(r, v, Loaded(m, vars[k])) && (v.Some? ==> InRange(v.value))
    ensures Computes(match r { case None => None case Some(m3) => Run([PopRbx] + [StoreRax], m3) },
                     if v.Some? then Ok(v.value, vars[k := v.value]) else Trap, n, m)
  {
    if v.Some? {
      WriteBack(r.value, k, v.value, vars, n, m);
    }
  }

  lemma WriteBack(m3: Cpu, k: nat, v: int, vars: Locals, n: nat, m: Cpu)
    requires Represents(vars, n, m) && k in vars && m.rsp >= 8 && m.rbx == Slot(m, k) && InRange(v)
    requires SameMemory(Loaded(m, vars[k]), m3) && m3.rax == W(v)
    ensures Computes(Run([PopRbx] + [StoreRax], m3), Ok(v, vars[k := v]), n, m)
  {
    PopStoreRuns(m3, m.rbx);
    WriteBackState(m3.(rbx := m.rbx, rsp := m.rsp), k, v, vars, n, m);
  }

  lemma WriteBackState(m4: Cpu, k: nat, v: int, vars: Locals, n: nat, m: Cpu)
    requires Represents(vars, n, m) && k < n && m.rsp >= 8 && InRange(v)
    requires m4.rsp == m.rsp && m4.r13 == m.r13 && m4.mem == Store(m.mem, m.rsp - 8, m.rbx)
    ensures var m5 := m4.(mem := Store(m4.mem, Slot(m, k), W(v)));
      Represents(vars[k := v], n, m5) && Keeps(m, m5, n)
  {
    PoppedRepresents(vars, n, m, m4);
    StoreRepresents(vars, k, v, n, m4);
    KeepsTransitive(m, m4, m4.(mem := Store(m4.mem, Slot(m4, k), W(v))), n);
  }

  lemma PoppedRepresents(vars: Locals, n: nat, m: Cpu, m4: Cpu)
    requires Represents(vars, n, m) && m.rsp >= 8
    requires m4.rsp == m.rsp && m4.r13 == m.r13 && m4.mem == Store(m.mem, m.rsp - 8, m.rbx)
    ensures Represents(vars, n, m4) && Keeps(m, m4, n)
  {
    forall j | j in vars
      ensures Slot(m4, j) in m4.mem && m4.mem[Slot(m4, j)] == W(vars[j])
    {
      PushKeepsSlot(vars, j, n, m, m.rbx);
    }
  }

  lemma VarCorrect(s: string, load: bool, scope: seq<string>, vars: Locals, n: nat, m: Cpu)
    requires Ready(Var(s, load), scope, vars, n, m)
    ensures Computes(Run(Code(Var(s, load), scope), m), Eval(Var(s, load), scope, vars), n, m)
  {
    if load && Lookup(scope, s) in vars {
      var k := Lookup(scope, s);
      AddressOf(s, scope, n, m);
      RunConcat([LeaRax(Depth(k))], [LoadRax], m);
      RunShort([LeaRax(Depth(k))], m);
      RunShort([LoadRax], m.(rax := Slot(m, k)));
      SameMemoryRepresents(vars, n, m, m, m.(rax := W(vars[k])));
    }
  }

  lemma FinishUnary(after: seq<Instr>, v: int, val: Value, left: Word, n: nat, m: Cpu, m3: Cpu)
    requires val.Ok? && InRange(v) && Operand(val, left, n, m, m3) && OpResult(Run(after, m3), Some(v), m3)
    ensures Computes(Run(after, m3), Ok(v, val.vars), n, m)
  {
    SameMemoryRepresents(val.vars, n, m, m3, Run(after, m3).value);
  }

  lemma NotRuns(v: int, m: Cpu)
    requires InRange(v) && m.rbx == W(1) && m.rax == W(v)
    ensures OpResult(Run([CmpRbxRax, SetAl(A), MovzxRaxAl], m), Some(Truth(v == 0)), m)
  {
    CompareCorrect(A, 1, v, m);
    IsZero(v);
  }

  lemma {:induction false} NotCorrect(sign: Token, x: Expr, scope: seq<string>, vars: Locals, n: nat, m: Cpu)
    requires Ready(x, scope, vars, n, m) && 8 * (1 + Need(x)) <= m.rsp
    ensures Computes(Run(Code(Not(sign, x), scope), m), Eval(Not(sign, x), scope, vars), n, m)
    decreases Not(sign, x), 0
  {
    hide Exec1, Represents, Keeps, Operand, OpResult;
    var after := [CmpRbxRax, SetAl(A), MovzxRaxAl];
    LoadImmRuns(1, m);
    var m3 := UnaryCorrect(x, LoadImm(1), after, scope, vars, n, m);
    var val := Eval(x, scope, vars);
    if val.Ok? {
      NotRuns(val.v, m3);
      FinishUnary(after, Truth(val.v == 0), val, m3.rbx, n, m, m3);
    }
  }

  lemma {:induction false} NegCorrect(x: Expr, scope: seq<string>, vars: Locals, n: nat, m: Cpu)
    requires Ready(x, scope, vars, n, m) && 8 * (1 + Need(x)) <= m.rsp
    ensures Computes(Run(Code(Neg(x), scope), m), Eval(Neg(x), scope, vars), n, m)
    decreases Neg(x), 0
  {
    hide Exec1, Represents, Keeps, Operand;
    var after := [SubRbxRax, MovRaxRbx];
    LoadImmRuns(0, m);
    var m3 := UnaryCorrect(x, LoadImm(0), after, scope, vars, n, m);
    var val := Eval(x, scope, vars);
    if val.Ok? {
      SubCorrect(0, val.v, m3);
      WrapInRange(0 - val.v);
      FinishUnary(after, Wrap(-val.v), val, m3.rbx, n, m, m3);
    }
  }

  lemma {:induction false} ComplCorrect(x: Expr, scope: seq<string>, vars: Locals, n: nat, m: Cpu)
    requires Ready(x, scope, vars, n, m) && 8 * (1 + Need(x)) <= m.rsp
    ensures Computes(Run(Code(Compl(x), scope), m), Eval(Compl(x), scope, vars), n, m)
    decreases Compl(x), 0
  {
    var after := [NotRax];
    var m3 := UnaryCorrect(x, [], after, scope, vars, n, m);
    var val := Eval(x, scope, vars);
    if val.Ok? {
      RunShort([NotRax], m3);
      WComplement(val.v);
      FinishUnary(after, -val.v - 1, val, m3.rbx, n, m, m3);
    }
  }

  /** The code of an expression leaves its value in rax, the locals as the expression leaves
      them, rsp and r13 restored and the memory above rsp otherwise unchanged; it faults exactly
      when a division of the expression does. */
  lemma {:induction false} ExprCorrect(e: Expr, scope: seq<string>, vars: Locals, n: nat, m: Cpu)
    requires Ready(e, scope, vars, n, m)
    ensures Computes(Run(Code(e, scope), m), Eval(e, scope, vars), n, m)
    decreases e, 1
  {
    match e
    case Lit(v) =>
      LoadImmRuns(v, m);
      SameMemoryRepresents(vars, n, m, m, Run(LoadImm(v), m).value);
    case Var(s, load) => VarCorrect(s, load, scope, vars, n, m);
    case Paren(x) => ExprCorrect(x, scope, vars, n, m);
    case Neg(x) => NegCorrect(x, scope, vars, n, m);
    case Not(sign, x) => NotCorrect(sign, x, scope, vars, n, m);
    case Compl(x) => ComplCorrect(x, scope, vars, n, m);
    case Bin(op, x, y) => BinCorrect(op, x, y, scope, vars, n, m);
    case Set(d, y) => if d.Var? && !d.load { SetCorrect(d, y, scope, vars, n, m); }
    case SetOp(op, d, y) => if d.Var? && !d.load { SetOpCorrect(op, d, y, scope, vars, n, m); }
  }
}
