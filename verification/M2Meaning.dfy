/** What the operators of the language mean, in terms of integers and of bits. */
module M2Meaning {
  import opened Arith
  import opened Wrappers
  import opened Word64
  import opened M2Grammar
  import opened M2Expr
  import opened M2Stmt

  /** v is the value modulo 2^64 that a signed word can hold. */
  predicate Wraps(v: int, x: int) {
    -0x8000_0000_0000_0000 <= v < 0x8000_0000_0000_0000 && (v - x) % 0x1_0000_0000_0000_0000 == 0
  }

  lemma WrapIs(x: int)
    ensures Wraps(Wrap(x), x)
  {
  }

  /** Sum, difference, product and negation are those of the integers, modulo 2^64. */
  lemma SumMeaning(a: int, b: int)
    ensures Apply(Add, a, b).Some? && Wraps(Apply(Add, a, b).value, a + b)
    ensures Apply(Sub, a, b).Some? && Wraps(Apply(Sub, a, b).value, a - b)
    ensures Apply(Mul, a, b).Some? && Wraps(Apply(Mul, a, b).value, a * b)
  {
    WrapIs(a + b);
    WrapIs(a - b);
    WrapIs(a * b);
  }

  /** Quotient and remainder give the dividend back, the remainder is nearer to zero than the divisor and
      never of the other sign than the dividend; they fault for a divisor of zero and the one quotient too large. */
  lemma QuotientMeaning(a: int, b: int)
    requires InRange(a) && InRange(b)
    ensures Apply(Div, a, b).None? <==> Apply(Rem, a, b).None?
    ensures Apply(Div, a, b).None? <==> b == 0 || (a == -0x8000_0000_0000_0000 && b == -1)
    ensures Apply(Div, a, b).Some? ==>
      var q, r := Apply(Div, a, b).value, Apply(Rem, a, b).value;
      a == q * b + r && (if r < 0 then -r else r) < (if b < 0 then -b else b) && (r > 0 ==> a > 0) && (r < 0 ==> a < 0)
  {
    if b > 0 {
      Euclid(a, b);
      Euclid(-a, b);
    } else if b < 0 {
      Euclid(a, -b);
      Euclid(-a, -b);
    }
  }

  lemma Euclid(a: int, b: int)
    requires b > 0
    ensures a == b * (a / b) + a % b && 0 <= a % b < b && (a / b) * b == b * (a / b) && (-(a / b)) * b == -(b * (a / b)) && (a / b) * (-b) == -(b * (a / b)) && (-(a / b)) * (-b) == b * (a / b)
  {
  }

  /** A shift to the left multiplies by a power of two, one to the right divides by it and rounds down; the
      count is taken modulo 64. */
  lemma ShiftMeaning(a: int, b: int)
    ensures var p := Pow2(b % 64);
      && Apply(Shl, a, b).Some? && Wraps(Apply(Shl, a, b).value, a * p)
      && Apply(Shr, a, b).Some? && p * Apply(Shr, a, b).value <= a < p * Apply(Shr, a, b).value + p
  {
    var p := Pow2(b % 64);
    WrapIs(a * p);
    Euclid(a, p);
  }

  /** A comparison is 1 or 0: less and greater are each other turned around, less-or-equal and
      greater-or-equal their opposites, and two numbers are equal if neither is less. */
  lemma CompareMeaning(a: int, b: int)
    ensures Apply(Lt, a, b) == Some(if b - a > 0 then 1 else 0) && Apply(Gt, a, b) == Apply(Lt, b, a)
    ensures Apply(Ge, a, b) == Some(if Apply(Lt, a, b) == Some(1) then 0 else 1) && Apply(Le, a, b) == Apply(Ge, b, a)
    ensures Apply(Eq, a, b) == Some(if Apply(Lt, a, b) == Apply(Gt, a, b) then 1 else 0)
    ensures Apply(Ne, a, b) == Some(if Apply(Eq, a, b) == Some(1) then 0 else 1)
  {
  }

  /** Bit i of a word in two's complement. */
  predicate BitAt(v: int, i: nat) {
    v / Pow2(i) % 2 == 1
  }

  lemma {:induction false} BitOfBits(op: BitOp, a: nat, b: nat, n: nat, i: nat)
    requires i < n
    ensures BitAt(Bits(op, a, b, n), i) <==> Bit(op, BitAt(a, i), BitAt(b, i))
    decreases n
  {
    var r := Bits(op, a, b, n);
    BitsHead(op, a, b, n);
    hide Bits, Bit, Pow2;
    if i == 0 {
      LowestBit(r);
      LowestBit(a);
      LowestBit(b);
    } else {
      BitOfBits(op, a / 2, b / 2, n - 1, i - 1);
      Halve(r, i);
      Halve(a, i);
      Halve(b, i);
    }
  }

  lemma BitsHead(op: BitOp, a: nat, b: nat, n: nat)
    requires n > 0
    ensures var r := Bits(op, a, b, n); (r % 2 == 1 <==> Bit(op, a % 2 == 1, b % 2 == 1)) && r / 2 == Bits(op, a / 2, b / 2, n - 1)
  {
    hide Bit;
  }

  lemma LowestBit(v: int)
    ensures BitAt(v, 0) <==> v % 2 == 1
  {
    assert Pow2(0) == 1;
  }

  lemma Halve(v: int, i: nat)
    requires i >= 1
    ensures v / Pow2(i) == v / 2 / Pow2(i - 1) && (BitAt(v, i) <==> BitAt(v / 2, i - 1))
  {
    DivDiv(v, 2, Pow2(i - 1));
  }

  /** The 64 bits of a number and of its word are the same. */
  lemma WordBit(v: int, i: nat)
    requires i < 64
    ensures BitAt(W(v), i) <==> BitAt(v, i)
  {
    var p, q := Pow2(i), Pow2(63 - i);
    Pow2Add(i, 63 - i);
    Pow2Of64();
    assert Pow2(64) == 2 * Pow2(63);
    assert MOD == p * (2 * q) by { Associate(p, 2, q); Associate(2, p, q); }
    DivDiv(v, p, 2 * q);
    var r := v / p % (2 * q);
    DivModUnique(W(v), p, r, v % p);
    DivDiv(v / p, 2, q);
    DivModUnique(r, 2, v / p / 2 % q, v / p % 2);
  }

  lemma SignedBit(w: Word, i: nat)
    requires i < 64
    ensures BitAt(Signed(w), i) <==> BitAt(w, i)
  {
    WOfSigned(w);
    WordBit(Signed(w), i);
  }

  /** And, or and exclusive or, with && and || as and and or, work bit by bit. */
  lemma BitMeaning(op: BinOp, a: int, b: int, i: nat)
    requires i < 64 && (op == And || op == AndAnd || op == Or || op == OrOr || op == Xor)
    ensures Apply(op, a, b).Some? && InRange(Apply(op, a, b).value)
    ensures BitAt(Apply(op, a, b).value, i) <==>
      if op == And || op == AndAnd then BitAt(a, i) && BitAt(b, i)
      else if op == Or || op == OrOr then BitAt(a, i) || BitAt(b, i)
      else BitAt(a, i) != BitAt(b, i)
  {
    var bit := if op == And || op == AndAnd then BitAnd else if op == Or || op == OrOr then BitOr else BitXor;
    hide BitAt, Bits, W, Signed;
    var r := WordBits(bit, W(a), W(b));
    assert r == Bits(bit, W(a), W(b), 64);
    BitOfBits(bit, W(a), W(b), 64, i);
    WordBit(a, i);
    WordBit(b, i);
    SignedBit(r, i);
    WOfSigned(r);
  }

  /** Literals of 32 bits are themselves. */
  lemma LiteralMeaning(n: int, scope: seq<string>, vars: Locals)
    requires -0x8000_0000 <= n < 0x8000_0000
    ensures Eval(Lit(n), scope, vars) == Ok(n, vars)
  {
  }

  lemma ComplementBit(v: int, i: nat)
    ensures BitAt(-v - 1, i) <==> !BitAt(v, i)
  {
    var p := Pow2(i);
    var q, r := v / p, v % p;
    assert -v - 1 == p * (-q - 1) + (p - 1 - r) by { Distribute(p, -q, -1); assert p * (-q) == -(p * q); }
    DivModUnique(-v - 1, p, -q - 1, p - 1 - r);
  }

  /** Negation modulo 2^64, 1 for zero and 0 for all else, and every bit turned over. */
  lemma UnaryMeaning(e: Expr, sign: Token, scope: seq<string>, vars: Locals, i: nat)
    requires Resolved(e, scope) && Eval(e, scope, vars).Ok?
    ensures var v, rest := Eval(e, scope, vars).v, Eval(e, scope, vars).vars;
      && Eval(Neg(e), scope, vars).Ok? && Wraps(Eval(Neg(e), scope, vars).v, -v)
      && Eval(Not(sign, e), scope, vars) == Ok(if v == 0 then 1 else 0, rest)
      && Eval(Compl(e), scope, vars).Ok? && (BitAt(Eval(Compl(e), scope, vars).v, i) <==> !BitAt(v, i))
  {
    var v := Eval(e, scope, vars).v;
    WrapIs(-v);
    ComplementBit(v, i);
  }

  // ---- statements ------------------------------------------------------------------------------------

  const ZERO := Lit(0)
  const ONE := Lit(1)

  /** What is selected by a condition that is zero and by one that is not. */
  lemma SelectMeaning(t: Stmt, e: Stmt, scope: seq<string>, inLoop: bool, vars: Locals, fuel: nat)
    requires Legal(t, scope, inLoop) && Legal(e, After(t, scope), inLoop)
    ensures Exec(If(ONE, t), scope, inLoop, vars, fuel) == Exec(t, scope, inLoop, vars, fuel)
    ensures Exec(If(ZERO, t), scope, inLoop, vars, fuel) == Done(Normal, vars)
    ensures Exec(IfElse(ONE, t, e), scope, inLoop, vars, fuel) == Exec(t, scope, inLoop, vars, fuel)
    ensures Exec(IfElse(ZERO, t, e), scope, inLoop, vars, fuel) == Exec(e, After(t, scope), inLoop, vars, fuel)
  {
  }

  /** A loop whose condition is zero: not entered, but for do, which is run once. */
  lemma EmptyLoops(b: Stmt, step: Expr, scope: seq<string>, vars: Locals, fuel: nat)
    requires Legal(b, scope, true) && Resolved(step, scope) && fuel > 0
    ensures Exec(While(ZERO, b), scope, true, vars, fuel) == Done(Normal, vars)
    ensures Exec(For(NoInit, ZERO, step, b), scope, true, vars, fuel) == Done(Normal, vars)
    ensures var r := Exec(b, scope, true, vars, fuel);
      r.Done? ==> Exec(DoWhile(b, ZERO), scope, true, vars, fuel) == Done(match r.flow case Returns(v) => Returns(v) case _ => Normal, r.vars)
  {
  }

  /** break leaves a loop at once, without its step; continue goes on for ever if nothing changes. */
  lemma {:induction false} JumpMeaning(step: Expr, scope: seq<string>, vars: Locals, fuel: nat)
    requires Resolved(step, scope)
    ensures fuel > 0 ==> Exec(While(ONE, Break), scope, true, vars, fuel) == Done(Normal, vars)
    ensures fuel > 0 ==> Exec(DoWhile(Break, ONE), scope, true, vars, fuel) == Done(Normal, vars)
    ensures fuel > 0 ==> Exec(For(NoInit, ONE, step, Break), scope, true, vars, fuel) == Done(Normal, vars)
    ensures Exec(While(ONE, Continue), scope, true, vars, fuel) == NoFuel
    ensures Exec(DoWhile(Continue, ONE), scope, true, vars, fuel) == NoFuel
    decreases fuel
  {
    if fuel > 0 {
      JumpMeaning(step, scope, vars, fuel - 1);
      WhileRuns(EvalFn(ONE, scope), ExecFn(Continue, scope, true), vars, fuel);
    }
  }

  lemma {:induction false} WhileRuns(test: ExprMeaning, body: StmtMeaning, vars: Locals, fuel: nat)
    requires test(vars) == Ok(1, vars) && forall n: nat :: body(vars, n) == Done(Continues, vars)
    ensures WhileMeaning(test, body, vars, fuel) == NoFuel && DoMeaning(body, test, vars, fuel) == NoFuel
    decreases fuel
  {
    if fuel > 0 {
      WhileRuns(test, body, vars, fuel - 1);
    }
  }

  // for (; i < n; i = i + 1) continue;

  const I := Var("i", true)
  const NEXT := Set(Var("i", false), Bin(Add, I, ONE))

  function Below(n: int): Expr {
    Bin(Lt, I, Lit(n))
  }

  lemma Counts(n: int, vars: Locals)
    requires -0x8000_0000 <= n < 0x8000_0000 && 0 in vars && 0 <= vars[0] < 0x8000_0000
    ensures Resolved(Below(n), ["i"]) && Resolved(NEXT, ["i"])
    ensures Eval(Below(n), ["i"], vars) == Ok(if vars[0] < n then 1 else 0, vars)
    ensures Eval(NEXT, ["i"], vars) == Ok(vars[0] + 1, vars[0 := vars[0] + 1])
  {
    assert Lookup(["i"], "i") == 0;
    assert Resolved(I, ["i"]) && Resolved(Lit(n), ["i"]) && Resolved(ONE, ["i"]) && Resolved(Var("i", false), ["i"]);
    assert Resolved(Bin(Add, I, ONE), ["i"]);
    assert Eval(I, ["i"], vars) == Ok(vars[0], vars) && Eval(Lit(n), ["i"], vars) == Ok(n, vars) && Eval(ONE, ["i"], vars) == Ok(1, vars);
    assert Eval(Bin(Add, I, ONE), ["i"], vars) == Ok(vars[0] + 1, vars);
  }

  /** continue in a for goes to the step: this loop counts up to n. */
  lemma {:induction false} CountMeaning(n: int, vars: Locals, fuel: nat)
    requires n < 0x8000_0000 && 0 in vars && 0 <= vars[0] <= n && fuel > n - vars[0]
    ensures Legal(For(NoInit, Below(n), NEXT, Continue), ["i"], true)
    ensures Exec(For(NoInit, Below(n), NEXT, Continue), ["i"], true, vars, fuel) == Done(Normal, vars[0 := n])
    decreases n - vars[0]
  {
    Counts(n, vars);
    assert Legal(Continue, ["i"], true);
    var test, step, body := EvalFn(Below(n), ["i"]), EvalFn(NEXT, ["i"]), ExecFn(Continue, ["i"], true);
    assert test(vars) == Eval(Below(n), ["i"], vars) && step(vars) == Eval(NEXT, ["i"], vars) && body(vars, fuel) == Done(Continues, vars);
    hide *;
    ForIs(n, vars, fuel);
    if vars[0] < n {
      var next := vars[0 := vars[0] + 1];
      CountMeaning(n, next, fuel - 1);
      ForIs(n, next, fuel - 1);
      assert next[0 := n] == vars[0 := n];
      ForOnce(test, step, body, vars, next, vars[0] + 1, fuel);
    } else {
      assert vars[0 := n] == vars;
      ForEnds(test, step, body, vars, fuel);
    }
  }

  lemma ForEnds(test: ExprMeaning, step: ExprMeaning, body: StmtMeaning, vars: Locals, fuel: nat)
    requires fuel > 0 && test(vars) == Ok(0, vars)
    ensures ForMeaning(test, step, body, vars, fuel) == Done(Normal, vars)
  {
  }

  lemma ForIs(n: int, vars: Locals, fuel: nat)
    requires Resolved(Below(n), ["i"]) && Resolved(NEXT, ["i"])
    ensures Legal(Continue, ["i"], true) && Legal(For(NoInit, Below(n), NEXT, Continue), ["i"], true)
    ensures Exec(For(NoInit, Below(n), NEXT, Continue), ["i"], true, vars, fuel)
         == ForMeaning(EvalFn(Below(n), ["i"]), EvalFn(NEXT, ["i"]), ExecFn(Continue, ["i"], true), vars, fuel)
  {
    hide Resolved, Eval, Below;
  }

  lemma ForOnce(test: ExprMeaning, step: ExprMeaning, body: StmtMeaning, vars: Locals, next: Locals, v: int, fuel: nat)
    requires fuel > 0 && test(vars) == Ok(1, vars) && body(vars, fuel) == Done(Continues, vars) && step(vars) == Ok(v, next)
    ensures ForMeaning(test, step, body, vars, fuel) == ForMeaning(test, step, body, next, fuel - 1)
  {
  }
}
