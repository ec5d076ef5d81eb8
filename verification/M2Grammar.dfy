/** The integer subset of the C that M2-Planet accepts: tokens, expression trees, and the
    parse that its one-pass recursive descent performs on a token list. */
module M2Grammar {

  datatype BinOp = Mul | Div | Rem | Add | Sub | Shl | Shr
                 | Lt | Le | Ge | Gt | Eq | Ne
                 | And | AndAnd | Or | OrOr | Xor

  /** Op spells the operator itself; OpAssign the operator followed by "=". Other is every
      token outside the subset ("[", "sizeof", string literals, ...). */
  datatype Token = Num(n: int) | Name(s: string) | Op(op: BinOp) | OpAssign(base: BinOp) | Assign
                 | Bang | Tilde | LParen | RParen | LBrace | RBrace | Semi | Comma | Colon
                 | KwInt | KwIf | KwElse | KwWhile | KwDo | KwFor | KwReturn | KwBreak | KwContinue
                 | Other(text: string)

  /** The five left-associative levels, tightest first. */
  function Level(op: BinOp): (l: nat)
    ensures 1 <= l <= 5
  {
    match op
    case Mul => 1 case Div => 1 case Rem => 1
    case Add => 2 case Sub => 2
    case Shl => 3 case Shr => 3
    case Lt => 4 case Le => 4 case Ge => 4 case Gt => 4 case Eq => 4 case Ne => 4
    case And => 5 case AndAnd => 5 case Or => 5 case OrOr => 5 case Xor => 5
  }

  predicate Compoundable(op: BinOp) {
    Level(op) <= 3 || op == And || op == Or || op == Xor
  }

  predicate IsCompound(t: Token) {
    t.OpAssign? && Compoundable(t.base)
  }

  /** A variable followed by one of these is not loaded: its address is wanted. */
  predicate IsAssign(t: Token) {
    t == Assign || IsCompound(t)
  }

  /** The tokens on which the postfix rule leaves the subset or reports an error. */
  predicate IsPostfix(t: Token) {
    t == LParen || t.Other?
  }

  datatype Expr =
    | Lit(n: int)
    | Var(name: string, load: bool)
    | Paren(inner: Expr)
    | Neg(arg: Expr)
    | Not(sign: Token, arg: Expr)
    | Compl(arg: Expr)
    | Bin(op: BinOp, left: Expr, right: Expr)
    | Set(dest: Expr, val: Expr)
    | SetOp(op: BinOp, dest: Expr, val: Expr)

  /** Every name is declared. */
  predicate Resolved(e: Expr, scope: seq<string>) {
    match e
    case Lit(_) => true
    case Var(s, _) => s in scope
    case Paren(x) => Resolved(x, scope)
    case Neg(x) => Resolved(x, scope)
    case Not(_, x) => Resolved(x, scope)
    case Compl(x) => Resolved(x, scope)
    case Bin(_, x, y) => Resolved(x, scope) && Resolved(y, scope)
    case Set(d, v) => Resolved(d, scope) && Resolved(v, scope)
    case SetOp(_, d, v) => Resolved(d, scope) && Resolved(v, scope)
  }

  datatype Parsed = Fail | Got(e: Expr, rest: seq<Token>)

  // ---- the descent ----------------------------------------------------------------------

  function ParsePrimary(t: seq<Token>, scope: seq<string>): (p: Parsed)
    ensures p.Got? ==> |p.rest| < |t|
    ensures p.Got? ==> Resolved(p.e, scope)
    decreases |t|, 0
  {
    if t == [] then Fail
    else
      match t[0]
      case Num(n) => if |t| > 1 then Got(Lit(n), t[1..]) else Fail
      case Name(s) => if s in scope && |t| > 1 then Got(Var(s, !IsAssign(t[1])), t[1..]) else Fail
      case Tilde =>
        var p := ParsePostfix(t[1..], scope);
        if p.Got? then Got(Compl(p.e), p.rest) else Fail
      case Bang =>
        var p := ParsePostfix(t[1..], scope);
        if p.Got? then Got(Not(t[0], p.e), p.rest) else Fail
      case Op(op) =>
        if op == Sub then
          var p := ParsePrimary(t[1..], scope);
          if p.Got? then Got(Neg(p.e), p.rest) else Fail
        else if op == Ne then
          // The test for ! looks at the first character only, so != in front of an operand is one too.
          var p := ParsePostfix(t[1..], scope);
          if p.Got? then Got(Not(t[0], p.e), p.rest) else Fail
        else Fail
      case LParen =>
        var p := ParseExpr(t[1..], scope);
        if p.Got? && p.rest[0] == RParen then Got(Paren(p.e), p.rest[1..]) else Fail
      case _ => Fail
  }

  function ParsePostfix(t: seq<Token>, scope: seq<string>): (p: Parsed)
    ensures p.Got? ==> 0 < |p.rest| < |t| && !IsPostfix(p.rest[0])
    ensures p.Got? ==> Resolved(p.e, scope)
    decreases |t|, 1
  {
    var p := ParsePrimary(t, scope);
    if p.Got? && p.rest != [] && !IsPostfix(p.rest[0]) then p else Fail
  }

  function ParseLevel(l: nat, t: seq<Token>, scope: seq<string>): (p: Parsed)
    ensures p.Got? ==> 0 < |p.rest| < |t|
    ensures p.Got? ==> Resolved(p.e, scope)
    decreases |t|, 2 + l
  {
    if l == 0 then ParsePostfix(t, scope)
    else
      var p := ParseLevel(l - 1, t, scope);
      if p.Got? then ParseTail(l, p.e, p.rest, scope) else Fail
  }

  function ParseTail(l: nat, left: Expr, t: seq<Token>, scope: seq<string>): (p: Parsed)
    requires t != [] && l >= 1 && Resolved(left, scope)
    ensures p.Got? ==> 0 < |p.rest| <= |t|
    ensures p.Got? ==> Resolved(p.e, scope)
    decreases |t|, 0
  {
    if t[0].Op? && Level(t[0].op) == l then
      var p := ParseLevel(l - 1, t[1..], scope);
      if p.Got? then ParseTail(l, Bin(t[0].op, left, p.e), p.rest, scope) else Fail
    else Got(left, t)
  }

  function ParseExpr(t: seq<Token>, scope: seq<string>): (p: Parsed)
    ensures p.Got? ==> 0 < |p.rest| < |t|
    ensures p.Got? ==> Resolved(p.e, scope)
    decreases |t|, 8
  {
    var p := ParseLevel(5, t, scope);
    if p.Fail? then Fail
    else if p.rest[0] == Assign then
      var q := ParseExpr(p.rest[1..], scope);
      if q.Got? then Got(Set(p.e, q.e), q.rest) else Fail
    else if IsCompound(p.rest[0]) then
      var q := ParseExpr(p.rest[1..], scope);
      if q.Got? then Got(SetOp(p.rest[0].base, p.e, q.e), q.rest) else Fail
    else p
  }

  // ---- the grammar it recognises --------------------------------------------------------

  function Render(e: Expr): (t: seq<Token>)
    ensures t != []
  {
    match e
    case Lit(n) => [Num(n)]
    case Var(s, _) => [Name(s)]
    case Paren(x) => [LParen] + Render(x) + [RParen]
    case Neg(x) => [Op(Sub)] + Render(x)
    case Not(sign, x) => [sign] + Render(x)
    case Compl(x) => [Tilde] + Render(x)
    case Bin(op, l, r) => Render(l) + [Op(op)] + Render(r)
    case Set(d, v) => Render(d) + [Assign] + Render(v)
    case SetOp(op, d, v) => Render(d) + [OpAssign(op)] + Render(v)
  }

  /** e is a tree of the grammar at a level: 0 for operands, 1 to 5 for the binary levels
      grouped to the left, 6 for assignments grouped to the right. target says that an
      assignment operator follows, and every name is in scope. */
  predicate WellFormed(e: Expr, l: nat, target: bool, scope: seq<string>) {
    match e
    case Lit(_) => true
    case Var(s, load) => s in scope && load == !target
    case Paren(x) => WellFormed(x, 6, false, scope)
    case Neg(x) => WellFormed(x, 0, target, scope)
    case Not(sign, x) => (sign == Bang || sign == Op(Ne)) && WellFormed(x, 0, target, scope)
    case Compl(x) => WellFormed(x, 0, target, scope)
    case Bin(op, x, y) =>
      Level(op) <= l && WellFormed(x, Level(op), false, scope) && WellFormed(y, Level(op) - 1, target, scope)
    case Set(d, v) => l == 6 && !target && WellFormed(d, 5, true, scope) && WellFormed(v, 6, false, scope)
    case SetOp(op, d, v) =>
      l == 6 && !target && Compoundable(op) && WellFormed(d, 5, true, scope) && WellFormed(v, 6, false, scope)
  }

  /** f can follow a tree of level l: it neither extends it nor is refused after an operand. */
  predicate Follows(f: Token, l: nat) {
    !IsPostfix(f) && !(f.Op? && Level(f.op) <= l) && (l == 6 ==> !IsAssign(f))
  }

  function ParseAt(l: nat, t: seq<Token>, scope: seq<string>): Parsed
    requires l <= 6
  {
    if l == 6 then ParseExpr(t, scope) else ParseLevel(l, t, scope)
  }

  /** Levels are cumulative. */
  lemma {:induction false} Widen(e: Expr, l: nat, m: nat, target: bool, scope: seq<string>)
    requires l <= m <= 6 && WellFormed(e, l, target, scope)
    requires m == 6 ==> !target
    ensures WellFormed(e, m, target, scope)
  {
  }

  lemma {:induction false} WellFormedResolved(e: Expr, l: nat, target: bool, scope: seq<string>)
    requires WellFormed(e, l, target, scope)
    ensures Resolved(e, scope)
    decreases e
  {
    match e
    case Lit(_) =>
    case Var(_, _) =>
    case Paren(x) => WellFormedResolved(x, 6, false, scope);
    case Neg(x) => WellFormedResolved(x, 0, target, scope);
    case Not(_, x) => WellFormedResolved(x, 0, target, scope);
    case Compl(x) => WellFormedResolved(x, 0, target, scope);
    case Bin(op, x, y) => WellFormedResolved(x, Level(op), false, scope); WellFormedResolved(y, Level(op) - 1, target, scope);
    case Set(d, v) => WellFormedResolved(d, 5, true, scope); WellFormedResolved(v, 6, false, scope);
    case SetOp(_, d, v) => WellFormedResolved(d, 5, true, scope); WellFormedResolved(v, 6, false, scope);
  }

  // ---- soundness: what was consumed is the rendering of the tree ----------------------------

  lemma Regroup(a: seq<Token>, x: Token, b: seq<Token>, rest: seq<Token>)
    ensures a + ([x] + (b + rest)) == (a + [x] + b) + rest
    ensures [x] + (b + rest) == ([x] + b) + rest
  {
  }

  lemma HeadTail(t: seq<Token>)
    requires t != []
    ensures t == [t[0]] + t[1..]
  {
  }

  lemma {:induction false} PrimarySound(t: seq<Token>, scope: seq<string>)
    requires ParsePrimary(t, scope).Got?
    ensures var p := ParsePrimary(t, scope); t == Render(p.e) + p.rest
    ensures var p := ParsePrimary(t, scope);
      p.rest != [] && !IsPostfix(p.rest[0]) ==> WellFormed(p.e, 0, IsAssign(p.rest[0]), scope)
    decreases |t|, 0
  {
    HeadTail(t);
    if t[0] == LParen {
      ParenSound(t, scope);
    } else if t[0] == Op(Sub) {
      PrimarySound(t[1..], scope);
      var p := ParsePrimary(t[1..], scope);
      Regroup([], t[0], Render(p.e), p.rest);
    } else if t[0] == Tilde || t[0] == Bang || t[0] == Op(Ne) {
      PostfixSound(t[1..], scope);
      var p := ParsePostfix(t[1..], scope);
      Regroup([], t[0], Render(p.e), p.rest);
    }
  }

  lemma {:induction false} ParenSound(t: seq<Token>, scope: seq<string>)
    requires t != [] && t[0] == LParen && ParsePrimary(t, scope).Got?
    ensures var p := ParsePrimary(t, scope); t == Render(p.e) + p.rest && WellFormed(p.e, 0, false, scope)
    ensures ParsePrimary(t, scope).e.Paren?
    decreases |t|, 0, 0
  {
    var p := ParseExpr(t[1..], scope);
    ExprSound(t[1..], scope);
    HeadTail(t);
    HeadTail(p.rest);
    assert t == [LParen] + (Render(p.e) + ([RParen] + p.rest[1..]));
    assert t == ([LParen] + Render(p.e) + [RParen]) + p.rest[1..];
  }

  lemma {:induction false} PostfixSound(t: seq<Token>, scope: seq<string>)
    requires ParsePostfix(t, scope).Got?
    ensures var p := ParsePostfix(t, scope);
      t == Render(p.e) + p.rest && WellFormed(p.e, 0, IsAssign(p.rest[0]), scope) && Follows(p.rest[0], 0)
    decreases |t|, 1
  {
    PrimarySound(t, scope);
  }

  lemma {:induction false} LevelSound(l: nat, t: seq<Token>, scope: seq<string>)
    requires l <= 5 && ParseLevel(l, t, scope).Got?
    ensures var p := ParseLevel(l, t, scope);
      t == Render(p.e) + p.rest && WellFormed(p.e, l, IsAssign(p.rest[0]), scope) && Follows(p.rest[0], l)
    decreases |t|, 2 + l
  {
    if l == 0 {
      PostfixSound(t, scope);
    } else {
      var p := ParseLevel(l - 1, t, scope);
      LevelSound(l - 1, t, scope);
      Widen(p.e, l - 1, l, IsAssign(p.rest[0]), scope);
      TailSound(l, p.e, p.rest, scope);
    }
  }

  lemma {:induction false} TailSound(l: nat, left: Expr, t: seq<Token>, scope: seq<string>)
    requires t != [] && 1 <= l <= 5 && WellFormed(left, l, IsAssign(t[0]), scope) && Follows(t[0], l - 1) && Resolved(left, scope)
    requires ParseTail(l, left, t, scope).Got?
    ensures var p := ParseTail(l, left, t, scope);
      Render(left) + t == Render(p.e) + p.rest && WellFormed(p.e, l, IsAssign(p.rest[0]), scope) && Follows(p.rest[0], l)
    decreases |t|, 0
  {
    if t[0].Op? && Level(t[0].op) == l {
      var p := ParseLevel(l - 1, t[1..], scope);
      LevelSound(l - 1, t[1..], scope);
      HeadTail(t);
      Regroup(Render(left), t[0], Render(p.e), p.rest);
      TailSound(l, Bin(t[0].op, left, p.e), p.rest, scope);
    }
  }

  /** Whatever the expression rule accepts is exactly a tree of the grammar followed by the
      rest of the token list. */
  lemma {:induction false} ExprSound(t: seq<Token>, scope: seq<string>)
    requires ParseExpr(t, scope).Got?
    ensures var p := ParseExpr(t, scope);
      t == Render(p.e) + p.rest && WellFormed(p.e, 6, false, scope) && Follows(p.rest[0], 6)
    decreases |t|, 8
  {
    LevelSound(5, t, scope);
    var p := ParseLevel(5, t, scope);
    if IsAssign(p.rest[0]) {
      var q := ParseExpr(p.rest[1..], scope);
      ExprSound(p.rest[1..], scope);
      HeadTail(p.rest);
      Regroup(Render(p.e), p.rest[0], Render(q.e), q.rest);
    } else {
      Widen(p.e, 5, 6, false, scope);
    }
  }

  // ---- completeness: every tree of the grammar is read back as itself -------------------------

  lemma {:induction false} OperandComplete(e: Expr, rest: seq<Token>, scope: seq<string>)
    requires rest != [] && WellFormed(e, 0, IsAssign(rest[0]), scope) && Follows(rest[0], 0)
    ensures ParsePostfix(Render(e) + rest, scope) == Got(e, rest)
    ensures ParsePrimary(Render(e) + rest, scope) == Got(e, rest)
    decreases e, 0, 1
  {
    var t := Render(e) + rest;
    match e
    case Lit(n) => assert t[1..] == rest;
    case Var(s, load) => assert t[1..] == rest;
    case Paren(x) => ParenComplete(x, rest, scope);
    case Neg(x) =>
      assert t[1..] == Render(x) + rest;
      OperandComplete(x, rest, scope);
    case Not(sign, x) =>
      assert t[1..] == Render(x) + rest;
      OperandComplete(x, rest, scope);
    case Compl(x) =>
      assert t[1..] == Render(x) + rest;
      OperandComplete(x, rest, scope);
  }

  lemma {:induction false} ParenComplete(x: Expr, rest: seq<Token>, scope: seq<string>)
    requires rest != [] && WellFormed(x, 6, false, scope)
    ensures ParsePrimary(Render(Paren(x)) + rest, scope) == Got(Paren(x), rest)
    decreases Paren(x), 0, 0
  {
    var t := Render(Paren(x)) + rest;
    var more := [RParen] + rest;
    assert t[1..] == Render(x) + more;
    Complete(x, 6, more, scope);
    assert more[1..] == rest;
  }

  /** A level reads a tree of that level and is then in its own tail. */
  lemma {:induction false} LevelReads(e: Expr, l: nat, rest: seq<Token>, scope: seq<string>)
    requires rest != [] && 1 <= l <= 5 && WellFormed(e, l, IsAssign(rest[0]), scope) && Follows(rest[0], l - 1)
    ensures Resolved(e, scope) && ParseLevel(l, Render(e) + rest, scope) == ParseTail(l, e, rest, scope)
    decreases e, l, 0
  {
    WellFormedResolved(e, l, IsAssign(rest[0]), scope);
    if e.Bin? && Level(e.op) == l {
      var more := [Op(e.op)] + (Render(e.right) + rest);
      assert Render(e) + rest == Render(e.left) + more;
      LevelReads(e.left, l, more, scope);
      assert more[1..] == Render(e.right) + rest;
      Complete(e.right, l - 1, rest, scope);
    } else {
      Complete(e, l - 1, rest, scope);
    }
  }

  /** Parsing the rendering of any tree of the grammar gives that tree back. */
  lemma {:induction false} Complete(e: Expr, l: nat, rest: seq<Token>, scope: seq<string>)
    requires rest != [] && l <= 6 && WellFormed(e, l, IsAssign(rest[0]), scope) && Follows(rest[0], l)
    ensures ParseAt(l, Render(e) + rest, scope) == Got(e, rest)
    decreases e, l, 2
  {
    if l == 0 {
      OperandComplete(e, rest, scope);
    } else if l <= 5 {
      LevelReads(e, l, rest, scope);
    } else if e.Set? || e.SetOp? {
      var sign := if e.Set? then Assign else OpAssign(e.op);
      var more := [sign] + (Render(e.val) + rest);
      assert Render(e) + rest == Render(e.dest) + more;
      Complete(e.dest, 5, more, scope);
      assert more[1..] == Render(e.val) + rest;
      Complete(e.val, 6, rest, scope);
    } else {
      Complete(e, 5, rest, scope);
    }
  }

  // ---- precedence -------------------------------------------------------------------------------

  predicate Multiplies(op: BinOp) {
    op == Mul || op == Div || op == Rem
  }

  predicate Adds(op: BinOp) {
    op == Add || op == Sub
  }

  predicate Shifts(op: BinOp) {
    op == Shl || op == Shr
  }

  predicate Compares(op: BinOp) {
    op == Lt || op == Le || op == Ge || op == Gt || op == Eq || op == Ne
  }

  /** The second of two operators takes the operand between them. */
  predicate Stronger(q: BinOp, p: BinOp) {
    if Multiplies(p) then false
    else if Adds(p) then Multiplies(q)
    else if Shifts(p) then Multiplies(q) || Adds(q)
    else if Compares(p) then Multiplies(q) || Adds(q) || Shifts(q)
    else Multiplies(q) || Adds(q) || Shifts(q) || Compares(q)
  }

  /** Of two operators the product, quotient and remainder come before sum and difference, these before
      shifts, shifts before comparisons, and comparisons before and, or and exclusive or; those of one kind
      are grouped to the left. */
  lemma Precedence(p: BinOp, q: BinOp, x: Expr, y: Expr, z: Expr, rest: seq<Token>, scope: seq<string>)
    requires rest != [] && Follows(rest[0], 6)
    requires WellFormed(x, 0, false, scope) && WellFormed(y, 0, false, scope) && WellFormed(z, 0, false, scope)
    ensures ParseExpr(Render(x) + [Op(p)] + Render(y) + [Op(q)] + Render(z) + rest, scope)
         == Got(if Stronger(q, p) then Bin(p, x, Bin(q, y, z)) else Bin(q, Bin(p, x, y), z), rest)
  {
    var e := if Stronger(q, p) then Bin(p, x, Bin(q, y, z)) else Bin(q, Bin(p, x, y), z);
    assert !IsAssign(rest[0]);
    hide *;
    Grouped(p, q, x, y, z, scope);
    Complete(e, 6, rest, scope);
    AtSix(Render(e) + rest, scope);
    GroupedTokens(p, q, x, y, z);
  }

  lemma AtSix(t: seq<Token>, scope: seq<string>)
    ensures ParseAt(6, t, scope) == ParseExpr(t, scope)
  {
  }

  lemma GroupedTokens(p: BinOp, q: BinOp, x: Expr, y: Expr, z: Expr)
    ensures Render(if Stronger(q, p) then Bin(p, x, Bin(q, y, z)) else Bin(q, Bin(p, x, y), z))
         == Render(x) + [Op(p)] + Render(y) + [Op(q)] + Render(z)
  {
    var a, b, c := Render(x), Render(y), Render(z);
    BinTokens(p, x, y);
    BinTokens(q, y, z);
    BinTokens(p, x, Bin(q, y, z));
    BinTokens(q, Bin(p, x, y), z);
    hide *;
    assert a + [Op(p)] + (b + [Op(q)] + c) == a + [Op(p)] + b + [Op(q)] + c;
  }

  lemma BinTokens(op: BinOp, x: Expr, y: Expr)
    ensures Render(Bin(op, x, y)) == Render(x) + [Op(op)] + Render(y)
  {
  }

  lemma Grouped(p: BinOp, q: BinOp, x: Expr, y: Expr, z: Expr, scope: seq<string>)
    requires WellFormed(x, 0, false, scope) && WellFormed(y, 0, false, scope) && WellFormed(z, 0, false, scope)
    ensures WellFormed(if Stronger(q, p) then Bin(p, x, Bin(q, y, z)) else Bin(q, Bin(p, x, y), z), 6, false, scope)
  {
    if Stronger(q, p) {
      Widen(x, 0, Level(p), false, scope);
      Widen(y, 0, Level(q), false, scope);
      Widen(z, 0, Level(q) - 1, false, scope);
    } else {
      Widen(x, 0, Level(p), false, scope);
      Widen(y, 0, Level(p) - 1, false, scope);
      Widen(z, 0, Level(q) - 1, false, scope);
    }
  }

  /** The operators that have a compound assignment: those of arithmetic, the shifts and the three on bits. */
  lemma CompoundIs(op: BinOp)
    ensures IsCompound(OpAssign(op)) <==> Multiplies(op) || Adds(op) || Shifts(op) || op == And || op == Or || op == Xor
  {
  }
}
