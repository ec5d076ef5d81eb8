/** Conditional inclusion: what cc_macro.c does with a stream of tokens, and the recursive meaning of
    nested groups that it has to agree with. */
module IfGroups {
  import opened Wrappers

  const NEWLINE := "\n"

  /** An entry of macro_env, the latest first. */
  datatype Macro = Macro(name: string, expansion: seq<string>)

  type Env = seq<Macro>

  /** The value of the tokens of a condition; None is a call of exit. */
  type Evaluator = (seq<string>, Env) -> Option<int>

  predicate Defined(env: Env, name: string) {
    name == "__LINE__" || name == "__FILE__" || exists k :: 0 <= k < |env| && env[k].name == name
  }

  /** remove_macro takes out the latest definition only. */
  function Removed(env: Env, name: string): Env {
    if env == [] then [] else if env[0].name == name then env[1..] else [env[0]] + Removed(env[1..], name)
  }

  /** The number of definitions of a name. */
  function Definitions(env: Env, name: string): nat {
    if env == [] then 0 else (if env[0].name == name then 1 else 0) + Definitions(env[1..], name)
  }

  /** A name is defined if a definition of it is left, or if it is one of the two that always are. */
  lemma {:induction false} DefinedIs(env: Env, name: string)
    ensures Defined(env, name) <==> Definitions(env, name) > 0 || name == "__LINE__" || name == "__FILE__"
    decreases |env|
  {
    if env != [] {
      DefinedIs(env[1..], name);
      if Definitions(env[1..], name) > 0 && name != "__LINE__" && name != "__FILE__" {
        var k :| 0 <= k < |env[1..]| && env[1..][k].name == name;
        assert env[k + 1].name == name;
      }
      assert forall k :: 1 <= k < |env| ==> env[k] == env[1..][k - 1];
    }
  }

  /** #undef takes out one definition of its name, if there is any, and none of another. */
  lemma {:induction false} RemovedIs(env: Env, name: string, other: string)
    ensures Definitions(Removed(env, name), other) == Definitions(env, other) - if other == name && Definitions(env, name) > 0 then 1 else 0
    decreases |env|
  {
    if env != [] && env[0].name != name {
      RemovedIs(env[1..], name, other);
      assert ([env[0]] + Removed(env[1..], name))[1..] == Removed(env[1..], name);
    }
  }

  /** What stands for a name: the rest of its line, without the space that says there are no parameters. */
  function Expansion(line: seq<string>): seq<string> {
    if line != [] && line[0] != "" && line[0][0] == ' ' then line[1..] else line
  }

  // ---- tokens -------------------------------------------------------------------------------------

  predicate IsIf(t: string) {
    t == "#if" || t == "#ifdef" || t == "#ifndef"
  }

  predicate IsBranch(t: string) {
    t == "#elif" || t == "#else" || t == "#endif"
  }

  predicate IsDirective(t: string) {
    t != "" && t[0] == '#'
  }

  predicate Breaks(t: string) {
    t != "" && t[0] == '\n'
  }

  /** The number of tokens up to the end of the line. */
  function LineLength(t: seq<string>): (n: nat)
    ensures n <= |t|
    ensures forall k :: 0 <= k < n ==> !Breaks(t[k])
    ensures n < |t| ==> Breaks(t[n])
  {
    if t == [] || Breaks(t[0]) then 0 else 1 + LineLength(t[1..])
  }

  // ---- skipping -----------------------------------------------------------------------------------

  /** eat_until_endif: the tokens from the #endif on that it stops at; None is a call of exit. */
  function UntilEndif(t: seq<string>): (r: Option<seq<string>>)
    ensures r.Some? ==> 0 < |r.value| < |t| && r.value[0] == "#endif"
    decreases |t|, 0
  {
    if t == [] then None
    else if IsIf(t[0]) then
      match UntilEndif(t[1..])
      case None => None
      case Some(u) => AtEndif(u[1..])
    else AtEndif(t[1..])
  }

  function AtEndif(t: seq<string>): (r: Option<seq<string>>)
    ensures r.Some? ==> 0 < |r.value| <= |t| && r.value[0] == "#endif"
    decreases |t|, 1
  {
    if t == [] then None else if t[0] == "#endif" then Some(t) else UntilEndif(t)
  }

  /** eat_block: the tokens from the #elif, #else or #endif on that belongs to the same #if. */
  function Block(t: seq<string>): (r: Option<seq<string>>)
    ensures r.Some? ==> 0 < |r.value| < |t| && IsBranch(r.value[0])
    decreases |t|, 0
  {
    if t == [] then None
    else if IsIf(t[0]) then
      match UntilEndif(t[1..])
      case None => None
      case Some(u) => AtBranch(u[1..])
    else AtBranch(t[1..])
  }

  function AtBranch(t: seq<string>): (r: Option<seq<string>>)
    ensures r.Some? ==> 0 < |r.value| <= |t| && IsBranch(r.value[0])
    decreases |t|, 1
  {
    if t == [] then None else if IsBranch(t[0]) then Some(t) else Block(t)
  }

  // ---- the scanner --------------------------------------------------------------------------------

  datatype Kept = Kept(tokens: seq<string>, env: Env)

  function Prepend(a: seq<string>, r: Option<Kept>): Option<Kept> {
    if r.Some? then Some(Kept(a + r.value.tokens, r.value.env)) else None
  }

  /** What a directive does: the tokens from macro_token on, the macros, and the stack of
      conditional_inclusion with its top in front; after a skipped block macro_token is rewound to the
      newline in front of the branch. */
  datatype State = State(after: seq<string>, env: Env, stack: seq<bool>, skipped: bool)

  function Skipping(t: seq<string>, env: Env, stack: seq<bool>): (r: Option<State>)
    ensures r.Some? ==> |r.value.after| < |t|
  {
    match Block(t) case None => None case Some(u) => Some(State(u, env, stack, true))
  }

  /** macro_directive for a token that begins with #. None is a call of exit. */
  function Directive(eval: Evaluator, t: seq<string>, env: Env, stack: seq<bool>): (r: Option<State>)
    requires t != []
    ensures r.Some? ==> |r.value.after| < |t|
  {
    var d, u := t[0], t[1..];
    var n := LineLength(u);
    if d == "#if" then
      (match eval(u[..n], env)
       case None => None
       case Some(v) => if v == 0 then Skipping(u[n..], env, [false] + stack) else Some(State(u[n..], env, [true] + stack, false)))
    else if d == "#ifdef" then
      if u == [] then None
      else if Defined(env, u[0]) then Some(State(u[1..], env, [true] + stack, false))
      else Skipping(u, env, [false] + stack)
    else if d == "#ifndef" then
      if u == [] then None
      else if !Defined(env, u[0]) then Some(State(u[1..], env, [true] + stack, false))
      else Skipping(u, env, [false] + stack)
    else if d == "#elif" then
      if u == [] then None
      else
        (match eval(u[..n], env)
         case None => None
         case Some(v) =>
           if stack == [] then None
           else if v == 0 || stack[0] then Skipping(u[n..], env, stack)
           else Some(State(u[n..], env, [true] + stack[1..], false)))
    else if d == "#else" then
      if u == [] || stack == [] then None else if stack[0] then Skipping(u, env, stack) else Some(State(u, env, stack, false))
    else if d == "#endif" then
      if stack == [] then None else Some(State(u, env, stack[1..], false))
    else if d == "#define" then
      if n == 0 || n == |u| then None else Some(State(u[n..], [Macro(u[0], Expansion(u[1..n]))] + env, stack, false))
    else if d == "#undef" then
      if u == [] || env == [] then None else Some(State(u[1..], Removed(env, u[0]), stack, false))
    else if d == "#error" || (d == "#warning" && n == |u|) then None
    else Some(State(u[n..], env, stack, false))
  }

  /** What a directive leaves in the token list: #warning prints the words behind it and moves past them
      without unlinking them. */
  function LeftBehind(t: seq<string>): seq<string>
    requires t != []
  {
    if t[0] == "#warning" then t[1..][..LineLength(t[1..])] else []
  }

  /** preprocess from macro_token on; the newlines it leaves are not kept. */
  function Scan(eval: Evaluator, t: seq<string>, env: Env, stack: seq<bool>, start: bool): Option<Kept>
    decreases |t|
  {
    if t == [] then Some(Kept([], env))
    else if start && IsDirective(t[0]) then
      match Directive(eval, t, env, stack)
      case None => None
      case Some(s) =>
        if s.skipped || s.after == [] || Breaks(s.after[0]) then Prepend(LeftBehind(t), Scan(eval, s.after, s.env, s.stack, true)) else None
    else if Breaks(t[0]) then Scan(eval, t[1..], env, stack, true)
    else if |t| == 1 then None
    else Prepend([t[0]], Scan(eval, t[1..], env, stack, false))
  }

  // ---- groups -------------------------------------------------------------------------------------

  datatype Test = If(cond: seq<string>) | Ifdef(name: string) | Ifndef(name: string)

  datatype Part =
    | TextLine(words: seq<string>)
    | DefineLine(name: string, expansion: seq<string>)
    | UndefLine(name: string)
    /** #error, #warning, #include and whatever else begins with #. */
    | DirectiveLine(word: string, words: seq<string>)
    | Section(test: Test, body: Group, rest: Branches)

  datatype Group = Nil | Cons(part: Part, more: Group)

  datatype Branches = Endif | Else(body: Group) | Elif(cond: seq<string>, body: Group, rest: Branches)

  /** A word of a line that the scanner cannot mistake for anything else. */
  predicate IsWord(w: string) {
    w != "" && !Breaks(w) && !IsIf(w) && !IsBranch(w)
  }

  predicate AreWords(ws: seq<string>) {
    forall w :: w in ws ==> IsWord(w)
  }

  predicate WellFormedTest(c: Test) {
    match c
    case If(cond) => AreWords(cond)
    case Ifdef(name) => IsWord(name)
    case Ifndef(name) => IsWord(name)
  }

  predicate WellFormedPart(p: Part) {
    match p
    case TextLine(ws) => AreWords(ws) && (ws != [] ==> !IsDirective(ws[0]))
    case DefineLine(name, body) => IsWord(name) && AreWords(body)
    case UndefLine(name) => IsWord(name)
    case DirectiveLine(d, ws) => IsDirective(d) && IsWord(d) && d != "#define" && d != "#undef" && AreWords(ws)
    case Section(c, body, rest) => WellFormedTest(c) && WellFormed(body) && WellFormedRest(rest)
  }

  predicate WellFormed(g: Group) {
    match g case Nil => true case Cons(p, more) => WellFormedPart(p) && WellFormed(more)
  }

  predicate WellFormedRest(b: Branches) {
    match b
    case Endif => true
    case Else(body) => WellFormed(body)
    case Elif(cond, body, rest) => AreWords(cond) && WellFormed(body) && WellFormedRest(rest)
  }

  // The tokens of the source text.

  function TestText(c: Test): seq<string> {
    match c case If(cond) => ["#if"] + cond case Ifdef(name) => ["#ifdef", name] case Ifndef(name) => ["#ifndef", name]
  }

  function PartText(p: Part): seq<string> {
    match p
    case TextLine(ws) => ws + [NEWLINE]
    case DefineLine(name, body) => ["#define", name] + body + [NEWLINE]
    case UndefLine(name) => ["#undef", name, NEWLINE]
    case DirectiveLine(d, ws) => [d] + ws + [NEWLINE]
    case Section(c, body, rest) => TestText(c) + [NEWLINE] + GroupText(body) + RestText(rest)
  }

  function GroupText(g: Group): seq<string> {
    match g case Nil => [] case Cons(p, more) => PartText(p) + GroupText(more)
  }

  function RestText(b: Branches): seq<string> {
    match b
    case Endif => ["#endif", NEWLINE]
    case Else(body) => ["#else", NEWLINE] + GroupText(body) + ["#endif", NEWLINE]
    case Elif(cond, body, rest) => ["#elif"] + cond + [NEWLINE] + GroupText(body) + RestText(rest)
  }

  // The meaning of section 6.10.1 of ISO C11: the first group whose condition holds, or else the
  // #else group; the other groups are skipped. #error ends the translation. In this meaning nothing
  // remains of a #warning; with warnings, the words behind it do.

  function TestValue(eval: Evaluator, c: Test, env: Env): Option<bool> {
    match c
    case If(cond) => (match eval(cond, env) case None => None case Some(v) => Some(v != 0))
    case Ifdef(name) => Some(Defined(env, name))
    case Ifndef(name) => Some(!Defined(env, name))
  }

  function PartMeaning(eval: Evaluator, warnings: bool, p: Part, env: Env): Option<Kept> {
    match p
    case TextLine(ws) => Some(Kept(ws, env))
    case DefineLine(name, body) => Some(Kept([], [Macro(name, Expansion(body))] + env))
    case UndefLine(name) => Some(Kept([], Removed(env, name)))
    case DirectiveLine(d, ws) => if d == "#error" then None else Some(Kept(if warnings && d == "#warning" then ws else [], env))
    case Section(c, body, rest) =>
      match TestValue(eval, c, env)
      case None => None
      case Some(holds) => if holds then GroupMeaning(eval, warnings, body, env) else RestMeaning(eval, warnings, rest, env)
  }

  function GroupMeaning(eval: Evaluator, warnings: bool, g: Group, env: Env): Option<Kept> {
    match g
    case Nil => Some(Kept([], env))
    case Cons(p, more) =>
      match PartMeaning(eval, warnings, p, env)
      case None => None
      case Some(k) => Prepend(k.tokens, GroupMeaning(eval, warnings, more, k.env))
  }

  function RestMeaning(eval: Evaluator, warnings: bool, b: Branches, env: Env): Option<Kept> {
    match b
    case Endif => Some(Kept([], env))
    case Else(body) => GroupMeaning(eval, warnings, body, env)
    case Elif(cond, body, rest) =>
      match eval(cond, env)
      case None => None
      case Some(v) => if v != 0 then GroupMeaning(eval, warnings, body, env) else RestMeaning(eval, warnings, rest, env)
  }

  // What the scanner needs besides: it evaluates the conditions behind the group it has kept, too, and
  // #undef looks at the first definition there is.

  predicate PartEvaluable(eval: Evaluator, p: Part, env: Env) {
    if p.UndefLine? then env != [] else p.Section? ==>
      var holds := TestValue(eval, p.test, env);
      holds.Some? ==>
        if holds.value then GroupEvaluable(eval, p.body, env) && (GroupMeaning(eval, true, p.body, env).Some? ==> AllEvaluable(eval, p.rest, GroupMeaning(eval, true, p.body, env).value.env))
        else RestEvaluable(eval, p.rest, env)
  }

  predicate GroupEvaluable(eval: Evaluator, g: Group, env: Env) {
    match g
    case Nil => true
    case Cons(p, more) => PartEvaluable(eval, p, env) && (PartMeaning(eval, true, p, env).Some? ==> GroupEvaluable(eval, more, PartMeaning(eval, true, p, env).value.env))
  }

  predicate RestEvaluable(eval: Evaluator, b: Branches, env: Env) {
    match b
    case Endif => true
    case Else(body) => GroupEvaluable(eval, body, env)
    case Elif(cond, body, rest) =>
      var v := eval(cond, env);
      v.Some? ==>
        if v.value != 0 then GroupEvaluable(eval, body, env) && (GroupMeaning(eval, true, body, env).Some? ==> AllEvaluable(eval, rest, GroupMeaning(eval, true, body, env).value.env))
        else RestEvaluable(eval, rest, env)
  }

  /** Every condition of skipped branches has a value. */
  predicate AllEvaluable(eval: Evaluator, b: Branches, env: Env) {
    match b
    case Endif => true
    case Else(_) => true
    case Elif(cond, _, rest) => eval(cond, env).Some? && AllEvaluable(eval, rest, env)
  }

  // ---- skipping a group -----------------------------------------------------------------------------

  lemma Associate(a: seq<string>, b: seq<string>, c: seq<string>)
    ensures a + b + c == a + (b + c)
  {
  }

  /** The tokens of a line that are neither #if nor #endif are passed over. */
  lemma {:induction false} PassToEndif(a: seq<string>, u: seq<string>)
    requires forall w :: w in a ==> !IsIf(w) && w != "#endif"
    ensures AtEndif(a + u) == AtEndif(u)
    decreases |a|
  {
    if a == [] {
      assert a + u == u;
    } else {
      assert (a + u)[0] == a[0] && (a + u)[1..] == a[1..] + u;
      assert a[0] in a && !IsIf((a + u)[0]) && (a + u)[0] != "#endif";
      assert AtEndif(a + u) == UntilEndif(a + u) == AtEndif((a + u)[1..]);
      PassToEndif(a[1..], u);
    }
  }

  lemma {:induction false} PassToBranch(a: seq<string>, u: seq<string>)
    requires forall w :: w in a ==> !IsIf(w) && !IsBranch(w)
    ensures AtBranch(a + u) == AtBranch(u)
    decreases |a|
  {
    if a == [] {
      assert a + u == u;
    } else {
      assert (a + u)[0] == a[0] && (a + u)[1..] == a[1..] + u;
      assert a[0] in a && !IsIf((a + u)[0]) && !IsBranch((a + u)[0]);
      assert AtBranch(a + u) == Block(a + u) == AtBranch((a + u)[1..]);
      PassToBranch(a[1..], u);
    }
  }

  /** What stands behind the word of an opening directive, on its line. */
  function TestWords(c: Test): seq<string> {
    match c case If(cond) => cond case Ifdef(name) => [name] case Ifndef(name) => [name]
  }

  function TestWord(c: Test): string {
    match c case If(_) => "#if" case Ifdef(_) => "#ifdef" case Ifndef(_) => "#ifndef"
  }

  /** A section and what follows it, piece by piece. */
  lemma SectionText(p: Part, u: seq<string>)
    requires p.Section?
    ensures PartText(p) + u == [TestWord(p.test)] + (TestWords(p.test) + ([NEWLINE] + (GroupText(p.body) + (RestText(p.rest) + u))))
    ensures IsIf(TestWord(p.test)) && (WellFormedTest(p.test) ==> AreWords(TestWords(p.test)))
  {
    hide GroupText, RestText;
    var a, b, c, d := TestText(p.test), [NEWLINE], GroupText(p.body), RestText(p.rest);
    assert a == [TestWord(p.test)] + TestWords(p.test);
    Associate(a + b + c, d, u);
    Associate(a + b, c, d + u);
    Associate(a, b, c + (d + u));
    Associate([TestWord(p.test)], TestWords(p.test), b + (c + (d + u)));
  }

  lemma ElifText(b: Branches, u: seq<string>)
    requires b.Elif?
    ensures RestText(b) + u == ["#elif"] + (b.cond + ([NEWLINE] + (GroupText(b.body) + (RestText(b.rest) + u))))
  {
    hide GroupText;
    var g, r := GroupText(b.body), RestText(b.rest);
    Associate(["#elif"] + b.cond + [NEWLINE] + g, r, u);
    Associate(["#elif"] + b.cond + [NEWLINE], g, r + u);
    Associate(["#elif"] + b.cond, [NEWLINE], g + (r + u));
    Associate(["#elif"], b.cond, [NEWLINE] + (g + (r + u)));
  }

  lemma ElseText(b: Branches, u: seq<string>)
    requires b.Else?
    ensures RestText(b) + u == ["#else"] + ([NEWLINE] + (GroupText(b.body) + (["#endif"] + ([NEWLINE] + u))))
  {
    hide GroupText;
    var g, r := GroupText(b.body), ["#endif", NEWLINE];
    Associate(["#else", NEWLINE] + g, r, u);
    Associate(["#else", NEWLINE], g, r + u);
    assert r + u == ["#endif"] + ([NEWLINE] + u);
    assert ["#else", NEWLINE] + (g + (r + u)) == ["#else"] + ([NEWLINE] + (g + (r + u)));
  }

  lemma EndifText(u: seq<string>)
    ensures RestText(Endif) + u == ["#endif"] + ([NEWLINE] + u)
  {
  }

  lemma ConsText(g: Group, u: seq<string>)
    requires g.Cons?
    ensures GroupText(g) + u == PartText(g.part) + (GroupText(g.more) + u)
  {
    Associate(PartText(g.part), GroupText(g.more), u);
  }

  /** From an opening directive to the #endif that belongs to it. */
  lemma OpenUntil(word: string, x: seq<string>)
    requires x != [] && x[0] != "#endif" && IsIf(word)
    ensures UntilEndif(([word] + x)[1..]) == AtEndif(x)
    ensures AtEndif([word] + x) == match AtEndif(x) case None => None case Some(v) => AtEndif(v[1..])
    ensures AtBranch([word] + x) == match AtEndif(x) case None => None case Some(v) => AtBranch(v[1..])
  {
    assert ([word] + x)[1..] == x;
  }

  lemma {:induction false} SkipPart(p: Part, u: seq<string>)
    requires WellFormedPart(p)
    ensures AtEndif(PartText(p) + u) == AtEndif(u) && AtBranch(PartText(p) + u) == AtBranch(u)
    decreases p
  {
    hide AtEndif, AtBranch, UntilEndif, Block, GroupText, RestText;
    if p.Section? {
      SectionText(p, u);
      var rest := RestText(p.rest) + u;
      var line := TestWords(p.test);
      var x := line + ([NEWLINE] + (GroupText(p.body) + rest));
      assert x[0] == if line == [] then NEWLINE else line[0];
      assert line != [] ==> line[0] in line && IsWord(line[0]);
      OpenUntil(TestWord(p.test), x);
      PassToEndif(line, [NEWLINE] + (GroupText(p.body) + rest));
      PassToEndif([NEWLINE], GroupText(p.body) + rest);
      SkipGroup(p.body, rest);
      SkipRest(p.rest, u);
      assert (["#endif"] + ([NEWLINE] + u))[1..] == [NEWLINE] + u;
      PassToEndif([NEWLINE], u);
      PassToBranch([NEWLINE], u);
    } else {
      PassToEndif(PartText(p), u);
      PassToBranch(PartText(p), u);
    }
  }

  lemma {:induction false} SkipGroup(g: Group, u: seq<string>)
    requires WellFormed(g)
    ensures AtEndif(GroupText(g) + u) == AtEndif(u) && AtBranch(GroupText(g) + u) == AtBranch(u)
    decreases g
  {
    hide AtEndif, AtBranch, PartText;
    if g.Nil? {
      assert GroupText(g) + u == u;
    } else {
      ConsText(g, u);
      SkipPart(g.part, GroupText(g.more) + u);
      SkipGroup(g.more, u);
    }
  }

  lemma {:induction false} SkipRest(b: Branches, u: seq<string>)
    requires WellFormedRest(b)
    ensures AtEndif(RestText(b) + u) == Some(["#endif"] + ([NEWLINE] + u))
    decreases b
  {
    hide UntilEndif, GroupText, RestText;
    match b
    case Endif =>
      EndifText(u);
    case Else(body) =>
      ElseText(b, u);
      var end := ["#endif"] + ([NEWLINE] + u);
      PassToEndif(["#else"], [NEWLINE] + (GroupText(body) + end));
      PassToEndif([NEWLINE], GroupText(body) + end);
      SkipGroup(body, end);
    case Elif(cond, body, rest) =>
      ElifText(b, u);
      var later := RestText(rest) + u;
      PassToEndif(["#elif"], cond + ([NEWLINE] + (GroupText(body) + later)));
      PassToEndif(cond, [NEWLINE] + (GroupText(body) + later));
      PassToEndif([NEWLINE], GroupText(body) + later);
      SkipGroup(body, later);
      SkipRest(rest, u);
  }

  lemma RestBegins(b: Branches, u: seq<string>)
    ensures AtBranch(RestText(b) + u) == Some(RestText(b) + u)
  {
  }

  /** eat_block at the newline in front of a group stops at the branch behind the group. */
  lemma SkipBlock(g: Group, b: Branches, u: seq<string>)
    requires WellFormed(g)
    ensures Block([NEWLINE] + (GroupText(g) + (RestText(b) + u))) == Some(RestText(b) + u)
  {
    hide GroupText, RestText, AtBranch;
    var x := GroupText(g) + (RestText(b) + u);
    assert ([NEWLINE] + x)[1..] == x;
    SkipGroup(g, RestText(b) + u);
    RestBegins(b, u);
  }

  // ---- the scanner and the meaning --------------------------------------------------------------------

  function Result(ok: bool, m: Option<Kept>): Option<Kept> {
    if ok then m else None
  }

  /** First m, then the scanner on u. */
  function Chained(eval: Evaluator, m: Option<Kept>, u: seq<string>, stack: seq<bool>): Option<Kept> {
    match m case None => None case Some(k) => Prepend(k.tokens, Scan(eval, u, k.env, stack, true))
  }

  lemma PrependTwice(a: seq<string>, b: seq<string>, r: Option<Kept>)
    ensures Prepend(a, Prepend(b, r)) == Prepend(a + b, r)
  {
    if r.Some? {
      Associate(a, b, r.value.tokens);
    }
  }

  lemma PrependNothing(r: Option<Kept>)
    ensures Prepend([], r) == r
  {
    if r.Some? {
      assert [] + r.value.tokens == r.value.tokens;
    }
  }

  lemma ScanNewline(eval: Evaluator, u: seq<string>, env: Env, stack: seq<bool>, start: bool)
    ensures Scan(eval, [NEWLINE] + u, env, stack, start) == Scan(eval, u, env, stack, true)
  {
    hide Directive;
    assert ([NEWLINE] + u)[1..] == u;
  }

  lemma {:induction false} ScanWords(eval: Evaluator, ws: seq<string>, u: seq<string>, env: Env, stack: seq<bool>, start: bool)
    requires AreWords(ws) && (start && ws != [] ==> !IsDirective(ws[0]))
    ensures Scan(eval, ws + ([NEWLINE] + u), env, stack, start) == Prepend(ws, Scan(eval, u, env, stack, true))
    decreases |ws|
  {
    hide Directive;
    var t := ws + ([NEWLINE] + u);
    if ws == [] {
      assert t == [NEWLINE] + u;
      ScanNewline(eval, u, env, stack, start);
      PrependNothing(Scan(eval, u, env, stack, true));
    } else {
      assert t[0] == ws[0] && t[1..] == ws[1..] + ([NEWLINE] + u);
      assert IsWord(ws[0]);
      ScanWords(eval, ws[1..], u, env, stack, false);
      PrependTwice([ws[0]], ws[1..], Scan(eval, u, env, stack, true));
      assert [ws[0]] + ws[1..] == ws;
    }
  }

  lemma LineEnds(ws: seq<string>, x: seq<string>)
    requires AreWords(ws)
    ensures var t := ws + ([NEWLINE] + x); LineLength(t) == |ws| && t[..|ws|] == ws && t[|ws|..] == [NEWLINE] + x
  {
    var t := ws + ([NEWLINE] + x);
    assert forall k :: 0 <= k < |ws| ==> t[k] == ws[k] && IsWord(ws[k]);
    assert t[|ws|] == NEWLINE;
  }

  /** A directive at the start of a line, and the newline it leaves. */
  lemma ScanDirective(eval: Evaluator, d: string, line: seq<string>, x: seq<string>, env: Env, stack: seq<bool>)
    requires IsDirective(d) && AreWords(line)
    ensures var t := [d] + (line + ([NEWLINE] + x)); var r := Directive(eval, t, env, stack); var left := if d == "#warning" then line else [];
      && (r.None? ==> Scan(eval, t, env, stack, true).None?)
      && (r.Some? && r.value.skipped ==> Scan(eval, t, env, stack, true) == Prepend(left, Scan(eval, r.value.after, r.value.env, r.value.stack, true)))
      && (r.Some? && r.value.after == [NEWLINE] + x ==>
            Scan(eval, t, env, stack, true) == Prepend(left, Scan(eval, x, r.value.env, r.value.stack, true)))
      && (d != "#warning" && r.Some? && r.value.skipped ==> Scan(eval, t, env, stack, true) == Scan(eval, r.value.after, r.value.env, r.value.stack, true))
      && (d != "#warning" && r.Some? && r.value.after == [NEWLINE] + x ==> Scan(eval, t, env, stack, true) == Scan(eval, x, r.value.env, r.value.stack, true))
  {
    hide Directive, Prepend, LineLength;
    var t := [d] + (line + ([NEWLINE] + x));
    assert t[1..] == line + ([NEWLINE] + x);
    LineEnds(line, x);
    var r := Directive(eval, t, env, stack);
    if r.Some? {
      ScanNewline(eval, x, r.value.env, r.value.stack, true);
      PrependNothing(Scan(eval, r.value.after, r.value.env, r.value.stack, true));
    }
  }

  /** What an opening directive does on its line. */
  lemma OpenSection(eval: Evaluator, c: Test, x: seq<string>, env: Env, stack: seq<bool>)
    requires WellFormedTest(c)
    ensures var t := [TestWord(c)] + (TestWords(c) + ([NEWLINE] + x)); var v := TestValue(eval, c, env);
      Directive(eval, t, env, stack) ==
        if v.None? then None
        else if v.value then Some(State([NEWLINE] + x, env, [true] + stack, false))
        else Skipping(if c.If? then [NEWLINE] + x else TestWords(c) + ([NEWLINE] + x), env, [false] + stack)
  {
    hide Skipping, Defined;
    var t := [TestWord(c)] + (TestWords(c) + ([NEWLINE] + x));
    assert t[1..] == TestWords(c) + ([NEWLINE] + x);
    LineEnds(TestWords(c), x);
  }

  /** Whether a name or nothing stands in front of the newline, the same block is skipped. */
  lemma SkipOpened(c: Test, g: Group, b: Branches, u: seq<string>)
    requires WellFormedTest(c) && WellFormed(g)
    ensures var x := GroupText(g) + (RestText(b) + u);
      Block(if c.If? then [NEWLINE] + x else TestWords(c) + ([NEWLINE] + x)) == Some(RestText(b) + u)
  {
    hide GroupText, RestText;
    var x := GroupText(g) + (RestText(b) + u);
    SkipBlock(g, b, u);
    if !c.If? {
      var name := TestWords(c)[0];
      assert (TestWords(c) + ([NEWLINE] + x))[1..] == [NEWLINE] + x;
      assert AtBranch([NEWLINE] + x) == Block([NEWLINE] + x);
    }
  }

  /** The scanner keeps of a part what the part means, provided that the conditions behind the groups
      it keeps have values. */
  lemma {:induction false} ScanPart(eval: Evaluator, p: Part, u: seq<string>, env: Env, stack: seq<bool>)
    requires WellFormedPart(p)
    ensures Scan(eval, PartText(p) + u, env, stack, true)
         == Chained(eval, Result(PartEvaluable(eval, p, env), PartMeaning(eval, true, p, env)), u, stack)
    decreases p
  {
    hide Scan, Directive, Block, GroupText, RestText, GroupMeaning, RestMeaning, GroupEvaluable, RestEvaluable, AllEvaluable, Defined, Removed;
    match p
    case TextLine(ws) =>
      Associate(ws, [NEWLINE], u);
      ScanWords(eval, ws, u, env, stack, true);
    case DefineLine(name, expansion) =>
      ScanDefine(eval, name, expansion, u, env, stack);
      PrependNothing(Scan(eval, u, [Macro(name, Expansion(expansion))] + env, stack, true));
    case UndefLine(name) =>
      ScanUndef(eval, name, u, env, stack);
      PrependNothing(Scan(eval, u, Removed(env, name), stack, true));
    case DirectiveLine(d, ws) =>
      ScanLine(eval, d, ws, u, env, stack);
    case Section(c, body, rest) =>
      SectionText(p, u);
      var later := RestText(rest) + u;
      var x := GroupText(body) + later;
      OpenSection(eval, c, x, env, stack);
      ScanDirective(eval, TestWord(c), TestWords(c), x, env, stack);
      var v := TestValue(eval, c, env);
      if v.Some? {
        if v.value {
          ScanGroup(eval, body, later, env, [true] + stack);
          ScanTaken(eval, body, rest, u, env, stack);
        } else {
          SkipOpened(c, body, rest, u);
          ScanRest(eval, rest, u, env, stack);
        }
      }
  }

  lemma ScanDefine(eval: Evaluator, name: string, expansion: seq<string>, u: seq<string>, env: Env, stack: seq<bool>)
    requires IsWord(name) && AreWords(expansion)
    ensures Scan(eval, ["#define", name] + expansion + [NEWLINE] + u, env, stack, true) == Scan(eval, u, [Macro(name, Expansion(expansion))] + env, stack, true)
  {
    hide Scan, Defined;
    var line := [name] + expansion;
    assert ["#define", name] + expansion + [NEWLINE] + u == ["#define"] + (line + ([NEWLINE] + u));
    var t := ["#define"] + (line + ([NEWLINE] + u));
    assert t[1..] == line + ([NEWLINE] + u);
    LineEnds(line, u);
    assert t[1..][1..|line|] == expansion;
    assert Directive(eval, t, env, stack) == Some(State([NEWLINE] + u, [Macro(name, Expansion(expansion))] + env, stack, false));
    ScanDirective(eval, "#define", line, u, env, stack);
  }

  lemma ScanUndef(eval: Evaluator, name: string, u: seq<string>, env: Env, stack: seq<bool>)
    requires IsWord(name)
    ensures Scan(eval, ["#undef", name, NEWLINE] + u, env, stack, true) == if env == [] then None else Scan(eval, u, Removed(env, name), stack, true)
  {
    hide Scan, Defined, Removed;
    var t := ["#undef"] + ([name] + ([NEWLINE] + u));
    assert ["#undef", name, NEWLINE] + u == t;
    assert t[1..] == [name] + ([NEWLINE] + u) && t[1..][1..] == [NEWLINE] + u;
    assert Directive(eval, t, env, stack) == if env == [] then None else Some(State([NEWLINE] + u, Removed(env, name), stack, false));
    ScanDirective(eval, "#undef", [name], u, env, stack);
  }

  lemma ScanLine(eval: Evaluator, d: string, ws: seq<string>, u: seq<string>, env: Env, stack: seq<bool>)
    requires IsDirective(d) && IsWord(d) && d != "#define" && d != "#undef" && AreWords(ws)
    ensures Scan(eval, [d] + ws + [NEWLINE] + u, env, stack, true) ==
      if d == "#error" then None else Prepend(if d == "#warning" then ws else [], Scan(eval, u, env, stack, true))
  {
    hide Scan, Defined;
    var t := [d] + (ws + ([NEWLINE] + u));
    assert [d] + ws + [NEWLINE] + u == t;
    assert t[1..] == ws + ([NEWLINE] + u);
    LineEnds(ws, u);
    assert Directive(eval, t, env, stack) == if d == "#error" then None else Some(State([NEWLINE] + u, env, stack, false));
    ScanDirective(eval, d, ws, u, env, stack);
  }

  lemma {:induction false} ScanGroup(eval: Evaluator, g: Group, u: seq<string>, env: Env, stack: seq<bool>)
    requires WellFormed(g)
    ensures Scan(eval, GroupText(g) + u, env, stack, true)
         == Chained(eval, Result(GroupEvaluable(eval, g, env), GroupMeaning(eval, true, g, env)), u, stack)
    decreases g
  {
    hide Scan, PartText, PartMeaning, PartEvaluable;
    if g.Nil? {
      assert GroupText(g) + u == u;
      PrependNothing(Scan(eval, u, env, stack, true));
    } else {
      var more := GroupText(g.more) + u;
      ConsText(g, u);
      ScanPart(eval, g.part, more, env, stack);
      var m := PartMeaning(eval, true, g.part, env);
      if PartEvaluable(eval, g.part, env) && m.Some? {
        ScanGroup(eval, g.more, u, m.value.env, stack);
        var n := GroupMeaning(eval, true, g.more, m.value.env);
        if n.Some? {
          PrependTwice(m.value.tokens, n.value.tokens, Scan(eval, u, n.value.env, stack, true));
        }
      }
    }
  }

  /** A kept group and the branches behind it, whose conditions are evaluated all the same. */
  lemma {:induction false} ScanTaken(eval: Evaluator, g: Group, b: Branches, u: seq<string>, env: Env, stack: seq<bool>)
    requires WellFormed(g) && WellFormedRest(b)
    ensures var m := GroupMeaning(eval, true, g, env);
      Chained(eval, Result(GroupEvaluable(eval, g, env), m), RestText(b) + u, [true] + stack)
      == Chained(eval, Result(GroupEvaluable(eval, g, env) && (m.Some? ==> AllEvaluable(eval, b, m.value.env)), m), u, stack)
    decreases b
  {
    hide Scan, GroupMeaning, GroupEvaluable, AllEvaluable, RestText, WellFormed, WellFormedRest;
    var m := GroupMeaning(eval, true, g, env);
    if GroupEvaluable(eval, g, env) && m.Some? {
      ScanDone(eval, b, u, m.value.env, stack);
    }
  }

  lemma {:induction false} ScanDone(eval: Evaluator, b: Branches, u: seq<string>, env: Env, stack: seq<bool>)
    requires WellFormedRest(b)
    ensures Scan(eval, RestText(b) + u, env, [true] + stack, true) == if AllEvaluable(eval, b, env) then Scan(eval, u, env, stack, true) else None
    decreases b
  {
    hide Scan, Block, GroupText, RestText, Defined;
    var top := [true] + stack;
    match b
    case Endif =>
      EndifText(u);
      CloseSection(eval, u, env, true, stack);
    case Else(body) =>
      ElseText(b, u);
      var end := ["#endif"] + ([NEWLINE] + u);
      var x := GroupText(body) + end;
      EndifText(u);
      SkipBlock(body, Endif, u);
      assert (["#else"] + ([NEWLINE] + x))[1..] == [NEWLINE] + x;
      assert [] + ([NEWLINE] + x) == [NEWLINE] + x;
      assert Directive(eval, ["#else"] + ([NEWLINE] + x), env, top) == Some(State(end, env, top, true));
      ScanDirective(eval, "#else", [], x, env, top);
      CloseSection(eval, u, env, true, stack);
    case Elif(cond, body, rest) =>
      ElifText(b, u);
      var later := RestText(rest) + u;
      var x := GroupText(body) + later;
      ElifLine(eval, cond, x, env, true, stack);
      ScanDirective(eval, "#elif", cond, x, env, top);
      SkipBlock(body, rest, u);
      ScanDone(eval, rest, u, env, stack);
  }

  lemma CloseSection(eval: Evaluator, u: seq<string>, env: Env, matched: bool, stack: seq<bool>)
    ensures Scan(eval, ["#endif"] + ([NEWLINE] + u), env, [matched] + stack, true) == Scan(eval, u, env, stack, true)
  {
    hide Scan, Defined;
    var t := ["#endif"] + ([NEWLINE] + u);
    var top := [matched] + stack;
    assert t[1..] == [NEWLINE] + u && top[1..] == stack;
    assert [] + ([NEWLINE] + u) == [NEWLINE] + u;
    assert Directive(eval, t, env, top) == Some(State([NEWLINE] + u, env, stack, false));
    ScanDirective(eval, "#endif", [], u, env, top);
  }

  lemma ElifLine(eval: Evaluator, cond: seq<string>, x: seq<string>, env: Env, matched: bool, stack: seq<bool>)
    requires AreWords(cond)
    ensures var t := ["#elif"] + (cond + ([NEWLINE] + x)); var v := eval(cond, env);
      Directive(eval, t, env, [matched] + stack) ==
        if v.None? then None
        else if v.value == 0 || matched then Skipping([NEWLINE] + x, env, [matched] + stack)
        else Some(State([NEWLINE] + x, env, [true] + stack, false))
  {
    hide Skipping, Defined;
    var t := ["#elif"] + (cond + ([NEWLINE] + x));
    assert t[1..] == cond + ([NEWLINE] + x);
    assert ([matched] + stack)[1..] == stack;
    LineEnds(cond, x);
  }

  lemma {:induction false} ScanRest(eval: Evaluator, b: Branches, u: seq<string>, env: Env, stack: seq<bool>)
    requires WellFormedRest(b)
    ensures Scan(eval, RestText(b) + u, env, [false] + stack, true)
         == Chained(eval, Result(RestEvaluable(eval, b, env), RestMeaning(eval, true, b, env)), u, stack)
    decreases b
  {
    hide Scan, Block, GroupText, RestText, Defined, GroupMeaning, GroupEvaluable, AllEvaluable;
    var top := [false] + stack;
    match b
    case Endif =>
      EndifText(u);
      CloseSection(eval, u, env, false, stack);
      PrependNothing(Scan(eval, u, env, stack, true));
    case Else(body) =>
      ElseText(b, u);
      var end := ["#endif"] + ([NEWLINE] + u);
      var x := GroupText(body) + end;
      ElseLine(eval, x, env, stack);
      ScanDirective(eval, "#else", [], x, env, top);
      assert [] + ([NEWLINE] + x) == [NEWLINE] + x;
      ScanGroup(eval, body, end, env, top);
      var m := GroupMeaning(eval, true, body, env);
      if m.Some? {
        CloseSection(eval, u, m.value.env, false, stack);
      }
    case Elif(cond, body, rest) =>
      ElifText(b, u);
      var later := RestText(rest) + u;
      var x := GroupText(body) + later;
      ElifLine(eval, cond, x, env, false, stack);
      ScanDirective(eval, "#elif", cond, x, env, top);
      var v := eval(cond, env);
      if v.Some? {
        if v.value == 0 {
          SkipBlock(body, rest, u);
          ScanRest(eval, rest, u, env, stack);
        } else {
          ScanGroup(eval, body, later, env, [true] + stack);
          ScanTaken(eval, body, rest, u, env, stack);
        }
      }
  }

  lemma ElseLine(eval: Evaluator, x: seq<string>, env: Env, stack: seq<bool>)
    ensures Directive(eval, ["#else"] + ([] + ([NEWLINE] + x)), env, [false] + stack) == Some(State([NEWLINE] + x, env, [false] + stack, false))
  {
    hide Skipping, Defined;
    var t := ["#else"] + ([] + ([NEWLINE] + x));
    assert t[1..] == [NEWLINE] + x;
  }

  /** On the text of any well-nested groups the scanner keeps exactly the tokens of the groups that are
      selected, with the words of their #warning lines, and exits exactly if #error is among them, a
      condition it evaluates has no value, or it takes a definition out of none. */
  lemma KeepsSelected(eval: Evaluator, g: Group, env: Env)
    requires WellFormed(g)
    ensures Scan(eval, GroupText(g), env, [], true) == Result(GroupEvaluable(eval, g, env), GroupMeaning(eval, true, g, env))
  {
    hide GroupText, GroupMeaning, GroupEvaluable;
    ScanGroup(eval, g, [], env, []);
    assert GroupText(g) + [] == GroupText(g);
    var m := GroupMeaning(eval, true, g, env);
    if m.Some? {
      assert Prepend(m.value.tokens, Some(Kept([], m.value.env))) == m by { assert m.value.tokens + [] == m.value.tokens; }
    }
  }

  // ---- where the scanner departs from the standard ----------------------------------------------------

  // The number of words behind #warning in the groups that are selected.

  function PartWarned(eval: Evaluator, p: Part, env: Env): nat {
    match p
    case DirectiveLine(d, ws) => if d == "#warning" then |ws| else 0
    case Section(c, body, rest) =>
      (match TestValue(eval, c, env)
       case None => 0
       case Some(holds) => if holds then GroupWarned(eval, body, env) else RestWarned(eval, rest, env))
    case _ => 0
  }

  function GroupWarned(eval: Evaluator, g: Group, env: Env): nat {
    match g
    case Nil => 0
    case Cons(p, more) =>
      var m := PartMeaning(eval, false, p, env);
      PartWarned(eval, p, env) + if m.Some? then GroupWarned(eval, more, m.value.env) else 0
  }

  function RestWarned(eval: Evaluator, b: Branches, env: Env): nat {
    match b
    case Endif => 0
    case Else(body) => GroupWarned(eval, body, env)
    case Elif(cond, body, rest) =>
      match eval(cond, env)
      case None => 0
      case Some(v) => if v != 0 then GroupWarned(eval, body, env) else RestWarned(eval, rest, env)
  }

  /** Two meanings that differ by n words. */
  predicate Differ(m: Option<Kept>, w: Option<Kept>, n: nat) {
    && (m.Some? <==> w.Some?)
    && (m.Some? ==> w.value.env == m.value.env && |w.value.tokens| == |m.value.tokens| + n && (n == 0 ==> w == m))
  }

  lemma {:induction false} PartDiffers(eval: Evaluator, p: Part, env: Env)
    ensures Differ(PartMeaning(eval, false, p, env), PartMeaning(eval, true, p, env), PartWarned(eval, p, env))
    decreases p
  {
    if p.Section? {
      hide Differ, GroupMeaning, RestMeaning, GroupWarned, RestWarned;
      var holds := TestValue(eval, p.test, env);
      if holds.None? {
        Alike();
      } else if holds.value {
        GroupDiffers(eval, p.body, env);
      } else {
        RestDiffers(eval, p.rest, env);
      }
    }
  }

  lemma Alike()
    ensures Differ(None, None, 0)
  {
  }

  lemma {:induction false} GroupDiffers(eval: Evaluator, g: Group, env: Env)
    ensures Differ(GroupMeaning(eval, false, g, env), GroupMeaning(eval, true, g, env), GroupWarned(eval, g, env))
    decreases g
  {
    hide PartMeaning, PartWarned;
    if g.Cons? {
      PartDiffers(eval, g.part, env);
      var m := PartMeaning(eval, false, g.part, env);
      if m.Some? {
        GroupDiffers(eval, g.more, m.value.env);
      }
    }
  }

  lemma {:induction false} RestDiffers(eval: Evaluator, b: Branches, env: Env)
    ensures Differ(RestMeaning(eval, false, b, env), RestMeaning(eval, true, b, env), RestWarned(eval, b, env))
    decreases b
  {
    hide GroupMeaning, GroupWarned;
    match b
    case Endif =>
    case Else(body) => GroupDiffers(eval, body, env);
    case Elif(cond, body, rest) =>
      var v := eval(cond, env);
      if v.Some? {
        if v.value != 0 { GroupDiffers(eval, body, env); } else { RestDiffers(eval, rest, env); }
      }
  }

  /** The scanner agrees with the standard exactly if everything it evaluates has a value and no selected
      group has a #warning with words; a program without a meaning is refused in any case. */
  lemma AgreesExactly(eval: Evaluator, g: Group, env: Env)
    requires WellFormed(g)
    ensures Scan(eval, GroupText(g), env, [], true) == GroupMeaning(eval, false, g, env)
      <==> (GroupMeaning(eval, false, g, env).Some? ==> GroupEvaluable(eval, g, env) && GroupWarned(eval, g, env) == 0)
  {
    hide Scan, GroupText, GroupMeaning, GroupEvaluable, GroupWarned;
    KeepsSelected(eval, g, env);
    GroupDiffers(eval, g, env);
  }

  /** A #warning makes its words part of the program. */
  lemma WarningKept(eval: Evaluator, env: Env, ws: seq<string>)
    requires AreWords(ws)
    ensures var g := Cons(DirectiveLine("#warning", ws), Nil);
      WellFormed(g) && GroupMeaning(eval, false, g, env) == Some(Kept([], env)) && Scan(eval, GroupText(g), env, [], true) == Some(Kept(ws, env))
  {
    hide GroupText, Scan;
    var g := Cons(DirectiveLine("#warning", ws), Nil);
    assert WellFormed(Nil) && WellFormedPart(g.part);
    KeepsSelected(eval, g, env);
    assert GroupMeaning(eval, true, Nil, env) == GroupMeaning(eval, false, Nil, env) == Some(Kept([], env));
    assert PartEvaluable(eval, g.part, env) && GroupEvaluable(eval, Nil, env);
    assert PartMeaning(eval, true, g.part, env) == Some(Kept(ws, env)) && PartMeaning(eval, false, g.part, env) == Some(Kept([], env));
    assert ws + [] == ws && [] + [] == ws[..0];
    assert g.part.DirectiveLine? && g.more == Nil;
    assert GroupMeaning(eval, true, g, env) == Prepend(ws, Some(Kept([], env)));
    assert GroupMeaning(eval, false, g, env) == Prepend([], Some(Kept([], env)));
    assert GroupEvaluable(eval, g, env);
  }

  /** Not every program with a meaning gets through: the condition behind a group that is kept is
      evaluated. */
  lemma EvaluatesTooMuch(eval: Evaluator, env: Env, good: seq<string>, bad: seq<string>)
    requires AreWords(good) && AreWords(bad) && eval(good, env) == Some(1) && eval(bad, env) == None
    ensures var g := Cons(Section(If(good), Nil, Elif(bad, Nil, Endif)), Nil);
      WellFormed(g) && GroupMeaning(eval, false, g, env) == Some(Kept([], env)) && Scan(eval, GroupText(g), env, [], true) == None
  {
    hide GroupText, Scan;
    var rest := Elif(bad, Nil, Endif);
    var g := Cons(Section(If(good), Nil, rest), Nil);
    assert WellFormed(Nil) && WellFormedRest(Endif) && WellFormedRest(rest) && WellFormedPart(g.part);
    PrependNothing(Some(Kept([], env)));
    KeepsSelected(eval, g, env);
    assert GroupMeaning(eval, true, Nil, env) == GroupMeaning(eval, false, Nil, env) == Some(Kept([], env));
    assert PartMeaning(eval, true, g.part, env) == PartMeaning(eval, false, g.part, env) == Some(Kept([], env));
    assert !PartEvaluable(eval, g.part, env);
  }

  /** A defined name selects the group behind #ifdef and the #else group behind #ifndef. */
  lemma TestsMean(eval: Evaluator, env: Env, name: string, a: string, b: string)
    requires IsWord(name) && IsWord(a) && IsWord(b) && !IsDirective(a) && !IsDirective(b)
    ensures var rest := [name, NEWLINE, a, NEWLINE, "#else", NEWLINE, b, NEWLINE, "#endif", NEWLINE]; var env1 := [Macro(name, [])] + env;
      && Scan(eval, ["#define", name, NEWLINE] + (["#ifdef"] + rest), env, [], true) == Some(Kept([a], env1))
      && Scan(eval, ["#define", name, NEWLINE] + (["#ifndef"] + rest), env, [], true) == Some(Kept([b], env1))
  {
    Tested(eval, env, name, a, b, Ifdef(name), "#ifdef");
    Tested(eval, env, name, a, b, Ifndef(name), "#ifndef");
  }

  lemma Tested(eval: Evaluator, env: Env, name: string, a: string, b: string, c: Test, word: string)
    requires IsWord(name) && IsWord(a) && IsWord(b) && !IsDirective(a) && !IsDirective(b)
    requires (c == Ifdef(name) && word == "#ifdef") || (c == Ifndef(name) && word == "#ifndef")
    ensures var rest := [name, NEWLINE, a, NEWLINE, "#else", NEWLINE, b, NEWLINE, "#endif", NEWLINE];
      Scan(eval, ["#define", name, NEWLINE] + ([word] + rest), env, [], true) == Some(Kept(if c.Ifdef? then [a] else [b], [Macro(name, [])] + env))
  {
    var env1 := [Macro(name, [])] + env;
    var yes, no := Cons(TextLine([a]), Nil), Cons(TextLine([b]), Nil);
    var g := Cons(DefineLine(name, []), Cons(Section(c, yes, Else(no)), Nil));
    TestedText(name, a, b, c, word);
    assert WellFormed(yes) && WellFormed(no) && WellFormedRest(Else(no)) && WellFormedTest(c);
    assert WellFormed(Cons(Section(c, yes, Else(no)), Nil)) && WellFormed(g);
    assert env1[0].name == name && Defined(env1, name);
    hide Scan, GroupText, Defined;
    KeepsSelected(eval, g, env);
    OneLine(eval, a, env1);
    OneLine(eval, b, env1);
    assert TestValue(eval, c, env1) == Some(c.Ifdef?);
    var w := if c.Ifdef? then [a] else [b];
    var s := Section(c, yes, Else(no));
    assert PartMeaning(eval, true, s, env1) == Some(Kept(w, env1)) && PartEvaluable(eval, s, env1);
    assert GroupMeaning(eval, true, Nil, env1) == Some(Kept([], env1)) && GroupEvaluable(eval, Nil, env1);
    assert w + [] == w;
    assert GroupMeaning(eval, true, Cons(s, Nil), env1) == Some(Kept(w, env1)) && GroupEvaluable(eval, Cons(s, Nil), env1);
    assert Expansion([]) == [];
    assert PartMeaning(eval, true, DefineLine(name, []), env) == Some(Kept([], env1));
    assert [] + w == w;
  }

  lemma OneLine(eval: Evaluator, a: string, env: Env)
    ensures var g := Cons(TextLine([a]), Nil); GroupMeaning(eval, true, g, env) == Some(Kept([a], env)) && GroupEvaluable(eval, g, env)
  {
    assert [a] + [] == [a];
  }

  lemma TestedText(name: string, a: string, b: string, c: Test, word: string)
    requires (c == Ifdef(name) && word == "#ifdef") || (c == Ifndef(name) && word == "#ifndef")
    ensures var g := Cons(DefineLine(name, []), Cons(Section(c, Cons(TextLine([a]), Nil), Else(Cons(TextLine([b]), Nil))), Nil));
      GroupText(g) == ["#define", name, NEWLINE] + ([word] + [name, NEWLINE, a, NEWLINE, "#else", NEWLINE, b, NEWLINE, "#endif", NEWLINE])
  {
    var yes, no := Cons(TextLine([a]), Nil), Cons(TextLine([b]), Nil);
    assert GroupText(Nil) == [];
    assert GroupText(yes) == [a, NEWLINE] by { assert [a] + [NEWLINE] + [] == [a, NEWLINE]; }
    assert GroupText(no) == [b, NEWLINE] by { assert [b] + [NEWLINE] + [] == [b, NEWLINE]; }
    hide GroupText;
    var s := Section(c, yes, Else(no));
    assert RestText(Else(no)) == ["#else", NEWLINE, b, NEWLINE, "#endif", NEWLINE];
    assert PartText(s) == [word, name, NEWLINE, a, NEWLINE, "#else", NEWLINE, b, NEWLINE, "#endif", NEWLINE];
    assert PartText(DefineLine(name, [])) == ["#define", name, NEWLINE];
    GroupTextCons(s, Nil);
    GroupTextCons(DefineLine(name, []), Cons(s, Nil));
  }

  lemma GroupTextCons(p: Part, more: Group)
    ensures GroupText(Cons(p, more)) == PartText(p) + GroupText(more) && GroupText(Nil) == []
  {
    hide PartText;
  }
}
