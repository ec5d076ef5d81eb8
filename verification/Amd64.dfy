/** The AMD64 instructions that M2-Planet emits for integer code, with the meaning the
    processor gives the bytes their mnemonics are defined as. Only the flags written by
    cmp and test are ever read, so every other arithmetic instruction leaves them unknown. */
module Amd64 {
  import opened Word64
  import opened Wrappers

  datatype Cond = L | LE | GE | G | E | NE | A

  datatype LabelKind = Else | EndIf | WhileTop | EndWhile | DoTop | DoTest | DoEnd | ForTop | ForIter | ForThen | ForEnd

  /** kind_<function>_<num> in the emitted text; see M2Labels for the text itself. */
  datatype Label = Label(kind: LabelKind, num: nat)

  datatype Instr =
    | PushRax | PushRbx | PopRbx
    | XorEaxEax | MovRaxImm(imm: int)
    | LeaRax(disp: int) | LeaRbx(disp: int)
    | LoadRax | LoadRbx | StoreRax
    | ImulRbx | XchgRbxRax | Cqo | IdivRbx
    | MovRaxRdx | MovRaxRbx | MovRcxRax
    | AddRaxRbx | SubRbxRax | SalRaxCl | SarRaxCl
    | BitsRaxRbx(bits: BitOp) | NotRax
    | CmpRbxRax | TestRaxRax | SetAl(cond: Cond) | MovzxRaxAl
    | Je(target: Label) | Jne(target: Label) | Jmp(target: Label)
    | LabelDef(name: Label)
    | Remark
    | MovR13Rsp | SubRsp(bytes: nat) | MovRspR13
    | Ret
    // Text buffers emitted empty and filled in once the frame size is known.
    | SaveFrame | ReserveFrame | RestoreFrame

  datatype Flags = Unknown | Flags(zf: bool, cf: bool, sf: bool, of: bool)

  /** mem holds the 8-byte words whose contents are known, by address. */
  datatype Cpu = Cpu(rax: Word, rbx: Word, rcx: Word, rdx: Word, rsp: Word, r13: Word,
                     flags: Flags, mem: map<int, Word>)

  /** Writing a word makes the words it partly overlaps unknown. */
  function Store(mem: map<int, Word>, a: int, v: Word): map<int, Word> {
    (map x | x in mem && (x <= a - 8 || a + 8 <= x) :: mem[x])[a := v]
  }

  function CompareFlags(x: Word, y: Word): Flags {
    var d := W(x - y);
    Flags(x == y, x < y, d >= HALF, Signed(x) - Signed(y) != Signed(d))
  }

  predicate Holds(c: Cond, f: Flags)
    requires f.Flags?
  {
    match c
    case L => f.sf != f.of
    case LE => f.zf || f.sf != f.of
    case GE => f.sf == f.of
    case G => !f.zf && f.sf == f.of
    case E => f.zf
    case NE => !f.zf
    case A => !f.cf && !f.zf
  }

  /** idiv rbx: rdx:rax divided by rbx; None is the #DE fault. */
  function Idiv(m: Cpu): Option<Cpu> {
    var dividend := Signed(m.rdx) * MOD + m.rax;
    var divisor := Signed(m.rbx);
    if divisor == 0 then None
    else
      var q := TruncDiv(dividend, divisor);
      if !InRange(q) then None
      else Some(m.(rax := W(q), rdx := W(TruncRem(dividend, divisor)), flags := Unknown))
  }

  /** One instruction other than a jump or a return; None when the processor faults or when
      it would use a word or a flag that is not known. */
  function Exec1(i: Instr, m: Cpu): Option<Cpu> {
    match i
    case PushRax => var sp := W(m.rsp - 8); Some(m.(rsp := sp, mem := Store(m.mem, sp, m.rax)))
    case PushRbx => var sp := W(m.rsp - 8); Some(m.(rsp := sp, mem := Store(m.mem, sp, m.rbx)))
    case PopRbx => if m.rsp in m.mem then Some(m.(rbx := m.mem[m.rsp], rsp := W(m.rsp + 8))) else None
    case XorEaxEax => Some(m.(rax := 0, flags := Unknown))
    case MovRaxImm(v) => Some(m.(rax := W(SExt32(v))))
    case LeaRax(d) => Some(m.(rax := W(m.r13 + SExt32(d))))
    case LeaRbx(d) => Some(m.(rbx := W(m.r13 + SExt32(d))))
    case LoadRax => if m.rax in m.mem then Some(m.(rax := m.mem[m.rax])) else None
    case LoadRbx => if m.rbx in m.mem then Some(m.(rbx := m.mem[m.rbx])) else None
    case StoreRax => Some(m.(mem := Store(m.mem, m.rbx, m.rax)))
    case ImulRbx =>
      var p := Signed(m.rax) * Signed(m.rbx);
      Some(m.(rax := W(p), rdx := W(p / MOD), flags := Unknown))
    case XchgRbxRax => Some(m.(rax := m.rbx, rbx := m.rax))
    case Cqo => Some(m.(rdx := if m.rax < HALF then 0 else MOD - 1))
    case IdivRbx => Idiv(m)
    case MovRaxRdx => Some(m.(rax := m.rdx))
    case MovRaxRbx => Some(m.(rax := m.rbx))
    case MovRcxRax => Some(m.(rcx := m.rax))
    case AddRaxRbx => Some(m.(rax := W(m.rax + m.rbx), flags := Unknown))
    case SubRbxRax => Some(m.(rbx := W(m.rbx - m.rax), flags := Unknown))
    case SalRaxCl => Some(m.(rax := W(m.rax * Pow2(m.rcx % 256 % 64)), flags := Unknown))
    case SarRaxCl => Some(m.(rax := W(Signed(m.rax) / Pow2(m.rcx % 256 % 64)), flags := Unknown))
    case BitsRaxRbx(op) => Some(m.(rax := WordBits(op, m.rax, m.rbx), flags := Unknown))
    case NotRax => Some(m.(rax := MOD - 1 - m.rax))
    case CmpRbxRax => Some(m.(flags := CompareFlags(m.rbx, m.rax)))
    case TestRaxRax => Some(m.(flags := Flags(m.rax == 0, false, m.rax >= HALF, false)))
    case SetAl(c) =>
      if m.flags.Unknown? then None
      else Some(m.(rax := m.rax - m.rax % 256 + if Holds(c, m.flags) then 1 else 0))
    case MovzxRaxAl => Some(m.(rax := m.rax % 256))
    case LabelDef(_) => Some(m)
    case Remark => Some(m)
    case MovR13Rsp => Some(m.(r13 := m.rsp))
    case SubRsp(n) => Some(m.(rsp := W(m.rsp - n), flags := Unknown))
    case MovRspR13 => Some(m.(rsp := m.r13))
    case _ => None
  }

  predicate Straight(i: Instr) {
    !(i.LabelDef? || i.Je? || i.Jne? || i.Jmp? || i.Ret? || i.SaveFrame? || i.ReserveFrame? || i.RestoreFrame?)
  }

  /** Straight-line code. */
  function Run(code: seq<Instr>, m: Cpu): Option<Cpu>
    decreases code
  {
    if code == [] then Some(m)
    else
      match Exec1(code[0], m)
      case None => None
      case Some(m') => Run(code[1..], m')
  }

  lemma {:induction false} RunConcat(a: seq<Instr>, b: seq<Instr>, m: Cpu)
    ensures Run(a + b, m) == match Run(a, m) { case None => None case Some(m') => Run(b, m') }
    decreases a
  {
    if a == [] {
      assert a + b == b;
    } else {
      assert (a + b)[0] == a[0] && (a + b)[1..] == a[1..] + b;
      match Exec1(a[0], m) {
        case None =>
        case Some(m') => RunConcat(a[1..], b, m');
      }
    }
  }

  // ---- whole programs -------------------------------------------------------------------

  datatype Config = At(pc: nat, cpu: Cpu) | Halted(cpu: Cpu) | Fault

  /** The position of the first definition of l, or |p| when there is none. */
  function Find(p: seq<Instr>, l: Label): (k: nat)
    ensures k <= |p|
    ensures k < |p| ==> p[k] == LabelDef(l)
    ensures forall i :: 0 <= i < k ==> p[i] != LabelDef(l)
    decreases p
  {
    if p == [] then 0
    else if p[0] == LabelDef(l) then 0
    else 1 + Find(p[1..], l)
  }

  function JumpTo(p: seq<Instr>, l: Label, m: Cpu): Config {
    if Find(p, l) < |p| then At(Find(p, l), m) else Fault
  }

  function Step(p: seq<Instr>, c: Config): Config {
    match c
    case Halted(_) => c
    case Fault => c
    case At(pc, m) =>
      if pc >= |p| then Fault
      else
        match p[pc]
        case Jmp(l) => JumpTo(p, l, m)
        case Je(l) =>
          if m.flags.Unknown? then Fault
          else if m.flags.zf then JumpTo(p, l, m) else At(pc + 1, m)
        case Jne(l) =>
          if m.flags.Unknown? then Fault
          else if !m.flags.zf then JumpTo(p, l, m) else At(pc + 1, m)
        case Ret => Halted(m)
        case i =>
          match Exec1(i, m)
          case None => Fault
          case Some(m') => At(pc + 1, m')
  }

  /** f takes the steps of program p. Proofs about runs use f alone. */
  ghost predicate Runs(f: Config -> Config, p: seq<Instr>) {
    forall c: Config {:trigger Step(p, c)} :: f(c) == Step(p, c)
  }

  function Steps(f: Config -> Config, c: Config, n: nat): Config
    decreases n
  {
    if n == 0 then c else Steps(f, f(c), n - 1)
  }

  lemma {:induction false} StepsAdd(f: Config -> Config, c: Config, m: nat, n: nat)
    ensures Steps(f, c, m + n) == Steps(f, Steps(f, c, m), n)
    decreases m
  {
    if m > 0 {
      StepsAdd(f, f(c), m - 1, n);
    }
  }

  lemma {:induction false} FaultStays(f: Config -> Config, p: seq<Instr>, n: nat)
    requires Runs(f, p)
    ensures Steps(f, Fault, n) == Fault
    decreases n
  {
    if n > 0 {
      assert Step(p, Fault) == Fault;
      FaultStays(f, p, n - 1);
    }
  }

  /** The text buffers of the frame set-up, once filled in for a frame of the given size. */
  function Fill(i: Instr, frame: nat): Instr {
    match i
    case SaveFrame => if frame == 0 then Remark else MovR13Rsp
    case ReserveFrame => if frame == 0 then Remark else SubRsp(frame)
    case RestoreFrame => if frame == 0 then Remark else MovRspR13
    case _ => i
  }

  function FillAll(code: seq<Instr>, frame: nat): (p: seq<Instr>)
    ensures |p| == |code|
  {
    seq(|code|, k requires 0 <= k < |code| => Fill(code[k], frame))
  }

  /** The program p contains code, filled in, from position at. */
  ghost predicate CodeAt(p: seq<Instr>, frame: nat, at: nat, code: seq<Instr>)
    decreases |code|
  {
    if code == [] then at <= |p|
    else at < |p| && p[at] == Fill(code[0], frame) && CodeAt(p, frame, at + 1, code[1..])
  }

  lemma {:induction false} CodeAtSplit(p: seq<Instr>, frame: nat, at: nat, a: seq<Instr>, b: seq<Instr>)
    requires CodeAt(p, frame, at, a + b)
    ensures CodeAt(p, frame, at, a) && CodeAt(p, frame, at + |a|, b)
    decreases |a|
  {
    if a == [] {
      assert a + b == b;
      CodeAtEnd(p, frame, at, b);
    } else {
      assert (a + b)[1..] == a[1..] + b;
      CodeAtSplit(p, frame, at + 1, a[1..], b);
    }
  }

  lemma {:induction false} CodeAtEnd(p: seq<Instr>, frame: nat, at: nat, code: seq<Instr>)
    requires CodeAt(p, frame, at, code)
    ensures at + |code| <= |p|
    decreases |code|
  {
    if code != [] {
      CodeAtEnd(p, frame, at + 1, code[1..]);
    }
  }

  lemma {:induction false} InstrAt(p: seq<Instr>, frame: nat, at: nat, code: seq<Instr>, k: nat)
    requires CodeAt(p, frame, at, code) && k < |code|
    ensures at + k < |p| && p[at + k] == Fill(code[k], frame)
    decreases k
  {
    if k > 0 {
      InstrAt(p, frame, at + 1, code[1..], k - 1);
    }
  }

  /** Code is found where the filled-in text of the whole was put. */
  lemma {:induction false} CodeAtFilled(p: seq<Instr>, frame: nat, at: nat, code: seq<Instr>)
    requires at + |code| <= |p|
    requires forall k :: 0 <= k < |code| ==> p[at + k] == Fill(code[k], frame)
    ensures CodeAt(p, frame, at, code)
    decreases |code|
  {
    if code != [] {
      assert p[at + 0] == Fill(code[0], frame);
      forall k | 0 <= k < |code[1..]|
        ensures p[at + 1 + k] == Fill(code[1..][k], frame)
      {
        assert p[at + (k + 1)] == Fill(code[k + 1], frame);
      }
      CodeAtFilled(p, frame, at + 1, code[1..]);
    }
  }

  ghost predicate AllStraight(code: seq<Instr>) {
    forall k :: 0 <= k < |code| ==> Straight(code[k])
  }

  /** Straight-line code inside a program runs as it does alone. */
  lemma {:induction false} StepsStraight(f: Config -> Config, p: seq<Instr>, frame: nat, at: nat, code: seq<Instr>, m: Cpu)
    requires Runs(f, p) && CodeAt(p, frame, at, code) && AllStraight(code)
    ensures Steps(f, At(at, m), |code|) ==
            match Run(code, m) { case None => Fault case Some(m') => At(at + |code|, m') }
    decreases |code|
  {
    if code != [] {
      match Exec1(code[0], m) {
        case None =>
          assert Step(p, At(at, m)) == Fault;
          FaultStays(f, p, |code| - 1);
        case Some(m') =>
          assert Step(p, At(at, m)) == At(at + 1, m');
          StepsStraight(f, p, frame, at + 1, code[1..], m');
      }
    }
  }
}
