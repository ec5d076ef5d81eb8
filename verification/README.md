# Proofs about a from-seed toolchain

A Dafny 4.11 model of the text pipeline that turns C into bytes, and of the tools it runs on: the
AMD64 code generator of M2-Planet, its string literals and conditional inclusion, the macro assembler
M1, the two-pass linker hex2, the Mach-O layout and relocation tools, the patcher, the archiver and
the allocator. `dafny verify dfyconfig.toml` checks everything.

Every program that works by changing things is modelled as a class or as methods on arrays with the
fields and loops of the original, and proved equal to a function of its input; what the program is for
is then proved about that function.

| files | what they hold |
|---|---|
| `Word64`, `Amd64` | 64-bit words, and a machine for the instructions the compiler emits |
| `M2Grammar`, `M2Expr`, `M2Stmt` | parsing, code and meaning of expressions and statements |
| `M2StmtGrammar` | the grammar of statements, which the parse accepts exactly |
| `M2Meaning` | what operators and statements mean, in terms of numbers and bits |
| `M2Labels`, `M2Correct`, `M2Function` | labels, simulation of statements, whole functions |
| `M2Compiler` | the one-pass compiler as a class, proved to emit that code |
| `M2Strings` | string literals, through M1 and hex2 |
| `IfGroups`, `Preprocessor` | conditional inclusion: groups and their meaning, and the scanner |
| `M1Text`, `M1Assembler`, `Stringify` | M1: meaning, the program on shared blobs, numbers |
| `M1Print`, `M1Numbers` | M1's source text and the numbers in it, printed and read back |
| `Hex2Text`, `Hex2Print`, `Hex2Link`, `HexWords`, `Riscv`, `Hex2Instr`, `Hex2Linker` | hex2: its text, the meaning of linking, both linkers |
| `RelocSpec`, `RelocLinked`, `DataRelocs` | hex2-data-relocs |
| `SynthSpec`, `SynthText`, `SynthLinked`, `HashTable`, `SynthInject` | synth-inject |
| `M1ToHex2`, `M1Seams`, `M1Translator` | m1-to-hex2: the layout, where files meet, the program |
| `Malloc` | malloc and free of M2libc |
| `PatchLines`, `PatchSpec`, `BootPatch`, `PatchPrint` | boot-patch |
| `ArFormat`, `Archiver` | boot-ar |
| `Arith`, `Bits`, `Numerals`, `Wrappers` | arithmetic, words as bits, printed numbers, optional values |

A call of `exit` is a `None`, or a method that returns false; files are strings or sequences of bytes.
A character is a byte, and a file has no NUL where the original keeps it in a C string.

## Where the code does not do what one would expect

- malloc's comment says it looks for a free block that is equal or bigger; the code takes strictly
  bigger blocks only (`sources/stage0-posix/M2libc/stdlib.c:172-200`). The model follows the code.
- The branch of `primary_expr` for `!` looks at the first character of the token only, so that `!=` in
  front of an operand negates it (`sources/stage0-posix/M2-Planet/cc_core.c:1558-1573`).
- A declaration in a `for` header stays in scope until the block around the loop ends
  (`sources/stage0-posix/M2-Planet/cc_core.c:2328-2401`).
- The conditions of `#elif` behind a group that has been kept are evaluated, and may exit
  (`IfGroups.EvaluatesTooMuch`; `IfGroups.KeepsSelected` says exactly when).
- `#undef` takes out the latest definition only, so that a name defined twice stays defined
  (`sources/stage0-posix/M2-Planet/cc_macro.c:218-253`).
- `#warning` prints its words and leaves them in the token list, where they become part of the program
  (`sources/stage0-posix/M2-Planet/cc_macro.c:603-630`; `IfGroups.AgreesExactly` says exactly when the
  scanner agrees with the standard).
- `#undef` looks at the first definition without a test, so that with none it stops the program.
- m1-to-hex2 puts nothing between a file that ends in a space and the next file, so that a label or a
  reference runs into what follows (`M1Translator.TornRun`; `M1Translator.Translator.Translate` says
  exactly when).
- boot-patch does not write an empty last line without a newline, and then does not apply to its own
  result (`BootPatch.CleanAgain` says exactly when).
- In hex2 a literal word at the end of the text is never completed and its loop does not end; the model
  says that the link fails there.
- The archive's size field has ten digits, and a larger payload is cut (`ArFormat.RoundTrip` is an
  equivalence).

## Model

| member | source | states |
|---|---|---|
| `M2Grammar.ExprSound` | sources/stage0-posix/M2-Planet/cc_core.c:1876-1954 | whatever the expression rules accept is exactly one tree of the grammar (five left-associative binary levels, assignment to the right) followed by the tokens that are left |
| `M2Grammar.Complete` | sources/stage0-posix/M2-Planet/cc_core.c:1251-1520 | the other direction: the tokens of any tree of the grammar are parsed back to that tree, at every level |
| `M2Grammar.Precedence` | sources/stage0-posix/M2-Planet/cc_core.c:1251-1520 | main theorem: of any two operators next to each other, products come before sums, sums before shifts, shifts before comparisons and comparisons before and, or and exclusive or; those of one kind are grouped to the left |
| `M2Grammar.CompoundIs` | sources/stage0-posix/M2-Planet/cc_core.c:518-531 | which operators have a compound assignment |
| `M2Meaning.SumMeaning` | sources/stage0-posix/M2-Planet/cc_core.c:1251-1337 | sum, difference and product are those of the integers modulo 2^64, as signed numbers |
| `M2Meaning.QuotientMeaning` | sources/stage0-posix/M2-Planet/cc_core.c:1265-1270 | quotient and remainder give the dividend back, with a remainder nearer to zero than the divisor and of the sign of the dividend |
| `M2Meaning.ShiftMeaning` | sources/stage0-posix/M2-Planet/cc_core.c:1339-1371 | shifts multiply and divide by powers of two, the count taken modulo 64 |
| `M2Meaning.CompareMeaning` | sources/stage0-posix/M2-Planet/cc_core.c:1390-1446 | comparisons are 1 or 0 and fit together |
| `M2Meaning.BitMeaning` | sources/stage0-posix/M2-Planet/cc_core.c:1463-1513 | and, or and exclusive or, and the doubled forms of and and or, work on every bit |
| `M2Meaning.LiteralMeaning` | sources/stage0-posix/M2-Planet/cc_core.c:617-620 | literals of 32 bits are themselves |
| `M2Meaning.UnaryMeaning` | sources/stage0-posix/M2-Planet/cc_core.c:1542-1584 | minus, ! and ~ |
| `M2Expr.OpCorrect` | sources/stage0-posix/M2-Planet/cc_core.c:1251-1520 | the instructions of every binary operator compute the signed 64-bit operator of their two operands, and fault exactly when a division does |
| `M2Expr.DivideCorrect` | sources/stage0-posix/M2-Planet/cc_core.c:1265-1270 | xchg, cqo and idiv give the truncated quotient and remainder, and fault exactly on a zero divisor and on the one overflowing pair |
| `M2Expr.UpdateRuns` | sources/stage0-posix/M2-Planet/cc_core.c:1672-1873 | the read-modify-write of a compound assignment gives the new value, stores it in that local, and changes no other |
| `M2Expr.PushKeepsSlot` | sources/stage0-posix/M2-Planet/cc_emit.c:1164-1212 | a push while an expression is evaluated leaves the word of every local as it is |
| `M2Expr.SlotsDisjoint` | sources/stage0-posix/M2-Planet/cc_core.c:2089-2105 | two different locals have words that do not overlap, inside the frame below the locals register |
| `M2Expr.ExprCorrect` | sources/stage0-posix/M2-Planet/cc_core.c:900-1954 | main theorem: for every expression the emitted code leaves its value in rax, the locals as the expression leaves them, rsp and the locals register restored and the memory above rsp otherwise unchanged; it faults exactly when a division of the expression does |
| `M2StmtGrammar.StmtExactly` | sources/stage0-posix/M2-Planet/cc_core.c:2148-2709 | main theorem: the statement rule reads a tree and leaves a rest exactly of the tokens of that tree followed by the rest, where the tree is one of the grammar (names in scope, break and continue in loops, else with the last if) and the rest may follow it |
| `M2StmtGrammar.DeclsComplete` | sources/stage0-posix/M2-Planet/cc_core.c:2005-2143 | the tokens of any declarators, with commas between them or without, are read back as these declarators |
| `M2Meaning.SelectMeaning` | sources/stage0-posix/M2-Planet/cc_core.c:2148-2184 | what if selects for a condition that is zero and for one that is not |
| `M2Meaning.EmptyLoops` | sources/stage0-posix/M2-Planet/cc_core.c:2328-2509 | a loop whose condition is zero is not entered, but do runs once |
| `M2Meaning.JumpMeaning` | sources/stage0-posix/M2-Planet/cc_core.c:2524-2556 | break leaves a loop at once, without its step, and continue does not leave it |
| `M2Meaning.CountMeaning` | sources/stage0-posix/M2-Planet/cc_core.c:2328-2401 | a for whose body is continue counts up to its bound: continue goes to the step |
| `M2Correct.StmtCorrect` | sources/stage0-posix/M2-Planet/cc_core.c:2148-2571 | main theorem: the code of every nest of blocks, declarations, if, while, do, for, break, continue, return and expression statements simulates its meaning: it reaches the end or the loop target the meaning leads to with the same locals and stack, faults when the meaning traps, and runs on as long as the meaning does |
| `M2Correct.WhileCorrect` | sources/stage0-posix/M2-Planet/cc_core.c:2465-2509 | the case of while: labels, test, body, jump back, with break to the end and continue to the top |
| `M2Correct.DoCorrect` | sources/stage0-posix/M2-Planet/cc_core.c:2419-2461 | the case of do: continue leads to the test behind the body |
| `M2Correct.ForCorrect` | sources/stage0-posix/M2-Planet/cc_core.c:2328-2401 | the case of for: initialisation, test, jump around the step, body, and continue to the step |
| `M2Correct.IfCorrect` | sources/stage0-posix/M2-Planet/cc_core.c:2148-2184 | the case of if without else |
| `M2Correct.IfElseCorrect` | sources/stage0-posix/M2-Planet/cc_core.c:2148-2184 | the case of if with else |
| `M2Correct.ListCorrect` | sources/stage0-posix/M2-Planet/cc_core.c:2558-2571 | the statements of a block, one after the other in the scope the former have left |
| `M2Function.FunctionCorrect` | sources/stage0-posix/M2-Planet/cc_core.c:2796-2874 | main theorem: a whole function with prologue and epilogue, entered on any stack with room, returns what its body returns (main returns 0 at its end), with the stack pointer behind the return address, or runs on forever or faults when its body does |
| `M2Function.ProgramUnique` | sources/stage0-posix/M2-Planet/cc_core.c:72-75 | within a function every emitted label is defined once |
| `M2Function.ProgramLinked` | sources/stage0-posix/M2-Planet/cc_core.c:2148-2556 | every jump of the function has its label in the function, and the label a name leads to is the one place that defines it |
| `M2Labels.GenLabelled` | sources/stage0-posix/M2-Planet/cc_core.c:2148-2509 | the labels of a statement compiled at count n are distinct and numbered from n up to the count behind it |
| `M2Labels.GenJumps` | sources/stage0-posix/M2-Planet/cc_core.c:2524-2556 | every jump of a statement goes to a label of its own code or of the loop around it |
| `M2Labels.TextInjective` | sources/stage0-posix/M2-Planet/cc_core.c:72-75 | different labels of a function have different texts, whatever the function is called |
| `M2Function.NeverFallsOff` | sources/stage0-posix/M2-Planet/cc_core.c:2861-2870 | when the last line emitted is a return, the body never runs off its end, so that leaving out the epilogue is safe |
| `M2Function.LiveLocalsDisjoint` | sources/stage0-posix/M2-Planet/cc_core.c:2838-2858 | wherever two locals are both in scope, however blocks and for declarations nest, their words do not overlap and lie in the reserved frame, above where the stack pointer is then |
| `M2Function.ScopesFit` | sources/stage0-posix/M2-Planet/cc_core.c:2089-2105 | no scope has more locals than the frame has words |
| `M2Compiler.Compiler.SymLookup` | sources/stage0-posix/M2-Planet/cc_core.c:89-97 | the innermost declaration of a name, if there is any |
| `M2Compiler.Compiler.CommonRecursion` | sources/stage0-posix/M2-Planet/cc_core.c:900-910 | a push, the code of what the rule parses next, a pop into rbx |
| `M2Compiler.Compiler.PrimaryExpr` | sources/stage0-posix/M2-Planet/cc_core.c:1528-1670 | consumes exactly what the primary rule parses and appends exactly that tree's code, or exits exactly if it does not parse |
| `M2Compiler.Compiler.VariableExpr` | sources/stage0-posix/M2-Planet/cc_core.c:760-876 | the address of a local, and a load unless an assignment follows |
| `M2Compiler.Compiler.NegExpr` | sources/stage0-posix/M2-Planet/cc_core.c:1542-1557 | unary minus on a primary expression |
| `M2Compiler.Compiler.NotExpr` | sources/stage0-posix/M2-Planet/cc_core.c:1558-1573 | the branch of tokens that begin with an exclamation mark |
| `M2Compiler.Compiler.ComplExpr` | sources/stage0-posix/M2-Planet/cc_core.c:1574-1584 | bitwise complement |
| `M2Compiler.Compiler.ParenExpr` | sources/stage0-posix/M2-Planet/cc_core.c:1626-1646 | a parenthesised expression |
| `M2Compiler.Compiler.LevelExpr` | sources/stage0-posix/M2-Planet/cc_core.c:1292-1520 | each of the five binary levels against the parse and the code of that level |
| `M2Compiler.Compiler.LevelStub` | sources/stage0-posix/M2-Planet/cc_core.c:1251-1513 | the recursion behind the first operand of a level, which groups to the left |
| `M2Compiler.Compiler.Expr` | sources/stage0-posix/M2-Planet/cc_core.c:1876-1954 | a whole expression with its assignment or compound assignment |
| `M2Compiler.Compiler.AssignRest` | sources/stage0-posix/M2-Planet/cc_core.c:1876-1954 | what follows the equals sign: the value is stored through the address that has been pushed |
| `M2Compiler.Compiler.CompoundRest` | sources/stage0-posix/M2-Planet/cc_core.c:1672-1873 | what follows a compound assignment operator |
| `M2Compiler.Compiler.CollectLocal` | sources/stage0-posix/M2-Planet/cc_core.c:2005-2143 | the declarators of a declaration: every local gets the next word below the last one, is in scope in its own initialiser, and the frame grows by one word each |
| `M2Compiler.Compiler.Initialise` | sources/stage0-posix/M2-Planet/cc_core.c:2107-2123 | an initialiser and the store into the local declared last |
| `M2Compiler.Compiler.ProcessIf` | sources/stage0-posix/M2-Planet/cc_core.c:2148-2184 | consumes an if statement and appends exactly its code; count, depth and scope come out as its tree says |
| `M2Compiler.Compiler.ProcessWhile` | sources/stage0-posix/M2-Planet/cc_core.c:2465-2509 | the same for while, with the break and continue targets restored behind it |
| `M2Compiler.Compiler.ProcessDo` | sources/stage0-posix/M2-Planet/cc_core.c:2419-2461 | the same for do |
| `M2Compiler.Compiler.ProcessFor` | sources/stage0-posix/M2-Planet/cc_core.c:2328-2401 | the same for for |
| `M2Compiler.Compiler.ForHeader` | sources/stage0-posix/M2-Planet/cc_core.c:2353-2388 | the header of for: initialisation or declaration, test and step with their jumps |
| `M2Compiler.Compiler.ProcessJump` | sources/stage0-posix/M2-Planet/cc_core.c:2524-2556 | break and continue: a jump to the numbered target, and an exit outside of loops |
| `M2Compiler.Compiler.ReturnResult` | sources/stage0-posix/M2-Planet/cc_core.c:2513-2522 | return with or without a value |
| `M2Compiler.Compiler.RecursiveStatement` | sources/stage0-posix/M2-Planet/cc_core.c:2558-2571 | a block: the locals are those in front of it again afterwards, the reserved depth is not |
| `M2Compiler.Compiler.Statement` | sources/stage0-posix/M2-Planet/cc_core.c:2615-2709 | every statement: exactly the tree that parses is consumed and exactly its code appended, and exit exactly if none parses |
| `M2Compiler.Compiler.DeclareFunction` | sources/stage0-posix/M2-Planet/cc_core.c:2796-2874 | a function body with the frame texts filled in afterwards is exactly the program that FunctionCorrect is about |
| `Hex2Link.LinkLength` | sources/stage0-posix/mescc-tools/hex2_linker.c:502-583 | pass 1 ends at the base plus the number of bytes pass 2 writes |
| `Hex2Link.TargetIsAddress` | sources/stage0-posix/mescc-tools/hex2_linker.c:129-150 | the value of a name is the pass-1 address of the last item that defines it, and there is none exactly if nothing defines it |
| `Hex2Link.LabelAddress` | sources/stage0-posix/mescc-tools/hex2_linker.c:502-583 | that address is the base plus the number of bytes written in front of the definition |
| `Hex2Link.PointerLinked` | sources/stage0-posix/mescc-tools/hex2_linker.c:337-380 | main theorem: in every program that links, the one, two or four bytes behind !, @, %, and the three behind ~, read back as the distance from the end of the pointer or from the base label it names, and the two behind $ and four behind & as the target; exactly below four bytes and modulo 2^32 in four |
| `Hex2Link.PointerDecodes` | sources/stage0-posix/mescc-tools/hex2_linker.c:232-257 | the bytes in either order decode to the number, exactly within the field and always modulo its size |
| `Hex2Link.LittleAt` | sources/stage0-posix/mescc-tools/hex2_linker.c:247-256 | the bytes of a number, the lowest first |
| `Hex2Link.FieldRange` | sources/stage0-posix/mescc-tools/hex2_linker.c:152-230 | the numbers there is room for behind each character |
| `Hex2Print.TextRead` | sources/stage0-posix/mescc-tools/hex2_linker.c:382-583 | main theorem: a text of labels, pointers of every kind with and without base, digits, white space and remarks, and for RISC-V immediates, literal words and padding, is read as exactly these |
| `Hex2Link.LinkFails` | sources/stage0-posix/mescc-tools/hex2_linker.c:152-230 | a link fails exactly if some item has an undefined name, a number that does not fit its field, or is a literal word the text ends in |
| `Hex2Instr.InstructionWritten` | sources/stage0-posix/mescc-tools/hex2_word.c:161-246 | four bytes of digits, with white space and labels among them, are the digits' word exclusive-or the register, which is zero again afterwards |
| `Hex2Instr.InstructionLinked` | sources/stage0-posix/mescc-tools/hex2_word.c:37-246 | main theorem: an instruction of literal words, labels and white space around one reference, and an opcode, is refused exactly if its immediate is, and otherwise is the word of opcode and literals exclusive-or the immediate, whatever the register held before |
| `Hex2Instr.BranchLinked` | sources/stage0-posix/mescc-tools/hex2_word.c:73-87 | a branch with any register words around its reference links exactly for a defined label at an even distance of 13 bits, and the instruction holds that distance |
| `Hex2Instr.BranchInProgram` | sources/stage0-posix/mescc-tools/hex2_word.c:73-87 | every such branch in a linked program holds the distance from itself to its label |
| `Hex2Instr.JumpLinked` | sources/stage0-posix/mescc-tools/hex2_word.c:88-100 | the same for jumps and 21 bits |
| `Hex2Instr.JumpInProgram` | sources/stage0-posix/mescc-tools/hex2_word.c:88-100 | every such jump in a linked program holds the distance from itself to its label |
| `Hex2Instr.PairLinked` | sources/stage0-posix/mescc-tools/hex2_word.c:60-109 | a ~ and a ! reference in neighbouring instructions, with register words, white space and labels around them, add up to the distance from the first to the label, modulo 2^32 |
| `Hex2Instr.PairInProgram` | sources/stage0-posix/mescc-tools/hex2_word.c:60-109 | main theorem: the same for every such pair in a linked program |
| `Riscv.BranchDecodes` | sources/stage0-posix/mescc-tools/hex2_word.c:73-87 | the B format of section 2.3 of the RISC-V Unprivileged ISA Specification: accepted exactly if even and of 13 bits, and decoded to the displacement |
| `Riscv.JumpDecodes` | sources/stage0-posix/mescc-tools/hex2_word.c:88-100 | the J format, in the same way |
| `Riscv.LowDecodes` | sources/stage0-posix/mescc-tools/hex2_word.c:60-72 | the I immediate decodes to the signed low 12 bits |
| `Riscv.HighDecodes` | sources/stage0-posix/mescc-tools/hex2_word.c:101-109 | the U immediate decodes to what the signed low part leaves |
| `Riscv.PairDecodes` | sources/stage0-posix/mescc-tools/hex2_word.c:60-109 | both together give the displacement of any 32-bit distance |
| `Riscv.BranchPlaces` | sources/stage0-posix/mescc-tools/hex2_word.c:73-87 | where each bit of a branch immediate goes |
| `Riscv.JumpPlaces` | sources/stage0-posix/mescc-tools/hex2_word.c:88-100 | where each bit of a jump immediate goes |
| `Riscv.LowPlaces` | sources/stage0-posix/mescc-tools/hex2_word.c:60-72 | where each bit of the low immediate goes |
| `Riscv.HighPlaces` | sources/stage0-posix/mescc-tools/hex2_word.c:101-109 | where each bit of the high immediate goes |
| `Hex2Instr.LiteralBytes` | sources/stage0-posix/mescc-tools/hex2_word.c:41-59 | each byte of a literal word meets the byte written in its place, for a big-endian target in the opposite order |
| `Hex2Linker.Linker.ConsumeToken` | sources/stage0-posix/mescc-tools/hex2_linker.c:48-62 | the name up to the next separator, which is consumed with it |
| `Hex2Linker.Linker.GetTarget` | sources/stage0-posix/mescc-tools/hex2_linker.c:113-127 | the search of one hash chain finds the last definition in the plain list of labels |
| `Hex2Linker.Linker.StoreLabel` | sources/stage0-posix/mescc-tools/hex2_linker.c:129-150 | a definition is appended to the list of labels and put in front of its chain |
| `Hex2Linker.Linker.RangeCheck` | sources/stage0-posix/mescc-tools/hex2_linker.c:152-230 | accepts exactly the numbers of a field |
| `Hex2Linker.Linker.OutputPointer` | sources/stage0-posix/mescc-tools/hex2_linker.c:232-257 | writes the bytes of a pointer in the chosen order, or exits exactly if it does not fit |
| `Hex2Linker.Linker.StorePointer` | sources/stage0-posix/mescc-tools/hex2_linker.c:337-380 | resolves a pointer and its base label and writes what the item means |
| `Hex2Linker.Linker.ProcessByte` | sources/stage0-posix/mescc-tools/hex2_linker.c:419-479 | one character as a digit: the unfinished byte, the address and the output |
| `Hex2Linker.Linker.PadToAlign` | sources/stage0-posix/mescc-tools/hex2_linker.c:481-500 | moves to the next multiple of four on RISC-V, writing zeros in the second pass |
| `Hex2Linker.Linker.FirstPass` | sources/stage0-posix/mescc-tools/hex2_linker.c:502-550 | over all files: the address and the labels are those of the items of the text |
| `Hex2Linker.Linker.SecondPass` | sources/stage0-posix/mescc-tools/hex2_linker.c:552-583 | over all files: writes the bytes of the items, or exits exactly if they have none |
| `Hex2Linker.Linker.DoByte` | sources/stage0-posix/mescc-tools/hex2_word.c:168-246 | a digit with the register exclusive-ored into every byte that is completed |
| `Hex2Linker.Linker.ReadLiteral` | sources/stage0-posix/mescc-tools/hex2_word.c:168-246 | the digits of a literal word |
| `Hex2Linker.Linker.UpdateShiftRegister` | sources/stage0-posix/mescc-tools/hex2_word.c:37-118 | exclusive-ors the bits of an immediate into the register, or exits exactly if it is out of range |
| `Hex2Linker.Linker.WordStorePointer` | sources/stage0-posix/mescc-tools/hex2_word.c:120-159 | the pointers % and & of the word passes |
| `Hex2Linker.Linker.WordFirstPass` | sources/stage0-posix/mescc-tools/hex2_word.c:248-314 | the first pass for RISC-V |
| `Hex2Linker.Linker.WordSecondPass` | sources/stage0-posix/mescc-tools/hex2_word.c:316-370 | the second pass for RISC-V |
| `Hex2Linker.Linker.LinkFiles` | sources/stage0-posix/mescc-tools/hex2_linker.c:502-583 | both passes together are the link of the items of all files in command-line order |
| `M1Assembler.Assembler.GetHash` | sources/stage0-posix/mescc-tools/M1-macro.c:114-123 | the hash of a text |
| `M1Assembler.Assembler.FindBlob` | sources/stage0-posix/mescc-tools/M1-macro.c:125-136 | the search of one chain finds the one blob with the text in SCRATCH, if there is one |
| `M1Assembler.Assembler.NewBlob` | sources/stage0-posix/mescc-tools/M1-macro.c:145-162 | a new blob keeps the table and the list of blobs complete, with one blob to every text |
| `M1Assembler.Assembler.StoreAtom` | sources/stage0-posix/mescc-tools/M1-macro.c:217-249 | reads up to the next blank, shares or makes the blob, and keeps a newline that ends it |
| `M1Assembler.Assembler.StoreString` | sources/stage0-posix/mescc-tools/M1-macro.c:251-284 | reads up to the same quote, and exits exactly if there is none or the string is too long |
| `M1Assembler.Assembler.TokenizeLine` | sources/stage0-posix/mescc-tools/M1-macro.c:286-336 | appends exactly the tokens of a file, without doubled newlines |
| `M1Assembler.Assembler.LineMacro` | sources/stage0-posix/mescc-tools/M1-macro.c:338-361 | every definition becomes a newline in the list and is written once into the shared blob of its name; exits exactly if one is incomplete |
| `M1Assembler.Assembler.HexifyString` | sources/stage0-posix/mescc-tools/M1-macro.c:363-431 | the digits of every character and of the final zero |
| `M1Assembler.Assembler.ProcessString` | sources/stage0-posix/mescc-tools/M1-macro.c:433-450 | fills in every string blob, whatever a definition has put there |
| `M1Assembler.Assembler.EvalImmediates` | sources/stage0-posix/mescc-tools/M1-macro.c:698-754 | fills in every number that is still open, and exits exactly if one does not fit |
| `M1Assembler.Assembler.PreserveOther` | sources/stage0-posix/mescc-tools/M1-macro.c:473-493 | fills in references, labels and padding that are still open, and exits exactly on negative padding |
| `M1Assembler.Assembler.PrintHex` | sources/stage0-posix/mescc-tools/M1-macro.c:756-780 | prints the list, and exits exactly if a token has nothing to print |
| `M1Assembler.Assembler.Run` | sources/stage0-posix/mescc-tools/M1-macro.c:917-928 | main theorem: the program with its shared blobs computes exactly the functional meaning of the files |
| `M1Text.DefinedLast` | sources/stage0-posix/mescc-tools/M1-macro.c:338-361 | a name stands for its last definition, before and after it |
| `M1Text.DefineUses` | sources/stage0-posix/mescc-tools/M1-macro.c:338-361 | what remains are the tokens that are part of no definition, in their order |
| `M1Text.ExpansionIsSubstitution` | sources/stage0-posix/mescc-tools/M1-macro.c:756-780 | main theorem: up to white space the output is the program without its definitions, every other use of a defined name replaced by its last definition, once and not again |
| `M1Text.ImmediateWritten` | sources/stage0-posix/mescc-tools/M1-macro.c:698-754 | an immediate of a program becomes the bytes in hex2 of the number that is read in it |
| `M1Numbers.SignedRead` | sources/stage0-posix/M2libc/bootstrappable.c:88-161 | a number of 32 bits printed in decimal, with its sign, is read back |
| `M1Numbers.RadixRead` | sources/stage0-posix/M2libc/bootstrappable.c:129-161 | and so is one behind 0x, 0b and 0, as an int |
| `M1Numbers.Int32Is` | sources/stage0-posix/M2libc/bootstrappable.c:158-159 | an int is the number modulo 2^32, with its sign |
| `M1Numbers.NoNumber` | sources/stage0-posix/M2libc/bootstrappable.c:101-119 | a text with anything but digits and underscores is 0 |
| `M1Numbers.UnderscoresSkipped` | sources/stage0-posix/M2libc/bootstrappable.c:101-107 | underscores make no difference |
| `M1Numbers.NumberLinked` | sources/stage0-posix/mescc-tools/M1-macro.c:698-754 | main theorem: a number printed behind !, @, $, ~, % or & that fits there becomes its one, two, two, three, four or four bytes in hex2, wherever it stands between two bytes |
| `M1Numbers.PaddingLinked` | sources/stage0-posix/mescc-tools/M1-macro.c:452-493 | a number behind < becomes as many zeros |
| `M1Print.TextRead` | sources/stage0-posix/mescc-tools/M1-macro.c:286-336 | a text of atoms, strings, white space and remarks is read as exactly these tokens |
| `Stringify.Stringify` | sources/stage0-posix/mescc-tools/stringify.c:95-104 | writes the last digits of a number and returns the rest of it |
| `Stringify.ReverseBitOrder` | sources/stage0-posix/mescc-tools/stringify.c:35-68 | reverses the digits of every byte in place |
| `Stringify.LittleEndian` | sources/stage0-posix/mescc-tools/stringify.c:70-86 | reverses the bytes of the string in place, every byte keeping the order of its digits |
| `Stringify.ExpressNumber` | sources/stage0-posix/mescc-tools/M1-macro.c:546-611 | the digits of an immediate in the chosen order, or an exit exactly if it is out of bounds |
| `Stringify.FlippedMirror` | sources/stage0-posix/mescc-tools/stringify.c:70-86 | turning the string around and then every byte back reverses the bytes |
| `Stringify.NumberWritten` | sources/stage0-posix/mescc-tools/M1-macro.c:546-611 | main theorem: in hexadecimal and binary and both orders the digits of every accepted immediate become in hex2, wherever they stand between two bytes, the bytes of the value modulo 256^n, those of a pointer with that value |
| `HexWords.WritesByte` | sources/stage0-posix/mescc-tools/hex2_linker.c:419-479 | as many digits as a byte has are read as one byte |
| `HexWords.WritesConcat` | sources/stage0-posix/mescc-tools/hex2_linker.c:419-479 | texts that stand for bytes may be put one after the other |
| `HexWords.WritesLinks` | sources/stage0-posix/mescc-tools/hex2_linker.c:502-583 | a file of such text links to its bytes from every base |
| `M2Strings.ParseOctalEscapeCode` | sources/stage0-posix/M2-Planet/cc_strings.c:66-84 | the value of up to three octal digits modulo 256, as a signed char |
| `M2Strings.AmountOfEscapedCharsToSkip` | sources/stage0-posix/M2-Planet/cc_strings.c:86-100 | how many characters an escape takes up behind its backslash |
| `M2Strings.SimpleEscapes` | sources/stage0-posix/M2-Planet/cc_strings.c:123-151 | the bytes of the escapes that are letters |
| `M2Strings.HexEscape` | sources/stage0-posix/M2-Planet/cc_strings.c:123-151 | two printed hexadecimal digits denote their byte |
| `M2Strings.OctalEscape` | sources/stage0-posix/M2-Planet/cc_strings.c:66-84 | and so do three octal ones, modulo 256 |
| `M2Strings.EscapeLookup` | sources/stage0-posix/M2-Planet/cc_strings.c:123-151 | the byte an escape denotes, and an exit exactly if there is no such escape |
| `M2Strings.IsWeird` | sources/stage0-posix/M2-Planet/cc_strings.c:103-120 | whether a literal has a byte that cannot be printed as text, or white space in front of a colon |
| `M2Strings.Collector.CollectRegularString` | sources/stage0-posix/M2-Planet/cc_strings.c:154-181 | the bytes as characters between quotes, and an exit exactly if there are too many or an escape is unknown |
| `M2Strings.Collector.CollectWeirdString` | sources/stage0-posix/M2-Planet/cc_strings.c:184-218 | the bytes as hexadecimal digits with a final zero, in the same way |
| `M2Strings.Collector.ParseString` | sources/stage0-posix/M2-Planet/cc_strings.c:221-226 | the choice between the two |
| `M2Strings.StringRoundTrip` | sources/stage0-posix/M2-Planet/cc_strings.c:154-226 | main theorem: whichever text is printed, M1 reads it back as one token and prints what hex2 takes for exactly the bytes of the literal and one zero, between whatever else |
| `M2Strings.StringFile` | sources/stage0-posix/mescc-tools/M1-macro.c:251-450 | and a file of its own goes through all three programs |
| `M2Strings.WeirdPlain` | sources/stage0-posix/M2-Planet/cc_strings.c:103-120 | a literal that is printed as text has printable bytes only, no quote among them |
| `Preprocessor.Scanner.EatUntilEndif` | sources/stage0-posix/M2-Planet/cc_macro.c:877-892 | stops at the #endif of the nested group it has been called in, or exits if there is none |
| `Preprocessor.Scanner.EatBlock` | sources/stage0-posix/M2-Planet/cc_macro.c:894-926 | stops at the next branch of the same #if and rewinds to the newline in front of it |
| `Preprocessor.Scanner.MacroDirective` | sources/stage0-posix/M2-Planet/cc_macro.c:728-874 | one directive: token list, macros and the stack of conditional inclusions |
| `Preprocessor.Scanner.HandleDefine` | sources/stage0-posix/M2-Planet/cc_macro.c:534-594 | a definition goes in front of the others |
| `Preprocessor.Scanner.RemoveMacro` | sources/stage0-posix/M2-Planet/cc_macro.c:218-253 | takes out the latest definition of a name, and stops the program if there is no definition at all |
| `Preprocessor.Scanner.Preprocess` | sources/stage0-posix/M2-Planet/cc_macro.c:1094-1129 | the whole scan, in place, keeps the tokens of the functional scan, and exits exactly when it does |
| `Preprocessor.Scanner.EatNewlineTokens` | sources/stage0-posix/M2-Planet/cc_macro.c:99-116 | the list without its newlines |
| `IfGroups.SkipBlock` | sources/stage0-posix/M2-Planet/cc_macro.c:894-926 | skipping from the newline in front of any well-nested group ends at the branch behind it |
| `IfGroups.SkipRest` | sources/stage0-posix/M2-Planet/cc_macro.c:877-892 | skipping from any branch of a nested section ends at its own #endif |
| `IfGroups.ScanRest` | sources/stage0-posix/M2-Planet/cc_macro.c:783-822 | the branches behind groups that were not kept |
| `IfGroups.ScanDone` | sources/stage0-posix/M2-Planet/cc_macro.c:783-822 | the branches behind a kept group are skipped, their conditions evaluated |
| `IfGroups.KeepsSelected` | sources/stage0-posix/M2-Planet/cc_macro.c:1094-1129 | main theorem: on the text of any well-nested groups, with whatever directive lines in them, the flat scanner keeps exactly the tokens of the groups selected by the recursive meaning of section 6.10.1 of ISO C11, with the words of their #warning lines, and exits exactly if #error is among them, a condition it evaluates has no value, or #undef meets an empty list |
| `IfGroups.AgreesExactly` | sources/stage0-posix/M2-Planet/cc_macro.c:728-874 | main theorem: the scanner agrees with the meaning exactly if everything it evaluates has a value and no selected group has a #warning with words; what has no meaning it refuses in any case |
| `IfGroups.WarningKept` | sources/stage0-posix/M2-Planet/cc_macro.c:603-630 | where they differ: the words of a #warning become part of the program |
| `IfGroups.EvaluatesTooMuch` | sources/stage0-posix/M2-Planet/cc_macro.c:783-798 | where scanner and meaning differ: a condition behind the group that is kept, which the standard does not evaluate, makes the scanner exit |
| `IfGroups.TestsMean` | sources/stage0-posix/M2-Planet/cc_macro.c:745-782 | #ifdef of a defined name selects the group behind it and #ifndef the #else group |
| `IfGroups.DefinedIs` | sources/stage0-posix/M2-Planet/cc_macro.c:175-216 | a name is defined as long as a definition of it is left |
| `IfGroups.RemovedIs` | sources/stage0-posix/M2-Planet/cc_macro.c:218-253 | #undef takes out one definition of its name and none of another |
| `Malloc.Heap.MallocBrk` | sources/stage0-posix/M2libc/stdlib.c:49-66 | takes bytes at the top of the heap, or gives 0 if the system refuses |
| `Malloc.Heap.InsertUsed` | sources/stage0-posix/M2libc/stdlib.c:82-124 | a block in use goes in front of the allocated list |
| `Malloc.Heap.InsertFree` | sources/stage0-posix/M2libc/stdlib.c:82-124 | a free block goes in front of the first that is not smaller |
| `Malloc.Heap.Free` | sources/stage0-posix/M2libc/stdlib.c:130-166 | moves exactly the block with this address to the free list and keeps all invariants, or fails exactly if no live block has it |
| `Malloc.Heap.FindFree` | sources/stage0-posix/M2libc/stdlib.c:172-200 | moves the first free block strictly larger than the size to the allocated list |
| `Malloc.Heap.AddNew` | sources/stage0-posix/M2libc/stdlib.c:206-230 | a node and a block at the top of the heap, disjoint from all others |
| `Malloc.Heap.Malloc` | sources/stage0-posix/M2libc/stdlib.c:260-287 | every request: nothing for 0 and for more than the largest class, otherwise a block of a power of two that is large enough, live blocks and invariants kept |
| `Malloc.ClassFits` | sources/stage0-posix/M2libc/stdlib.c:260-287 | the class of a request is the smallest standard size that holds it, and only requests above the largest have none |
| `Malloc.FirstFitIsBest` | sources/stage0-posix/M2libc/stdlib.c:172-200 | on the sorted list first fit takes a smallest block strictly larger than the class, and misses only if there is none |
| `Malloc.LiveBlocksApart` | sources/stage0-posix/M2libc/stdlib.c:260-287 | in every state reached, two live blocks share no byte, nor does one with a node |
| `Malloc.LiveAndFreeApart` | sources/stage0-posix/M2libc/stdlib.c:130-166 | nor does a live block with a free one |
| `Malloc.InsertedSorted` | sources/stage0-posix/M2libc/stdlib.c:82-124 | inserting keeps the free list sorted and loses nothing |
| `PatchLines.SplitLines` | sources/tools/boot-patch.c:164-200 | in place: newlines become NULs and the vector points at the lines of the file |
| `PatchLines.SplitUnsplit` | sources/tools/boot-patch.c:305-318 | writing the lines of a file gives the file back, its last newline or the lack of it included |
| `PatchLines.UnsplitSplit` | sources/tools/boot-patch.c:164-200 | and reading what was written gives the lines back, but for a single empty line without newline |
| `BootPatch.Patcher.MatchLines` | sources/tools/boot-patch.c:263-274 | whether a block of lines stands at a position |
| `BootPatch.Patcher.FindHunk` | sources/tools/boot-patch.c:278-295 | the search outwards from the clamped line, later lines first |
| `BootPatch.Patcher.ReadBody` | sources/tools/boot-patch.c:461-516 | the old and the new text of a hunk, or an exit exactly if it is malformed |
| `PatchPrint.HunkRead` | sources/tools/boot-patch.c:431-516 | a printed hunk is read as its start, the kept and removed lines as old text and the kept and added ones as new text |
| `PatchPrint.DiffRead` | sources/tools/boot-patch.c:429-516 | and so are all hunks of a diff |
| `PatchPrint.DiffApplied` | sources/tools/boot-patch.c:415-580 | main theorem: the diff printed for any changes turns the old file into the new one, its end as it was |
| `BootPatch.Patcher.ApplyHunk` | sources/tools/boot-patch.c:518-569 | applies, skips or refuses a hunk as the nearest matches say; the result array never overflows |
| `BootPatch.Patcher.PatchFile` | sources/tools/boot-patch.c:415-580 | a whole file: the written text is that of the functional patch |
| `BootPatch.Patcher.WriteResult` | sources/tools/boot-patch.c:305-318 | the lines joined by newlines, the last as in the original |
| `PatchSpec.FindNearest` | sources/tools/boot-patch.c:278-295 | main theorem: the match at or behind the floor that is nearest to the clamped line, the later of two, and -1 exactly if none lies within as many lines as the file has |
| `PatchSpec.ApplyIsExact` | sources/tools/boot-patch.c:518-569 | a clean patch replaces every old block by its new one and nothing else |
| `BootPatch.PatchIsExact` | sources/tools/boot-patch.c:415-580 | main theorem: the same for the bytes of the file, its final newline included |
| `PatchSpec.SkippedExactly` | sources/tools/boot-patch.c:518-553 | a hunk is taken for applied at a line exactly if its new text stands there behind the floor and within reach, is not found nearer, and the old text is not found as near |
| `PatchSpec.AppliedExactly` | sources/tools/boot-patch.c:429-553 | a file has all hunks applied in this sense, one behind the other, exactly if the program skips them all |
| `PatchSpec.RunAgain` | sources/tools/boot-patch.c:518-553 | running hunks on a file in which they have been applied changes no line |
| `PatchSpec.CleanApplied` | sources/tools/boot-patch.c:518-569 | the result of a clean patch is such a file if neither text of a hunk stands anywhere else |
| `BootPatch.PatchAgain` | sources/tools/boot-patch.c:518-580 | main theorem: running a patch on a file in which it has been applied, however that came about, writes the file unchanged, byte for byte |
| `BootPatch.CleanAgain` | sources/tools/boot-patch.c:518-580 | main theorem: running a clean patch on its own result, where neither text of a hunk stands anywhere else, writes it unchanged exactly if the result has a last newline, is empty, or does not end in an empty line |
| `PatchLines.LostLine` | sources/tools/boot-patch.c:305-318 | an empty last line without a newline is not written |
| `RelocSpec.ParseSpaced` | nix/bootstrap/hex2-data-relocs.c:226-340 | in the tables of every source text the references lie apart from each other and on one side of the data boundary |
| `RelocLinked.TablesAgree` | nix/bootstrap/hex2-data-relocs.c:121-340 | main theorem: the tables of a text hold the addresses that hex2 gives its labels and the pointers of its % and & references |
| `RelocLinked.NumbersNumeric` | nix/bootstrap/hex2-data-relocs.c:78-103 | printed numbers behind % and & are no names |
| `RelocLinked.NamesNot` | nix/bootstrap/hex2-data-relocs.c:78-103 | what begins with a letter or an underscore is a name |
| `RelocLinked.CodeKept` | nix/bootstrap/hex2-data-relocs.c:418-428 | a label of code keeps the address hex2 has given it |
| `RelocSpec.LoaderMaps` | nix/bootstrap/hex2-data-relocs.c:388-444 | new addresses and positions in the file differ by where the file is mapped |
| `RelocSpec.LookupUnique` | nix/bootstrap/hex2-data-relocs.c:193-223 | with unique labels the scan finds the one there is |
| `DataRelocs.Relocs.HandleToken` | nix/bootstrap/hex2-data-relocs.c:226-279 | one token: labels, references and the offset they are recorded at |
| `DataRelocs.Relocs.ParseSource` | nix/bootstrap/hex2-data-relocs.c:282-340 | the tables of a whole source text, comments skipped |
| `DataRelocs.Relocs.LookupLabel` | nix/bootstrap/hex2-data-relocs.c:193-223 | the offset of a label by comparing names in the pool, or -1 |
| `DataRelocs.Relocs.PackLe32` | nix/bootstrap/hex2-data-relocs.c:343-349 | four bytes, least significant first |
| `DataRelocs.Relocs.MoveData` | nix/bootstrap/hex2-data-relocs.c:394-400 | the backward copy of overlapping ranges copies the block as it was |
| `DataRelocs.Relocs.PatchBinary` | nix/bootstrap/hex2-data-relocs.c:352-456 | the array ends up as the block moved and every reference rewritten, and the size written is exactly that of the file or of the moved block, whichever ends later |
| `DataRelocs.RelativeReference` | nix/bootstrap/hex2-data-relocs.c:402-416 | main theorem: a relative reference from code to data, after patching, leads to where the loader puts its target |
| `DataRelocs.AbsoluteReference` | nix/bootstrap/hex2-data-relocs.c:418-444 | main theorem: an absolute reference in code or in the moved data holds the new address of its target |
| `DataRelocs.OtherBytes` | nix/bootstrap/hex2-data-relocs.c:352-456 | main theorem: every other byte of code and moved data is as it was |
| `SynthSpec.PlusPosOfLabel` | nix/bootstrap/synth-inject.c:295-317 | a label sym_plus_hex is taken apart as it was put together, also if sym contains _plus_ itself |
| `SynthSpec.PassErased` | nix/bootstrap/synth-inject.c:443-510 | without the injected lines the lines of the third pass are the input tokens in order |
| `SynthText.OutputErased` | nix/bootstrap/synth-inject.c:320-351 | main theorem: the written text, read as words and without the definitions of labels that the input references and does not define, is the input, token by token |
| `SynthText.TextRead` | nix/bootstrap/synth-inject.c:348-351 | lines that are written are read back as they were |
| `SynthSpec.LabelsPlaced` | nix/bootstrap/synth-inject.c:377-510 | main theorem: every label sym_plus_hex that is referenced and not defined is injected once for every token that defines sym, in their order, at byte sym plus hex, if a token begins or the stream ends there, and nowhere else |
| `SynthSpec.LabelPlaced` | nix/bootstrap/synth-inject.c:377-510 | if exactly one token defines sym, that is exactly once at that byte, or not at all if no token begins there |
| `SynthLinked.InjectedLinked` | nix/bootstrap/synth-inject.c:377-510 | main theorem: in the written text hex2 gives an injected label sym_plus_hex the address of sym plus the number hex |
| `SynthLinked.TokensPlaced` | nix/bootstrap/synth-inject.c:244-254 | the bytes that are counted are those that hex2 counts |
| `SynthLinked.ReferenceBytes` | nix/bootstrap/synth-inject.c:244-254 | a reference of every kind counts as many bytes as its pointer has |
| `SynthLinked.HexPrinted` | nix/bootstrap/synth-inject.c:256-279 | the number behind _plus_ is the one printed there |
| `SynthSpec.ReferencedIs` | nix/bootstrap/synth-inject.c:377-406 | the referenced labels are those behind % and &, up to a > |
| `SynthSpec.UnneededNever` | nix/bootstrap/synth-inject.c:377-441 | a label that is defined, or not referenced, is never injected |
| `HashTable.Table.Find` | nix/bootstrap/synth-inject.c:118-126 | a chained table finds exactly what has been put into it |
| `HashTable.Table.Append` | nix/bootstrap/synth-inject.c:142-194 | adds to the list of a key, new or old |
| `HashTable.Table.Delete` | nix/bootstrap/synth-inject.c:196-212 | takes out one key and keeps the others |
| `SynthInject.Injector.NextToken` | nix/bootstrap/synth-inject.c:320-346 | the next word of the stream |
| `SynthInject.Injector.CollectReferences` | nix/bootstrap/synth-inject.c:377-406 | exactly the referenced labels of the form sym_plus_hex |
| `SynthInject.Injector.CollectDefinitions` | nix/bootstrap/synth-inject.c:408-417 | exactly those of them that are defined |
| `SynthInject.Injector.CollectNeeded` | nix/bootstrap/synth-inject.c:419-441 | what is referenced and not defined, by base |
| `SynthInject.Injector.FlushAt` | nix/bootstrap/synth-inject.c:235-242 | writes and drops what is put down for a position |
| `SynthInject.Injector.InjectLabels` | nix/bootstrap/synth-inject.c:443-510 | the third pass over the stream |
| `SynthInject.Injector.Inject` | nix/bootstrap/synth-inject.c:353-511 | the whole program: its output is that of the third pass for a table of exactly the needed labels, and without the definitions of such labels it is the input |
| `SynthInject.KeysOnce` | nix/bootstrap/synth-inject.c:419-441 | the walk over all buckets meets every key once |
| `M1Translator.Translator.AlignLookup` | nix/bootstrap/m1-to-hex2.c:123-168 | the address a label has to go to, if it has to go anywhere; the address of ELF_data is recorded |
| `M1Translator.Translator.WritePadding` | nix/bootstrap/m1-to-hex2.c:185-210 | exactly as many zeros as are missing, or an exit exactly if the target is behind |
| `M1Translator.Translator.EmitToken` | nix/bootstrap/m1-to-hex2.c:229-245 | a raw byte without its prefix, anything else as it is |
| `M1Translator.Translator.FlushToken` | nix/bootstrap/m1-to-hex2.c:277-295 | padding, separator, token and the new address |
| `M1Translator.Translator.ProcessFile` | nix/bootstrap/m1-to-hex2.c:252-354 | one file: the items of its layout are written, the address is its end, and whether the text still reads as its items follows from what the file before ended in |
| `M1Translator.Translator.Translate` | nix/bootstrap/m1-to-hex2.c:443-462 | main theorem: for all input files success, address and reported data address are those of the layout of all tokens, and the text reads as that layout exactly if no file clings to what follows |
| `M1ToHex2.AddressesAgree` | nix/bootstrap/m1-to-hex2.c:218-223 | main theorem: hex2's first pass over the layout ends at the translator's address |
| `M1ToHex2.LabelPlaced` | nix/bootstrap/m1-to-hex2.c:123-168 | hex2 gives every label its aligned address, or else the one behind the tokens before it |
| `M1ToHex2.PlainLayout` | nix/bootstrap/m1-to-hex2.c:252-354 | without aligned labels the layout is the tokens and nothing else |
| `M1ToHex2.FirstAlignIs` | nix/bootstrap/m1-to-hex2.c:152-167 | the first option that names a label counts |
| `M1ToHex2.NoAlign` | nix/bootstrap/m1-to-hex2.c:152-167 | and a label that no option names goes nowhere |
| `M1Numbers.TranslatedByte` | nix/bootstrap/m1-to-hex2.c:229-245 | the byte written for !0xXX is the number that M1 reads there |
| `M1Translator.DataReported` | nix/bootstrap/m1-to-hex2.c:146-150 | what is reported is the rounded end of the code in front of ELF_data |
| `M1Translator.DataLinked` | nix/bootstrap/m1-to-hex2.c:123-168 | main theorem: hex2 gives ELF_data the reported address, the least multiple of 0x10000 at or above the end of the code; the text reads as the tokens and exactly that padding |
| `M1Translator.TranslationLinked` | nix/bootstrap/m1-to-hex2.c:252-354 | linking the translated text ends at the reported end and writes the bytes of tokens and padding |
| `M1Translator.TranslateData` | nix/bootstrap/m1-to-hex2.c:443-463 | main theorem: a run on files with one ELF_data reports the least multiple of 0x10000 at or above the code end, the output reads as the tokens with zeros up to it exactly if no file clings to the next, and then hex2 gives the label that address and ends at the reported end |
| `M1Seams.FilesTie` | nix/bootstrap/m1-to-hex2.c:252-354 | how the written text of several files ends follows from the files alone: a name has gone on exactly if some file hangs on a label or reference and what follows does not begin with a newline |
| `M1Seams.StandsWhole` | nix/bootstrap/m1-to-hex2.c:252-354 | hex2 reads the written text as its items exactly if no name has gone on; otherwise it reads a longer name |
| `M1Seams.OneClings` | nix/bootstrap/m1-to-hex2.c:333-352 | a file that ends in one token and a space runs into the next exactly if the token is a label or reference and the next file does not begin with a newline |
| `M1Translator.TornRun` | nix/bootstrap/m1-to-hex2.c:333-352 | where it fails: a run on a file that ends in a reference and a space and a file that begins with ELF_data has the right addresses and a text that does not read as the layout |
| `ArFormat.RoundTrip` | sources/tools/boot-ar.c:70-166 | main theorem: reading back what was written gives the same members in order exactly if every payload has at most ten digits |
| `ArFormat.EntryRead` | sources/tools/boot-ar.c:105-166 | one member in front of others, and how a larger payload comes out too short |
| `ArFormat.EntryLayout` | sources/tools/boot-ar.c:53-86 | where everything is in an entry |
| `ArFormat.ShortRead` | sources/tools/boot-ar.c:105-166 | members with names in the header, with a slash behind them or without, are read as well |
| `ArFormat.TableRead` | sources/tools/boot-ar.c:105-166 | and symbol tables are skipped |
| `ArFormat.ReplacedTwice` | sources/tools/boot-ar.c:189-216 | replacing twice is replacing once |
| `ArFormat.KeptNames` | sources/tools/boot-ar.c:189-203 | exactly the members with other names are kept |
| `ArFormat.KeptInOrder` | sources/tools/boot-ar.c:189-203 | they are those at strictly increasing positions, which are all positions of members with other names |
| `ArFormat.ReplaceFileTwice` | sources/tools/boot-ar.c:189-216 | the same for the archive file, where no payload of the first result needs more than ten digits |
| `ArFormat.ReadPrintable` | sources/tools/boot-ar.c:105-166 | whatever has been read has names that can be printed |
| `ArFormat.DecimalDigits` | sources/tools/boot-ar.c:53-66 | printed numbers are read back |
| `Archiver.Ar.PutField` | sources/tools/boot-ar.c:46-51 | left-justified, padded with spaces, cut to the width |
| `Archiver.Ar.PutHeader` | sources/tools/boot-ar.c:53-66 | the 60 bytes of a header |
| `Archiver.Ar.WriteArchive` | sources/tools/boot-ar.c:70-86 | the printed archive of the members |
| `Archiver.Ar.ReadArchive` | sources/tools/boot-ar.c:105-166 | the members of an archive of either convention, symbol tables skipped |
| `Archiver.Ar.Replace` | sources/tools/boot-ar.c:189-216 | the file after create, replace or append |
| `Archiver.Ar.Delete` | sources/tools/boot-ar.c:237-250 | the file after deleting names |

## Left out

- Code generators other than the one for AMD64; on Knight the frame grows upwards and locals lie differently.
- In M2-Planet: pointers, structs, arrays, unsigned and mixed types, ++ and --, sizeof, function calls and parameters, goto, switch, asm, static variables, global declarations and typedefs. A program with none of these is covered whatever its nesting.
- Literals of M2-Planet are the 32-bit numbers that the immediate of the instruction sign-extends, and the frame of a function is below 2^31 bytes, as its immediate has to be.
- The tokenizer of M2-Planet: tokens are a datatype, and a label is its kind and number, whose texts are proved different.
- Replacing macro names in kept text, macros with parameters, following #include (the option is off) and the value of #if expressions: an evaluator is a parameter of the model, and a definition takes the rest of its line.
- Preprocessor.Scanner.LookupMacro: the entry that looking up `__LINE__` or `__FILE__` adds to the list of macros, with a line number or file name that tokens here do not carry.
- hex2's displacements for ARM and PPC, the executable header options, and addresses that wrap around 32 bits.
- M1 for Knight and RISC-V, which express numbers and strings differently, and octal digits of numbers with more than one byte, which M1 does not group by bytes.
- The files M1 reads have characters below 128 in double quotes; above that the original indexes outside its table of digits.
- Stringify.NumberWritten: not stated for octal digits, which the original does not group by bytes when there are several.
- Buffer sizes that the programs do not check themselves, and running out of memory; the result array of boot-patch is proved large enough.
- boot-patch's loop over several files of one patch with its path handling, and the reading of its arguments. A hunk without old text is modelled, but nothing is claimed about running it twice.
- References by displacement that lie inside the data block in hex2-data-relocs; its code ends at or below the file offset of the data, as the program needs.
- synth-inject packs lists into strings with a separator, here they are sequences; the order in which the labels of one position are written follows the hash table and is not specified.
- SynthLinked.InjectedLinked: for the tokens elf64-to-m1 emits, and for a base that one token defines.
- RelocLinked.TablesAgree: for texts whose tokens end in a space, a tab or a newline, without a base behind > and with # for remarks, which is where both programs read the same.
- m1-to-hex2 only on the tokens elf64-to-m1 emits; other tokens are counted as one byte whatever they are.
- realloc, calloc and releasing everything in M2libc; brk grants what is asked for or refuses.
- Extracting and listing archives, and names of archive members longer than 10^13 bytes.
- File I/O, arguments, messages and the hosted twin of synth-inject.
