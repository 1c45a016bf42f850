# GlyphLang back ends: a Dafny model

GlyphLang programs run in two ways: a tree-walking interpreter executes the syntax tree, and a compiler
emits bytecode for a stack machine. This project models the compiler and its optimizer, the machines that
run its output, the tools that read it back, and the algorithmic cores beside them, and proves what they
are for.

* **Compiler.** Class `Compiler` emits into a growing byte buffer, keeps a loop stack, back-patches forward
  jumps, swaps symbol tables and moves jump targets in place, as the original does. Every method is proved
  against `CodeGen`, which says what is emitted as a list of instructions with holes. About those
  instructions the project proves that the machine running them does what the program means to compiled
  code, for every program of the fragment: same value, same variables at a normal end, same error, and no
  end exactly when the program has none. `Readings` takes this on to the interpreter: the compiled file
  gives the interpreter's answer exactly if the run meets none of three differences.
* **Stack and jumps.** Every jump of a compiled unit lands on an instruction boundary at which nothing is on
  the stack; at every moment of every run the stack is as high as the position in the code says.
* **GPU machine.** The 32-bit machine of the GPU back end gives the same results for code as emitted, for
  every run whose values stay within 32 bits. A compiled file is another matter: its targets count from the
  start of the file, that machine counts from the start of the code, so it is right exactly when no jump is
  taken (`GpuShipped`): always for straight-line programs, but not for one as short as
  `if b { }; return i` (`GpuPrograms`).
* **Arithmetic.** The operators, which interpreter, machine, constant folding and GPU share, are pinned from
  outside: words by their remainder, Go's division by its three conditions and their one solution, strings by
  the first byte in which they differ; and each opcode byte's step by that (`Arithmetic`, `MachineArithmetic`).
* **Optimizer.** Folding refines evaluation, and nothing that could have been folded is left. A block keeps
  its meaning under either level, loops with hoisting and reused expressions included, under conditions
  on its form; single-assignment programs meet them at the basic level. Where a rewriting is not sound, a
  lemma gives a family of programs and the exact condition under which it is.
* **LRU cache.** What it holds and answers is read off the operations alone: a map with expiry that may only
  have lost the keys whose last use lies furthest back.
* **GraphQL parser, formatter, file readers.** Each is characterised by an independent grammar. The parser
  accepts exactly the texts of documents, for what they mean; every source is a list of comments, strings,
  words and characters in exactly one way, and expanding and compacting are what happens to that list; a
  file is read exactly if it is laid out as the format says.
* **Hilbert curve, Levenshtein distance, reference VM, thread spawning.** Each method is proved against a
  specification function, and the property it is for is proved about that function.

The modules build on each other in this order: `Bytes`, `Lang`, `Opcodes`, `CodeGen`, `Interpreter`, `Vm` (the
language and its machines); `Scoping`, `EmissionFacts`, `Placement`, `Simulation`, `Landing`, `Correctness`,
`Theorems`, `Readings`, `Kinds`, `ReservedNames`, `Differences` (compiler correctness); `Format`, `Patching`,
`Symbols`, `Relocation`, `LockStep`, `Compiler`, `Heights`, `Aiming`, `StackDiscipline` (bytes, jumps and
stack); `Readers`, `GpuReader`, `GpuMachine`, `GpuAgreement`, `GpuShipped`, `GpuPrograms` (the files' users);
`Folding`, `ExprKeys`, `Rewriting`, `Frames`, `Acceptance`, `Reads`, `Hoisting`, `Safety`, `Preservation`,
`SingleAssignment`, `StaleFacts`, `Reuse`, `Aggressive`, `Thoroughness`, `Optimizer`, `Splicing`,
`OptimizedUnits`, `Redeclarations` (the optimizer); `Arithmetic`, `MachineArithmetic`, `MachineLimits`,
`FileExact` (what the machines and readers share, said independently). The cache is in `Lru`,
`LruInclusion`, `LruRecency` and `LruCache`, the parser in `GraphQl`, `GraphQlSyntax`, `GraphQlBack`,
`GraphQlExact` and `QueryParser`, the formatter in `Transformer`, `SourceItems`, `Respelling` and
`SourceScanner`. The remaining modules stand alone.

`dafny verify dfyconfig.toml` checks everything; some proofs are large, so a resource limit below 2000000
may be too small.

## What is not as one might expect

* `&&` and `||` stop early in the interpreter but evaluate both sides in compiled code
  (`pkg/interpreter/evaluator.go:272-355` against `pkg/vm/vm.go:1133-1172`).
* A body that ends without a return answers with its last statement's result in the interpreter and with
  null in compiled code (`pkg/interpreter/executor.go:130-142` against `pkg/compiler/compiler.go:199-206`;
  `Differences.LastResultDropped`).
* Validations fail in the interpreter and are not compiled (`pkg/interpreter/executor.go:507-541` against
  `pkg/compiler/compiler.go:564-569`; `Differences.ValidationDropped`).
* The theorems of `Theorems` take all three the way compiled code does (`AsCompiled`); `Readings` says exactly
  for which runs that is what the interpreter does, and `Kinds` gives programs for which it always is.
* The compiler keeps a switch value in a variable named `__switch_0`, `__switch_1`, ...; a program using such
  a name is compiled wrongly (`ReservedNames`).
* The comment on the GPU package says that it runs compiled bytecode. Jump targets in compiled files are
  moved by the header's size, and its machine adds the header's size again
  (`pkg/compiler/compiler.go:1141-1144`, `pkg/gpu/gpu.go:252-261`); `if b { }; return i` ends there without
  an error and without a result (`GpuPrograms.BranchLost`).
* That machine has 64 variables and takes a name's place in the pool modulo 64: two variables 64 places apart
  are one (`GpuPrograms.SharedSlot`).
* The optimizer keeps copies whose source has been set again, and facts learned in a branch or loop body
  (`StaleFacts`), and at the aggressive level expressions remembered over a change of their variables
  (`Aggressive.StaleExpression`); `x * 0` becomes `0` even where evaluating `x` fails (`Folding.FailureFolded`). Hoisting an
  assignment defines its variable for reads that came before it (`Hoisting.ReadBeforeAssigned`).
* A program that compiles as it is written may be rejected once it is optimized: the branch of a constant
  condition is spliced into the scope around it, where its names may be declared again
  (`pkg/compiler/optimizer.go:245-267` against `pkg/compiler/compiler.go:405-411`;
  `Redeclarations.SplicedRedeclared`, and for hoisted loops `HoistedRedeclared`). `OptimizedUnits` says exactly
  when, and that nothing else is rejected.
* The parser builds most statements by value (`pkg/parser/parser.go:2007-2142`), and of these the optimizer
  rewrites reassignments only; everything the model says of the optimizer is about statements given by
  reference.
* An update of an existing cache key never evicts, so the byte limit can be exceeded (`Lru.UpdateOverflows`);
  an entry that can never fit makes the original loop for ever (`Lru.NeverFits`).
* The reference VM's factorial program halts by itself only up to 909; from 910 on the step limit cuts it off.
* `ExecuteWithMitosis` can return before every spawned thread has reported (`Mitosis.ReturnTooEarly`).

## Model

| member | source | states |
|---|---|---|
| `Theorems.CompilerCorrect` | pkg/compiler/compiler.go:372-562 | For every unit and input, the finished file on the machine does what the body does as compiled code reads it: it gives the returned value; at a normal end null, with every variable of the program at its value; the same ordinary error; and it is still running after as many steps where the loop limit is reached |
| `Theorems.UnitRuns` | pkg/compiler/compiler.go:123-336 | The same for a unit's code wherever it is placed behind whatever header; a returned value ends the run by the return instruction |
| `Theorems.SameAnswers` | pkg/vm/vm.go:203-221 | Both directions, in the same reading: the machine gives an answer exactly if the body comes to it under some loop limit, so one diverges exactly if the other does |
| `Theorems.OnlyOrdinaryErrors` | pkg/vm/vm.go:735-788 | Compiled code stops with no error but division by zero, modulo by zero or a type error: every variable read was given a value, every constant and operand is there |
| `Correctness.SimStmt` | pkg/compiler/compiler.go:372-402 | From a matching state, running a statement's code ends where the statement's outcome says, with the variables it says: behind it, behind the loop, at the loop's start, halted with the value, or stopped by the error; a validation, of which nothing is compiled, does nothing |
| `Correctness.SimIf` | pkg/compiler/compiler.go:468-519 | Both patched jumps of an if take the run to the branch the condition selects, and past the other |
| `Correctness.SimWhile` | pkg/compiler/compiler.go:522-562 | The loop's code follows the loop round by round, through break, continue, return and errors at any nesting, and outlasts any limit on its rounds |
| `Correctness.SimSwitch` | pkg/compiler/compiler.go:673-749 | The switch value, kept in a made-up variable, selects the first equal case; every case leaves for the end of the switch |
| `Correctness.SimBlock` | pkg/compiler/compiler.go:195-206 | A block's code stops at the first statement that does not end normally, with the variables of the block's run; the result of its last statement is not kept |
| `Simulation.SimExpr` | pkg/compiler/compiler.go:752-916 | An expression's code raises the stack by exactly its value, or stops the machine with its error |
| `Scoping.AgreeGet` | pkg/interpreter/environment.go:46-56 | A name the symbol tables resolve is one the environment chain has, and the machine's flat store holds its value |
| `Scoping.AgreeSet` | pkg/interpreter/environment.go:59-70 | Setting the innermost binding and storing into the flat store keep the two in agreement |
| `EmissionFacts.StmtKeeps` | pkg/compiler/compiler.go:1077-1087 | Compiling a statement only appends to the pool, leaves outer symbol tables alone, and leaves no jump open but breaks of the enclosing loop |
| `EmissionFacts.UnitSealed` | pkg/compiler/compiler.go:1030-1039 | Finished code has no jump left unpatched, and opcodes and operands match |
| `Acceptance.StmtRejected` | pkg/compiler/compiler.go:405-452 | A statement is rejected exactly with the first error its names have in the order of compilation (undefined, undeclared, declared twice, break or continue outside loops), and otherwise leaves the tables that say which names resolve and which are the scope's own |
| `Acceptance.UnitRejected` | pkg/compiler/compiler.go:184-212 | So a unit compiles exactly if its names are in order, and the error reported is the first one |
| `Readings.ReadingsPart` | pkg/interpreter/evaluator.go:272-355 | An expression compiled stops at the first operand that the interpreter skips and that fails or is no boolean, and otherwise gives the interpreter's value or error |
| `Readings.ReadingsAgree` | pkg/interpreter/evaluator.go:272-355 | Wherever the interpreter gets a value, compiled code gets it exactly if no skipped operand would fail; compiled code gets no value alone |
| `Readings.GuardNotShort` | pkg/vm/vm.go:1133-1151 | `false && 1/0 == 0` is false in the interpreter and a division by zero in compiled code |
| `Readings.ExecParts` | pkg/interpreter/executor.go:74-127 | A statement in both readings: compiled, it fails where the first skipped operand fails, goes on where the interpreter fails a validation, and does the same if neither happens |
| `Readings.InterpreterMatched` | pkg/interpreter/interpreter.go:619-635 | In a run in which neither happens the compiled file does what the interpreter does, errors, variables and divergence included |
| `Readings.CompiledAgainstInterpreter` | pkg/interpreter/interpreter.go:619-635 | The compiled file gives the interpreter's answer exactly if no skipped operand fails, no validation fails, the loop limit is not reached, and a body without a return ends with null; or if the interpreter stops with the very error of the operand it skipped |
| `Readings.CompiledAgainstLimit` | pkg/interpreter/executor.go:291-302 | The same for the interpreter with its own limit of a million rounds |
| `Readings.ValueOfInterpreter` | pkg/vm/vm.go:1154-1172 | A value compiled code gives is what the interpreter returns, or the null of a body that just ends, or the interpreter fails a validation |
| `Kinds.ExecFits` | pkg/interpreter/executor.go:74-127 | Whatever a statement does that stores in each variable only values of its kind by form, every variable keeps to its kind |
| `Kinds.FirmUnit` | pkg/interpreter/evaluator.go:272-355 | A unit without validations, whose variables keep to kinds (numbers, booleans, texts, or anything) by which every right operand of a logical operator is a boolean that cannot fail, meets no such difference in any run: the compiled file does what the interpreter does |
| `Differences.LastResultDropped` | pkg/interpreter/executor.go:130-142 | For the body `x = v` the interpreter answers v and the compiled file null: the same exactly if v is null |
| `Differences.ValidationDropped` | pkg/compiler/compiler.go:564-569 | For a validation that gives any value v, in front of `return 1`, the compiled file answers 1 and the interpreter fails unless v is true or null: the same exactly then |
| `Arithmetic.OperatorStep` | pkg/vm/vm.go:450-733 | For each of the thirteen opcode bytes 0x10-0x14 and 0x20-0x27 and any two operands, one step leaves the value its meaning gives (the word of the sum, difference or product, Go's quotient or remainder, the order of numbers or strings, the joined string, equality, and, or), or stops with a type error or a division by zero |
| `Arithmetic.OperandsHaveValue` | pkg/vm/vm.go:450-733 | That meaning is never empty: operands of the right kinds have a value unless they divide by zero |
| `Arithmetic.DivisionLaw` | pkg/vm/vm.go:569-660 | For all 64-bit a and b other than 0, whatever q and r satisfy a = b*q + r with r smaller than b in size and 0 or of a's sign are what division and modulo give; only the least integer by -1 has a quotient that wraps, to that integer |
| `Arithmetic.OneQuotient` | pkg/vm/vm.go:569-660 | There is no second such pair |
| `Arithmetic.OneWord` | pkg/vm/vm.go:534-567 | The 64-bit word a wrapped result is, is the only one congruent to the exact result, and the result itself if that fits |
| `Arithmetic.LowWord` | pkg/compiler/compiler.go:1141-1144 | A number cut to 32 bits is the one word congruent to it |
| `Arithmetic.UnaryStep` | pkg/vm/vm.go:1175-1207 | Negation leaves the word of the negated number, not the opposite truth value; anything else is a type error |
| `Arithmetic.OperatorValue` | pkg/interpreter/evaluator.go:388-671 | The interpreter's operators have the same meanings |
| `Arithmetic.TextLessIsBefore` | pkg/vm/vm.go:723-729 | A string is less exactly if it is a proper prefix or has the lesser byte where the two differ first |
| `Arithmetic.TextTrichotomy` | pkg/vm/vm.go:723-729 | Of two strings exactly one is less, or they are equal |
| `Arithmetic.TextTransitive` | pkg/vm/vm.go:723-729 | The order is transitive |
| `MachineLimits.ControlStep` | pkg/vm/vm.go:791-799 | What the bytes of jumps, return, halt and pop do, conditional jumps by the truth value they take off the stack |
| `MachineLimits.PushDropped` | pkg/vm/vm.go:1580-1587 | On a stack of 10000 values a push is dropped and the run goes on; below, it is on top |
| `MachineLimits.StackBounded` | pkg/vm/vm.go:1580-1587 | So no run has a deeper stack |
| `ReservedNames.ReservedNameClashes` | pkg/compiler/compiler.go:673-749 | A unit whose parameter is called `__switch_0` returns the parameter under the interpreter and 1 when compiled: the same exactly if the parameter is 1 |
| `Vm.FinishesOnce` | pkg/vm/vm.go:203-221 | A finished run has one answer, however long one waits |
| `Vm.Machine.StepOnce` | pkg/vm/vm.go:313-432 | One step of the machine object is one step of the specification, errors included |
| `Vm.Machine.RunLoop` | pkg/vm/vm.go:203-221 | With a step limit, an answer is the run's answer within the limit, and none means the run was still going after it; without one, a run that finishes gives its answer |
| `Vm.Machine.Push` | pkg/vm/vm.go:1580-1587 | At full depth the value is dropped, otherwise it is on top |
| `Vm.Machine.PopValue` | pkg/vm/vm.go:1590-1598 | The top leaves the stack, or the stack was empty and the error says so |
| `Vm.Machine.ReadOperand` | pkg/vm/vm.go:1540-1548 | Four bytes little-endian and the counter behind them, or an error and nothing moved |
| `Symbols.SymbolTable.Define` | pkg/compiler/symbols.go:46-55 | The innermost table alone changes, seen as the whole chain of tables |
| `Symbols.SymbolTable.DefineBuiltin` | pkg/compiler/symbols.go:58-68 | The same for a built-in name |
| `Symbols.SymbolTable.EnterScope` | pkg/compiler/symbols.go:106-108 | A fresh empty table on top of the chain |
| `Symbols.SymbolTable.Resolve` | pkg/compiler/symbols.go:85-97 | Walking the parents finds the innermost binding of the chain |
| `Compiler.Compiler.CompileUnit` | pkg/compiler/compiler.go:184-212 | The file returned is the specified one, or the specified semantic error |
| `Compiler.Compiler.CompileStatement` | pkg/compiler/compiler.go:372-402 | Buffer, pool, loop stack and symbol table end up exactly as the specification of the statement says, or the error is the specified one |
| `Compiler.Compiler.CompileAssign` | pkg/compiler/compiler.go:405-431 | The same for a declaration, with its redeclaration error and built-in exception |
| `Compiler.Compiler.CompileReassign` | pkg/compiler/compiler.go:434-452 | The same for a reassignment of a declared name |
| `Compiler.Compiler.CompileIf` | pkg/compiler/compiler.go:468-519 | The same, both forward jumps patched over the bytes |
| `Compiler.Compiler.CompileWhile` | pkg/compiler/compiler.go:522-562 | The same, with every break of the body patched to the end and the loop's context gone again |
| `Compiler.Compiler.CompileSwitch` | pkg/compiler/compiler.go:673-749 | The same, every case's exit patched to the end of the switch |
| `Compiler.Compiler.CompileBreak` | pkg/compiler/compiler.go:1051-1061 | A placeholder jump whose position the innermost loop remembers, or the error outside loops |
| `Compiler.Compiler.CompileContinue` | pkg/compiler/compiler.go:1065-1072 | A jump to the innermost loop's start, or the error outside loops |
| `Compiler.Compiler.CompileExpression` | pkg/compiler/compiler.go:752-809 | The expression's code is appended and nothing else in the buffer changes |
| `Compiler.Compiler.CompileLiteral` | pkg/compiler/compiler.go:812-835 | A push of the pool entry that holds the literal |
| `Compiler.Compiler.CompileVariable` | pkg/compiler/compiler.go:838-849 | A load by the resolved name's pool entry, or the undefined-name error |
| `Compiler.Compiler.CompileBinaryOp` | pkg/compiler/compiler.go:852-896 | Left, right, operator, in this order |
| `Compiler.Compiler.CompileUnaryOp` | pkg/compiler/compiler.go:899-916 | Operand, then operator |
| `Compiler.Compiler.AddConstantToPool` | pkg/compiler/compiler.go:1077-1087 | An equal constant is reused, a new one appended; the index is where it is |
| `Compiler.Compiler.PushLoop` | pkg/compiler/compiler.go:1023-1027 | A new innermost loop without breaks |
| `Compiler.Compiler.PopLoop` | pkg/compiler/compiler.go:1030-1039 | Exactly the innermost loop's breaks are patched, and its context is gone |
| `Compiler.Compiler.PatchJump` | pkg/compiler/compiler.go:1103-1107 | The four operand bytes are replaced and no others |
| `Compiler.Compiler.Reset` | pkg/compiler/compiler.go:72-79 | Everything empty, under a new global table |
| `Compiler.Compiler.AdjustJumpTargets` | pkg/compiler/compiler.go:1153-1180 | The in-place walk leaves what the recursive reading of the bytes gives |
| `Compiler.Compiler.SerializeConstants` | pkg/compiler/compiler.go:1202-1231 | The bytes of the pool, constant after constant |
| `Compiler.Compiler.BuildBytecode` | pkg/compiler/compiler.go:1111-1150 | The container around the relocated instructions |
| `Patching.PatchHoles` | pkg/compiler/compiler.go:1103-1107 | Overwriting operands at the sites of one kind of hole, inside any surrounding bytes, is filling those holes in the instruction list |
| `Relocation.AdjustEncoded` | pkg/compiler/compiler.go:1153-1199 | On every well-formed instruction stream the byte walk adds the header to exactly the jump operands, whatever the operand bytes look like |
| `Relocation.AdjustStep` | pkg/compiler/compiler.go:1153-1180 | One iteration of the in-place loop keeps "done so far, original from here on" |
| `Relocation.OperandBytes` | pkg/compiler/compiler.go:1153-1199 | Which opcode bytes have an operand, and which of these are jumps |
| `LockStep.RunsTogether` | pkg/compiler/compiler.go:1141-1199 | Code with relative targets and the relocated code behind its header stay in step for every number of steps from every boundary |
| `LockStep.SameAnswer` | pkg/gpu/gpu.go:252-261 | So they give the same answers, from the start, both ways |
| `Heights.StmtLevel` | pkg/compiler/compiler.go:372-562 | A statement's code nets nothing on the stack, never takes from an empty one, never rises above the statement's need, and control leaves it only at height zero |
| `Heights.ExprLifts` | pkg/compiler/compiler.go:752-916 | An expression's code nets one, stays within its need, and every operator finds its operands |
| `Aiming.UnitAims` | pkg/compiler/compiler.go:468-562 | Every jump of a compiled unit, patched or not, goes to a place where an instruction starts (or the code ends) and nothing is on the stack |
| `Aiming.UnitInStep` | pkg/compiler/compiler.go:1111-1150 | Every compiled file therefore runs in step with its code as emitted |
| `StackDiscipline.UnitStack` | pkg/vm/vm.go:1580-1598 | In every run of every compiled unit the stack is as high as the position says, at most the body's need (or one), and is never empty when something is taken |
| `Format.ConstantRoundTrip` | pkg/compiler/compiler.go:1202-1231 | Every storable constant reads back from the middle of any bytes, with the cursor behind it |
| `Format.PoolRoundTrip` | pkg/compiler/compiler.go:1111-1150 | So does every pool |
| `Format.BytecodeParts` | pkg/compiler/compiler.go:1111-1150 | Magic, version, counts, pool, length and relocated code stand where readers look, for every pool and code below 4 GiB |
| `FileExact.ConstantExact` | pkg/vm/vm.go:262-310 | A constant is read at a place exactly if its encoding stands there, any byte but 0 counting as true |
| `FileExact.PoolExact` | pkg/vm/vm.go:224-259 | A pool is read exactly where its constants' encodings stand one behind the other |
| `FileExact.LayoutExact` | pkg/vm/vm.go:224-259 | A file has a layout exactly if it starts with "GLYP", a version and a count, followed by that many encodings and a length, all words little-endian |
| `Readers.LoadOneConstant` | pkg/vm/vm.go:262-310 | The loader's cursor reader reads what the specification reads, and fails where it fails |
| `Readers.ParseBytecode` | pkg/vm/vm.go:162-259 | Pool and code start, or the first of the errors, for every input |
| `Readers.LoadedBack` | pkg/vm/vm.go:224-259 | Loading a written file gives its pool and the place behind its header |
| `Readers.Decompiler.ReadOneConstant` | pkg/decompiler/decompiler.go:113-180 | The decompiler's own reader agrees with it and appends to its constants |
| `Readers.Decompiler.ReadInstruction` | pkg/decompiler/decompiler.go:183-211 | The instruction at the cursor with its operand, or the cut-off error |
| `Readers.Decompiler.Decompile` | pkg/decompiler/decompiler.go:50-110 | What the decompiler gives for every input, errors included |
| `Readers.DisassembleEncoded` | pkg/decompiler/decompiler.go:183-211 | Disassembling encoded instructions lists exactly them, each at its offset |
| `Readers.DecompiledBack` | pkg/decompiler/decompiler.go:50-110 | Decompiling a written file without asynchronous blocks gives its pool and its relocated instructions |
| `Readers.UnitReadBack` | pkg/compiler/compiler.go:1111-1150 | Both readers undo the compiler on every unit |
| `GpuReader.ParseBytecodeLayout` | pkg/gpu/gpu.go:152-224 | The layout found in any file, or none |
| `GpuReader.LoadConstant` | pkg/gpu/gpu.go:630-688 | The unchecked walk to the idx-th constant and what it makes of it |
| `GpuReader.FileFound` | pkg/gpu/gpu.go:152-224 | In every written file the code is found where it starts and constant i loads as constant i, reduced to 32 bits |
| `GpuReader.LayoutFound` | pkg/gpu/gpu.go:152-224 | The same for every compiled file |
| `GpuReader.LoadedRepresents` | pkg/gpu/gpu.go:630-688 | In every file whose pool can be read at all, the i-th value loaded stands for the i-th constant |
| `GpuMachine.Instance.StepOnce` | pkg/gpu/gpu.go:254-620 | One iteration over the fixed stack and variable arrays is one step of the 32-bit machine, faults included |
| `GpuMachine.RunOneVM` | pkg/gpu/gpu.go:247-627 | The whole loop ends as the machine's specification does, a used-up step count overriding any other result |
| `MachineArithmetic.GpuOperator` | pkg/gpu/gpu.go:294-493 | For all operands that are no floats in an addition, each opcode byte gives the 32-bit word of the exact result, Go's quotient or remainder, or the comparison of the 32 bits, and none exactly for a zero divisor |
| `MachineArithmetic.GpuUnary` | pkg/gpu/gpu.go:494-518 | Negation keeps the tag and gives the word of the negated bits, not is true exactly for zero bits |
| `MachineArithmetic.CutFirst` | pkg/gpu/gpu.go:630-688 | Cutting integers to 32 bits before adding, subtracting or multiplying loses nothing more than cutting the result |
| `MachineArithmetic.OneHalfWord` | pkg/gpu/gpu.go:630-688 | The 32-bit word of an integer is the only one congruent to it, inside the range and outside |
| `MachineLimits.PushOverflows` | pkg/gpu/gpu.go:264-279 | A push on a stack of 256 stops the GPU machine with an overflow and leaves the stack |
| `MachineLimits.GpuRunEnds` | pkg/gpu/gpu.go:247-627 | Every run ends within 100000 steps and is reported as cut off exactly if it takes them all |
| `GpuAgreement.ComputedNarrowed` | pkg/gpu/gpu.go:294-493 | On 32-bit values of one kind every operator computes what the 64-bit machine computes, as long as that fits 32 bits, and divides by zero when that does |
| `GpuAgreement.RunMirrors` | pkg/gpu/gpu.go:247-627 | A run of the main machine whose states the GPU can represent is matched step by step: same result in the same number of steps, or cut off exactly if that number reaches the limit |
| `GpuAgreement.GpuAgrees` | pkg/gpu/gpu.go:247-627 | For every unit whose need is at most 256, whose values stay within 32 bits and whose inputs are null or not used, the GPU's result for the code as emitted is what the body comes to as compiled code reads it (the returned value, null at a normal end, or division by zero), unless the steps run out; where the loop limit is reached they run out |
| `GpuShipped.MovedRun` | pkg/compiler/compiler.go:1141-1144 | Code with moved targets run from its own start does the same until a jump is taken, and then falls off the end if the header is no shorter than the code |
| `GpuShipped.ShippedOnGpu` | pkg/gpu/gpu.go:252-261 | A compiled file on the GPU ends as its code as emitted does if no jump is taken; if one is, and the header is no shorter than the code, it shows null without an error: so the answer is right exactly if no jump is taken or it is null |
| `GpuPrograms.StraightOnGpu` | pkg/gpu/gpu.go:247-627 | For every straight-line unit the compiled file itself gives on the GPU what the program gives, under the conditions of `GpuAgrees` |
| `GpuPrograms.BranchLost` | pkg/gpu/gpu.go:252-261 | For every b and every 32-bit i, `if b { }; return i` returns i in the interpreter, and its compiled file ends on the GPU without an error and shows null |
| `GpuPrograms.MergedOnGpu` | pkg/gpu/gpu.go:520-550 | Whatever variable names share a slot, the GPU gives what the main machine gives for the program in which they are one variable |
| `GpuPrograms.SharedSlot` | pkg/gpu/gpu.go:520-550 | For any unit that sets its i-th parameter to v and returns its j-th, with i and j equal modulo 64, the GPU gives v and the interpreter the j-th input |
| `Folding.RootSame` | pkg/compiler/optimizer.go:44-73 | Following copies, even in a cycle, ends at a variable of the same value |
| `Folding.FoldLiteralsRefines` | pkg/compiler/optimizer.go:525-655 | Folding two literals gives what evaluating them gives, errors included |
| `Folding.SimplifyRefines` | pkg/compiler/optimizer.go:658-740 | Every algebraic rule keeps the value wherever there is one |
| `Folding.FoldBinaryRefines` | pkg/compiler/optimizer.go:415-469 | So does folding a binary expression at any level |
| `Folding.ExprRefined` | pkg/compiler/optimizer.go:38-103 | In every environment in which the facts hold, an optimized expression has the value of the original wherever that has one, at every level |
| `Folding.FailureFolded` | pkg/compiler/optimizer.go:699-706 | Multiplying an undefined variable by zero fails before and gives 0 after |
| `ExprKeys.KeyInjective` | pkg/compiler/optimizer.go:743-804 | On integers, booleans and variables two expressions with the same key are the same |
| `ExprKeys.StringKeysCollide` | pkg/compiler/optimizer.go:787-804 | With strings two expressions of different value share a key |
| `Frames.ExecLeaves` | pkg/interpreter/executor.go:74-127 | A statement, however it ends, changes only variables it assigns and adds only names it defines |
| `Frames.ExecMirrored` | pkg/interpreter/environment.go:46-70 | In an environment with more variables a run goes the same, with the same result, error or loop limit, unless it stops at a variable that only the larger environment has |
| `Reads.ExecFinds` | pkg/interpreter/environment.go:46-56 | No run stops at one of some names if each is read only where it is there from the start or declared before in the same block |
| `Reads.AcceptedTimely` | pkg/compiler/compiler.go:838-849 | Every statement the compiler accepts reads its names in this way, validations aside |
| `Preservation.AssignKeeps` | pkg/compiler/optimizer.go:112-169 | At either level, rewriting an assignment keeps its value, and what is then known and remembered holds, unless another known copy of the target is in scope or a stale expression is reused |
| `Preservation.IfPreserved` | pkg/compiler/optimizer.go:245-278 | Rewriting an if keeps outcome, loop limit and visible variables, splicing included |
| `Preservation.WhilePreserved` | pkg/compiler/optimizer.go:280-327 | So does rewriting a loop whose body leaves the facts as they were |
| `Preservation.LoopPreserved` | pkg/compiler/optimizer.go:280-327 | A loop as the optimizer returns it at either level, with what moves in front of it or nothing moving, ends as the loop does with the same visible variables, and what is known and remembered afterwards holds; what moves must be new there, independent of the rest, and able to be evaluated |
| `Preservation.BlockPreserved` | pkg/compiler/optimizer.go:106-412 | At either level, a block that never keeps a fact the run can make false, reuses no stale expression and moves nothing that fails has, rewritten, the same outcome and the same visible variables wherever the original succeeds, reaches the loop limit where the original does, and what is known afterwards holds |
| `Aggressive.UnitPreserved` | pkg/compiler/optimizer.go:106-412 | So from a fresh optimizer of either level |
| `Aggressive.SureUnit` | pkg/compiler/optimizer.go:280-327 | At the aggressive level conditions on the text alone are enough, for every input and loop limit, if what moves consists of literals and their equality or nothing moves |
| `Aggressive.CountingKept` | pkg/compiler/optimizer.go:280-327 | Every counting loop `i = 0; while i < n { i = i + step }; return i` comes out unchanged at the aggressive level and meets these conditions |
| `Aggressive.StepMoved` | pkg/compiler/optimizer.go:290-327 | For all k other than 0, `while i < n { t = k; i = i + t }` becomes `t = k; while i < n { i = i + k }` and the program does the same wherever t is new |
| `Aggressive.StaleExpression` | pkg/compiler/optimizer.go:134-164 | Computing x*y, adding 1 to x and computing x*y again: rewritten it returns the first product, right exactly if y is 0 |
| `Thoroughness.ConstantFolded` | pkg/compiler/optimizer.go:525-655 | At either level a constant expression of any depth that has a value becomes that literal |
| `Thoroughness.NeutralNumbers` | pkg/compiler/optimizer.go:658-740 | Adding or subtracting 0, multiplying by 0 or 1 and dividing by 1 disappear on the sides they may, and at the aggressive level doubling becomes addition |
| `Thoroughness.NeutralTruths` | pkg/compiler/optimizer.go:658-740 | So do logical operators with a literal operand on either side |
| `Thoroughness.ConstantUsed` | pkg/compiler/optimizer.go:44-73 | A variable set to a literal is replaced by it |
| `Thoroughness.CopyUsed` | pkg/compiler/optimizer.go:44-73 | A variable set to another one is replaced by that one |
| `Thoroughness.ExpressionUsed` | pkg/compiler/optimizer.go:134-164 | An expression computed again is replaced by the variable that has it |
| `Thoroughness.BlockUndecided` | pkg/compiler/optimizer.go:245-278 | In no rewritten program is there, outside switches, an if whose condition is a literal truth value |
| `Thoroughness.BehindReturn` | pkg/compiler/optimizer.go:110-118 | What stands behind a return makes no difference to the rewritten block |
| `Thoroughness.MovedExactly` | pkg/compiler/optimizer.go:290-320 | In front of a loop go exactly the declarations that use nothing the loop sets and whose names its condition does not use; the rest stays |
| `SingleAssignment.SingleBlockIsSafe` | pkg/compiler/optimizer.go:106-278 | Every program that assigns each name once meets that condition |
| `SingleAssignment.SinglePreserved` | pkg/compiler/optimizer.go:106-278 | So the basic optimizer, starting fresh, keeps the meaning of every such program, divergence included |
| `Splicing.BlockSpliced` | pkg/compiler/optimizer.go:245-278 | A block the compiler accepts and the optimizer rewrites safely is accepted when rewritten exactly if no scope of it, with the branches of constant conditions spliced in, declares a name twice; and is rejected for nothing else |
| `StaleFacts.StaleCopy` | pkg/compiler/optimizer.go:126-130 | Copying x, setting x to b, and returning the copy: right exactly if x had the value b already |
| `StaleFacts.StaleBranch` | pkg/compiler/optimizer.go:273-277 | Setting x in a branch and returning it: right exactly if the branch is taken or x had that value |
| `StaleFacts.StaleLoop` | pkg/compiler/optimizer.go:280-327 | The same with a loop body |
| `Reuse.ReuseKeeps` | pkg/compiler/optimizer.go:134-164 | Reusing a remembered expression's variable gives the expression's value, and what is remembered stays true |
| `Reuse.StraightPreserved` | pkg/compiler/optimizer.go:134-164 | Straight-line programs keep return value and variables under the aggressive level |
| `Reuse.StraightUnit` | pkg/compiler/optimizer.go:106-164 | In particular from a fresh optimizer |
| `Hoisting.ModifiedFrames` | pkg/compiler/optimizer.go:807-857 | Running a block without switches leaves every variable alone that is not reported as modified |
| `Hoisting.InvariantIndependent` | pkg/compiler/optimizer.go:290-320 | The optimizer's test makes the moved assignments independent of the rest, if the body has no switch and sets each moved variable once |
| `Hoisting.HoistingPreserves` | pkg/compiler/optimizer.go:290-320 | Moving independent, total assignments to loop-local variables in front of the loop keeps every outcome of the loop, errors and loop limit included, exactly unless the loop stops because a moved variable is read before its assignment |
| `Hoisting.ReadBeforeAssigned` | pkg/compiler/optimizer.go:290-320 | That happens: a loop that returns t and then sets it stops at the unknown t, and returns the value when rewritten |
| `Hoisting.TimelyKept` | pkg/compiler/optimizer.go:290-320 | For every loop that reads no moved variable before it is assigned there, seen from its text, every outcome is kept |
| `Hoisting.AcceptedKept` | pkg/compiler/compiler.go:838-849 | In particular for every loop without validations that the compiler accepts as it is written |
| `Hoisting.FailingMoved` | pkg/compiler/optimizer.go:290-320 | If a moved expression cannot be evaluated in front of the loop, the rewritten loop stops with its error, and the outcome is kept exactly if the original stops with it too |
| `Hoisting.SkippedLoop` | pkg/compiler/optimizer.go:290-320 | For a loop that is not entered, moving keeps the outcome exactly if every moved expression can be evaluated |
| `OptimizedUnits.OptimizedCompiles` | pkg/compiler/compiler.go:405-411 | A unit the compiler accepts as it is written and the optimizer rewrites safely is accepted when rewritten exactly if, with the branches of constant conditions spliced in, no scope declares a name twice; otherwise the error is that |
| `OptimizedUnits.SingleUnit` | pkg/compiler/optimizer.go:245-278 | A unit that sets every variable once is rewritten safely and accepted |
| `OptimizedUnits.OptimizedCompilerCorrect` | pkg/compiler/compiler.go:123-181 | A unit that compiles, is rewritten safely and declares no name twice with its branches spliced in compiles when optimized, and the file returns what the source program returns, ends normally with its variables, and does not end within the loop limit where the source program does not, as compiled code reads it |
| `OptimizedUnits.SingleUnitCorrect` | pkg/compiler/compiler.go:123-181 | So for every unit that compiles and sets every variable once the optimized file does what the source program does |
| `OptimizedUnits.OptimizedAgainstInterpreter` | pkg/compiler/compiler.go:123-181 | The same against the interpreter, for runs that compiled code reads alike |
| `OptimizedUnits.ValueOfSource` | pkg/compiler/compiler.go:123-181 | The converse: a value the optimized unit gives is the source program's, or that program fails |
| `Redeclarations.SplicedRedeclared` | pkg/compiler/optimizer.go:245-278 | For all v and w, `if true { $ x = v }; $ x = w; return x` compiles as it is written and returns w in the interpreter; rewritten, it is rejected because x is declared twice |
| `Redeclarations.HoistedRedeclared` | pkg/compiler/optimizer.go:290-320 | For all v and w, two loops that declare a variable x of their own compile as they are written, and are rejected for the same reason once both assignments are hoisted |
| `Optimizer.Optimizer.FollowCopies` | pkg/compiler/optimizer.go:44-73 | The loop with its visited set ends, at the root of the copy chain |
| `Optimizer.Optimizer.OptimizeExpression` | pkg/compiler/optimizer.go:38-103 | The recursive walk computes the specified rewriting and changes nothing |
| `Optimizer.Optimizer.OptimizeStatements` | pkg/compiler/optimizer.go:106-412 | The loop over the statements gives the specified block, leaves the three maps as specified, and stops behind a return |
| `Optimizer.Optimizer.OptimizeValue` | pkg/compiler/optimizer.go:112-169 | One assignment's value and all three maps |
| `Optimizer.Optimizer.OptimizeWhile` | pkg/compiler/optimizer.go:280-327 | The loop's rewriting, hoisting at the aggressive level, and the maps after it |
| `Optimizer.Optimizer.SeparateInvariants` | pkg/compiler/optimizer.go:290-320 | The body divides into moved assignments and the rest, both in order |
| `Optimizer.GetModifiedVariables` | pkg/compiler/optimizer.go:807-857 | The set the recursive walk fills |
| `Optimizer.GetUsedVariables` | pkg/compiler/optimizer.go:860-894 | The variables an expression mentions |
| `Optimizer.IsExprInvariant` | pkg/compiler/optimizer.go:897-905 | True exactly if no used variable is modified |
| `Hilbert.DistanceOfAt` | pkg/gpu/hilbert.go:64-96 | For every order, the distance of the point at d is d, and the point is in the grid |
| `Hilbert.AtOfDistance` | pkg/gpu/hilbert.go:64-96 | For every point of the grid, the point at its distance is the point |
| `Hilbert.Locality` | pkg/gpu/hilbert.go:64-76 | Consecutive points differ by one in exactly one coordinate |
| `Hilbert.Ends` | pkg/gpu/hilbert.go:64-76 | The curve starts at (0,0) and ends at (2^k-1,0) |
| `Hilbert.DistanceToPoint` | pkg/gpu/hilbert.go:64-76 | The loop from the lowest digit computes the recursive curve, for every d modulo the number of cells |
| `Hilbert.PointToDistance` | pkg/gpu/hilbert.go:79-96 | The loop from the highest digit computes its inverse, though it rotates with the whole size and coordinates go negative |
| `Hilbert.RotLow` | pkg/gpu/hilbert.go:99-108 | Rotating and reading the low digits commute |
| `SpatialGrid.NewHilbertMapper` | pkg/gpu/hilbert.go:21-30 | It ends with an order whose grid holds the code and, above 1, one less does not |
| `SpatialGrid.LeastOrder` | pkg/gpu/hilbert.go:21-30 | That order is the least of all that do |
| `SpatialGrid.MapIndex` | pkg/gpu/hilbert.go:33-36 | The point at an index, inside the grid |
| `SpatialGrid.Unmap` | pkg/gpu/hilbert.go:39-41 | The index of a point of the grid |
| `SpatialGrid.MapAll` | pkg/gpu/hilbert.go:44-50 | Every index's point, in order |
| `SpatialGrid.CurveFills` | pkg/gpu/hilbert.go:44-50 | All points of the curve are different and each is next to the one before |
| `SpatialGrid.NewSpatialGrid` | pkg/gpu/hilbert.go:127-162 | Each code offset is in its cell with its byte, every other cell is empty, and a code offset past the end gives a single empty cell |
| `SpatialGrid.OneCellEach` | pkg/gpu/hilbert.go:127-162 | An offset is in exactly one cell, and a cell is filled exactly if the curve passes it within the code |
| `Lru.EvictedIsLongest` | pkg/cache/cache.go:209-216 | Eviction leaves the longest prefix of the recency list that lets the new entry in |
| `Lru.NeverFits` | pkg/cache/cache.go:209-216 | Every list, the empty one too, must evict exactly if the entry can never fit |
| `Lru.SetGood` | pkg/cache/cache.go:173-222 | A set keeps keys distinct and length within capacity, and a new key is within the byte limit |
| `Lru.GetGood` | pkg/cache/cache.go:146-170 | A get keeps keys distinct and length within capacity |
| `Lru.UpdateOverflows` | pkg/cache/cache.go:199-207 | After updating an existing key the byte limit is exceeded exactly if the sizes say so: nothing is evicted |
| `LruInclusion.StepIncluded` | pkg/cache/cache.go:146-222 | One operation keeps the smaller cache's recency list a subsequence of the larger one's and the gap bounded |
| `LruInclusion.RunIncluded` | pkg/cache/cache.go:146-282 | So does every trace of gets, sets, deletes and sweeps, and every hit of the smaller cache is the same hit in the larger |
| `LruInclusion.Inclusion` | pkg/cache/cache.go:146-222 | In particular from two empty caches |
| `LruRecency.ListByUse` | pkg/cache/cache.go:146-222 | After every run from an empty cache, with a byte limit or without, each entry is the one the operations tell of (value, expiry, times, count, tags), and entries stand in the order of their last store or hit |
| `LruRecency.EvictedLeastRecent` | pkg/cache/cache.go:209-216 | A key that makes room was used before every key that stays, and only storing an absent key takes room |
| `LruRecency.AnswersExplained` | pkg/cache/cache.go:146-170 | Every answer of every run is the value the operations tell of, still good; and that is answered unless as many other keys as fit were used since |
| `LruRecency.HeldUnlessCrowded` | pkg/cache/cache.go:146-222 | Without a byte limit a key the operations tell of is held unless as many other keys as fit were used since its last use |
| `LruRecency.StoredIsAnswered` | pkg/cache/cache.go:146-222 | A value stored, and not removed, expired or crowded out by as many other keys as fit, is what a look-up answers; a ttl of 0 asks for the default, none that is not positive expires |
| `LruRecency.HeldExactly` | pkg/cache/cache.go:146-222 | In runs of stores and look-ups that find nothing expired, the cache holds exactly the keys since whose last use fewer other keys were used than fit |
| `LruCache.LruCache.Get` | pkg/cache/cache.go:146-170 | Result, list, map and counters after a hit, a miss and an expired entry |
| `LruCache.LruCache.Set` | pkg/cache/cache.go:173-222 | The eviction loop ends and list, map and size are as the specification says, for new and existing keys |
| `LruCache.LruCache.SetWithTags` | pkg/cache/cache.go:225-269 | The same with tags, which does not count as a set |
| `LruCache.LruCache.Delete` | pkg/cache/cache.go:272-282 | The entry is gone from list, map and size; only a present key counts |
| `LruCache.LruCache.DeleteByTag` | pkg/cache/cache.go:285-306 | Exactly the tagged entries go, and their number is returned |
| `LruCache.LruCache.Cleanup` | pkg/cache/cache.go:367-391 | Exactly the expired entries go |
| `LruCache.LruCache.Clear` | pkg/cache/cache.go:309-326 | Nothing is left |
| `LruCache.LruCache.EvictOldest` | pkg/cache/cache.go:346-352 | The last entry of a non-empty list goes and is counted |
| `LruCache.LruCache.RemoveElement` | pkg/cache/cache.go:355-364 | The element goes from list, map and size together |
| `Levenshtein.LevenshteinDistance` | pkg/errors/enhanced_errors.go:434-468 | The filled table's last cell is the recursive edit distance |
| `Levenshtein.ShortestScript` | pkg/errors/enhanced_errors.go:434-468 | It is the length of a shortest edit script: one that long exists, and none is shorter |
| `Levenshtein.ScriptExists` | pkg/errors/enhanced_errors.go:434-468 | A script of that length, built |
| `Levenshtein.NoShorterScript` | pkg/errors/enhanced_errors.go:434-468 | No sequence of insertions, deletions and substitutions does it in fewer |
| `Levenshtein.Triangle` | pkg/errors/enhanced_errors.go:434-468 | The triangle inequality |
| `Levenshtein.Symmetric` | pkg/errors/enhanced_errors.go:434-468 | Symmetry |
| `Levenshtein.ZeroIffEqual` | pkg/errors/enhanced_errors.go:434-468 | Zero exactly for equal strings |
| `Levenshtein.Bounds` | pkg/errors/enhanced_errors.go:434-468 | Between the difference of the lengths and the longer length |
| `MachineArithmetic.ReferenceOperator` | tools/ref_vm.py:155-245 | For all integers each operator of the reference interpreter gives its value, quotient and remainder by Python's floored division, or fails exactly for a zero divisor |
| `MachineLimits.ReferenceStack` | tools/ref_vm.py:130-154 | What pop, dup, swap, dup-second, not and negation leave on its stack |
| `MachineLimits.ReferenceJump` | tools/ref_vm.py:281-305 | Its jumps go to the little-endian target, the conditional ones by whether the top is 0 |
| `RefVm.VM.StepOnce` | tools/ref_vm.py:115-427 | One step changes stack, counter, frame pointer and step count as specified, or raises the fault Python raises |
| `RefVm.VM.Run` | tools/ref_vm.py:429-436 | The loop ends, by halting, by a fault, or past the step limit, with the top of the stack or 0 |
| `RefVm.CallReturns` | tools/ref_vm.py:269-332 | For every callee that leaves its frame intact, call and return restore counter, frame pointer and everything below, and push one result |
| `RefVm.ReturnRestores` | tools/ref_vm.py:306-332 | The return itself, on any state with an intact frame |
| `RefVm.CallComputes` | tools/ref_vm.py:516-541 | From any stack, a call of the factorial code with argument v leaves the factorial of v on top, in 11v-4 steps |
| `RefVm.FactorialProgram` | tools/ref_vm.py:516-541 | Without the step limit the program leaves n! on top for every n >= 1 and halts after exactly 11n-2 steps |
| `RefVm.FactorialUnderLimit` | tools/ref_vm.py:429-436 | With it, the program halts by itself exactly for n up to 909 |
| `Mitosis.InvStep` | pkg/gpu/mitosis.go:47-94 | Every event of root, worker or thread keeps the protocol's invariant |
| `Mitosis.Safety` | pkg/gpu/mitosis.go:193-228 | In every interleaving, for whatever limit is asked for: ids are unique, at most limit-1 spawns are sent, a send never blocks, nobody reports twice or without being spawned |
| `Mitosis.CompleteAtTheEnd` | pkg/gpu/mitosis.go:47-94 | Once the worker has drained the channel and all threads are done, the results are exactly the root's and its children's |
| `Mitosis.ReturnComplete` | pkg/gpu/mitosis.go:68-94 | At the moment of return they are complete exactly if the channel is empty and the worker holds no uncounted request |
| `Mitosis.ReturnTooEarly` | pkg/gpu/mitosis.go:68-94 | For every limit of at least 2 some interleaving returns too early |
| `Mitosis.Progress` | pkg/gpu/mitosis.go:47-94 | No reachable state is stuck before all are at rest |
| `Mitosis.Settles` | pkg/gpu/mitosis.go:47-94 | Once the root has ended, every event brings the rest closer to its end |
| `Transformer.CompactUndoesExpand` | pkg/formatter/transformer.go:45-160 | Compacting an expanded ASCII source gives it back exactly if every symbol that expands is followed by the end, a brace, or blanks that are not two or more spaces, and no word is one that compacting would convert |
| `Transformer.RoundTrip` | pkg/formatter/transformer.go:57-160 | The same from the middle of a source, in any context |
| `SourceItems.ItemsRead` | pkg/formatter/transformer.go:57-105 | Every ASCII text is the text of the comments, strings, words and characters the scanner finds in it |
| `SourceItems.ItemsBack` | pkg/formatter/transformer.go:57-105 | And of no other such list |
| `Respelling.TablesAgree` | pkg/formatter/transformer.go:11-43 | The two tables are one relation of thirteen words and symbols, read either way |
| `Respelling.Compacted` | pkg/formatter/transformer.go:57-160 | Compacting turns, of every ASCII source, each keyword at a line's start and each of `let`, `return`, `middleware`, `use`, `expects`, `validate` in an open block into its own symbol, the spaces behind it into one, and nothing else |
| `Respelling.NoKeywordLeft` | pkg/formatter/transformer.go:188-210 | In compacted text, however read, no keyword is left at a line's start and none of the six in an open block, outside strings and comments |
| `Respelling.CompactedOnce` | pkg/formatter/transformer.go:51-55 | Compacting twice is compacting once |
| `Respelling.Expanded` | pkg/formatter/transformer.go:57-160 | Expanding turns exactly each symbol at a line's start into its keyword, with a space behind it unless a blank, a brace or the end follows |
| `Respelling.LineStartSeen` | pkg/formatter/transformer.go:188-197 | A line's start is where nothing but blanks has come since the last newline |
| `Respelling.OpenedInText` | pkg/formatter/transformer.go:213-235 | The open blocks are the braces outside strings, an unclosed string adding none |
| `SourceScanner.Transform` | pkg/formatter/transformer.go:57-160 | The scanner loop ends and writes what the specification says, in both modes |
| `SourceScanner.ShouldTransformSymbol` | pkg/formatter/transformer.go:163-185 | Looking back over the line decides as the context carried along does |
| `SourceScanner.ShouldTransformKeyword` | pkg/formatter/transformer.go:188-210 | The same for a word |
| `SourceScanner.IsInsideBlock` | pkg/formatter/transformer.go:213-235 | Counting braces outside strings from the start is the depth carried along |
| `GraphQlExact.ParsesExactly` | pkg/graphql/query.go:50-87 | The parser gives a query exactly if the input is, up to what follows, the text of a document that means it: blanks, commas and comments anywhere, an operation or none, a name or none, variable definitions, aliases, arguments and nested sets |
| `GraphQlExact.QueryRead` | pkg/graphql/query.go:50-87 | So whatever it accepts is such a text |
| `GraphQlBack.QueryBack` | pkg/graphql/query.go:50-87 | And every document parses to its operation, name and selections, in any layout |
| `GraphQlBack.ShorthandBack` | pkg/graphql/query.go:50-87 | Selections alone are a query without a name |
| `GraphQlBack.SetBack` | pkg/graphql/query.go:89-112 | A selection set in front of any text parses to its selections, with the text left |
| `GraphQlBack.FieldBack` | pkg/graphql/query.go:114-155 | The same for one field, with alias, arguments and nested set |
| `GraphQlBack.ArgsBack` | pkg/graphql/query.go:157-201 | The same for arguments, the last of equal names winning |
| `GraphQlBack.ValueBack` | pkg/graphql/query.go:203-241 | The same for every value: strings, numbers, true, false and null, and other words, which mean their letters |
| `GraphQlBack.StringBack` | pkg/graphql/query.go:243-277 | A string of characters and escapes, any character escaped, reads as its characters |
| `GraphQlBack.SpelledBack` | pkg/graphql/query.go:243-277 | Every string can be written so |
| `GraphQlBack.NumberBack` | pkg/graphql/query.go:279-310 | Every 64-bit integer reads back, with zeros in front and a sign before 0 too |
| `GraphQlBack.FloatBack` | pkg/graphql/query.go:279-310 | Every float a query can write, with digits and a point and within the range of 64 bits, reads back as it is written |
| `GraphQlBack.InsidePassed` | pkg/graphql/query.go:343-361 | Variable definitions are passed up to the parenthesis that matches the first |
| `GraphQlBack.GapSkipped` | pkg/graphql/query.go:327-341 | So is any row of blanks, commas and comments |
| `QueryParser.QueryParser.Parse` | pkg/graphql/query.go:50-87 | For every input the parser ends with the specified query or error, its position inside the input |
| `QueryParser.ParseText` | pkg/graphql/query.go:37-43 | So parsing a text from its start ends, with what the specification gives |
| `QueryParser.QueryParser.ParseSelectionSet` | pkg/graphql/query.go:89-112 | The method advances its position over exactly the text the specification takes |
| `QueryParser.QueryParser.ParseSelection` | pkg/graphql/query.go:114-155 | The same, the recursion ending because the rest gets shorter |
| `QueryParser.QueryParser.ParseArguments` | pkg/graphql/query.go:157-201 | The same |
| `QueryParser.QueryParser.ParseValue` | pkg/graphql/query.go:203-241 | The same |
| `QueryParser.QueryParser.ReadString` | pkg/graphql/query.go:243-277 | The same, unterminated strings included |
| `QueryParser.QueryParser.ReadNumber` | pkg/graphql/query.go:279-310 | The same, integers and floats out of range included |
| `QueryParser.QueryParser.SkipWhitespace` | pkg/graphql/query.go:327-341 | Blanks, commas and comments are passed, nothing else |
| `QueryParser.QueryParser.SkipBalanced` | pkg/graphql/query.go:343-361 | Up to the matching bracket, or the error without one |

## Left out

- Floats, arrays, objects, calls, for loops, match expressions, asynchronous blocks and WebSocket instructions: not in the language fragment; float constants pass through files as eight bytes.
- Integers beside floats in the interpreter's operators, and its evaluation depth limit of 500: the fragment's expressions are pure and finite.
- Dotted assignment targets (field paths): excluded by `PlainName`, like all names with the reserved switch prefix, though only those of a unit's own switches can clash.
- Calls of validation functions: a validation is an expression over the variables in scope, and only whether it passes matters.
- The interpreter's globals: a unit starts from its inputs alone.
- The two Go forms of every statement, by reference and by value: the compiler treats them alike, but the optimizer passes most of the latter on unrewritten, and a final return by value gets a halt behind it that is never reached. The model has the form by reference.
- Macro expansion and the route's own HTTP set-up: a unit is its parameter names, its built-in names and its body.
- Vm.Machine.RunLoop: without a limit it is offered for runs that finish; the others never return.
- Vm.Machine.StepOnce: opcodes of arrays, objects, calls, iteration, asynchronous blocks and WebSockets end as unknown opcodes.
- Hoisting.HoistingPreserves: moved variables that exist before the loop are not covered; hoisting sets them even if the loop never comes to the assignment.
- Preservation.BlockPreserved: one direction; where its condition fails `StaleFacts`, `Aggressive.StaleExpression` and `Hoisting` give families of programs with exact conditions.
- Preservation.LoopPreserved: loops that move variables known before the loop are outside its condition, as for `Hoisting.HoistingPreserves`.
- OptimizedUnits.OptimizedCompilerCorrect: a source program that fails is not covered, because folding may remove its error (`Folding.FailureFolded`); nor is a normal end's result, which compiled code drops anyway.
- Reuse.StraightPreserved: string literals are excluded because their keys collide; branches and loops are `Preservation.BlockPreserved`'s, which asks instead that each reused expression be one that can be trusted.
- Facts that survive a compiler's reset: the optimizer starts fresh.
- The optimizer's for-statement rewriting, function inlining, peephole and strength reduction passes.
- GpuAgreement.GpuAgrees: values wider than 32 bits, strings as values, equality between values of different kinds and inputs that are used and not null are outside its condition, since the GPU has none of these; names that share a slot are `GpuPrograms.MergedOnGpu`'s.
- GpuShipped.ShippedOnGpu: for code longer than its header nothing is said of runs with a taken jump, which may then land anywhere in the code.
- Float arithmetic on the GPU: the sum of two 32-bit floats and the narrowing of a 64-bit one are parameters.
- The WGSL shader and the native GPU runner.
- Readers.Decompiler.ReadOneConstant: the type name and the value's text it records.
- Readers.Decompiler.ReadInstruction: the instruction's comment.
- Readers.Decompiler.Decompile: the texts it makes (type and value strings, comments, reconstructed source) are not modelled, nor operands of asynchronous blocks, which it does not read.
- SpatialGrid.NewSpatialGrid: cell labels and the text rendering.
- LruCache.LruCache.Set: requires that the key is present or the entry can fit, since the original does not end otherwise (`Lru.NeverFits`).
- LruCache.LruCache.SetWithTags: the same.
- Locks, eviction callbacks, the order of a Go map, the ticker and the wrap-around of 64-bit counters of the cache; the time and an entry's size are arguments.
- RefVm.VM.Run: programs with such instructions, as for StepOnce.
- RefVm.VM.StepOnce: heap instructions and addresses made of cells outside 0 to 255 end in a fault of their own, NotModelled; trace output is left out.
- Mitosis.Safety: what a thread computes, and so what its result holds beside id, parent and children.
- Transformer.CompactUndoesExpand: ASCII text only, as for everything said of the formatter.
- LruRecency.StoredIsAnswered: with a byte limit, when a key is crowded out depends on the sizes of the others; the order of eviction is covered (`LruRecency.EvictedLeastRecent`).
- MachineArithmetic.GpuOperator: the sum of floats, which is a parameter.
- GraphQlBack.FloatBack: which 64-bit float the text of a float stands for; also the positions in error messages, and the contents of variable definitions, which the parser skips.
- Go's limit on slice lengths.
