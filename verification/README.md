# Verified model of MellowLang's core components

This project models the parts of MellowLang that have a simple specification and a delicate
implementation, and proves that the one meets the other for every input, run or reachable state.
`dafny verify dfyconfig.toml` checks everything.

Each component comes as a specification made of functions, the imperative code proved against it
(loops, mutable fields and shared arrays where the program has them), and theorems about the
specification.

| files | component |
|---|---|
| `Lexer`, `ExprSyntax`, `ExprParser`, `ExprCompiler`, `ExprText`, `ExprUnique`, `ExprGrammar`, `ExprMachine`, `ExprVariables` | the native expression compiler: scanner, precedence climbing straight to stack code, trees as text, the stack machine that runs the code, and which variables the code reads |
| `BytecodeBackend` | label resolution and erasure, as a simulation between two machines |
| `MathCore` | the shunting-yard calculator |
| `Tasks`, `Scheduler` | the cooperative scheduler: a machine over task values, and the VM that moves buffers between itself and a task table |
| `Ledger` | the hash-chained double-entry ledger |
| `Money` | decimal text to int64 cents and back |
| `Ppm`, `RunLength`, `MelvCodec` | the MELV2 frame container |
| `Utf8`, `SmTokens`, `SmDictionary`, `SmCodec` | the SM text container; UTF-8 is section 3 of RFC 3629 |
| `CompileCache` | the least-recently-used compile cache between threads |
| `LanguageModel` | the n-gram counts and the cutting of texts into samples |
| `DataStreams` | batched streams behind handles |
| `Options`, `Text`, `Bytes` | shared: optional values, Python's `strip`/`int`/`str`, bytes and little-endian integers |

How to read it:

- What the model cannot see is a parameter: the meaning of opcodes (`ExprMachine.Machine`,
  `BytecodeBackend.Semantics`), the ledger's hash and decimal context (`Ledger.System`),
  compression, checksum and JSON (`SmCodec.Library`), the uncached compiler (`CompileCache`), the
  tables of builtin, script and package functions (`ExprSyntax.Env`). What a theorem needs of such
  a parameter is a named hypothesis: `Lawful`, `CollisionFree`.
- A runtime error is a value: `None`, `Err`, `Refused`. `Money.Overflow` stands for signed overflow,
  which C leaves undefined.
- Where the program does not do what its purpose suggests, the model follows the code and the exact
  condition is proved: a call of `print` leaves no value
  (`ExprMachine.OneValueExactlyWithoutPrint`, `PrintLeavesNoValue`); inside a function a global
  whose index is below the number of locals compiles to the same instruction as the local at that
  index (`ExprVariables.SharedSlotExactly`, `LocalAndGlobalCompileAlike`,
  `CoveredGlobalIsMisread`, `VariablesAreReadExactly`), which can also be a name the function does
  not know, made a new global (`NewGlobalCoveredExactly`); the digit guard of the money parser
  lets the arithmetic overflow (`Money.OverflowExactly`, `OverflowExample`), and a text without
  any digit, like a point alone, is accepted as 0 (`ParseExact`, `PointIsZero`); a hexadecimal
  literal is one integer token whose characters are read as decimal digits
  (`Lexer.IntegerTokenIsDecimal`, `HexLiteralIsMisread`); a stray character ends the tokens of a
  text as its end does, so that what follows it is never looked at (`Lexer.EofExactly`,
  `StrayHidesTheRest`); the smallest int64 is printed but not read back (`Money.FormatThenParse`);
  loading a task while the current one is unsaved loses the work of the current one
  (`Scheduler.VM.Load`, `UnsavedWorkIsLost`).
- The Python SM encoder, as written, names an unbound variable for its header's `codec` field and so
  raises on every text when there is no native codec. `SmCodec` is that encoder without the field.
- What a specification is built from (the precedence table, arities, arithmetic, wake-ups, when a post
  is accepted, formats, limits) is said a second time without it: by named sets, by fields, by
  positions, byte for byte, or with Dafny's own operators. `ExprGrammar` is that for the expression
  compiler; elsewhere such lemmas stand in sections headed "in other words".
- In `BytecodeBackend` a label defined twice means its last definition, as in the program; the
  simulation does not assume that labels are unique.

## Model

| member | source | states |
|---|---|---|
| Lexer.Lex | native/standalone/src/mellowc_lexer.c:8-56 | every scan stays inside the text and moves forward, except at the end of the text or at a comment, where it yields the end token; so every token stream is finite |
| Lexer.EofExactly | native/standalone/src/mellowc_lexer.c:8-56 | the end token is handed out at the end of the text and at a comment, and at a character that starts no token: exactly there |
| Lexer.Stop | native/standalone/src/mellowc_lexer.c:8-56 | where a caller that stops at the first end token has stopped is the end of the text, a comment or a stray character |
| Lexer.StrayHidesTheRest | native/standalone/src/mellowc_lexer.c:8-56 | the text 1 $ ) has a stray character, and the one token 1 |
| Lexer.NameTokenIsLongest | native/standalone/src/mellowc_lexer.c:26-31 | a name token is the longest run of name characters behind nothing but blanks |
| Lexer.NamesScanned | native/standalone/src/mellowc_lexer.c:8-31 | blanks are spaces and tabs but no line ends, a comment ends the text, and names go on with letters, digits, underscores and points |
| Lexer.NumbersScanned | native/standalone/src/mellowc_lexer.c:14-25 | a fraction, an exponent with a sign, and an exponent that is none because no digit follows |
| Lexer.StringsScanned | native/standalone/src/mellowc_lexer.c:32-43 | an escaped quote does not end a string, the other quote does not either, and the end of the text does |
| Lexer.Scanner.Next | native/standalone/src/mellowc_lexer.c:8-56 | the C scanner's in-place loops leave exactly the token and position the lexical grammar assigns to the text from the old position |
| Lexer.ParseIntegerLiteral | native/standalone/src/mellowc_lexer.c:63-74 | a string of decimal digits is accepted if and only if its value is at most INT64_MAX, and that value is returned; on any other text the result is that of the wrapping unsigned loop |
| Lexer.DigitStep | native/standalone/src/mellowc_lexer.c:67-71 | on digits no step wraps around, so the guard refuses exactly the digit that would pass INT64_MAX |
| Lexer.IntegerTokenIsDecimal | native/standalone/src/mellowc_lexer.c:14-25 | an integer token is made of decimal digits, and so read by its value, if and only if the number does not start like a hexadecimal one |
| Lexer.HexLiteralIsMisread | native/standalone/src/mellowc_lexer.c:14-25 | the smallest kind of exception: 0x10 is one integer token and is read as 7210 |
| ExprParser.ExprSound | native/standalone/src/mellowc_parser.c:166-188 | the consumed tokens are the printed form of a tree valid at the requested precedence, the appended code is that tree's postorder code, and the next token cannot continue the expression at that level |
| ExprParser.ExprComplete | native/standalone/src/mellowc_parser.c:166-188 | every valid tree that can be compiled, printed in front of a rest that cannot continue it, is parsed to exactly that tree, rest and postorder code |
| ExprParser.PrimarySound | native/standalone/src/mellowc_parser.c:17-155 | what a primary consumes is the printed form of its tree and its code that tree's code, for literals, prefixes, brackets, calls, names and index chains |
| ExprParser.TailSound | native/standalone/src/mellowc_parser.c:169-187 | the operator loop builds left-associative trees whose operands respect the precedence table, which ValidIsTheGrammar and TwoOperators fix by name |
| ExprCompiler.Expression.Primary | native/standalone/src/mellowc_parser.c:17-155 | the in-place recursive descent succeeds exactly when the functional parser does, and then has moved the scanner and appended code exactly as it says |
| ExprCompiler.Expression.Operators | native/standalone/src/mellowc_parser.c:169-187 | the loop form of precedence climbing computes the recursive form, with scanner, code and constants in the same state |
| ExprCompiler.Compiler.VariableSlot | native/standalone/src/mellowc_parser.c:137-145 | local scope before globals; inside a function an unknown name becomes a new global while there is room |
| ExprCompiler.CompileExpr | native/standalone/src/mellowc_parser.c:190-197 | terminates on every text; success means a prefix of its tokens prints a valid tree, that is a disjunction of the named grammar, what follows cannot continue it, and exactly that tree's postorder code was appended |
| ExprCompiler.PrintedTreeCompiles | native/standalone/src/mellowc_parser.c:157-188 | every compilable tree, printed with parentheses only where the precedence table needs them, is consumed whole and compiles to that tree's postorder code |
| ExprUnique.PrintedTreeIsUnique | native/standalone/src/mellowc_parser.c:157-188 | the grammar is unambiguous: two valid trees that print alike are the same tree, whether they compile or not |
| ExprCompiler.CompilesExactlyTheGrammar | native/standalone/src/mellowc_parser.c:166-197 | a token list compiles with nothing left over if and only if it is the printed form of a valid tree for which code can be generated |
| ExprGrammar.ValidIsTheGrammar | native/standalone/src/mellowc_parser.c:157-164 | the trees that are valid at the outermost level are exactly the disjunctions of conjunctions of comparisons of sums of products of operands, each left-leaning over its own written-out set of operators, and so for every inner level |
| ExprGrammar.CompiledIsADisjunction | native/standalone/src/mellowc_parser.c:166-197 | a token list compiles with nothing left over if and only if it is the printed form of such a disjunction for which code can be generated |
| ExprGrammar.TwoOperators | native/standalone/src/mellowc_parser.c:157-188 | for every pair of the thirteen operators and any three operands: which of the two trees the list x a y b z is parsed to, by named sets |
| ExprGrammar.ProductBeforeSum | native/standalone/src/mellowc_parser.c:157-188 | 1 + 2 * 3 compiles to three pushes, a multiplication and an addition |
| ExprGrammar.OperationCode | native/standalone/src/mellowc_parser.c:174-184 | for each operator the instruction that follows the code of its two operands |
| ExprGrammar.PrefixCode | native/standalone/src/mellowc_parser.c:51-67 | -x is 0 minus x, not x one instruction behind x, and parentheses emit nothing; the tokens of each |
| ExprGrammar.ListCode | native/standalone/src/mellowc_parser.c:68-79 | the tokens of a list and the instruction its code ends with |
| ExprGrammar.MapCode | native/standalone/src/mellowc_parser.c:80-92 | the tokens of a map and the instruction its code ends with |
| ExprGrammar.IndexCode | native/standalone/src/mellowc_parser.c:146-150 | the tokens of an index and the instruction its code ends with |
| ExprGrammar.NameCallCode | native/standalone/src/mellowc_parser.c:117-136 | a builtin is a syscall that leaves a result unless its id is 1; otherwise the script's function, else the package's, is pushed and called; otherwise there is no code |
| ExprGrammar.GetCallCode | native/standalone/src/mellowc_parser.c:95-116 | get and call reach builtins only and always leave a result |
| ExprGrammar.LiteralsMean | native/standalone/src/mellowc_parser.c:21-50 | the constants of the literal words, strings, floats and integers, and which integers are refused |
| ExprSyntax.ParenthesizeFits | native/standalone/src/mellowc_parser.c:157-164 | adding the needed parentheses gives a tree of the grammar with the same code and the same declared names |
| ExprSyntax.ParenthesizeIsMinimal | native/standalone/src/mellowc_parser.c:157-164 | a tree that already fits its level gets no parentheses |
| ExprText.WrittenIsScanned | native/standalone/src/mellowc_lexer.c:8-56 | any list of tokens that have a spelling, written with a blank after each, is scanned back to exactly those tokens |
| ExprText.PrintedTextCompiles | native/standalone/src/mellowc_parser.c:166-197 | every compilable tree whose tokens have spellings, written as text with parentheses only where the precedence table needs them, is read whole and compiles to exactly that tree's postorder code |
| ExprMachine.CodeComputesTree | native/standalone/src/mellowc_parser.c:17-188 | for any meaning of the opcodes, from any stack and state: the code of a tree without print calls leaves the stack untouched and pushes the tree's value, names being worth what their slots hold, also after the constant pool and the globals have grown |
| ExprMachine.CompiledTreePushesItsValue | native/standalone/src/mellowc_parser.c:166-197 | the whole code of an expression, run from any stack, pushes exactly the value of its tree by slots, and fails exactly when evaluating the tree fails |
| ExprVariables.SharedSlotExactly | native/standalone/src/mellowc_parser.c:137-145 | two different names resolve to one slot if and only if one is a local and the other a global that is no local, at equal indexes |
| ExprVariables.SameCodeExactly | native/standalone/src/mellowc_parser.c:137-145 | exactly then the two compile to the same code |
| ExprVariables.TopLevelSlotsDiffer | native/standalone/src/mellowc_parser.c:137-145 | at top level two variables never share a slot |
| ExprVariables.LocalAndGlobalCompileAlike | native/standalone/src/mellowc_parser.c:137-145 | the smallest case: with a local a and a global g both names load slot 0 |
| ExprVariables.NewGlobalCoveredExactly | native/standalone/src/mellowc_parser.c:139 | a name a function does not know becomes the next global; its slot is a local's if and only if there are fewer globals than locals |
| ExprVariables.NothingDeclared | native/standalone/src/mellowc_parser.c:137-144 | at top level, and with 256 globals, an unknown name is a function or an error |
| ExprVariables.CodeReadsVariables | native/standalone/src/mellowc_parser.c:137-145 | a tree that reads no global whose slot is a local's: in any machine that holds each variable where it can be held, the code pushes the value the tree has by its variables, local before global |
| ExprVariables.TopLevelCodeReadsVariables | native/standalone/src/mellowc_parser.c:137-145 | at top level this is so for every tree |
| ExprVariables.CoveredGlobalIsMisread | native/standalone/src/mellowc_parser.c:137-145 | every tree that reads such a global has a machine and a state, holding each variable where it can be held, in which its code pushes another value |
| ExprVariables.VariablesAreReadExactly | native/standalone/src/mellowc_parser.c:137-145 | so the code is right in every such machine if and only if the tree reads no such global |
| ExprMachine.OneValueExactlyWithoutPrint | native/standalone/src/mellowc_parser.c:131 | a run that reaches its end raises the stack by one if and only if the tree calls no print |
| ExprMachine.PrintLeavesNoValue | native/standalone/src/mellowc_parser.c:131 | the smallest exception: a call of print alone compiles, and its code leaves the stack as it was |
| ExprMachine.ResolveIsStable | native/standalone/src/mellowc_parser.c:137-145 | declaring more globals never changes what an already resolved name refers to |
| BytecodeBackend.ResolveLabels | src/mellowlang/compiler/bytecode_backend.py:64-70 | the first pass maps every defined label to the number of emitted instructions before its last definition, and fails exactly on a label without a name |
| BytecodeBackend.Lower | src/mellowlang/compiler/bytecode_backend.py:63-131 | succeeds if and only if every opcode is supported, every argument is there (ArgumentsAreKept and MissingArgumentsAreRefused say how many, by name) and every jump, function and event label is defined; then the code, the spans with their ends and hints, and both tables are the lowering |
| BytecodeBackend.ArgumentsAreKept | src/mellowlang/compiler/bytecode_backend.py:24-61 | by named sets of opcodes that take two, one and no arguments: an instruction that carries exactly these is lowered with its whole argument list |
| BytecodeBackend.MissingArgumentsAreRefused | src/mellowlang/compiler/bytecode_backend.py:24-61 | an instruction with fewer is refused, by the same sets, and no other plain one is |
| BytecodeBackend.SmallProgram | src/mellowlang/compiler/bytecode_backend.py:63-148 | a program of five instructions, its code, its spans and their hints, written out |
| BytecodeBackend.AddressHasOneInstruction | src/mellowlang/compiler/bytecode_backend.py:79-102 | every address is the position of exactly one instruction that is not a label |
| BytecodeBackend.UniqueLabelIsItsTarget | src/mellowlang/compiler/bytecode_backend.py:66-70 | a label defined once is its own target |
| BytecodeBackend.StepSimulated | src/mellowlang/compiler/bytecode_backend.py:63-141 | for any meaning of the plain opcodes: an IR step is a step of the bytecode at the corresponding address, or, over a label, no step at all |
| BytecodeBackend.StepAsWritten | src/mellowlang/compiler/bytecode_backend.py:63-141 | an instruction that carries what it uses gives its opcode exactly the arguments that stand in it, in the IR and at its address in the bytecode |
| BytecodeBackend.JumpsAsNamed | src/mellowlang/compiler/bytecode_backend.py:133-141 | JUMP goes to the last definition of its label, JUMP_IF_FALSE when the test gives false, and a label is walked over |
| BytecodeBackend.EnterThenLeave | src/mellowlang/compiler/bytecode_backend.py:106-131 | what is entered and left goes on behind the call with the callers it had |
| BytecodeBackend.EntriesByKind | src/mellowlang/compiler/bytecode_backend.py:106-131 | functions are entered through the table of functions and events through that of events, at their labels' addresses |
| BytecodeBackend.RunSimulated | src/mellowlang/compiler/bytecode_backend.py:63-141 | after any number of IR steps the bytecode, run for the steps that were not over labels, is in the corresponding configuration, pending returns included |
| BytecodeBackend.TracesAgree | src/mellowlang/compiler/bytecode_backend.py:63-141 | both machines go through the same states in the same order |
| BytecodeBackend.BytecodeRunIsLowered | src/mellowlang/compiler/bytecode_backend.py:63-141 | conversely every bytecode run, of any length, is the lowering of an IR run |
| BytecodeBackend.RunsEndTogether | src/mellowlang/compiler/bytecode_backend.py:63-141 | one machine stops or faults in a given final state if and only if the other does |
| MathCore.Calculate | src/mellowlang/math_core.py:74-105 | the two stack loops compute the functional shunting-yard and postfix evaluation, on any token list, ill-formed ones included; OneOperation to OtherLists say what that is |
| MathCore.PostfixOfChain | src/mellowlang/math_core.py:76-91 | the conversion loop turns every well-formed infix list into the postorder of its two-level left-associative tree |
| MathCore.ExecutePost | src/mellowlang/math_core.py:93-104 | evaluating the postorder of a tree pushes the tree's value on any value stack, with x / 0 taken as 0 |
| MathCore.CalculateIsTreeValue | src/mellowlang/math_core.py:64-105 | for every well-formed infix list calculate ends with exactly one value on its stack, the value of the two-level left-associative tree |
| MathCore.CalculateEvaluatesTrees | src/mellowlang/math_core.py:64-105 | stated on trees: the text of every tree of the grammar of sums, products and parenthesised factors calculates to that tree's value, with nothing else left on the value stack |
| MathCore.OneOperation | src/mellowlang/math_core.py:93-104 | for any two reals the calculation is their sum, difference and product, the quotient that times the divisor is the dividend, and 0 for a divisor 0 |
| MathCore.FromTheLeft | src/mellowlang/math_core.py:74-104 | sums and differences, and products and quotients, are calculated from the left |
| MathCore.ProductsFirst | src/mellowlang/math_core.py:64-104 | products and quotients before sums and differences, on either side |
| MathCore.ParenthesesFirst | src/mellowlang/math_core.py:82-89 | parentheses before everything |
| MathCore.OtherLists | src/mellowlang/math_core.py:74-105 | lists that are no expressions: the empty one, an operator without two values, several values |
| MathCore.TreeIsUnique | src/mellowlang/math_core.py:74-82 | two trees of the grammar with the same text are the same tree |
| MathCore.TreeFitsGrammar | src/mellowlang/math_core.py:74-82 | that tree obeys the precedence table and prints back to the list it came from |
| MathCore.WellFormedIsChain | src/mellowlang/math_core.py:74-89 | a one-scan check of nesting and alternation accepts exactly the lists that are printed trees |
| Tasks.IdsAreIndexes | native/standalone/src/mellowrt_scheduler.c:54-72 | after any run of executions, blocks, wake-ups, spawns, saves and loads every task's id is its index in the table |
| Tasks.SuspendedTaskIsKept | native/standalone/src/mellowrt_scheduler.c:34-52 | whatever the others do, a task that is not loaded keeps its pc, stack, frames, locals and result; only wake-ups reach it |
| Tasks.ResumesWhereItStopped | native/standalone/src/mellowrt_scheduler.c:34-52 | save, load another, any run that does not load the first, load the first: it continues at the saved pc with exactly its stack, frames and locals |
| Tasks.WakingReaches | native/standalone/src/mellowrt_scheduler.c:88-99 | a blocked task waiting for a pointer becomes runnable, unless finished, when that pointer's waiters or all are woken, and is left as it is by a wake-up for another pointer |
| Tasks.BlockedUntilWoken | native/standalone/src/mellowrt_scheduler.c:88-99 | over any run in which it is not loaded, a blocked task stays blocked and waiting until one of those two wake-ups |
| Tasks.OperationsByField | native/standalone/src/mellowrt_scheduler.c:34-52 | what every operation does to the current task, field by field, and that the others keep theirs |
| Tasks.SpawnedByField | native/standalone/src/mellowrt_scheduler.c:128-160 | every field of a spawned task: its function's address, one frame that returns nowhere, the spawner's locals padded with none |
| Tasks.CountOfIndexes | native/standalone/src/mellowrt_scheduler.c:112-121 | runnable_count is the number of indexes that are active, not finished and not blocked |
| Tasks.NextRunnableIsFirst | native/standalone/src/mellowrt_scheduler.c:74-86 | next_runnable returns the runnable task that comes first in cyclic order after the current one, the current one being last |
| Tasks.NoNextMeansNoneRunnable | native/standalone/src/mellowrt_scheduler.c:74-121 | it fails if and only if runnable_count is 0 |
| Tasks.TurnComesCloser | native/standalone/src/mellowrt_scheduler.c:74-86 | every turn that passes a runnable task over brings the current position cyclically closer to it |
| Tasks.RunnableTaskIsLoaded | native/standalone/src/mellowrt_scheduler.c:74-86 | a task runnable at every choice cannot be passed over as many times as there are tasks |
| Scheduler.VM.Bootstrap | native/standalone/src/mellowrt_scheduler.c:54-72 | a VM with a table is left as it is; otherwise the running program becomes task 0, owning the VM's buffers, saved, with everything of the new state stated |
| Scheduler.VM.Save | native/standalone/src/mellowrt_scheduler.c:34-42 | the entry at any index gets the VM's buffers and the pc, an index past the table nothing; for the current task this is the machine's save, and saving over another live task is exactly what makes two tasks share buffers |
| Scheduler.VM.Load | native/standalone/src/mellowrt_scheduler.c:44-52 | the VM takes what the entry at any index says, an index past the table changes nothing; every task keeps its buffers if and only if the entry of the task before describes them, and when it is saved this is the machine's load |
| Scheduler.VM.Wake | native/standalone/src/mellowrt_scheduler.c:88-99 | over the table entries: an active one is blocked afterwards if and only if it was, the pointer is not null and the entry waits for another; waiting is cleared with the flag; everything else, and inactive entries, stay |
| Scheduler.VM.NextRunnable | native/standalone/src/mellowrt_scheduler.c:74-86 | the search loop returns the index of an entry that is active, not finished and not blocked with no such entry between the current one and it, or fails when there is none, and counts a switch only when it is another task |
| Scheduler.VM.RunnableCount | native/standalone/src/mellowrt_scheduler.c:112-121 | the counting loop counts the entries that are active, not finished and not blocked |
| Scheduler.VM.Spawn | native/standalone/src/mellowrt_scheduler.c:128-160 | a task is appended with fresh buffers, one frame, and copies of the current locals padded with none; no existing task changes |
| Scheduler.VM.Yield | native/standalone/src/mellowrt_scheduler.c:34-86 | save, choose and load on the VM is one round-robin turn of the task machine |
| Scheduler.VM.DoAll | native/standalone/src/mellowrt_scheduler.c:34-160 | any sequence of operations on the VM with its shared arrays, in which a task is loaded only while the current one is saved, refines the value-level task machine and keeps live tasks' buffers pairwise disjoint |
| Scheduler.UnsavedWorkIsLost | native/standalone/src/mellowrt_scheduler.c:34-52 | without that condition: whatever a task pushed, switched away from unsaved and loaded again it has the buffers and lengths of its table entry |
| Ledger.Verify | src/mellowlang/ledger_core.py:106-141 | accepts if and only if the ledger is sound, with its entry count and head; otherwise names the first faulty entry, everything before it being sound |
| Ledger.SoundExactly | src/mellowlang/ledger_core.py:106-141 | what sound means, field by field over all entries: ids present and different, each entry chained to the one before and the head to the last, one currency, readable rows whose cents sum to zero, hashes of the bodies |
| Ledger.FirstFault | src/mellowlang/ledger_core.py:114-138 | which of the faults is reported: the first, in the order of the checks |
| Ledger.CurrencyOf | src/mellowlang/ledger_core.py:27-31 | letters in upper case without the blanks around them, at most twelve, and an empty name is refused |
| Ledger.CurrencyExamples | src/mellowlang/ledger_core.py:27-31 | USD when none is given |
| Ledger.Post | src/mellowlang/ledger_core.py:60-103 | succeeds if and only if the stripped id is not empty and new, there are two or more rows, every stripped account is non-empty, every amount is readable, the cents as given sum to zero and the currency normalises; every field of the one appended entry, and of the new ledger, is stated |
| Ledger.PostKeepsSound | src/mellowlang/ledger_core.py:60-103 | posting to a sound ledger gives a sound ledger, one entry longer, whose head is the new hash |
| Ledger.ReachedLedgerIsSound | src/mellowlang/ledger_core.py:42-141 | every ledger reached from create by successful posts verifies, with as many entries as posts |
| Ledger.Balance | src/mellowlang/ledger_core.py:144-152 | returns the exact sum of the account's rows over all entries, and fails exactly on an unreadable amount among them |
| Ledger.TotalForIsSum | src/mellowlang/ledger_core.py:147-150 | what an entry adds to an account is the sum of the cents of its rows for that account |
| Ledger.PostMovesBalance | src/mellowlang/ledger_core.py:144-152 | a post changes each account's balance by exactly its own rows |
| Ledger.NormalizedKeepsCents | src/mellowlang/ledger_core.py:78-86 | the stored rows are worth the same cents as the rows that were given |
| Ledger.BalancesSumToZero | src/mellowlang/ledger_core.py:125-131 | in a sound ledger the balances of all accounts add up to zero |
| Ledger.HeadDeterminesHistory | src/mellowlang/ledger_core.py:106-141 | under a hash without collisions that never yields the genesis value, two sound ledgers with the same head have the same entries |
| Ledger.CurrencyIsIdempotent | src/mellowlang/ledger_core.py:27-31 | a normalised currency, stripped of every ASCII character that counts as a blank, normalises to itself |
| Ledger.PlainAmountsAreLawful | src/mellowlang/ledger_core.py:18-24 | read as plain decimals with at least one digit, amounts rounded half away from zero to two places are worth the same cents when read again |
| Money.ParseCents | native/standalone/src/mellowrt_money.c:61-93 | the parsing loops, with int64 arithmetic, compute the specified outcome for every text: refused, accepted with its cents, or overflow |
| Money.FracCentsIsNearest | native/standalone/src/mellowrt_money.c:76-86 | two digits and the third digit's carry give the hundredths nearest to the whole fraction, halves up, for any number of digits |
| Money.MagnitudeIsRounded | native/standalone/src/mellowrt_money.c:61-93 | the accepted magnitude is 100 times the decimal value rounded half up |
| Money.OverflowExactly | native/standalone/src/mellowrt_money.c:71-90 | the int64 arithmetic overflows on exactly the texts with a digit prefix worth INT64_MAX + 1 or + 2, or worth INT64_MAX with a fraction that carries |
| Money.OverflowExample | native/standalone/src/mellowrt_money.c:72-73 | the digits of 2^63 are such a text |
| Money.ParseExact | native/standalone/src/mellowrt_money.c:61-93 | on every other text: a plain decimal, with at least one digit, is accepted if and only if its rounded cents are at most INT64_MAX, and those cents are returned; a text that is no decimal is accepted if and only if it is blanks, an optional sign, an optional point and blanks with something after the sign, and is 0 |
| Money.LooksThenIs | native/standalone/src/mellowrt_money.c:69-87 | spaces or tabs, a plus or minus or neither, digits, perhaps a point with digits, spaces or tabs, with at least one digit: a plain decimal with these parts |
| Money.IsThenLooks | native/standalone/src/mellowrt_money.c:69-87 | and every plain decimal looks like that |
| Money.ParseExamples | native/standalone/src/mellowrt_money.c:61-93 | +1.5 is 150 cents, -0.005 is -1, and 1,5 is refused |
| Money.DigitlessIsSplit | native/standalone/src/mellowrt_money.c:69-91 | the texts of that second form are exactly those the scan takes apart without finding a digit |
| Money.PointIsZero | native/standalone/src/mellowrt_money.c:69-91 | a point alone, and a minus with a blank, are accepted as 0 |
| Money.OverflowIsTooLarge | native/standalone/src/mellowrt_money.c:72-90 | a plain decimal that overflows is one that had to be refused |
| Money.FormatThenParse | native/standalone/src/mellowrt_money.c:61-122 | parsing what was printed gives back every int64 but the smallest, which is refused |
| Money.FormatCents | native/standalone/src/mellowrt_money.c:115-122 | takes any int64 and computes in a 64-bit unsigned type that no step may leave; the text has a sign, the units and two decimals |
| Money.MakeThenCents | native/standalone/src/mellowrt_money.c:95-142 | a money value made from cents reads back as those cents |
| Money.IntegerAmount | native/standalone/src/mellowrt_money.c:103-107 | an integer amount is accepted exactly when a hundred times it is an int64 |
| RunLength.Encode | src/mellowlang/melv_native_codec.py:63-80 | the index loops write the greedy runs of the pixels, capped at 255, and refuse a length that is no multiple of 3 |
| RunLength.Decode | src/mellowlang/melv_native_codec.py:83-95 | the loop expands the runs of a payload; refused are cut payloads, empty runs and a wrong pixel count |
| RunLength.EncodedExample | src/mellowlang/melv_native_codec.py:63-80 | the coding of three pixels, byte for byte |
| RunLength.EncodeThenDecode | src/mellowlang/melv_native_codec.py:63-95 | every pixel string decodes from its own coding |
| RunLength.EncodedIsShortest | src/mellowlang/melv_native_codec.py:63-95 | no payload the decoder accepts for the same pixels is shorter than the encoder's |
| RunLength.SuffixNeedsNoMore | src/mellowlang/melv_native_codec.py:63-80 | dropping pixels from the front never costs the greedy coding a run |
| Ppm.Read | src/mellowlang/melv_native_codec.py:14-45 | the header loop with its comments and blanks, and the size check, compute the specified image or refusal for every file |
| Ppm.ReadExactly | src/mellowlang/melv_native_codec.py:30-45 | what is read: four tokens, P6 and 255 among them, one blank, and three bytes a pixel |
| Ppm.CommentIsSkipped | src/mellowlang/melv_native_codec.py:21-24 | a comment runs to the next line feed or carriage return |
| Ppm.TokenBetweenBlanks | src/mellowlang/melv_native_codec.py:19-27 | tokens stand between spaces, tabs, line feeds and carriage returns |
| Ppm.WrittenBytes | src/mellowlang/melv_native_codec.py:48-49 | the bytes of the header that is written |
| Text.IntExamples | src/mellowlang/melv_native_codec.py:33-35 | what int reads and refuses: signs, single underscores, white space around |
| Ppm.WriteThenRead | src/mellowlang/melv_native_codec.py:14-49 | any image comes back from its own file, whatever bytes its pixels begin with |
| MelvCodec.Pack | src/mellowlang/melv_native_codec.py:122-138 | packs exactly when every frame reads, all have one size and every number fits 32 bits; then the file is the header and the length-prefixed coded frames in order |
| MelvCodec.HeaderBytes | src/mellowlang/melv_native_codec.py:10-13 | the header byte range by byte range: magic, version 1, width, height, frame rate in thousandths, 1000, frame count, little-endian |
| MelvCodec.PackedBytes | src/mellowlang/melv_native_codec.py:132-137 | behind the header each frame's length in four bytes and its coding |
| MelvCodec.EqualSizesArePackable | src/mellowlang/melv_native_codec.py:126-138 | equal-size frames can be packed whenever their size, their count and four bytes a pixel fit 32 bits |
| MelvCodec.Extract | src/mellowlang/melv_native_codec.py:215-232 | reading the file by position yields the specified PPM files, or a refusal for a bad header, a cut frame or a bad payload |
| MelvCodec.ExtractedNeeds | src/mellowlang/melv_native_codec.py:215-223 | what is extracted has the magic and version 1 in front, and as many files come out as the header says |
| Bytes.LittleEndian | src/mellowlang/melv_native_codec.py:12-13 | the least significant byte comes first |
| MelvCodec.PackThenExtract | src/mellowlang/melv_native_codec.py:14-232 | packing, extracting and reading again returns every frame's width, height and pixels, in order |
| MelvCodec.RepackingNeverGrows | src/mellowlang/melv_native_codec.py:122-232 | whatever the extractor accepts can be packed again and never takes more bytes than it did |
| Utf8.RoundTrip | src/mellowlang/sm_codec.py:75-77 | every text decodes from its UTF-8 encoding |
| Utf8.Canonical | src/mellowlang/sm_codec.py:106 | bytes that decode are the only encoding of what they decode to |
| Utf8.KnownCharacters | src/mellowlang/sm_codec.py:75-77 | the bytes of one character at each end of each length |
| SmTokens.Tokenize | src/mellowlang/sm_codec.py:53-80 | the loops over widths and positions emit the specified stream: always the longest token, else one character; fails only on an id above 255 |
| SmTokens.Detokenize | src/mellowlang/sm_codec.py:83-107 | the loop returns the text the entries stand for, or refuses a cut stream, an unknown id, an empty literal or bad UTF-8 |
| SmTokens.LongestIsLongest | src/mellowlang/sm_codec.py:60-68 | no entry of three characters or more that the text begins with is longer than the one referred to, and of equal entries the last is |
| SmTokens.PieceBytes | src/mellowlang/sm_codec.py:69-79 | a reference is 255 and an id of one byte, a literal the number of bytes of one character and these |
| SmTokens.StreamExample | src/mellowlang/sm_codec.py:53-80 | a small stream, byte for byte |
| SmTokens.RoundTrip | src/mellowlang/sm_codec.py:53-107 | under any dictionary, a text that has a stream is read back from it |
| SmTokens.SmallDictionarySuffices | src/mellowlang/sm_codec.py:53-80 | with at most 256 tokens every text has a stream |
| SmTokens.ReferencesSave | src/mellowlang/sm_codec.py:69-79 | each reference saves at least four bytes over the dictionary-free stream |
| SmDictionary.BuildDictionary | src/mellowlang/sm_codec.py:40-50 | returns the 240 best repeated tokens in order: eligible, ranked by saving and then by text, none missing unless 240 others rank before it |
| SmDictionary.EligibleExactly | src/mellowlang/sm_codec.py:43-48 | eligible means two occurrences or more, three characters or more and a saving above three, with at most 240 entries and none left out before that |
| SmDictionary.AheadExactly | src/mellowlang/sm_codec.py:49 | the rank: more saving, then the text that is smaller at the first difference |
| SmDictionary.MatchExactly | src/mellowlang/sm_codec.py:21 | what the regular expression matches at a position, by classes of characters |
| SmDictionary.TokensExample | src/mellowlang/sm_codec.py:21 | the tokens of a small text |
| SmDictionary.BestIsUnique | src/mellowlang/sm_codec.py:49-50 | there is only one such dictionary |
| SmDictionary.BuiltDictionaryRoundTrip | src/mellowlang/sm_codec.py:40-107 | under the dictionary built for it every text has a stream, is read back from it, and the stream is no longer than the text written out |
| SmCodec.EncodeText | src/mellowlang/sm_codec.py:136-155 | produces the container of the text under its dictionary, unless the header does not fit its length |
| SmCodec.DecodeBytes | src/mellowlang/sm_codec.py:114-133 | opens the container and returns its text, or refuses on any size, checksum or format mismatch |
| SmCodec.ContainerBytes | src/mellowlang/sm_codec.py:154-155 | magic, header length in four bytes, header, payload |
| SmCodec.OpensExactly | src/mellowlang/sm_codec.py:114-133 | which containers open, and to what |
| SmCodec.UnpacksExactly | src/mellowlang/sm_codec.py:164-180 | which payloads unpack under a header, and to which text |
| SmCodec.EncodeThenDecode | src/mellowlang/sm_codec.py:136-180 | decoding gives back every encoded text |
| SmCodec.EveryTextIsEncoded | src/mellowlang/sm_codec.py:136-155 | under the dictionary the encoder builds, a text is refused if and only if its header does not fit its length |
| SmCodec.HeaderPinsTheText | src/mellowlang/sm_codec.py:164-180 | whatever payload stands behind the header of an encoded text, it is refused or decodes to that text, unless the token streams collide under the checksum and the two texts' bytes do too |
| CompileCache.Compiler.Lookup | src/mellowlang/compiler/compiler.py:62-68 | a hit, that is an entry with this key, returns its program, moves it to the end and adds one to the hits; a miss only adds one to the misses |
| CompileCache.Compiler.Store | src/mellowlang/compiler/compiler.py:71-75 | inserts or replaces, moves to the end, drops from the front down to 128, and nothing while there is room |
| CompileCache.Compiler.Compile | src/mellowlang/compiler/compiler.py:59-76 | over a correct cache the result is always the uncached one, and the cache stays correct |
| CompileCache.TouchedIsMostRecent | src/mellowlang/compiler/compiler.py:62-75 | using a key keeps the entries the most recently used keys in order of use, evicting the least recent |
| CompileCache.EveryRunKeepsInvariant | src/mellowlang/compiler/compiler.py:59-84 | after any interleaving of threads through both sections and clears: entries equal the uncached compile, at most 128, the most recently used ones, and hits plus misses are the lookups since the last clear |
| CompileCache.AnswersAreCorrect | src/mellowlang/compiler/compiler.py:59-76 | over any interleaving every program a thread was handed, from the cache or compiled, is the uncached one of the key it is an answer to |
| CompileCache.AnswersWereAskedFor | src/mellowlang/compiler/compiler.py:59-76 | and that key is one the thread itself had looked up or was compiling |
| LanguageModel.TinyCausalLM.Train | src/mellowlang/ai/language_model.py:36-54 | after any calls the table holds exactly the occurrences of each character after each context in all texts, once per epoch, and all counts add up to trained_tokens |
| LanguageModel.TinyCausalLM.TrainText | src/mellowlang/ai/language_model.py:45-51 | one text adds exactly its own occurrences |
| LanguageModel.OccurrencesArePositions | src/mellowlang/ai/language_model.py:29-51 | an occurrence is a position of the character whose last order characters before it, fewer only at the beginning of the text, are the context |
| LanguageModel.CleanInTurn | src/mellowlang/ai/language_model.py:40 | only empty texts are dropped |
| LanguageModel.EpochsMultiply | src/mellowlang/ai/language_model.py:43-51 | training for n epochs multiplies every count of the texts by n |
| LanguageModel.OrderOfTextsIsForgotten | src/mellowlang/ai/language_model.py:43-51 | tables that count the same texts, in whatever order, are equal |
| LanguageModel.Dataset | src/mellowlang/ai/language_model.py:219-245 | the nested loops return the specified samples under the clamped sizes, and the total length |
| LanguageModel.SizesAreClamped | src/mellowlang/ai/language_model.py:220-222 | which chunk size and step the options give |
| LanguageModel.ChunkIsASlice | src/mellowlang/ai/language_model.py:233 | a chunk is the characters from its start on, fewer only at the end |
| LanguageModel.TextsInTurn | src/mellowlang/ai/language_model.py:225-231 | short texts are one sample or none, and texts are taken in turn |
| LanguageModel.SamplesAreChunks | src/mellowlang/ai/language_model.py:232-237 | the samples of a long text are exactly its chunks, one a stride, that are long enough |
| LanguageModel.SamplesCoverText | src/mellowlang/ai/language_model.py:232-237 | however samples overlap, without a minimum the first stride characters of each join to the text |
| DataStreams.TakeSplits | src/mellowlang/data_core.py:98-109 | a read that does not fail takes the front of the source, a full batch unless the source is at its end |
| DataStreams.ReadFailsAt | src/mellowlang/data_core.py:98-107 | where a read fails: behind an oversize record, or at the end of a source that broke |
| DataStreams.OpensExactly | src/mellowlang/data_core.py:50-62 | a stream opens if and only if its batch size, 100 when none or 0 is given, is between 1 and the limit and there is room; the first number is 1 |
| DataStreams.Source.ReadBatch | src/mellowlang/data_core.py:98-107 | the loop takes rows one by one, counts them, and stops at the end or at a refused record |
| DataStreams.DataStreamManager.OpenIterable | src/mellowlang/data_core.py:56-62 | a handle is given out exactly when the batch size is allowed and there is room; then the stream is added under the next number |
| DataStreams.DataStreamManager.NextBatch | src/mellowlang/data_core.py:93-109 | returns the batch and updates only that stream; a read at the end closes it; a refused record loses the batch but keeps the stream |
| DataStreams.DataStreamManager.SqliteOpen | src/mellowlang/data_core.py:218-232 | a database gets the next number, of the same sequence as the streams |
| DataStreams.DataStreamManager.SqliteClose | src/mellowlang/data_core.py:234-239 | a database is closed if it was open, and the caller is told whether it was |
| DataStreams.DataStreamManager.DoAll | src/mellowlang/data_core.py:56-256 | any sequence of calls on the object, failed reads included, leaves it in the specified state and every call answered as specified |
| DataStreams.LogsAreDelivered | src/mellowlang/data_core.py:56-256 | for a new manager and a run without a failed read, that state is the run's, and the batches its log has for a handle are those the calls returned for it |
| DataStreams.DataStreamManager.CloseAll | src/mellowlang/data_core.py:252-256 | afterwards no stream and no database is open, and numbering goes on |
| DataStreams.EveryRunKeepsLogs | src/mellowlang/data_core.py:93-120 | over any run without a failed read: open streams never exceed the limit; every open stream has delivered full batches that with the rest make up its source, and rows_read is their total; a closed one delivered a front part in full batches, or everything if it ended |
| DataStreams.EndedStreamIsComplete | src/mellowlang/data_core.py:93-109 | what a handle delivered is a front part of its source, and a read has hit the end if and only if it is all of the source and the last batch was short |
| DataStreams.HandlesAreNotReused | src/mellowlang/data_core.py:56-62 | a stream that opens gets a number no stream had before |

## Left out

- Allocation failure, and the fixed-size C buffers for names and aliases: allocation succeeds and names fit.
- The native VM's instruction loop, heap and garbage collector: opcodes have the arity and the shape their names state, and an arbitrary meaning.
- ExprVariables.CodeReadsVariables: that a function's frame holds the globals past its locals is a hypothesis (`Stored`); the frames of the native VM are not part of this model.
- Floating point: the numbers of `MathCore` and of literals are reals or opaque texts, and rounding, infinities and overflow are not modelled.
- Lexer.Lex: the extent of a number is the C grammar of decimal and hexadecimal floating literals; infinities and NaN cannot start with a digit.
- Error texts and source lines in diagnostics.
- BytecodeBackend.Lower: argument values are opaque constants with their `str` and `repr` forms, and the four position maps are one list of spans; the contract says exactly when there is an error, not which of several comes first.
- MathCore.Calculate: starts from the token list; splitting the text by a regular expression and substituting variables are not modelled.
- Scheduler.VM.DoAll: a task is loaded only while the current one is saved, and only the current one is saved, as in the VM's own loop; what the single operations do otherwise is stated at `Save` and `Load`.
- Scheduler.VM.Spawn: task ids are unbounded and the table is a sequence with a capacity; the 64-bit counter does not wrap, and cloned values are copies.
- Worker counts, the mode string and `mellowrt_task_free_values`.
- Ledger.Post: rows, memo and metadata have their types already; JSON type checks, defaults for missing keys and metadata that is not serializable are not modelled.
- Ledger.Verify: an entry has exactly the fields `post` writes; text is ASCII for `strip` and `upper`.
- Ledger.Balance: a row whose amount is NaN, which the decimal library rounds to NaN and adds without raising, counts as unreadable here, so the program's answer NaN is a refusal; sums are exact integers of cents, without the 28-digit limit of the decimal context.
- Money.ParseCents: the int that counts fraction digits does not wrap, which takes 2^31 of them; exponents and special decimals belong to the ledger's decimal reader, a parameter; money multiplication, division and floating amounts are left out.
- Money.FormatCents: the C buffer's size and its snprintf.
- `currency_from_value` and the money syscalls' argument checks: lookups without a hard property.
- Ppm.Read: Python's limit on the digits of an integer.
- MelvCodec.Pack: the frame rate is given in thousandths, already rounded; files are byte strings, and temporary files and renames are not modelled.
- MelvCodec.Extract: files written before a refusal.
- The optional native fast paths of both codecs and the SM3 format.
- SmDictionary.BuildDictionary: the regular expression is modelled by its leftmost, greedy scan.
- SmCodec.EncodeText: the header has no `codec` field; the Python code names an unbound variable there and would raise.
- SmCodec.DecodeBytes: a header is a record of the right types; JSON type coercions are not modelled.
- CompileCache.Compiler.Compile: programs are values, and a compilation that raises stores nothing.
- LanguageModel.TinyCausalLM.Train: losses, the vocabulary they use, text generation, and conversion of items to text.
- DataStreams.Source.ReadBatch: cancellation between rows, and iterators that go on after raising.
- DataStreams.DataStreamManager.OpenIterable: files, CSV and SQLite; a source is the list of items its iterator yields, a handle is its number.
- `DataStreamManager.project`, `where`, `sum_field` and queries: comprehensions without a hard property.
