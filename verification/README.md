# Register machine and assembler, modelled in Dafny

`Project.cpp` is a small register-machine interpreter with a two-pass
assembler. This project models its core as pure Dafny functions and proves
properties about them.

The machine (class `model`) holds:

- six general registers `eax` … `efx`;
- the instruction pointer `ip`;
- four flags `af` … `df`;
- 10 000 memory cells;
- one stack, shared by calls and pushes;
- an internal `jumped` flag;
- the list of printed values.

Operands (class `reference`) come in four kinds:

- a constant `42`;
- a memory cell `[42]`;
- a register `eax`;
- a register-indirect cell `[eax]`.

`rref` reads through an operand and `wref` writes through it. The assembler
(class `parser`) reads program text line by line:

- the scan pass records label lines and checks each instruction line's arity against the mnemonic tables;
- the resolve pass classifies each operand token and binds the mnemonic to its operands.

Modules:

| module | file | contents |
|---|---|---|
| `Results` | results.dfy | `Option`, `Result` with failure propagation |
| `Machine` | machine.dfy | registers, machine state, `Ref` (the `reference` class), `Read` (`rref`), `Locate`/`Write` (`wref`) |
| `Engine` | engine.dfy | instructions, per-opcode semantics `Exec`, `Step`, fuel-bounded `Run`, `Install`, `Execute` |
| `Text` | text.dfy | character classes, decimal numerals, whitespace tokenisation, carriage-return stripping |
| `Assembler` | assembler.dfy | mnemonic and register tables, token shapes (`is_*`), `StringToInt`, `ParseArgument`, the scan and resolve passes, `Assemble` |
| `MachineLemmas`, `EngineLemmas`, `AssemblerLemmas`, `TextLemmas` | *_lemmas.dfy | properties of the modules above |
| `Listing` | listing.dfy | the inverse of the assembler: instructions printed as text, and the proof that assembling the printout gives the instructions back |
| `Scenarios` | scenarios.dfy | whole programs: loops, calls, the shared stack, an assembled program with a label |
| `Seqs` | seqs.dfy | small facts about splitting and extending sequences, used by the proofs |

Behaviour that the code shows and the model keeps:

- `ip` is an ordinary writable register. `MOV ip X` does not raise `jumped`, so the step then adds one to it.
- `RETURN` does not raise `jumped` either. Execution resumes one past the popped address, which is the instruction after the `CALL`.
- `JZ` jumps when `af` is non-zero and `JNZ` jumps when `af` is zero.
- The run loop compares `ip` as unsigned, so a negative `ip` stops it, just as one past the end does.
- `DIV` and `MOD` round toward zero, as in C++.
- `AND` and `OR` short-circuit: the second operand is not read when the first decides the result.
- C++17 sequences the right side of `a = b` before the left. So `MOV` and `NEG` read their source before resolving the destination, and `POP` checks the stack before resolving it.
- The number shape accepts `-`, which parses as the constant 0.
- `[]` parses as memory cell 0.
- Label keys keep their trailing `:`.
- A whitespace-only line has no tokens. Its argument count wraps to `UINT_MAX`, so it is rejected as an invalid command.

Where C++ has undefined behaviour, the model returns an error `Fault` instead. This covers:

- an address outside the 10 000 cells;
- popping or returning on an empty stack;
- division or remainder by zero.

Writing to a constant is the source's own `logic_error`, and it becomes `ConstantWrite`. Assembler exceptions become `AsmError` values:

- `InvalidCommand`;
- `UnknownLabel`;
- `UnknownRegister`;
- `UnknownOperand`.

### A counting loop that does not count

The loop `loop:`, `DEC ecx`, `JNZ loop:` looks like a countdown, but it is not one here. `DEC` never touches `af`, and `JNZ` jumps exactly when `af` is zero (Project.cpp:93-97, 125-127). So from `af = 0` this loop never ends.

- `Scenarios.JnzLoopNeverHalts` proves the loop runs out of any step budget.
- `Scenarios.CountdownRuns` proves that the loop `DEC ecx`, `NEQ ecx 0`, `JZ loop:` does count down.

## Model

| member | source | states |
|---|---|---|
| Machine.Read | Project.cpp:331-342 | A constant reads as its literal and a register as its content. `[n]` reads cell `n` and `[reg]` the cell at the register's value. Each of these two fails, only with the out-of-range address, exactly when that address is outside memory. |
| Machine.Locate | Project.cpp:345-357 | The destination of a write is refused exactly for a constant. A register operand names that register. A memory cell comes only from `[n]` or `[reg]`. Every located cell is valid. |
| Machine.Write | Project.cpp:345-357 | A write succeeds exactly when its destination resolves. Afterwards that cell holds the value, and every other register, cell, the stack, the output and `jumped` are unchanged. |
| MachineLemmas.WriteConstantFails | Project.cpp:347-349 | Writing through a constant fails with `ConstantWrite`, whatever the constant and the value. |
| MachineLemmas.ReadThroughCell | Project.cpp:331-357 | For every non-constant operand, `rref` and `wref` agree: a read succeeds exactly when the cell resolves, yields that cell's content, and otherwise fails with the same error. |
| MachineLemmas.ReadIndirect | Project.cpp:339-340 | `[reg]` reads the register first, then the memory cell at its value. It fails with that value when it is outside memory. |
| MachineLemmas.LocateKinds | Project.cpp:350-355 | The cell each writable kind resolves to: the register, `memory[n]`, or `memory[reg]`. Each fails with the address when it is out of range. |
| MachineLemmas.ReadAfterWrite | Project.cpp:331-357 | Reading back through the same operand after a successful write gives the written value. |
| MachineLemmas.WriteLeavesOtherCells | Project.cpp:345-357 | A write leaves every other cell unchanged. |
| Engine.Exec | Project.cpp:84-187 | No instruction removes printed output. Only `PRINT` adds to it. |
| Engine.ExecBi | Project.cpp:110-178 | A two-operand instruction never changes the output. Its effect per opcode is stated by `EngineLemmas.ArithWritesOnlyEax`, `EngineLemmas.LogicWritesOnlyAf` and `EngineLemmas.MovCopies`. |
| Engine.ExecUni | Project.cpp:84-187 | A one-operand instruction other than `PRINT` leaves the output unchanged, and `PRINT` only appends to it. |
| Engine.Step | Project.cpp:250-258 | After a successful step `jumped` is clear, and earlier output is kept. |
| Engine.Run | Project.cpp:268-272 | A finished run stops with `ip` outside the program and keeps earlier output. Running out of steps is reported only while the machine is still running. |
| Engine.Install | Project.cpp:261-264 | The image is copied to addresses 0… and the rest of memory is zero. The registers, flags and stack are the initial ones. An image longer than memory is refused. |
| Engine.Execute | Project.cpp:261-277 | An image longer than memory is refused. A successful execution finished its run within the budget and returns one line per printed value, line `k` being the decimal numeral of the `k`-th printed value. |
| Listing.ExecuteReadsBack | Project.cpp:181-187 | Every output line of a finished execution is a number token that the operand parser reads back as exactly the printed value. |
| Engine.TruncDiv | Project.cpp:142-144 | Rounding toward zero: the quotient's magnitude is the quotient of the magnitudes, and a non-zero quotient is negative exactly when the operands' signs differ. |
| Engine.TruncMod | Project.cpp:145-147 | The remainder is the remainder of the magnitudes, carrying the dividend's sign. |
| EngineLemmas.TruncDivMod | Project.cpp:142-147 | C++ division and remainder: `a == b*q + r`, `abs(r) < abs(b)`, a non-zero remainder has the dividend's sign, and `abs(q) == abs(a)/abs(b)`. |
| EngineLemmas.TruncDiffersFromEuclid | Project.cpp:142-147 | On negative operands the truncating results differ from Euclidean ones, e.g. -7/2 is -3 with remainder -1. |
| EngineLemmas.ArithWritesOnlyEax | Project.cpp:133-147 | `ADD`/`SUB`/`MUL`/`DIV`/`MOD` write only `eax`, with the sum, difference, product, truncated quotient or remainder. When both operands read, they fail exactly for `DIV`/`MOD` by zero. |
| EngineLemmas.LogicWritesOnlyAf | Project.cpp:161-178 | `AND`/`OR`/`EQ`/`NEQ`/`LESS`/`LEQ` always succeed on readable operands. They write only `af`, always 0 or 1, and 1 exactly when the relation holds. |
| EngineLemmas.LogicShortCircuits | Project.cpp:161-166 | `AND` with a false first operand, and `OR` with a true one, decide `af` without reading the second operand. |
| EngineLemmas.NotWritesOnlyAf | Project.cpp:158-160 | `NOT` writes only `af`: 1 exactly when the operand is zero, else 0. |
| EngineLemmas.InPlaceWritesOnlyOperand | Project.cpp:122-155 | `INC`/`DEC`/`NEG`/`SET`/`UNSET` change only their operand's cell, by +1, -1, negation, 1 and 0. They fail exactly as resolving that cell fails. |
| EngineLemmas.MovCopies | Project.cpp:110-112 | `MOV x y` is a write of `y`'s value through `x`. Afterwards `x` reads that value. |
| EngineLemmas.EmptyStackFails | Project.cpp:104-119 | `POP` and `RETURN` on an empty stack fail with `StackUnderflow`. |
| EngineLemmas.PrintAppends | Project.cpp:181-187 | `PRINT x` succeeds exactly when `x` reads. It then appends exactly that value to the output and changes nothing else; otherwise it fails with the read's error. |
| EngineLemmas.ExecKeepsIp | Project.cpp:84-187 | An instruction that neither jumps nor writes `ip` leaves `ip` and `jumped` alone. |
| EngineLemmas.StepIpDiscipline | Project.cpp:250-258 | After a step `jumped` is clear. A taken jump leaves `ip` at the target. Any other instruction that does not write `ip` advances it by exactly one. `RETURN` leaves it one past the popped address. |
| EngineLemmas.ConditionalJumps | Project.cpp:88-97 | `JZ` jumps exactly when `af` is non-zero, `JNZ` exactly when it is zero. Otherwise the state is unchanged. |
| EngineLemmas.MovIpIsNotAJump | Project.cpp:110-112 | `MOV ip v` is not a jump: the step leaves `ip` at `v + 1`. |
| EngineLemmas.CallThenReturn | Project.cpp:100-107 | `CALL` pushes `ip` and jumps to the target. A `RETURN` that finds that stack resumes at the instruction after the `CALL`, with the stack as it was before the call. |
| EngineLemmas.PushThenPop | Project.cpp:113-119 | `PUSH x` then `POP y` leaves `y` holding the value read from `x`, with the stack as before. |
| EngineLemmas.RunFuelMonotone | Project.cpp:268-272 | Once a run finishes within some budget, any larger budget gives the same final state. |
| EngineLemmas.RunEndsUnjumped | Project.cpp:250-258 | A finished run started from a state with `jumped` clear, as `Install` produces, ends with `jumped` clear. |
| TextLemmas.DecimalValue | Project.cpp:419-426 | Reading the decimal numeral of `n` digit by digit gives `n` back. |
| TextLemmas.TokenizeToken | Project.cpp:520-522 | A single blank-free word tokenises to itself. |
| TextLemmas.TokenizeUnwords | Project.cpp:516-522 | Splitting words joined by single spaces gives the words back. |
| Text.Tokenize | Project.cpp:516-522 | Every token is non-empty and free of whitespace, and an empty line has none. `TextLemmas.TokenizeUnwords` gives the inverse. |
| Text.StripCR | Project.cpp:504-506 | The result is a prefix of the line that is at most one character shorter. It is shorter exactly when the line ends in a carriage return, and then it is the line without that character. |
| Assembler.StringToInt | Project.cpp:419-426 | Digits without a sign give a non-negative value. |
| Assembler.GetRegister | Project.cpp:457-462 | The lookup succeeds exactly for the eleven register names, and otherwise fails naming the unknown register. |
| Assembler.Scan | Project.cpp:503-534 | One code entry per line, carriage return stripped. One token list per accepted instruction, with its line index in range and its tokens shaped. Every label is bound to at most the number of instructions. |
| Assembler.ScanLineKeepsInvariant | Project.cpp:503-534 | Scanning one more line keeps the scan invariant. |
| Assembler.MnemonicNotLabel | Project.cpp:539-542 | No mnemonic has the shape of a label, so the resolve pass's label skip is never taken for an accepted line. |
| Assembler.ResolveMeaning | Project.cpp:543-555 | Resolving an accepted line succeeds exactly when every operand resolves, and otherwise fails with the first failing operand's error. On success the mnemonic from the table of the line's arity is bound to the operands in order, and `RETURN` is always `Ret`. |
| Assembler.ResolveAllAt | Project.cpp:539-556 | The resolve pass succeeds exactly when every accepted line resolves. Instruction `k` is line `k`'s resolution against the same label table, and a failure is the error of the first failing line. |
| Assembler.ResolveAllLength | Project.cpp:539-556 | The resolve pass yields one instruction per accepted line. |
| Assembler.Assemble | Project.cpp:497-559 | As many instructions as line-map entries, one code entry per source line, and every line-map entry a valid line index. Every mapped line is an accepted instruction line, and instruction `k` is the resolution of line `commandToLine[k]`'s tokens against the program's final label table. |
| AssemblerLemmas.ShapesDisjoint | Project.cpp:438-452 | The five token shapes overlap only in `[]`, which is both `[number]` and `[word]`. A label is none of the others. |
| AssemblerLemmas.GrammarEdgeCases | Project.cpp:465-494 | `-` parses as constant 0 and `[]` as cell 0. `:` is a label, looked up in the label table. |
| AssemblerLemmas.ParseLabel | Project.cpp:466-472 | A label token is tried first. A bound label gives the constant bound to it; an unbound one fails with `UnknownLabel`. |
| AssemblerLemmas.ParseDigits | Project.cpp:473-476 | A digit string parses as the constant of its decimal value. |
| AssemblerLemmas.ParseNegativeDigits | Project.cpp:473-476 | `-` followed by digits parses as the negated value. |
| AssemblerLemmas.ParseArgumentSucceeds | Project.cpp:465-494 | An operand resolves exactly when it is a known label, a number, `[number]`, a register name, or a bracketed register name. Otherwise the error is the unknown label, unknown register, or unknown operand. |
| AssemblerLemmas.ScanLineOk | Project.cpp:503-532 | Scanning one line fails exactly when the stripped line is not blank, not a label and not of the right arity, and then with `InvalidCommand` of that line. |
| AssemblerLemmas.ScanAcceptsIff | Project.cpp:503-534 | The scan accepts the text exactly when every line, carriage return stripped, is blank, a label, or an instruction line whose argument count matches its mnemonic's table. |
| AssemblerLemmas.ScanFirstError | Project.cpp:525-532 | A rejected text is rejected with `InvalidCommand` of its first bad line, and every earlier line is acceptable. |
| AssemblerLemmas.ScanCommandLines | Project.cpp:507-530 | The line map lists exactly the instruction lines, in increasing order. Blank and label lines take no instruction slot. |
| AssemblerLemmas.ScanLabels | Project.cpp:511-514 | Every label is bound to the index of the first instruction after its last occurrence. Every bound label occurs as a label line. |
| Listing.RegNameRoundTrip | Project.cpp:399-411 | Every register's name is in the register table and maps back to it. |
| Listing.MnemonicRoundTrip | Project.cpp:363-396 | Every opcode's mnemonic is in the table of its arity and maps back to it. |
| Listing.ParseBracketDigits | Project.cpp:477-480 | `[digits]` parses as the memory cell at their value. |
| Listing.ParseBracketRegister | Project.cpp:485-489 | `[reg]` parses as the indirect cell through that register. |
| Listing.ParseRegister | Project.cpp:481-484 | A register name parses as that register. |
| Listing.ParseConstant | Project.cpp:473-476 | The signed decimal numeral of any integer parses back as that constant. |
| Listing.FormatRefParses | Project.cpp:465-494 | Every operand, written out, is one token that parses back to the same operand. |
| Listing.FormatInstrLine | Project.cpp:511-529 | A printed instruction is a non-label line whose tokens are its mnemonic and operands, accepted by the arity check. |
| Listing.ResolveWords | Project.cpp:543-555 | Resolving a printed instruction's tokens gives the instruction back. |
| Listing.ScanInstructionLines | Project.cpp:503-534 | Text made only of instruction lines scans to one token list per line, with no labels and the identity line map. |
| Listing.ResolveAllWords | Project.cpp:536-556 | The resolve pass over printed instructions gives the instructions back. |
| Listing.AssembleRender | Project.cpp:497-559 | Assembling the printout of any instruction list succeeds. It gives back exactly those instructions, with no labels and line `k` producing instruction `k`. |
| Scenarios.SetFlag | Project.cpp:150-152 | `SET af` makes `af` 1 in one step. |
| Scenarios.MoveIncrementPrint | Project.cpp:261-277 | `MOV ebx 5`, `INC ebx`, `PRINT ebx` prints the single line `6`. |
| Scenarios.JnzLoopNeverHalts | Project.cpp:93-97 | With `af` clear, the loop `DEC ecx` / `JNZ` back never stops within any step budget. |
| Scenarios.CountdownRuns | Project.cpp:84-97 | `DEC ecx`, `NEQ ecx 0`, `JZ` back, from `ecx = n >= 1`, stops after exactly `3n` steps with `ecx = 0` and `ip` past the end. |
| Scenarios.CountdownFromThree | Project.cpp:268-272 | From `ecx = 3` the countdown finishes in 9 steps but not in 8. |
| Scenarios.CallReturnResumes | Project.cpp:100-107 | A `CALL` into a subroutine that sets `eax` to 7 and returns resumes after the `CALL`, and prints `7`. |
| Scenarios.PushPopCopies | Project.cpp:113-119 | `MOV ecx 42`, `PUSH ecx`, `POP edx` leaves `edx = 42` and an empty stack. |
| Scenarios.SharedStack | Project.cpp:100-119 | Calls and pushes share one stack. A subroutine that pushes 5 and returns resumes at 6 and leaves its return address behind. |
| Scenarios.AssembleCountdown | Project.cpp:497-559 | The text `loop:`, `DEC ecx`, `NEQ ecx 0`, `JZ loop:` assembles to the countdown instructions. `loop:` is bound to instruction 0 and the line map is 1, 2, 3. |
| Scenarios.RunSeesOnlyCommands | Project.cpp:250-251 | Execution depends only on the instruction list, not on the text or the label table. |
| Scenarios.AssembledCountdownRuns | Project.cpp:497-559 | The assembled countdown text counts `ecx` from `n` down to 0 within `3n` steps. |

## Left out

- `model::log`, the `CLEAR`/`DEBUG`/`OUTPUT` macros, `system(CLEAR)` and the `std::cin.get()` pacing: console display only.
- `main`, opening the program and data files, and writing the output lines to the `ofstream`: I/O. `Execute` returns the lines instead.
- `min`: used only by the logger.
- The `std::function` commands and pointer-to-member operands: replaced by the `Instr` and `Ref` datatypes.
- Fixed-width `int`: registers, cells and `string_to_int` use unbounded integers. C++ overflow, including `INT_MIN / -1`, is undefined behaviour and is not modelled.
- The `unsigned` operand of `[n]` is a `nat`. The parser only ever produces it from a digit string.
- The order in which C++ evaluates `rref(x)` and `rref(y)` in two-operand instructions is unspecified. When both reads fail, the model reports `x`'s error.
- Undefined behaviour at an out-of-range address, an empty stack, or division by zero is an explicit `Fault` rather than whatever the compiled program does.
- The messages of `logic_error`: the error datatypes carry the offending line, label, register name or token, not the message text.
- `stringstream` tokenisation is a split on the six C whitespace characters. The decimal formatting of `print` is `Text.SignedDecimal`.
- Engine.Run: `execute` loops without bound. The model takes a step budget and reports `StepLimitReached` when the budget runs out.
- Engine.Execute: the budget applies here too, and a fault ends the run with that fault instead of output.
- EngineLemmas.PushThenPop: the pop target may not be `ip` itself. The step then adds one to the popped value, as the code does, so `ip` ends one above the pushed value.
- Assembler.StringToInt: the contract states only the sign of the result. Its value is stated by `AssemblerLemmas.ParseDigits`, `AssemblerLemmas.ParseNegativeDigits` and `TextLemmas.DecimalValue`.
