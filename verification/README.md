# The Lua core and adclib, verified

This project models the parts of a repository that vendors the Lua 5.4 core and adds a C++ helper library,
`adclib`, where a small slip in a loop or an invariant would go unnoticed longest, and proves what the source, its
comments and its documentation promise of them. Six pieces of the Lua core and one of adclib are covered.

* **Code generator** (`lcode.c`, with the parts of `lparser.c` that drive it). `LuaOps` gives the opcodes their
  meaning. `ExprGen` is the expression part of the generator on values, with a patch list as the sequence of its
  jumps. `ExecLemmas`, `ExprCorrect`, `ExprBranch`, `ExprRel` and `ExprMain` prove that the code it emits computes
  the expression, by every way out of it, in any program and from any earlier starting point of a run. `FuncState`
  and `CodeGen` are the generator as it runs: a state and descriptors that change in place, and lists threaded
  through the jump fields. Every method is proved to do what `ExprGen` does, to keep the code before the expression,
  and to keep the lists exact. `Encoding` is the 32-bit form of the instructions, and
  `Emitted` shows that what is emitted fits it. `CodeRuns` puts all of this together. In one branch of `codeorder` the source emits a
  comparison that is not the one written; `ExprLeak` says exactly which comparisons are wrong, and in which runs.
  `ExprTotal` shows that an expression within the machine's limits does compile. `Finish` is the jump-threading
  pass, `LineInfo` the compressed line information, `Operators` the operator-precedence parser, and
  `OperatorOrder` what its priorities mean.
* **Incremental collector** (`lgc.c`, `lgc.h`). `Gc` is the collector on values, `GcInvariant`, `GcCycle` and
  `GcMutator` its inductive invariant for marking, for the rest of the cycle and for everything a program may do
  between two steps, `GcRuns` the theorems about whole runs, and `GcCollector` the collector as it runs. `Ephemeron`
  is marking through tables with weak keys.
* **String library** (`lstrlib.c`, with `llex.c`). `Pattern` lists all outcomes of a pattern in the order
  backtracking finds them, `PatternMeaning` says what that order means, `PatternDepth` what the limit on nested calls
  does to it, `PatternItems` what each item of a pattern matches, and `Matcher` is the matcher with its mutable
  captures. `PlainFind` is the short cut for texts without
  special characters, and whether it agrees with the matcher. `PackFormat`, `Pack` and `PackLoops` are pack,
  unpack and packsize, and `PackOptions` says what the letters of a format mean. `Quoted` is the `%q` option and the
  lexer that reads its output, and `Escapes` what each escape sequence reads as.
* **Quicksort** (`ltablib.c`): `Quicksort`.
* **Heap structures**: `StringTable` is the intern table of `lstring.c`, `OpenUpvalues` the list of open upvalues of
  `lfunc.c` across closing and the stack reallocation of `ldo.c`.
* **adclib**: `Tiger`, `Base32`, and `Utf8` with `Sanitize`.

`Wrappers` holds the two types that all of them share.

Sequences, sets and maps are unbounded. Where the width of an integer matters it is written out: instruction fields,
bytes, 64-bit Lua integers, the limits at which the source raises an error.

## Model

| member | source | states |
|---|---|---|
| ExprMain.CompileReady | lua/src/lparser.c:1259-1286 | For every expression over locals, constants, `not`, `and`, `or` and the six comparisons, and for every run, the emitted code adds exactly the evaluation of the expression, with each comparison as the code makes it (`Found`), to whatever a run of the old code did, by falling through or by a jump of the right list |
| ExprMain.CompileComparison | lua/src/lcode.c:1553-1578 | The code of a comparison finds what its operands leave to be seen, in every run: the comparison written, or with leaking operands that of the float equal to the left operand |
| ExprMain.ExpressionToNextRegister | lua/src/lcode.c:944-949 | In every run what is found ends in the next register, every register in use is unchanged, an error of the expression is raised, and the descriptor has no jumps left; the register holds the value of the expression if and only if the value is what is found |
| ExprMain.ExpressionAnywhere | lua/src/lcode.c:944-949 | The same for a run that starts with the expression, whatever code comes before it, loops included, and from any registers |
| ExprMain.ExpressionToLocal | lua/src/lcode.c:1050-1056 | The same for an assignment to a local variable, whose register then holds what is found, and the value if and only if that is what is found |
| ExprMain.ExpressionAsCondition | lua/src/lcode.c:1135-1156 | In every run the code for a condition goes on exactly when what is found is true and otherwise leaves by a jump of the returned list |
| ExprBranch.GoIfTrueBranches | lua/src/lcode.c:1135-1156 | After `luaK_goiftrue` a run goes on with a true value only, and leaves by the false list with a false one |
| ExprBranch.GoIfFalseBranches | lua/src/lcode.c:1162-1182 | The mirror image for `luaK_goiffalse` |
| ExprBranch.CodeNotReady | lua/src/lcode.c:1188-1216 | After `codenot` the same run yields the negated value by every way out, and no test of the lists carries a value |
| ExprCorrect.Exp2RegYields | lua/src/lcode.c:916-938 | `exp2reg` brings the value to the register by every exit, through the loads of booleans where a jump carries no value |
| ExprCorrect.Discharge2RegYields | lua/src/lcode.c:827-874 | Every kind of main value is loaded into the register, also when a LOADNIL is widened instead |
| ExprCorrect.LoadNilInto | lua/src/lcode.c:132-148 | Widening the last LOADNIL loads one more nil and changes nothing else, because no run starts or jumps in between |
| ExprCorrect.ValuesCompare | lua/src/lvm.c:483-572 | Only nil and false are false; numbers compare by value whatever their type; other values are equal only to themselves, objects also where a metamethod says so |
| ExprRel.CodeOrderReady | lua/src/lcode.c:1553-1578 | The test emitted for an order comparison, with an immediate on either side or two registers, decides the comparison of its operands, where an immediate left operand beside a refused float with jumps counts as the float equal to it |
| ExprRel.CodeEqReady | lua/src/lcode.c:1585-1610 | The same for `==` and `~=`, with operands swapped when the first is a constant |
| ExprRel.ImmediateExact | lua/src/lcode.c:1257-1271 | The immediate left operand of an order comparison is the value of the operand if and only if the float flag was not set by a refused right operand |
| ExprLeak.ComparisonExact | lua/src/lcode.c:1553-1578 | Whatever code comes before, the code of `<` or another comparison, its operands computed right, computes its value in a run if and only if not all of this holds: the left operand is an integer that fits an immediate, without jumps; the right one is an integral float with jumps; and the run's values make comparing the equal float come out differently |
| ExprLeak.EverywhereRight | lua/src/lparser.c:1259-1286 | Any expression is computed right in every program and from all values of the locals if and only if evaluating it with each comparison as the code makes it gives everywhere its value |
| ExprLeak.EverywhereExact | lua/src/lcode.c:1257-1271 | One comparison of operands that do not leak themselves is computed right in every program and from all values of the locals if and only if no program and values tell the integer from the float |
| ExprLeak.PlainExact | lua/src/lcode.c:1257-1271 | When the operands have no comparisons inside, this is so if and only if the guard of the wrong branch does not hold or the right operand is always a number, both of which are read off the text |
| ExprLeak.OtherExactly | lua/src/lcode.c:1257-1271 | The text of an expression without comparisons tells exactly whether some values of the locals make it something other than a number |
| ExprLeak.GuardExact | lua/src/lcode.c:1553-1578 | When in addition the right operand is a local variable followed by `and` or `or`, it is so if and only if the guard does not hold |
| ExprLeak.LeakFreeRight | lua/src/lparser.c:1259-1286 | An expression with no comparison that satisfies the guard is computed right in every program and from all values of the locals |
| ExprLeak.LeakyRun | lua/src/lcode.c:1553-1578 | `1 < (x or 5.0)` with an object in `x` whose `__lt` tells 1 from 1.0 compiles, is false, and its code does not compute that |
| ExprLeak.LeakyButRight | lua/src/lcode.c:1553-1578 | `1 < ((x and 3) or 5.0)` satisfies the guard too and is computed right everywhere: the guard alone does not decide |
| ExprLeak.BesideTheGuard | lua/src/lcode.c:1257-1271 | An integer too large for an immediate, a left operand with jumps, and a right operand whose jumps can never be taken are outside the guard |
| ExprTotal.CompileFits | lua/src/lparser.c:1259-1286 | An expression compiles wherever there are registers free for its depth, where only the second operand of a comparison is computed while another value is kept, and constants and instructions are left for one unit for each `not`, `and` and `or` and five for each comparison; it uses no more, and holds at most one register in the end |
| ExecLemmas.PatchListExec | lua/src/lcode.c:289-299 | Patching a list makes every run that stopped at one of its jumps go on from that jump's target, with the value its test carried, and changes no other run |
| ExecLemmas.RemoveValuesExec | lua/src/lcode.c:278-281 | Removing the values from a list changes no run |
| FuncState.FuncState.Concat | lua/src/lcode.c:182-193 | The threaded list of the result is the two lists one after the other, and only the last jump of the first list changes |
| FuncState.FuncState.PatchTestReg | lua/src/lcode.c:260-272 | In place, the test before a jump becomes what the model says, and nothing else changes |
| FuncState.FuncState.RemoveValues | lua/src/lcode.c:278-281 | The loop over the threaded list removes the values from exactly its tests and keeps the list |
| FuncState.FuncState.NeedValue | lua/src/lcode.c:900-906 | The loop finds out whether some jump of the list has no TESTSET |
| FuncState.FuncState.PatchListAux | lua/src/lcode.c:289-299 | The loop, which destroys the list it walks, gives every jump of it its target and changes no other instruction |
| FuncState.FuncState.CodeNil | lua/src/lcode.c:132-148 | Emits or widens as the model does; jumps and earlier code stay |
| FuncState.ThreadsJoin | lua/src/lcode.c:182-193 | Linking the last jump of one list to the head of a disjoint one threads the concatenation: no cycle arises |
| FuncState.MachineRuns | lua/src/lopcodes.h:271-284 | On code without pending jumps the machine, whose jumps add their offset to the pc, does what the model of a run says |
| CodeGen.Exp2Reg | lua/src/lcode.c:916-938 | In place, `exp2reg` does what the model does, keeps all code before the expression, and leaves no jump of it without a target |
| CodeGen.Exp2AnyReg | lua/src/lcode.c:956-971 | The same for `luaK_exp2anyreg`; a value already in a register is left alone |
| CodeGen.Exp2RK | lua/src/lcode.c:1030-1037 | The same for `exp2RK`, with the constant table grown in place |
| CodeGen.JumpOnCond | lua/src/lcode.c:1117-1129 | Drops a last NOT and inverts the test, or tests the register; the new jump waits besides the two lists |
| CodeGen.GoIfTrue | lua/src/lcode.c:1135-1156 | The unresolved jumps of the expression are then exactly those of the false list |
| CodeGen.GoIfFalse | lua/src/lcode.c:1162-1182 | The unresolved jumps of the expression are then exactly those of the true list |
| CodeGen.CodeNot | lua/src/lcode.c:1188-1216 | The two lists change places, each jump still waiting and still listed once |
| CodeGen.CodeOrder | lua/src/lcode.c:1553-1578 | In place, with whichever operand still has code to emit |
| CodeGen.CodeEq | lua/src/lcode.c:1585-1610 | In place, with the descriptors exchanged when the first operand is a constant |
| CodeGen.PosfixRel | lua/src/lcode.c:1706-1780 | `luaK_posfix` for comparisons; `>` and `>=` exchange their operands |
| CodeGen.PosfixAnd | lua/src/lcode.c:1712-1716 | The false list of the whole is the second operand's followed by the first's, although code was emitted in between |
| CodeGen.PosfixOr | lua/src/lcode.c:1718-1722 | The same for the true list |
| CodeGen.SubExpr | lua/src/lparser.c:1259-1286 | For every expression tree the calls made do what the model does; the jumps without a target in its code are then those of its two lists and of its own test, each once, and no code before it changes except for a widened LOADNIL |
| CodeGen.OpenBoth | lua/src/lcode.c:1706-1722 | Two operands' lists joined are exactly the unresolved jumps of both |
| CodeGen.StoreLocal | lua/src/lcode.c:1050-1056 | In place, an assignment to a local variable frees the register of the value and brings it to that of the variable |
| CodeRuns.ExprToNextReg | lua/src/lcode.c:944-949 | After the in-place generator, in every program and for every run of the old code, the machine goes on to bring what the expression finds to the next register, all other registers in use unchanged, and so the value of the expression if and only if that is what is found; where the fields of the old code fit their words, those of the new code do; it succeeds where `ExprTotal` finds room |
| CodeRuns.CompileExpr | lua/src/lparser.c:1259-1291 | The code of a function that only evaluates an expression leaves what is found on the machine, from any values of its locals, and the value exactly where that is what is found; every field of every instruction fits, so the code is what is read back from its 32-bit words; expressions that are not too deep or too long do compile |
| Encoding.FitsExactly | lua/src/lopcodes.h:18-107 | An instruction is read back from its 32-bit word, laid out as iABC, iABx, iAsBx, iAx or isJ with its opcode number, if and only if every field is in its range |
| Encoding.ImmediateField | lua/src/lopcodes.h:97-101 | The immediate operand of a comparison is its field B less 127, a float where field C is set |
| Emitted.CompileTidy | lua/src/lparser.c:1259-1286 | Compiling an expression leaves only instructions whose fields are in range: registers, constants, immediate operands and the way of every jump that has a target |
| Emitted.WordsHold | lua/src/lopcodes.h:110-170 | Code in which no jump waits for a target is read back unchanged from its words |
| Emitted.ShortForms | lua/src/lcode.c:649-690 | LOADI and LOADF are used exactly for -65535 to 65536, LOADK exactly for indices up to 131071 |
| Emitted.ImmediateForm | lua/src/lcode.c:1257-1271 | An operand of a comparison is put into the instruction exactly when it has no jumps and is an integer, or a float equal to one, from -127 to 128 |
| Emitted.ConstantReused | lua/src/lcode.c:544-573 | A constant already in the table is not added again |
| Emitted.ConstantUntested | lua/src/lcode.c:1135-1182 | No test and no jump is left for a condition that is a constant |
| Finish.FinalTarget | lua/src/lcode.c:1830-1840 | The result is reached by following at most 100 jumps, and is no jump unless 100 were followed |
| Finish.LuaKFinish | lua/src/lcode.c:1847-1875 | For every pc the next instruction other than a jump, or the fact that there is none, is the same before and after, although jumps are rewritten while others still lead through them; a return with upvalues to close or extra arguments to drop gets opcode 70, bit k and one more than the number of parameters in field C, and nothing else changes |
| Finish.JumpIs | lua/src/lopcodes.h:150-170 | A jump has opcode 56 and its way in the 25 bits above it, less 16777215 |
| Finish.FixJump | lua/src/lcode.c:168-176 | The jump leads to the destination, and nothing else changes; it fails only when the code is too long for the field |
| LineInfo.LineState.SaveLineInfo | lua/src/lcode.c:330-345 | The table then stands for the lines so far and the new one, also after an absolute entry has been removed |
| LineInfo.LineState.RemoveLastLineInfo | lua/src/lcode.c:354-366 | The table then stands for all lines but the last |
| LineInfo.LineState.FixLine | lua/src/lcode.c:1787-1790 | Only the line of the last instruction changes |
| LineInfo.Compile | lua/src/lcode.c:330-391 | After any sequence of emissions, fixes and replacements of the last instruction the information can be read back for the lines last recorded |
| LineInfo.EstimateLow | lua/src/ldebug.c:63-78 | The estimate of where an absolute entry is found is never too high |
| LineInfo.GetBaseLine | lua/src/ldebug.c:63-78 | The entry found is at or before the pc, with only relative entries in between |
| LineInfo.GetFuncLine | lua/src/ldebug.c:86-98 | The result is the line last recorded for the instruction, or -1 for a function stripped of its lines |
| LineInfo.ChangedLine | lua/src/ldebug.c:873-891 | The shortcut over relative entries answers exactly whether the two lines differ, and no for a stripped function |
| Operators.AcceptsExactly | lua/src/lparser.c:1236-1286 | A token list is accepted as a tree if and only if it is some text of the tree with at least the parentheses its priorities require and few enough nested calls |
| Operators.Unambiguous | lua/src/lparser.c:1236-1251 | A token list is the text of at most one tree |
| Operators.PrintThenParse | lua/src/lparser.c:1259-1286 | Printing any tree with only the required parentheses and parsing it gives the tree and consumes exactly its tokens, or overflows when the nesting exceeds the limit |
| Operators.MinimalIsShortest | lua/src/lparser.c:1236-1251 | No text of the same tree is shorter |
| Operators.LexState.SubExprOf | lua/src/lparser.c:1259-1286 | The loop over the lexer state reads what the recursive specification reads, and restores the call counter |
| OperatorOrder.ReadInOrder | lua/src/lparser.c:1236-1286 | An expression of operands, with unary operators in front of them, and binary operators between them is read as the tree split at its loosest operator, the last of several or for `..` and `^` the first, in the order `or`, `and`, comparisons, `|`, `~`, `&`, shifts, `..`, `+ -`, `* / // %`, unary operators, `^` |
| OperatorOrder.PrioritiesAre | lua/src/lparser.c:1236-1251 | The two numbers of each operator say exactly that order and grouping |
| OperatorOrder.TwoOperators | lua/src/lparser.c:1259-1286 | For all binary operators a and b, which tree `x a y b z` is read as |
| OperatorOrder.UnaryFirst | lua/src/lparser.c:1259-1286 | A unary operator before `x b y` takes x alone, or `x ^ y` |
| OperatorOrder.UnaryBetween | lua/src/lparser.c:1259-1286 | A unary operator between two binary ones takes its operand, with a `^` after that, and leaves the order of the others |
| GcMutator.NextKeeps | lua/src/lgc.h:14-25 | Every step of the collector and every action of the program keeps the invariant |
| GcMutator.StoreKeeps | lua/src/lgc.c:208-240 | A store followed by its forward or backward barrier keeps it, in every phase |
| GcMutator.EffectOf | lua/src/lgc.c:208-267 | Every action of the program has the effect on references and roots that it is there for, and no other, whatever its barrier does |
| GcMutator.BarrierOnlyWhileCollecting | lua/src/lgc.c:208-223 | A black object exists only while marking or sweeping, as the barrier's assertions suppose |
| GcCycle.SingleStepKeeps | lua/src/lgc.c:1585-1645 | A step of the collector in any phase keeps the invariant; from the start of a cycle the unreachable objects stay unmarked until freed |
| GcCycle.Flipped | lua/src/lgc.c:1525-1565 | When marking has ended the change of the current white makes exactly the unmarked objects dead |
| GcInvariant.PropagateAllKeeps | lua/src/lgc.c:676-681 | Emptying the gray list keeps the marking invariant and loses no mark |
| GcRuns.Safety | lua/src/lgc.h:14-25 | In every state of every run, what the program can reach is in the heap and not dead; while marking, no black object refers to a white one and the gray objects are exactly those in the gray lists |
| GcRuns.StepIsInvisible | lua/src/lgc.c:1585-1645 | A step of the collector, anywhere in any run, changes neither what is reachable nor a reference of a reachable object |
| GcRuns.Completeness | lua/src/lgc.c:403-409 | What nothing reached when the cycle began has been freed at the next pause, and everything then in the heap has the current white |
| GcRuns.FullCollection | lua/src/lgc.c:1710-1722 | A full collection, started in any phase, leaves exactly the reachable objects, unchanged and white |
| Gc.StepAdvances | lua/src/lgc.c:1585-1645 | Every step gets nearer to any given phase or does some of a bounded amount of work |
| Gc.HundredSwept | lua/src/lgc.c:1570-1582 | A step sweeps a hundred objects, or those that are left |
| GcCollector.Collector.MarkObject | lua/src/lgc.c:297-329 | The recursive marking of the code does what the model does |
| GcCollector.Collector.PropagateMark | lua/src/lgc.c:660-673 | One gray object is visited, a thread goes back to a gray list, as in the model |
| GcCollector.Collector.SweepList | lua/src/lgc.c:824-845 | The loop over the list frees the dead and whitens the rest, at most so many objects |
| GcCollector.Collector.SingleStep | lua/src/lgc.c:1585-1645 | The step does what the model does and keeps the invariant |
| GcCollector.Collector.Store | lua/src/lgc.c:208-240 | A store with its barrier adds that reference to that object, changes no other reference, does what the model does and keeps the invariant |
| GcCollector.Collector.NewObject | lua/src/lgc.c:258-267 | A new object, which nothing was before, is reachable from the stack of the running thread; it gets the current white and the head of the list, as in the model, and the invariant is kept |
| GcCollector.Collector.FullGc | lua/src/lgc.c:1730-1739 | Afterwards the heap holds exactly what was reachable before, with the same references |
| Ephemeron.Marker.TraverseEphemeron | lua/src/lgc.c:480-520 | In either direction, only marks that every closed set must have are added, and when nothing was marked the table is done; it is put in front of one list only, that of `ephemeron` only for an entry with neither key nor value marked before, that of `allweak` only for an unmarked key |
| Ephemeron.Marker.ConvergeEphemerons | lua/src/lgc.c:691-710 | The marked set is the least one that holds the initial marks and is closed under references and under "key marked implies value marked", and the loop ends |
| Ephemeron.Marker.MarkFrom | lua/src/lgc.c:1525-1548 | Marking from roots, with ephemeron tables met on the way, ends in the least closed set |
| Ephemeron.ClosureUnique | lua/src/lgc.c:691-710 | The result does not depend on the order of visits or the alternating direction |
| PatternMeaning.FirstIsBest | lua/src/lstrlib.c:506-531 | No choice of repetition counts matches if and only if there is no outcome, and otherwise the first outcome is that of the choice preferred by the greedy and lazy repetitions |
| PatternDepth.LimitOnlyCuts | lua/src/lstrlib.c:570-572 | Whatever the limit on nested calls, the outcomes are those of the pattern, cut short where the search came to a missing call; none is missing when the limit is above the number of captures and repetitions of the pattern |
| PatternDepth.CallCut | lua/src/lstrlib.c:570-572 | Raising the limit changes no outcome before the first missing call |
| Matcher.AgreesWithAll | lua/src/lstrlib.c:570-572 | An answer that agrees with the outcomes under the limit is "pattern too complex" if and only if the search comes to a missing call before any outcome, and otherwise agrees with the outcomes without limit |
| Matcher.MatchState.Match | lua/src/lstrlib.c:570-669 | The matcher returns the first outcome of the backtracking semantics under the limit that is left, with its captures, fails exactly when there is none, restores the captures on failure and the depth counter always |
| Matcher.MatchState.MaxExpand | lua/src/lstrlib.c:506-518 | The first outcome among the counts tried from the longest down |
| Matcher.MatchState.MinExpand | lua/src/lstrlib.c:521-531 | The first outcome among the counts tried from the shortest up |
| Matcher.MatchState.StartCapture | lua/src/lstrlib.c:534-545 | An opened capture is undone when the rest does not match |
| Matcher.MatchState.EndCapture | lua/src/lstrlib.c:548-556 | A closed capture is open again when the rest does not match |
| Matcher.MatchState.MatchCapture | lua/src/lstrlib.c:559-567 | A back reference matches exactly the captured text, and only of a closed capture |
| PatternItems.ClassOutcomes | lua/src/lstrlib.c:570-669 | A class, alone or with a suffix, takes of the characters of the class that stand there: one; all down to none for `*` or to one for `+`; none up to all for `-`; one or none for `?`, in that order |
| PatternItems.ClassRead | lua/src/lstrlib.c:403-483 | A class ends where its text ends, and accepts what it says: any character, that character, what a `%` and a letter stand for, or the union of the characters, ranges and classes of a set, or its complement |
| PatternItems.MatchClassIs | lua/src/lstrlib.c:427-444 | What each class letter accepts, as ranges of characters; the capital letter is the complement, and any other character after `%` is itself |
| PatternItems.BalanceOutcomes | lua/src/lstrlib.c:486-503 | `%b` goes past the shortest text that opens and has as many closing as opening characters |
| PatternItems.FrontierOutcomes | lua/src/lstrlib.c:602-614 | `%f` is passed where the next character is in the set and the one before is not, the ends counted as NUL |
| PatternItems.OpenOutcomes | lua/src/lstrlib.c:534-545 | `(` and `()` open a capture, at most 32 of them |
| PatternItems.CloseOutcomes | lua/src/lstrlib.c:548-556 | `)` closes the last capture still open, and is an error without one |
| PatternItems.BackOutcomes | lua/src/lstrlib.c:559-567 | `%1` to `%9` match the text of that capture again; an open or missing capture is an error |
| PatternItems.EndOutcomes | lua/src/lstrlib.c:587-594 | A last `$` matches the end of the subject, and the end of the pattern matches |
| PatternItems.WrongOutcomes | lua/src/lstrlib.c:403-424 | A pattern that ends in `%`, in a `[` without `]`, or within `%b` or `%f` raises its error |
| PatternItems.OpenSetOutcomes | lua/src/lstrlib.c:403-424 | A set that is not closed is an error, whatever its parts |
| Matcher.FindPattern | lua/src/lstrlib.c:793-813 | The first position with an outcome is found, and its first outcome; an anchored pattern is tried once; "pattern too complex" is raised if and only if a call is missing there before any outcome |
| PlainFind.StrFind | lua/src/lstrlib.c:773-816 | `string.find` from the position asked for, from the end when negative: with `plain`, or without special characters, the first place where the text stands, and otherwise what the matcher finds |
| PlainFind.PositionIs | lua/src/lstrlib.c:71-79 | Position -1 is the last character, minus the length the first, and everything before it the first |
| PlainFind.MemFind | lua/src/lstrlib.c:673-692 | The loop over `memchr` finds the first place from the position on where the text stands, and none if and only if there is none |
| PlainFind.ShortCutExact | lua/src/lstrlib.c:746-791 | For a text without special characters the short cut finds what the matcher would find if and only if the matcher does not come to a `)`; if it does, the matcher raises an error |
| PlainFind.ShortCutDiffers | lua/src/lstrlib.c:746-791 | `find("a)", ")")` finds the second character, where the matcher would come to a `)` and raise an error |
| PackFormat.UnpackPacked | lua/src/lstrlib.c:1568-1582 | For sizes 1 to 16, either endianness, signed or not, unpacking a packed integer that fits gives it back |
| PackFormat.PaddingAligns | lua/src/lstrlib.c:1538-1559 | The padding before an option is the least that brings it to its alignment, or to the maximum alignment where that is smaller |
| Pack.RoundTrip | lua/src/lstrlib.c:1754-1825 | For every format without floats and every accepted argument list, unpacking the result from its start ends at its end and gives one value for each option that takes an argument: the argument itself, or for a fixed-size string that string with zeros up to the size |
| Pack.EchoesAre | lua/src/lstrlib.c:1659-1668 | From any place in a format, as many values come back as its text has options with an argument, each the argument of its option, padded only for `c` |
| Pack.SizeIsLength | lua/src/lstrlib.c:1700-1717 | The packed size is the length of every packed result, and is refused only for variable lengths and sizes beyond the limit |
| PackOptions.FixedRead | lua/src/lstrlib.c:1449-1475 | The kind and size of every letter without a number |
| PackOptions.SizedRead | lua/src/lstrlib.c:1465-1526 | The kind, the default and the limits of every letter with a number after it, read from the decimal digits that stand there |
| PackOptions.OrderRead | lua/src/lstrlib.c:1518-1520 | `<` sets the lowest byte first, `>` the highest, `=` and the beginning of a format the lowest |
| PackOptions.OtherRead | lua/src/lstrlib.c:1526 | Every other letter is an error |
| PackOptions.AlignmentRead | lua/src/lstrlib.c:1538-1559 | An option is aligned to its size or the maximum in force, whichever is smaller, which must be a power of two; `c` and what has no size are not |
| PackOptions.AlignOnlyRead | lua/src/lstrlib.c:1538-1559 | `X` aligns as the option after it would, and is an error before one without a size or before `c` |
| PackOptions.PackAppend | lua/src/lstrlib.c:1601-1697 | A format that packs and takes exactly its arguments can stand before any other: its bytes come first, and the rest packs as from there |
| PackOptions.OrderedBytes | lua/src/lstrlib.c:1568-1582 | After any format, the bytes of an integer of any option stand lowest first after `<` and highest first after `>`, each being what is left modulo 256 after that many divisions by 256 |
| PackOptions.UnpackedBytes | lua/src/lstrlib.c:1728-1751 | An integer of up to sixteen bytes is read as the number that has these bytes, in the order of the header |
| PackOptions.ItemAccepts | lua/src/lstrlib.c:1615-1689 | An option takes exactly the arguments that fit it: integers in the range of its bytes, strings of at most its size, or whose length fits its count, or without zeros |
| PackOptions.RefusedBytes | lua/src/lstrlib.c:1728-1751 | An integer of more than eight bytes is refused exactly when a byte beyond the eighth does not extend its sign |
| PackOptions.OrderStepBack | lua/src/lstrlib.c:1518-1520 | `<` and `>`, anywhere in a format, set that order for reading |
| PackLoops.PackInteger | lua/src/lstrlib.c:1568-1582 | The loops over the buffer write the digits of the number in the order asked for, with the sign extended |
| PackLoops.UnpackInteger | lua/src/lstrlib.c:1728-1751 | The loop reads the number back, and raises an error exactly when a long one does not fit |
| PackLoops.ReadDetails | lua/src/lstrlib.c:1449-1559 | Reading an option with its size, through the digit loop and the header that `<`, `>`, `=` and `!` change, and aligning it, also as the option after `X`, does what the specification does, errors included |
| PackLoops.WriteItem | lua/src/lstrlib.c:1615-1689 | Each option's bytes are written as specified: integers and counted strings through the buffer, fixed-size strings padded in a loop, zero-terminated ones after the search for a zero |
| PackLoops.StrPack | lua/src/lstrlib.c:1601-1697 | The loop over the format does what the specification does, errors included |
| PackLoops.StrUnpack | lua/src/lstrlib.c:1754-1825 | The same for unpacking |
| PackLoops.StrPackSize | lua/src/lstrlib.c:1700-1717 | The same for the packed size |
| Quoted.QuotedRead | lua/src/llex.c:382-442 | Reading the quoted form of any bytes, whatever follows it, consumes exactly that form and yields the bytes, if and only if the line count stays below its limit |
| Quoted.PieceRead | lua/src/lstrlib.c:1122-1142 | Each byte is read back from what was written for it, given the byte that follows, control characters before digits included |
| Escapes.PieceIs | lua/src/lstrlib.c:1122-1142 | What is written for each byte, in numbers |
| Quoted.AddQuotedTo | lua/src/lstrlib.c:1122-1142 | The loop writes the quoted form |
| Quoted.LexState.ReadString | lua/src/llex.c:382-442 | The lexer loop with its token buffer reads what the specification reads, errors included |
| Escapes.LetterRead | lua/src/llex.c:397-413 | A backslash and a, b, f, n, r, t, v, a backslash or a quote read as 7, 8, 12, 10, 13, 9, 11 or that character, wherever they stand |
| Escapes.HexRead | lua/src/llex.c:335-340 | A backslash, `x` and two hexadecimal digits, large or small, read as their number |
| Escapes.DecimalRead | lua/src/llex.c:369-379 | A backslash and one to three decimal digits, as many as there are, read as their number, which is an error above 255 |
| Escapes.NumberRead | lua/src/llex.c:343-366 | A backslash, `u` and a number in hexadecimal digits in braces read as the UTF-8 form of the number, which is an error from 2^31 on |
| Escapes.SpacesSkipped | lua/src/llex.c:410-418 | A backslash and `z` skip exactly the white space that follows, and count its lines |
| Escapes.BreakRead | lua/src/llex.c:406-407 | A backslash before a line break of one or two characters reads as a line feed |
| Escapes.PlainRead | lua/src/llex.c:382-442 | Every other byte stands for itself up to the delimiter; a line break or the end of the text is an error |
| Escapes.WrongEscapes | lua/src/llex.c:319-441 | What is no escape, and which error it raises |
| Quicksort.ChoosePivot | lua/src/ltablib.c:334-339 | The pivot is in the middle half of the interval, whatever the random number |
| Quicksort.Sorter.Partition | lua/src/ltablib.c:298-327 | For any comparison function the two scans stay in the interval and end in a permutation or an error; under a real order the pivot separates the interval |
| Quicksort.Sorter.AuxSort | lua/src/ltablib.c:345-396 | The interval is permuted, and sorted under a real order; recursive calls nest at most as deep as the logarithm of the size of the interval |
| Quicksort.Sorter.Sort | lua/src/ltablib.c:399-409 | For any comparison function sorting ends, touches places 1 to n only, and leaves a permutation or raises an error; under a strict weak order it sorts and raises none |
| StringTable.StringTableState.TableRehash | lua/src/lstring.c:62-77 | Rehashing in place, chains growing ahead of the loop included, brings every string to the bucket of its hash and loses none |
| StringTable.StringTableState.Resize | lua/src/lstring.c:85-103 | A resize, also one that fails half way while shrinking, keeps the table right |
| StringTable.StringTableState.Remove | lua/src/lstring.c:165-172 | Exactly that string leaves the table |
| StringTable.StringTableState.Find | lua/src/lstring.c:189-205 | A string with the contents is found if and only if there is one |
| StringTable.StringTableState.Intern | lua/src/lstring.c:189-216 | The result has the contents asked for, is the string already there if there is one, and no contents occur twice: pointer equality is content equality; the table doubles exactly when a new string finds it full |
| StringTable.StringTableState.GrowTable | lua/src/lstring.c:175-183 | The table doubles when there is memory and room for it, and there is an error only at the largest number of strings |
| OpenUpvalues.LuaState.FindUpval | lua/src/lfunc.c:87-99 | The result is open at the level asked for; a new one is inserted in its place and nothing read through any upvalue changes |
| OpenUpvalues.LuaState.NewUpval | lua/src/lfunc.c:65-80 | Forward and back links stay consistent and the levels strictly descending |
| OpenUpvalues.LuaState.FreeUpval | lua/src/lgc.c:765-769 | An open upvalue is unlinked from any place of the list |
| OpenUpvalues.LuaState.CloseUpval | lua/src/lfunc.c:193-207 | Exactly the upvalues at or above the level leave the list, and every value read through an upvalue is unchanged |
| OpenUpvalues.LuaState.Assign | lua/src/lfunc.c:193-207 | Assigning through an upvalue changes what that one reads and, while it is open, its stack slot, and nothing else |
| OpenUpvalues.LuaState.OneLevelEach | lua/src/lfunc.c:87-99 | No two open upvalues are at one level |
| OpenUpvalues.LuaState.ReallocStack | lua/src/ldo.c:219-242 | Whether or not memory is found, the list, the levels and every value read through an upvalue survive the move of the stack |
| OpenUpvalues.LuaState.RelStack | lua/src/ldo.c:162-173 | Every open upvalue becomes an offset, links untouched |
| OpenUpvalues.LuaState.CorrectStack | lua/src/ldo.c:179-192 | Every offset becomes a pointer into the new stack |
| Tiger.TigerHash.Update | adclib/tiger.cpp:103-143 | After any update the state stands for the whole message so far |
| Tiger.TigerHash.Finalize | adclib/tiger.cpp:145-180 | The result is the compression function folded from the three initial words over the padded message |
| Tiger.HashChunks | adclib/tiger.cpp:103-180 | For every split of a message into updates the result is that of the whole message |
| Tiger.PaddedWhole | adclib/tiger.cpp:145-180 | The padded message is whole blocks, with the fewest zeros |
| Tiger.PaddedBytes | adclib/tiger.cpp:145-180 | The padded message is the message, a byte 1, zeros, and the length in bits in the last eight bytes, lowest first |
| Tiger.FoldsBlocks | adclib/tiger.cpp:103-143 | Blocks of 64 bytes go through the compression function one after the other |
| Base32.ToBase32 | adclib/base32.cpp:25-51 | The loop writes the five-bit regrouping of the bits in the alphabet A to Z and 2 to 7 of section 6 of RFC 4648, without padding |
| Base32.FromBase32 | adclib/base32.cpp:53-87 | Every bit of the buffer is the bit of the digits at its place, zero after their end |
| Base32.BitKept | adclib/base32.cpp:25-51 | Bit k of the bytes is bit k of the digits |
| Base32.DigitsBack | adclib/base32.cpp:53-87 | The bits determine the bytes: what comes from the digits of a byte string is that byte string |
| Base32.Undisguised | adclib/base32.cpp:53-87 | Small letters for capital ones, and inserted characters that are no letters, no digits 2 to 7 and no NUL, do not change the digits |
| Base32.ValueIs | adclib/base32.cpp:13-23 | Every character of the alphabet and its small letter have its place as their value, and no other character has one |
| Base32.RoundTrip | adclib/base32.cpp:25-87 | Decoding an encoding, disguised or not, into a buffer of the original size, zero included, gives the original |
| Utf8.DecodeEncoded | adclib/adclib.cpp:77-137 | Decoding undoes encoding on every Unicode scalar value, wherever the sequence stands |
| Utf8.ShortestIsEncoded | adclib/adclib.cpp:77-113 | An accepted sequence of the shortest length is the encoding of a scalar value |
| Utf8.ToWcInside | adclib/adclib.cpp:77-113 | The decoder makes progress, stays in the string, and accepts scalar values only |
| Utf8.DecodesAs | adclib/adclib.cpp:77-113 | What is decoded from which bytes, by their ranges and places, overlong sequences included, and how much of what is refused is passed over |
| Utf8.Replaced | adclib/adclib.cpp:116-137 | What is no scalar value is encoded as U+FFFD |
| Sanitize.KeepsLength | adclib/adclib.cpp:139-157 | The length is kept, and the program not terminated, if and only if every accepted sequence is in shortest form; then accepted sequences stay where they are and every other byte becomes an underscore |
| Sanitize.TerminatesExactly | adclib/adclib.cpp:139-157 | `insert` throws out of the function that must not throw, and so ends the program, if and only if the decoder accepts an overlong sequence and rejects a byte somewhere after it |
| Sanitize.OverlongTerminates | adclib/adclib.cpp:139-157 | The bytes C0 80 FF are an instance |
| Sanitize.SanitizedIsValid | adclib/adclib.cpp:139-169 | Every result returned is accepted by the validator, and sanitizing it again changes nothing |
| Sanitize.ValidUnchanged | adclib/adclib.cpp:139-169 | A valid string in shortest form is left as it is |
| Sanitize.Utf8ToWc | adclib/adclib.cpp:77-113 | The loop decodes as specified |
| Sanitize.SanitizeUtf8 | adclib/adclib.cpp:139-157 | The loop sanitizes as specified |
| Sanitize.ValidateUtf8 | adclib/adclib.cpp:159-169 | The loop validates as specified |
| Sanitize.EncodersAgree | lua/src/lobject.c:323-338 | On every scalar value the two independent encoders give the same bytes |
| Sanitize.Utf8Esc | lua/src/lobject.c:323-338 | The backward loop fills the end of the buffer with the encoding |

## Left out

Code generator:

- Expressions other than locals, constants, `not`, `and`, `or` and comparisons: upvalues, globals, indexing, calls, arithmetic, concatenation, constant folding and compile-time constants. VRELOC is therefore always a NOT.
- ExprMain.CompileReady: what a run finds is not always the value of the expression, because the source sets the wrong float flag in one branch (`ExprLeak.LeakyRun`). That it is the value is decided for each run by `Found`, for one comparison by `ExprLeak.ComparisonExact`, and for operands without comparisons by the text (`ExprLeak.PlainExact`); for comparisons inside comparisons there is no condition on the text alone that is exact, only the sufficient `ExprLeak.LeakFree`. Between the place where a run starts and the expression the code may jump forwards only; what a run that comes to the expression through loops does there is `ExprMain.ExpressionAnywhere`.
- Comparison metamethods are functions of their two values, or an error: they change no local variable through a captured upvalue and nothing else that a later operand reads.
- ExprTotal.CompileFits: constants and instructions are counted by units, so of these some expressions need less.
- Floats are reals; infinities, NaN and negative zero are not part of this model.
- CodeGen.Exp2RK: the constant table reuses equal constants by looking them up in the table itself; the scanner's cache of them, `f->sizek` and the growth of the code array are not modelled.
- CodeGen.SubExpr: takes the expression as a tree; that the token loop builds the tree is `Operators.AcceptsExactly`, and the two are not one method.
- `maxstacksize`, the line that each instruction gets, and blocks, loops and gotos, which use the same patch lists.
- Operators.AcceptsExactly: a simple expression other than a parenthesised one is an atom, whatever its own syntax.

Collector:

- Generational mode, finalizers and resurrection, emergency collection, fixed objects, open upvalues (gray outside the gray lists; `OpenUpvalues` covers their list), weak tables (`Ephemeron` covers marking through them) and debt and pause tuning, which only decide when steps happen.
- GcCollector.Collector.MarkObject: userdata without user values are blackened before their metatable is marked, where the source blackens them afterwards; marking is recursive there in both.
- GcRuns.Completeness: excepts strings that the program looked up in the string table meanwhile, because the source brings dead ones back to life.
- Ephemeron.Marker.ConvergeEphemerons: a string used as a key in a table that is visited is kept, as the source keeps it, so it belongs to the closed set.

String library and lexer:

- `gmatch`, `gsub`, and how captures are pushed as results; character classes are those of the C locale.
- PatternItems.ClassRead: a range that ends in `%` is not among the parts of a set, because the end of the set is then looked for as if the `%` escaped what follows.
- PlainFind.StrFind: `string.find` only; `string.match` returns captures in place of positions.
- Pack.RoundTrip: float options are an error, `FloatOption`; native sizes and alignment are those of a 64-bit platform. The source also accepts a float with an integral value or a string that is a number where an integer is asked for, and a number where a string is asked for; here an argument has the type asked for or is an error.
- Quoted.QuotedRead: the limit on the size of the token buffer and the lexer's other tokens.

Tables and stacks:

- Quicksort.Sorter.Sort: the comparison function does not change the table while it runs; table access with metamethods is not part of this model.
- StringTable.StringTableState.Intern: no collection runs when the table is full, and a dead string found again is not distinguished; sizes are powers of two, so `lmod` is the remainder.
- OpenUpvalues.LuaState.CloseUpval: the barrier for the value that the upvalue then owns is `GcMutator.StoreKeeps`, not called here.
- OpenUpvalues.LuaState.RelStack: of the pointers into the stack only those of open upvalues are turned into offsets.
- OpenUpvalues.LuaState.CorrectStack: of the offsets only those of open upvalues are turned back.
- OpenUpvalues.LuaState.ReallocStack: the other pointers into the stack (frames, to-be-closed variables), the list of threads with open upvalues and the barrier on closing.

adclib:

- The compression function of Tiger is a parameter, and the host is little-endian.
- Base32.FromBase32: a buffer of size 0 with a text that has digits is excluded: the source stores the first digit before it compares the position with the size, which has no defined effect there.
- OpenSSL wrappers, certificates, random bytes, escaping, and everything that does input or output.
