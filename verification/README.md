# A model of WABIDB

WABIDB instruments WebAssembly binaries and builds a debugger on top of that. This project models it as
an instrumenting compiler over a small stack machine, and proves what the instrumented programs do.

- **The machine** (`Values`, `Machine`). Flat stack code with Begin/Else/End markers, an operand stack,
  locals, globals, byte memory that can grow, direct and indirect calls, imported functions, traps. A
  branch finds its target by scanning for the matching marker, so inserted code could disturb it; that it
  does not is proved.
- **The rewriter** (`Rewriter`, `Builder`, `Instrumenting`). The in-place list loop that splices the
  fragments of the first matching operation around each instruction, the positional insertion, and the
  builder that validates each fragment in a throw-away function and takes it out again.
- **Meaning** (`Embedding`, `Weaving`, `Nesting`, `Fragments`, `StraightLine`, `Simulation`, `Runs`,
  `Meaning`). Every insertion yields the original list with a gap of inserted code before, between and
  after its instructions. A run of such a woven program is a run of the original with runs of fragments
  in between; both directions are proved over whole runs. A fragment's contract speaks only of the
  fragment run on its own. What fragments record is tracked as a log of events. The program's memory may
  grow if the instrumentation owns none behind it.
- **Typing** (`Validation`, `Completeness`, `Transplant`, `WrapperMarkers`, `Typing`, `TypedFrames`,
  `Soundness`, `ValidatedMeaning`). A validator after the appendix "Validation Algorithm" of the WebAssembly
  Core Specification 2.0, which accepts all that the typing rules type; why validating a fragment behind
  placeholder constants is enough to put it anywhere, and type safety of the machine: no run of a valid
  program gets stuck. Together they give preservation of meaning for valid programs and validated fragments.
- **Users of the rewriter** (`Counter`, `StackCanary`, `CanaryRuns`, `CanaryBooks`, `EventBuffer`,
  `PageLayout`, `PageSetUp`, `BacktraceHooks`, `Backtrace`, `BacktraceLimits`, `VariableDump`,
  `VariableInspection`). The call counter of the fibonacci test, the canary example, and the inspection
  protocol: emitted code adds a page to memory and writes bytes to a buffer there, a decoder reads them back.
- **The tools** (`Toolchain`). The programs that put these together: each leaves in the module the very
  instrumented program the theorems about runs speak of.
- **Routines and texts** (`WatRoutines`, `Texts`, `NameUpdate`, `Listing`, `RuntimeCommand`, `ModuleText`,
  `WrapperReading`, `Decimals`). The hand-written WebAssembly routines and the string algorithms, each with its exact result.

Instrumented state is `Join(st, own)`: the program's globals and memory followed by those the
instrumentation owns. `Recorded`, `Counts` and other predicates say what the owned part represents.

Some facts about the code that the proofs bring out:

- The position checks compare with a vector that may hold empty entries, the insertion works on the list
  without them; the check is safe exactly when there are none (`PositionCheckExact`).
- The hook looks a callee up by its internal name in a table keyed by the imported name. A renamed import
  is recorded as -2, and the decoder then rejects the whole file, also when the call has long returned
  (`EventNamesTarget`, `RenamedImportRejected`). This happens exactly when a hooked call of such a function
  is reached (`UnknownIff`); that none can be reached can be seen from the names (`KnownIffShown`).
- The hook does not check for room. The event after the last that fits ends the program in a trap, or, if
  the page is the last of the address space, overwrites the program's memory at address 0
  (`FullHookEffect`, `BacktraceOverflows`).
- If memory already has its largest size, the set-up function does not trap: the failed growth and the
  wrap-around of the address put its strings into the program's last page (`LoadDataOverwrites`).
- A wrapper may validate although the fragment branches to the wrapper's own end; such a fragment may be
  invalid in a host (`BranchMustNotLeave`). That no branch leaves the fragment is a real condition, though
  not a necessary one (`ContainmentNotNecessary`).
- A canary check behind a call of an imported function finds no canary that was put there for it: it stops
  the program, or, if it passes by chance, leaves the stack pointer 16 too high (`UninjectedCall`,
  `PointerKeptIff`).
- Memory that instrumentation adds behind the program's can hide an access outside the program's memory
  (`OwnedMemoryHidesTrap`), and shows in what `memory.size` returns (`OwnedMemoryShowsSize`).
- Rewriting the runtime command a second time changes it when the replaced word carried the directory
  option (`RepeatableIff`, `OptionCanBeLost`).

`dafny verify dfyconfig.toml` checks the whole project.

## Model

| member | source | states |
|---|---|---|
| ValidatedMeaning.ValidMeaningPreserved | src/instrumenter.cpp:87-155 | For a valid program, fragments that pass their wrappers' validation, find their context at every matched reachable instruction and are harmless on their own over the program's stores: the rewritten program finishes with given results if and only if the original does, on stores that agree on everything the program owns, and traps if and only if the original does; only instrumentation that owns memory needs an original that stays inside its own and does not ask for or change its size. |
| ValidatedMeaning.RewrittenValid | src/instrumenter.cpp:148-152 | The rewritten module is valid in every function, so none of its runs gets stuck either. |
| ValidatedMeaning.OfferedFits | src/instr-utils.hpp:23-27 | Where the validator has the declared context on top, every run finds operands of those types there, and the declared locals. |
| ValidatedMeaning.ValidatedGood | src/operation-builder.cpp:53-65 | A fragment that passes its wrapper's validation has matching markers and calls only functions that exist. |
| Soundness.ValidRuns | src/instrumenter.cpp:148-152 | Type safety: no run of a valid program ends in a trap that validation rules out, every frame of every reachable state agrees with the validator, and results have the declared types. |
| Soundness.StepSound | src/instrumenter.cpp:148-152 | Every step of a valid program keeps the agreement of all frames with the validator. |
| Completeness.TypedIsValid | src/instrumenter.cpp:148-152 | The validator accepts every structured function body that the typing rules of the specification type from no operands to the results, with polymorphic branches, nested blocks, loops and ifs. |
| Completeness.SequenceAccepts | src/instrumenter.cpp:148-152 | Typed code is accepted from every state that accepts its operands, and leaves one that accepts its results, the outer frames unchanged. |
| TypedFrames.DecideSound | src/instrumenter.cpp:148-152 | Every move of a frame in valid code leaves operands of the types the validator has at the new position, passes arguments and results of the declared types, and is no fault that validation rules out. |
| Typing.EndFound | src/instrumenter.cpp:148-152 | In valid code the End a branch finds closes the construct the validator has open there, and the validator's state behind it is that of the outer frames with the results pushed. |
| Typing.ElseFound | src/instrumenter.cpp:148-152 | The Else that a false condition finds belongs to its If; an If without Else returns the types it takes. |
| Meaning.MeaningPreserved | src/instrumenter.cpp:87-155 | The same for fragments that are well nested, harmless on their own and find at run time what they declare, and an original that does not meet a trap validation rules out, nor, with owned memory, an access outside its own: finishing with given results and trapping are equivalent in both directions. |
| Meaning.OwnedMemoryHidesTrap | src/instrumenter.cpp:87-155 | A program that traps on an access outside its memory, and finishes when owned memory lies behind it: the condition on such accesses is needed. |
| Meaning.OwnedMemoryShowsSize | src/instrumenter.cpp:87-155 | A program that returns the size of its memory returns another number when an owned page lies behind it, although nothing was inserted: programs that use the size need instrumentation without memory. |
| Meaning.RewrittenIsInstrumented | src/instrumenter.cpp:103-138 | What the rewriter produces in every function in scope is an instrumented program in the sense of the simulation, with the pre and post fragments of the first matching operation in the gaps. |
| Meaning.PiecesAreGaps | src/instrumenter.cpp:117-132 | The code the loop splices between two instructions is exactly the concatenation of the first one's post fragment and the next one's pre fragment. |
| Meaning.StandaloneFitsAlways | src/instr-utils.hpp:21-27 | Fragments that declare no locals and no stack context fit at every point of every run. |
| Simulation.StepSimulated | src/instrumenter.cpp:114-133 | One original step is matched by running through the fragments in front of the instruction and then making the same step; the owned state then represents exactly the further events. |
| Simulation.GapRun | src/instrumenter.cpp:125-129 | Harmless fragments in one gap run to its end and bring control to the next original instruction, with locals, operands and program store unchanged. |
| Runs.RunLifts | src/instrumenter.cpp:114-133 | Every original run of n steps lifts to an instrumented run that reaches the corresponding state, call stack included, and whose owned state represents the log of those n steps. |
| Runs.RunProjects | src/instrumenter.cpp:114-133 | Every prefix of an instrumented run lies between two consecutive states of one original run, or behind its end. |
| Runs.SameResults | src/instrumenter.cpp:114-133 | Original and instrumented program end in the same way: with the same results, or with the same trap, in both directions. |
| Fragments.PieceRun | src/instr-utils.hpp:19-28 | A run of a fragment on its own, placed anywhere inside a function and above any call stack, is a run of the host from before the fragment to behind it. |
| Fragments.LiftRun | src/instr-utils.hpp:19-28 | Any run of the fragment on its own, also one that is still inside a function it calls, is lifted step by step into the host. |
| Fragments.CallRuns | src/instr-utils.hpp:19-28 | A call of a function without arguments, as a fragment: if the function's body runs clean on its own, so does the call at any place. |
| Embedding.DecideEmb | src/instrumenter.cpp:114-133 | One move of code whose instructions and markers sit inside other code is one corresponding move of that code, over a store with owned globals and memory appended. |
| Weaving.WeaveAt | src/instrumenter.cpp:125-130 | In the woven list every original instruction stands at its site, directly behind its gap. |
| Weaving.EraseWeave | src/instrumenter.cpp:114-133 | Forgetting the inserted elements gives back the original list. |
| Weaving.AroundOneMore | src/instrumenter.cpp:125-130 | One more iteration of the loop extends the result by pre, the instruction, and post. |
| Nesting.WeaveKeepsNesting | src/instrumenter.cpp:114-133 | Weaving well-nested fragments in neither breaks nor repairs the nesting of the flat code, from any open constructs. |
| Nesting.WeaveEmbeds | src/instrumenter.cpp:114-133 | After weaving each original Begin is matched with its original Else and End. |
| Nesting.BranchTargetsKept | src/instrumenter.cpp:114-133 | Every branch of the original goes, after weaving, to the start of the gap before its original target. |
| Nesting.FindLaid | src/instrumenter.cpp:114-133 | The scan for a matching End or Else, started anywhere in the woven code at any depth, finds the site of the marker it finds in the original. |
| Rewriter.FindTarget | src/instr-utils.cpp:42-77 | The loop over targets decides whether some target matches. |
| Rewriter.PlainTarget | src/instr-utils.cpp:42-69 | A target without operator matches exactly the instructions of its kind, given constructor by constructor, and asks for its type if it names one. |
| Rewriter.OperatorTarget | src/instr-utils.cpp:42-69 | A target with an operator matches exactly the unary or binary instructions with that operator, or the marker of that kind of block, loop or if; any other combination matches nothing. |
| Rewriter.VecToList | src/instr-utils.cpp:79-86 | The list holds the non-empty entries of the vector in order. |
| Rewriter.CompactAppend | src/instr-utils.cpp:79-86 | The list is made entry by entry in order: an empty entry gives nothing, any other itself. |
| Rewriter.CompactLength | src/instr-utils.cpp:79-86 | The list is as long as the vector exactly when the vector has no empty entry. |
| Rewriter.InstList.Splice | src/instrumenter.cpp:125-126 | Splicing puts the elements in front of the iterator, which keeps referring to its element. |
| Rewriter.FirstMatch | src/instrumenter.cpp:119-124 | The operation chosen matches, and none before it does. |
| Rewriter.InsertAt | src/instrumenter.cpp:115-132 | The work on one instruction: splice, advance, splice, step back; the iterator ends on the last element that belongs to the instruction. |
| Rewriter.InsertAround | src/instrumenter.cpp:112-133 | The in-place loop computes the woven list of the first-match fragments, and visits exactly the original instructions in order. |
| Builder.WrapperNamesFresh | src/operation-builder.cpp:42-77 | The generated names are pairwise distinct and, with a fresh prefix, distinct from all names of the module. |
| Builder.StripPlaceholders | src/operation-builder.cpp:149-154 | The copying loop drops exactly the first instructions, one for each stack context entry. |
| Builder.TakeFragment | src/operation-builder.cpp:141-157 | The lookup by name finds the wrapper, the code taken is the fragment's own, and the wrapper alone is removed. |
| Builder.MakeOperations | src/operation-builder.cpp:101-160 | Entry k of the result holds exactly operation k's two fragments, and the module has the functions it had before. |
| Instrumenting.InstrumentBody | src/instrumenter.cpp:103-138 | The visitor's work on one function: its body becomes the woven code of the first-match fragments. |
| Instrumenting.Instrumenter.Instrument | src/instrumenter.cpp:87-155 | Every defined function in scope is replaced by its woven code and nothing else changes; the result value follows the state and the verdict of validation. |
| Instrumenting.Instrumenter.InstrumentFunction | src/instrumenter.cpp:432-491 | The post fragment is inserted behind the first pos instructions of the named function, whose name, type and locals stay, and every other function is unchanged; the error results and exactly when they occur; errors leave the module unchanged; and exactly when the iterator would run past the end of the list. |
| Toolchain.CountCalls | test/test_fib/test_fib.cpp:146-155 | What the test leaves in the module is the rewritten program with its add_call, for the program of the functions that were there before: the premise of `CountExact`. |
| Toolchain.InsertCanary | examples/stack_canary.cpp:15-44 | What the example leaves in the module, whatever the order of the functions in scope, is the program the canary theorems are about. |
| Toolchain.InspectVariables | src/tools/wabidb-inspect.cpp:694-703 | What the positional insertion leaves in the module is the inspected program of `ToolShowsVariables`, for the function called by the name and the line given. |
| Toolchain.InspectBacktrace | src/tools/wabidb-inspect.cpp:694-709 | What positional insertion and hook pass leave in the module is the hooked program of `BacktraceCorrect`: functions in scope hooked, the inspected one up to its line, all others as they were. |
| Toolchain.EveryProgram | src/instrumenter.cpp:22-37 | Every program, with its types, locals and code, is that of some module with distinct names. |
| Toolchain.RewrittenProgram | src/instrumenter.cpp:103-138 | The functions match-and-insert leaves are the rewritten program of the functions before, for the numbers of the functions in scope. |
| Toolchain.InsertedProgram | src/instrumenter.cpp:464-480 | The functions the positional insertion leaves are the inspected program. |
| Toolchain.HookedIsProgram | src/tools/wabidb-inspect.cpp:599-709 | The functions both passes leave are the hooked program. |
| Instrumenting.PositionCheckExact | src/instrumenter.cpp:464-476 | The position check keeps every accepted insertion inside the list if and only if the vector has no empty entries. |
| Instrumenting.InstrumentedErases | src/instrumenter.cpp:112-137 | Erasing what match-and-insert added gives back the original code of a function. |
| Instrumenting.FragmentsAround | src/instrumenter.cpp:125-129 | What is spliced around an instruction is the first matching operation's own code, and nothing where none matches. |
| Instrumenting.OrderIrrelevant | src/instrumenter.cpp:117-118 | With orthogonal targets, as the source demands, the order of the operations does not matter. |
| ModuleText.MakeClause | src/operation-builder.cpp:14-40 | The loop writes the parameter or result clause, and nothing for an empty list. |
| ModuleText.MakeFuncStr | src/operation-builder.cpp:42-66 | The loops write the wrapper's header, placeholders and instructions. |
| ModuleText.MakeModuleString | src/operation-builder.cpp:80-95 | The text is cut at its last closing parenthesis, two wrappers per operation are appended, and it is closed again. |
| ModuleText.WrappersAreItems | src/operation-builder.cpp:42-77 | Each appended wrapper is one parenthesised item with a balanced inside. |
| ModuleText.AppendedModule | src/operation-builder.cpp:80-95 | Whatever the module's items contain and whatever follows the last parenthesis, the builder makes a module of the old items followed by the wrappers, each a complete item; if the old items are balanced, so is the result. |
| ModuleText.LinesInOrder | src/operation-builder.cpp:68-95 | The wrappers stand in order, each on lines of its own. |
| WrapperReading.TextsAreWrappers | src/operation-builder.cpp:42-77 | Read back word by word, the texts appended for operation k have the names, parameters and results of the two functions the builder then looks up, and one zero constant for each stack context entry in front of the fragment's own instructions. |
| WrapperReading.InstructionsInOrder | src/operation-builder.cpp:61-64 | A fragment's instructions stand in order, each on a line of its own. |
| Transplant.StrippedWrapper | src/operation-builder.cpp:53-65 | If placeholders and fragment validate as a function, the fragment alone takes the stack context to the stack context. |
| Transplant.WrapperIsFunction | src/operation-builder.cpp:42-66 | The function the builder puts into the module, with the name, parameters and results it declares, is valid exactly when the wrapper is. |
| Transplant.WrapperSound | src/instr-utils.hpp:23-27 | In every host state with the stack context on top and agreeing locals a fragment that validates in its wrapper and does not branch out of itself is valid and leaves a state that accepts all that the state before accepted, also below the context and in unreachable code. |
| Transplant.WovenValid | src/instrumenter.cpp:125-129 | A valid function stays valid when fitting fragments are put into its gaps. |
| Transplant.InstrumentedValid | src/instrumenter.cpp:148-152 | Match-and-insert keeps a function valid when each matched place offers the fragments their context. |
| WrapperMarkers.WrapperNested | src/operation-builder.cpp:60-64 | A fragment whose wrapper validates has matching control markers, which the simulation needs. |
| Transplant.BranchMustNotLeave | src/instr-utils.hpp:24-25 | A fragment whose wrapper validates although it branches out of itself, and a host with its context in which it is invalid. |
| Transplant.ContainmentNotNecessary | src/instr-utils.hpp:24-25 | The condition of not branching out is sufficient only: a fragment whose escaping branch cannot be reached validates in its wrapper and in every host. |
| Transplant.DeadCodeNeedsContext | src/instr-utils.hpp:24-25 | A valid function, a validated fragment, and an unreachable place without the fragment's context where inserting it makes the function invalid. |
| Validation.CheckLe | src/instrumenter.cpp:148-152 | Validation is monotone: a state that accepts more never makes code invalid. |
| Counter.CountExact | test/test_fib/test_fib.cpp:146-155 | However far the original run has come, to its end or into a trap included, the instrumented run comes to the same point, frame by frame with the same place, operands and locals, with the counter at the number of direct calls made from functions in scope, modulo 2^32, and nothing else of the owned state changed; inserted calls are not counted. The program's memory may grow. |
| Counter.CountHarmless | test/test_fib/test_fib.cpp:52-56 | The inserted call, through the body of add_call and back, is harmless and adds one. |
| Counter.CountLog | test/test_fib/test_fib.cpp:147-154 | The events of a run are exactly the direct calls reached in functions in scope. |
| StackCanary.InjectRuns | examples/stack_canary.cpp:33-41 | On the machine the injected code moves the pointer down by 16, with wrap-around, and stores the canary there, or traps exactly when the slot is outside the memory. |
| StackCanary.ValidateRuns | examples/stack_canary.cpp:18-30 | On the machine the check moves the pointer up by 16 when the slot holds the canary's bytes; it traps exactly when the slot is outside the memory or holds something else. |
| StackCanary.CheckInCaller | examples/stack_canary.cpp:18-30 | The same for the check inside any caller above any call stack. |
| StackCanary.UninjectedCall | examples/stack_canary.cpp:15-31 | The call of an imported function followed by the check, on the machine: it traps if the 8 bytes at the unmoved pointer are outside the memory or are not the canary, and continues only if they happen to be, with the pointer 16 too high. |
| CanaryRuns.InjectedAndChecked | examples/stack_canary.cpp:15-44 | After both instrumentations every defined function begins with the injection, every direct and indirect call in it is followed by the check, and nothing else is inserted. |
| CanaryRuns.GuardedLifts | examples/stack_canary.cpp:15-44 | Every run of the instrumented program goes through the original's instructions with exactly the injection and the check performed in between, over one store, and ends as that does. |
| CanaryBooks.BooksBalanced | examples/stack_canary.cpp:15-44 | In every state of every run the pointer, and that of every waiting caller, is what the injections, the checks and the functions' own movements add up to, modulo 2^32. |
| CanaryBooks.ReturnsToSlotIff | examples/stack_canary.cpp:26-44 | A function returns with the pointer at its own slot if and only if it has moved it by a multiple of 2^32 in all. |
| CanaryBooks.CallRestores | examples/stack_canary.cpp:26-44 | In every run whose functions restore the pointer, every call that enters a function and passes its check leaves the pointer where it was at the call. |
| CanaryBooks.CheckTrapsIffChanged | examples/stack_canary.cpp:18-25 | In such a run the check behind a call stops the program if and only if the callee's own 8-byte slot has been changed since its injection. |
| CanaryBooks.CanaryDiscipline | examples/stack_canary.cpp:15-44 | Both, in states of the instrumented program, for every call of every run from the start of any function, at that call's own moments: at the call, behind the injection of the function entered, at its return, and behind the check or in the trap. |
| CanaryBooks.PointerKeptIff | examples/stack_canary.cpp:15-44 | Behind a check that passes the pointer is what it was at the call if and only if the call entered a function with an injection, for a direct call if and only if its target is defined; behind an imported function it is 16 too high. |
| CanaryBooks.NoFalseAlarm | examples/stack_canary.cpp:15-44 | In a run that keeps off the slots of the active functions no check behind a call of a function with an injection stops the program. |
| EventBuffer.AppendEffect | src/tools/wabidb-inspect.cpp:501-527 | The append sequence writes the value's bytes behind the buffer, advances the length, and changes nothing else. |
| EventBuffer.HookEffect | src/tools/wabidb-inspect.cpp:604-614 | The nine hook instructions append the four bytes of their event. |
| EventBuffer.HookHarmless | src/tools/wabidb-inspect.cpp:604-614 | While the buffer has room for the event the hook is harmless at every place and records exactly that event. |
| BacktraceHooks.BuildTable | src/tools/wabidb-inspect.cpp:898-909 | The table gives each shown name the first index that has it, so that names[table[s]] is s. |
| BacktraceHooks.EventNamesTarget | src/tools/wabidb-inspect.cpp:629-643 | A recorded event is -2 exactly for a target that no shown name equals; otherwise it is a nonnegative 32-bit index, distinct from -1, that prints as the target. |
| BacktraceHooks.Hooker.Visit | src/tools/wabidb-inspect.cpp:622-652 | The visitor splices the push event before and the pop event after a direct call, leaves other instructions and lines behind the inspected one alone, and restores the hook's constant. |
| BacktraceHooks.Hooker.IterInstructions | src/instr-utils.hpp:88-97 | The iteration visits only original instructions, counts exactly those as lines, and yields the hooked code. |
| BacktraceHooks.Hooker.HookModule | src/tools/wabidb-inspect.cpp:654-661 | Every defined function in scope has its code hooked, the inspected one up to its line, with name, type and locals kept; the others are unchanged. |
| BacktraceHooks.InspectThenHook | src/tools/wabidb-inspect.cpp:702-709 | After the positional insertion the pass hooks exactly the original calls on lines up to n; a call on line n is popped before the inspection code; no call of that code is hooked. |
| BacktraceHooks.InspectErases | src/tools/wabidb-inspect.cpp:702-709 | Erasing what both insertions added gives back the original function. |
| Backtrace.EventsRoundTrip | src/tools/wabidb-inspect.cpp:149-154 | The reader gets back the recorded 32-bit events. |
| Backtrace.IntsRead | src/tools/wabidb-inspect.cpp:149-154 | From any file the reader takes the little-endian 32-bit numbers in order and leaves what remains at the end. |
| Backtrace.RejectedIff | src/tools/wabidb-inspect.cpp:146-161 | The decoder rejects events exactly if one is -2 or some part from the start pops more than it has pushed. |
| Backtrace.HookedExactly | src/tools/wabidb-inspect.cpp:622-661 | Hooked are exactly the direct calls in functions in scope, in the inspected function those on the lines up to the inspected one. |
| Backtrace.PrintBacktrace | src/tools/wabidb-inspect.cpp:146-165 | The decoder loop folds the events, -1 popping and any index pushing, rejects -2 and a pop of the empty stack, and prints the remaining names innermost first. |
| Backtrace.EventsDecode | src/tools/wabidb-inspect.cpp:599-661 | For every run and every reachable state, decoding the events never pops an empty stack and yields the active hooked calls in order; the decoder rejects a file exactly when an unknown target was called. |
| Backtrace.UnknownIff | src/tools/wabidb-inspect.cpp:629-643 | Over every run -2 is recorded if and only if a hooked call of a function the name table does not know has been reached. |
| Backtrace.KnownNeverRejected | src/tools/wabidb-inspect.cpp:629-643 | If every function called on a hooked line is known, which can be read off the program, no run is ever rejected. |
| Backtrace.LinkedRun | src/tools/wabidb-inspect.cpp:599-661 | In every reachable state each calling frame has just made the call that created the frame above it. |
| Backtrace.WholeStack | src/tools/wabidb-inspect.cpp:146-165 | When all active calls are hooked, the decoded stack is the whole call stack. |
| Backtrace.HookedIsInstrumented | src/tools/wabidb-inspect.cpp:599-661 | The output of positional insertion and hook pass is an instrumented program in the sense of the simulation. |
| Backtrace.BacktraceCorrect | src/tools/wabidb-inspect.cpp:599-709 | Whenever a run of the original first stands at the inspected line and its events fit the buffer, the instrumented program reaches the inspection code in the same state, and the bytes then in its buffer decode to the callees of the active hooked calls; they are rejected if and only if a hooked call of an unknown function has been reached. |
| Backtrace.PrintedStack | src/tools/wabidb-inspect.cpp:162-165 | When all active calls are direct ones made on hooked lines, the printed lines are the names of the functions on the call stack, innermost first, and last the line for the runtime. |
| BacktraceLimits.FullHookEffect | src/tools/wabidb-inspect.cpp:604-614 | On a full buffer the hook traps outside the memory, or, if the page ends with the address space, puts its event at address 0 of the program's memory. |
| BacktraceLimits.BacktraceOverflows | src/tools/wabidb-inspect.cpp:599-709 | Whenever a run of the original first stands at the inspected line and its events do not fit, the instrumented program has trapped before, or one of its events has overwritten the program's memory: the room is needed. |
| BacktraceLimits.KnownIffShown | src/tools/wabidb-inspect.cpp:629-643 | The callees on hooked lines are known if and only if the internal name of each is among the names shown. |
| BacktraceLimits.ShownBacktrace | src/tools/wabidb-inspect.cpp:599-709 | If so, and the events fit, the backtrace decodes to the active hooked calls in every run, and all it decodes to are indices of names, so that it can be printed. |
| BacktraceLimits.RenamedImportRejected | src/tools/wabidb-inspect.cpp:629-643 | A program that calls an import under another name: inspected behind the call it reaches the inspection code, and its file is rejected. |
| VariableDump.MakeVariableOp | src/tools/wabidb-inspect.cpp:491-529 | The loop appends the dump code of every printable variable and, for locals, declares their types. |
| VariableDump.DumpEffect | src/tools/wabidb-inspect.cpp:499-528 | From a buffer of any length the dump code appends the bytes of the current values in order, advances the length by the sum of their sizes, and leaves stack, locals and program store alone. |
| VariableDump.PrintVariables | src/tools/wabidb-inspect.cpp:124-145 | The printing loop reads one value after the other, skipping what is not printable. |
| VariableDump.ReadBack | src/tools/wabidb-inspect.cpp:172-201 | Reading the dumped bytes by type gives the values with their numbers. |
| VariableDump.ListedExactly | src/tools/wabidb-inspect.cpp:172-201 | Listed are exactly the printable variables, each once, with its number and value, in ascending order. |
| VariableDump.ReadExactly | src/tools/wabidb-inspect.cpp:124-145 | Reading fails exactly on a file shorter than the sum of the sizes; what stands behind the last value is not read. |
| VariableDump.DumpRoundTrip | src/tools/wabidb-inspect.cpp:491-529 | Running the dump code on the machine and reading the buffer returns exactly the current values; length, rest of the page, operands, locals and program are as they should be. |
| VariableInspection.InspectionShowsVariables | src/tools/wabidb-inspect.cpp:694-703 | Whenever a run of the original first stands at the inspected line, the instrumented program comes there in the same state, and if the inserted code begins with some set-up of an empty buffer and the dump, the dump reads back exactly the original's locals or globals. |
| VariableInspection.ToolShowsVariables | src/tools/wabidb-inspect.cpp:694-703 | The same for the code the tool inserts, the call of the set-up function and the dump, from the globals as they are declared and no page at the start, if the memory can grow by a page at the inspected line; the program may change its memory's size before. |
| VariableInspection.ToolTrapsWithoutRoom | src/tools/wabidb-inspect.cpp:694-703 | If the memory cannot grow there and is not of the largest size, the instrumented program traps at the inspected line. |
| Values.ValueRoundTrip | src/tools/wabidb-inspect.cpp:172-201 | A value of any numeric type survives its little-endian bytes. |
| PageLayout.Instance.LoadData | src/tools/wabidb-inspect.cpp:447-477 | Where memory can grow, the program's memory is untouched and the new page holds the strings and address globals; where it cannot, the function traps, except at the largest size, where it overwrites the last page. |
| PageSetUp.LoadDataRuns | src/tools/wabidb-inspect.cpp:447-477 | The function's code on the machine, where memory can grow: a fresh page behind the program's memory with the two strings in it, the three addresses in the globals, nothing else changed. |
| PageSetUp.LoadDataTraps | src/tools/wabidb-inspect.cpp:447-477 | Where it cannot, and the memory is not of the largest size, the code traps. |
| PageSetUp.LoadDataOverwrites | src/tools/wabidb-inspect.cpp:447-477 | At the largest size the strings are written over the program's last page. |
| PageSetUp.SetUpRuns | src/tools/wabidb-inspect.cpp:447-477 | The call of the function, at any place, leaves an empty recording in a page of its own. |
| PageLayout.BaseAddress | src/tools/wabidb-inspect.cpp:448-454 | The base address for every old page count, including the wrapped one after a failed growth. |
| PageLayout.AddressesAre | src/tools/wabidb-inspect.cpp:448-464 | Base address, result area and buffer go into their three globals; the others stay. |
| PageLayout.SetUpRecording | src/tools/wabidb-inspect.cpp:394-412 | The state after set-up is an empty recording, as the backtrace and the dump assume. |
| PageLayout.AreasDisjoint | src/tools/wabidb-inspect.cpp:456-476 | Dot string, file name, ciovec, result area and buffer are pairwise disjoint inside the page, and the buffer ends with it. |
| PageLayout.StoreInPage | src/tools/wabidb-inspect.cpp:604-614 | A store behind n buffered bytes stays in the page, without wrap-around, exactly while the total is at most 60416 bytes. |
| PageLayout.EventsThatFit | src/tools/wabidb-inspect.cpp:604-614 | The buffer takes exactly 15104 events. |
| WatRoutines.MemCmp | src/tools/common_wasm_func.hpp:55-95 | Result 0, the difference at the first mismatch, or a trap at the first unreadable pair, with 32-bit addresses. |
| WatRoutines.CompareRanges | src/tools/common_wasm_func.hpp:55-95 | On ranges inside the memory the result is 0 if and only if they are equal, and otherwise the unsigned-byte difference at the first mismatch. |
| WatRoutines.CwdSearch.GetCwdFd | src/tools/common_wasm_func.hpp:96-147 | Stores the least descriptor whose name starts with a dot and returns 0, or returns the first error; only the scratch area is written. |
| WatRoutines.MoreDigitsExact | test/test_fib/test_fib.cpp:103-110 | The unsigned test continues exactly for numbers outside -9..9. |
| WatRoutines.Printer.Digits | test/test_fib/test_fib.cpp:82-111 | The first loop leaves the characters of the digits in reverse order in the temporary buffer, for every nonzero i32. |
| WatRoutines.Printer.CopyBack | test/test_fib/test_fib.cpp:112-134 | The second loop copies the digits in reverse order and writes nothing else. |
| WatRoutines.Printer.Itoa | test/test_fib/test_fib.cpp:76-135 | For every i32 other than 0 exactly the characters of its digits are written, most significant first, for 0 nothing is; memory outside the destination and the temporary buffer stays as it is. |
| WatRoutines.WrittenDigits | test/test_fib/test_fib.cpp:88-98 | Those characters are the decimal digits in ASCII for a positive number; for a negative one each digit d comes out as the character 48 - d, without a sign. |
| NameUpdate.ReplaceInPlace | src/tools/common_wasm_func.hpp:34-38 | The moving-index loop is the left-to-right replacement of all non-overlapping occurrences, also when the new name contains the old one. |
| NameUpdate.ReplaceFrom | src/tools/common_wasm_func.hpp:34-38 | From any point on, the text is as it was up to the first occurrence of the old name, then comes the new name, then the same from behind that occurrence; without an occurrence nothing changes. |
| NameUpdate.CommonWasmBuilder.UpdateWasiName | src/tools/common_wasm_func.hpp:28-43 | A known name is replaced in every stored body, an unknown one only entered; bodies that were rendered with the names before are rendered with the names after. |
| NameUpdate.CommonWasmBuilder.UpdateAll | src/tools/wabidb-inspect.cpp:290-392 | After any sequence of renamings every stored body is rendered with the names the builder then reports. |
| NameUpdate.RenameRendered | src/tools/common_wasm_func.hpp:33-39 | Replacing a name that occurs only at its call sites is rendering the calls with the new name. |
| NameUpdate.CallsUseCurrentNames | src/tools/common_wasm_func.hpp:20-43 | After any sequence of updates, also of names not known before that a body does not use, every call in the body uses the name currently reported. |
| Listing.SplitLines | src/tools/wabidb-inspect.cpp:817-824 | Splitting loses nothing, and every line ends with its only newline. |
| Listing.JoinedSnoc | src/tools/wabidb-inspect.cpp:817-824 | Joining puts the lines behind each other in order. |
| Listing.ColumnShows | src/tools/wabidb-inspect.cpp:213-221 | The column is blank, or shows the number itself in decimal notation without leading zeros between blanks. |
| Listing.StartsWithIff | src/tools/wabidb-inspect.cpp:235-239 | A line starts with a prefix if it does so behind its leading blanks, however many there are. |
| Listing.IndentWidth | src/tools/wabidb-inspect.cpp:213-221 | Every prefix has the same width as long as numbers do not exceed the maximum. |
| Listing.ListModule | src/tools/wabidb-inspect.cpp:241-282 | The loop puts before each line the column for the number the scanner assigns. |
| Listing.ListItems | src/tools/wabidb-inspect.cpp:241-282 | In the printed listing the line of the k-th instruction of every function displays k, every other line displays no number, and all columns have one width. |
| Listing.NumbersArePositions | src/tools/wabidb-inspect.cpp:251-279 | Over any well-printed module exactly the instruction lines of functions are numbered, 1, 2, 3, ... in each function. |
| Listing.NumberIsPosition | src/instrumenter.cpp:474-476 | The line numbered k in a function shows instruction k of its list, directly behind which the positional insertion at k puts its code. |
| RuntimeCommand.ModifyRuntimeCommand | src/tools/wabidb-inspect.cpp:713-732 | The in-place edits compute the command with directory option and replaced file, or fail where the assertion does. |
| RuntimeCommand.FirstWord | src/tools/wabidb-inspect.cpp:714-720 | Every command is a first word without blanks and a rest that is empty or begins with a blank. |
| RuntimeCommand.DirPlaced | src/tools/wabidb-inspect.cpp:714-720 | A command without the directory option gets it as its second word, all else unchanged. |
| RuntimeCommand.WasmWord | src/tools/wabidb-inspect.cpp:722-727 | Any command with .wasm in it splits at the word of its first .wasm. |
| RuntimeCommand.FileReplaced | src/tools/wabidb-inspect.cpp:722-730 | That word, up to and with its first .wasm, is replaced by the file; the tool stops if nothing stands in front of it. |
| RuntimeCommand.FileAppended | src/tools/wabidb-inspect.cpp:722-725 | A command without .wasm gets the file as its last word. |
| RuntimeCommand.RewritingIdempotent | src/tools/wabidb-inspect.cpp:713-732 | Rewriting again changes nothing when the replaced word does not carry the option. |
| RuntimeCommand.RepeatableIff | src/tools/wabidb-inspect.cpp:713-732 | Rewriting again changes nothing if and only if the option stands in front of the replaced word, behind it, or in the file name. |
| RuntimeCommand.OptionCanBeLost | src/tools/wabidb-inspect.cpp:713-732 | A command for which a second rewriting differs from the first. |
| RuntimeCommand.FailsIffFirstWord | src/tools/wabidb-inspect.cpp:713-728 | The assertion fails exactly when the first `.wasm` of the user's command stands in its first word. |
| Decimals.DecimalInjective | src/operation-builder.cpp:142-144 | Different numbers have different decimal texts. |

## Left out

- Binaryen's printer, parser, stack IR passes and validator are taken to be the identity on the abstract module; recovery after a parse failure is not modelled.
- The random prefix: its freshness is a hypothesis (`Fresh`).
- `memory.size` and `memory.grow` in the program: covered if the instrumentation owns no memory (`MeaningPreserved`, `ValidMeaningPreserved`, `CountExact`) or takes its page only at the inspected line (`ToolShowsVariables`), with the same declared maximum in both programs; the canary and backtrace theorems are about programs that leave their memory's size alone. A growth within the maximum is taken to succeed.
- Floating-point and vector arithmetic, reference types, tail calls and exceptions; floats and vectors are bit patterns.
- MeaningPreserved: assumes that each fragment finds its declared locals and operands at run time (`FitsAlways`); `ValidMeaningPreserved` derives this from validation, `StandaloneFitsAlways` from declaring none.
- ValidMeaningPreserved: where the instrumentation owns memory, it asks that the original never leaves its own; `OwnedMemoryHidesTrap` shows that it must.
- RewrittenValid: a fragment must find its context, or be accepted at its place as it is and leave a state that accepts as much; as in `InstrumentedValid` this is sufficient. In unreachable code it can fail (`DeadCodeNeedsContext`).
- WrapperSound: asks that no branch or return leaves the fragment, which is sufficient but not necessary (`ContainmentNotNecessary`).
- Unions in targets: a target whose operator is stored under another union member than the one read is taken not to match.
- The verdict of the final module validation is a parameter of `Instrument` and `InstrumentFunction`.
- The imports, functions, globals and data that the tools add before they instrument are taken to be in the module already; the original program is that of the functions in front of them (`Toolchain`).
- The call of the set-up function put into the start function is not part of the hooked program; `BacktraceCorrect` starts from the state it leaves (`SetUpRuns`).
- BacktraceCorrect: the events of the run must fit the buffer (`BacktraceOverflows` is the other case); indirect calls and calls behind the inspected line are never hooked, so it speaks of the hooked active calls.
- Writing the buffer to the file: the code made by `_make_write_op`, `__instr_fopen_rw` and the host's `path_open`, `fd_write`, `fd_close`, `proc_exit`; the file is taken to hold the whole buffer.
- Byte swapping on big-endian hosts, number formatting of floats, ANSI colours (the listing's prefixes are parameters), option parsing and the interactive state machine.
- The hand-written routines, `itoa`, the comparison, the search, are methods with the same loops and 32-bit arithmetic; `add_call`, the set-up function, the hook, the dump and the canary code are modelled as machine code.
- CanaryDiscipline: speaks of calls that return; a run that ends in a trap inside the callee ends there in the instrumented program too (`GuardedLifts`). Imported functions do not change globals.
- GetCwdFd: assumes that the bytes at the result address hold the longest name of a preopened directory, the dot apart from them, and a host that reports an error behind the last descriptor.
- Itoa: the destination must be apart from the digits in the temporary buffer, as the callers' is; a copy onto itself is not described.
- SplitLines: needs a text that ends with a newline; otherwise the source's loop does not come to an end.
- UpdateWasiName: needs a nonempty old name, for the same reason; so do `UpdateAll` and `CallsUseCurrentNames`.
- Validation leaves out `select`, mutability of globals, alignment, tables and data segments.
- Import and export wrappers, scope handling, and the getters.
