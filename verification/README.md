# Simple Virtual Language: a verified model of the toolchain

The Simple Virtual Language toolchain compiles `.sv` programs to stack assembly, assembles that to bytecode and runs
the bytecode on a stack machine with a call stack and a heap in one paged memory. This project models the path from
the analysed program to the running machine and proves what each stage is for:

- the code generator produces code that does what the program means, down to the bytes the VM loads into its pages,
  fetches and runs, and exactly which programs the page ends break;
- the constant folder keeps that meaning, and where it does not, exactly when it does;
- user functions run on their arguments and come back, and the analyser refuses exactly the bodies that need not return;
- arrays are rectangular trees of disjoint blocks, and index chains stay inside them;
- the heap manager, the call stack and the paged memory keep apart what they have to keep apart, over every run;
- the assembler's two passes agree, and the debug information survives merging, encoding and binary search.

Values are 32-bit words read at a type; integer widths, wrap-around, truncating division and the VM's 64-bit raw
operands are written out. Names follow the source: a module per component, a class per object that is updated in place.

| Part | Files |
|---|---|
| Words, memory, instruction set, operators | Words, FlatMemory, Isa, Arithmetic, OperatorLaws |
| The machine on decoded instructions and flat memory | Machine, MachineLaws, Frames, FrameLaws |
| The machine on its pages, as a step function and as an object | Pages, Accesses, Fetching, PagedMachine, PagedRuns, FramePages, VirtualMachine |
| Source language, its types and its meaning | Source, Domain, TypeRules, SourceLaws, ReturnPaths |
| Code generation, as functions and as the generator object | CodeGen, ArrayCode, AssemblyGenerator, UserFunctions |
| Correctness of the generated code | Cursor, Simulation, ExprSimulation, RangeSimulation, StmSimulation, FunctionExit, Program, UserCalls |
| Arrays | ArrayTrees, ArrayBuilding, ArrayPages, ArrayAllocation, ArrayNew, ArrayIndexing |
| Assembler, loader, whole chain | Labelling, Encoding, Assembler, Loading, DataSection, FileFormat, BytecodeFile, EndToEnd, CodePages, CutLoop |
| Heap, call stack, memory | Heap, HeapLaws, HeapRuns, HeapManager, CallStackManager, MemoryRuns, PagedMemory, RegionChecks |
| Clean high halves | Cleanliness, CleanRuns, DirtyOperands |
| Constant folding | FloatDivision, Folder, FolderLaws, FoldedForms, FolderStatements, FoldedProgram, FoldedEquality |
| Debug information and symbol slots | DebugMap, AssemblyEmitter, Slots |

Where the source mutates an object or an array, so does the model, and the method is proved against a specification
function: `Generator` against `CodeGen`, `VM` against `PagedMachine`, `HeapManager` (linked nodes) against `Heap`,
`CallStackManager` against `Frames`, `MemoryManager` (pages) against `FlatMemory`, `Assembler` and `Emitter` against the
byte functions, `Scope` against the tree functions of `Slots`, `FoldStmBlock` in place on an array.

The machine exists twice. `Machine` runs decoded instructions on one flat map of bytes; the simulation proofs use it.
`PagedMachine` is what the VM does: it fetches instructions and method headers from memory, reads wrap around at the end
of their page, and stores that would leave it are undefined. Every `Reaches` in this project carries that no step on
the way crosses a page end or stores into the code, and `PagedRuns.RunOnPages` turns such a run into a run on the pages,
state by state. So the results about emitted code hold of the VM as it stands; what they need for that is part of their
conditions (`CodeInPages`, at most 510 locals, aligned heaps).

## Model

| member | source | states |
|---|---|---|
| EndToEnd.CompiledProgramCorrect | src/compiler/codegen/AssemblyGenerator.cpp:8-24 | a well-typed program in the domain of the code generator, of top-level blocks and range loops with at most 510 locals each, whose code is shorter than 2^32 bytes and has no immediate, label or local count across a multiple of 4096: it assembles, loads, and the VM on its pages, fetching from those bytes, ends with a status if and only if the program ends that way, and runs forever if and only if the program does |
| UserCalls.ProgramWithFunctionsCorrect | src/compiler/codegen/AssemblyGenerator.cpp:8-48 | the same for a program with user functions: under the page condition it assembles, loads and ends or runs on as its top-level statements mean, and at the label of every function the image holds a header with its numbers of arguments and locals, and the code of its body behind it |
| UserCalls.CallCorrect | src/vm/VM.cpp:598-619 | calling a loaded function with its arguments on top of any operands S, from any call depth whose frame reaches no straddling cell: the call overflows exactly when frame and heap leave no room; else it ends as the body does on the arguments, raises the error of the body, or runs on; when it comes back, registers, frames and S are as they were, with the result on top, and no byte outside the frame given up has changed |
| Loading.FetchOnPages | src/vm/VM.cpp:931-957 | at the offset of an assembled instruction the VM fetches that instruction, and a call at the offset of a method reads its header, if and only if the bytes the read wraps around to are those behind the page end; a read inside its page always gets them |
| Loading.ShortCodeInPages | src/vm/memory/MemoryManager.cpp:90-115 | a program of at most 4096 bytes of code meets the page condition |
| CodePages.LongBlockExample | src/vm/memory/MemoryManager.cpp:90-115 | one block of 372 declarations `int xi = 0`: accepted, sound, with a frame inside its pages, and the last push, at byte 4092, is fetched as `push i32 #0x06140000` |
| CutLoop.CutLoopExample | src/vm/memory/MemoryManager.cpp:90-115 | `{ if (false) { 370 declarations } while (false) {} }`: accepted, sound, ends in the source, and the VM runs its bytes forever; only the page condition fails |
| Program.ProgramCalm | src/compiler/codegen/AssemblyGenerator.cpp:95-134 | however long a program in the domain runs, no step reads or writes across a page end or stores into the code |
| Program.ProgramCorrect | src/compiler/codegen/AssemblyGenerator.cpp:95-134 | on any image that holds the generated code inside its pages, the machine on decoded instructions halts or fails as the program does, in both directions, the frames of its scope methods included |
| Program.DivergenceCorrect | src/compiler/codegen/AssemblyGenerator.cpp:540-565 | that machine runs forever if and only if the program does |
| StmSimulation.SimStm | src/compiler/codegen/AssemblyGenerator.cpp:291-322 | every statement, nested to any depth, leaves the operand stack as it found it, the frame equal to the source store, and control at the fall-through, break, continue or return point the semantics says, or raises its error; running out of fuel means at least as many machine steps |
| StmSimulation.SimBlock | src/compiler/codegen/AssemblyGenerator.cpp:324-333 | the same for statement lists |
| RangeSimulation.DoForTest | src/compiler/codegen/AssemblyGenerator.cpp:567-1061 | whatever the sign of the step and the type of the variable, the test at the loop's start label enters the body exactly when the current value is in range, changes no operand, and else jumps to the end label |
| SourceLaws.RangeIsTurns | src/compiler/codegen/AssemblyGenerator.cpp:567-1061 | a range loop is its body run once for each of start, start + step, ... strictly before end, max(0, ceil((end - start) / step)) times, whatever the body assigns to the variable, as long as the counter does not leave its type |
| SourceLaws.RangeWraps | src/compiler/codegen/AssemblyGenerator.cpp:567-1061 | when the value behind the last one leaves the type, the wrapped counter passes the test again and the loop goes on, so the condition of RangeIsTurns cannot be dropped |
| ExprSimulation.SimExpr | src/compiler/codegen/AssemblyGenerator.cpp:1106-1143 | for the scalar expressions of `Source.Expr`: from any operand stack with room, the code of a sound expression pushes one operand of its type with its value and updates the store as the semantics does, or raises the same error |
| Simulation.OperatorAgrees | src/vm/ArithmeticOps.cpp:8-697 | every binary operator of the machine on two i32 operands, to which the generator converts both sides, that show source words yields the word of the source operator, provided the operands it reads in full are clean |
| OperatorLaws.BitwiseDigits | src/vm/ArithmeticOps.cpp:382-446 | every binary digit of and, or and xor is that of the truth table |
| OperatorLaws.TruncatedUnique | src/vm/ArithmeticOps.cpp:239-359 | quotient and remainder are the only pair with a = b q + r, a remainder smaller than the divisor and of no other sign than the dividend |
| OperatorLaws.AddExact | src/vm/ArithmeticOps.cpp:8-96 | for ints, unsigned ints and pointers: the sum stands for the sum of the numbers modulo 2^32, of the right type, or the types do not add; add is commutative |
| OperatorLaws.SubExact | src/vm/ArithmeticOps.cpp:98-177 | the same for differences; the difference of two pointers (OperatorLaws.PointerDifference) is exact in 64 bits |
| OperatorLaws.MulExact | src/vm/ArithmeticOps.cpp:179-237 | the same for products |
| OperatorLaws.DivModExact | src/vm/ArithmeticOps.cpp:239-359 | quotients and remainders of ints and of unsigned ints are those of the numbers |
| OperatorLaws.CompareExact | src/vm/ArithmeticOps.cpp:527-697 | orders and equality of clean words of one type are those of their numbers |
| OperatorLaws.ShiftLeftExact | src/vm/ArithmeticOps.cpp:448-477 | shl multiplies by the power of two modulo 2^32 |
| OperatorLaws.ArithShiftExact | src/vm/ArithmeticOps.cpp:479-525 | sar divides the number downwards |
| OperatorLaws.ConvertExact | src/vm/OperandStack.h:66-274 | a conversion without floats keeps the number up to the width of the new type, and fails exactly for a pointer from a number that is no address |
| MachineLaws.RunBounded | src/vm/OperandStack.h:16 | no run holds more than 1024 operands |
| MachineLaws.PushExact | src/vm/OperandStack.cpp:26-48 | a push fails exactly on 1024 operands |
| MachineLaws.Rotations | src/vm/VM.cpp:427-461 | rotD brings the operand below d - 1 others to the top, rotU puts it back |
| MachineLaws.StoreLoad | src/vm/VM.cpp:467-521 | what is stored through a pointer is loaded back, cut to its width, and no other byte changes |
| MachineLaws.StoreLoadByte | src/vm/VM.cpp:476-542 | storeB stores the low byte, and loadB reads it as a ui32 |
| MachineLaws.AllocFree | src/vm/VM.cpp:568-585 | free takes the pointer that alloc has given and restores the free list |
| MachineLaws.LowestBlock | src/vm/memory/HeapManager.cpp:13-81 | alloc is granted the lowest free block with room for header and bytes |
| MachineLaws.ThrowExact | src/vm/VM.cpp:852-929 | each of the four error references stops the machine with an error of its own, or with an internal one when the operands of its report are missing |
| Labelling.TidyBlock | src/compiler/codegen/AssemblyGenerator.cpp:2404-2408 | the labels a block defines are distinct and numbered in its counter range, and every label it refers to is one of them or a label of the enclosing loop |
| AssemblyGenerator.Generator.CompileProgram | src/compiler/codegen/AssemblyGenerator.cpp:8-24 | appending in place, with its label counter, its counter and list of scope functions and its flag, the generator emits exactly the global code, the scope functions and then the user functions of the specified program |
| AssemblyGenerator.Generator.CompileStm | src/compiler/codegen/AssemblyGenerator.cpp:291-322 | it appends the code of a scalar statement and moves the label counter by the labels that takes; a range loop is emitted in place while scope functions are compiled, and is registered and called otherwise |
| AssemblyGenerator.Generator.CompileFunctionDeclaration | src/compiler/codegen/AssemblyGenerator.cpp:50-92 | header, body and, for void functions, the return at the end; the range loops of the body are registered in order behind the scope functions there are |
| UserFunctions.FunctionsAccepted | src/compiler/codegen/AssemblyGenerator.cpp:567-572 | for any scope functions and any user functions of distinct names, the assembler accepts the emitted program if and only if no user function contains a range loop |
| UserFunctions.LoopInFunctionExample | src/compiler/codegen/AssemblyGenerator.cpp:2414-2422 | `void f() { for (int i : 0 .. 3) {} }` refers to a scope function that nothing defines |
| UserFunctions.RegisteredNumbers | src/compiler/codegen/AssemblyGenerator.cpp:567-572 | the code of a user function calls one scope function for each of its range loops, in order, numbered on from those of the scope functions and of the functions before it |
| SourceLaws.FunctionBodyNeverFallsOff | src/compiler/semantic/SemanticAnalyser.cpp:103-141 | a body that always returns neither completes normally nor breaks or continues out |
| ReturnPaths.BodyExact | src/compiler/semantic/SemanticAnalyser.cpp:103-141 | the analyser refuses the body of a value-returning function exactly when one of its paths, on which every condition and every turn of a loop may go either way, comes out at the end |
| ReturnPaths.AlwaysReturnsExact | src/compiler/semantic/SemanticAnalyser.cpp:282-294 | for any statement, the flag says exactly that no path comes out at the end, where control is taken to go on behind break and continue |
| ReturnPaths.RunsArePaths | src/compiler/semantic/SemanticAnalyser.cpp:282-303 | every run of a statement that ends without an error takes one of its paths and leaves it as the path does |
| ReturnPaths.JumpBeforeReturn | src/compiler/semantic/SemanticAnalyser.cpp:103-120 | `break; return 1;` has the flag although its only path breaks out |
| TypeRules.BinaryExact | src/compiler/semantic/SemanticAnalyser.cpp:1079-1140 | binary expressions are accepted for exactly the pairs of operand types of the language's tables, with their result types |
| TypeRules.TernaryExact | src/compiler/semantic/SemanticAnalyser.cpp:1043-1077 | ternaries take two numbers or two bools; with one char they are chars, where the tables of the documentation say int |
| TypeRules.PlainProgramOk | src/compiler/codegen/AssemblyGenerator.cpp:95-134 | every well-typed program without `~` and without signs on chars, of at most 510 locals a block and a thousand levels of nesting, is in the domain of the results on whole programs |
| FunctionExit.NeverFallsOff | src/compiler/codegen/AssemblyGenerator.cpp:72-92 | after any number of machine steps from the start of such a body, or of a void body with its default return, the machine has reached a ret of the body, has failed, or is still inside the body; it never fetches behind it |
| ArrayIndexing.IndexErrorExact | src/compiler/codegen/AssemblyGenerator.cpp:136-289 | a chain raises the index error if and only if some index that is reached is negative or not below the length of its array |
| ArrayIndexing.WalkStaysInside | src/compiler/codegen/AssemblyGenerator.cpp:136-289 | a chain that is not stopped ends at four bytes inside the live block of the array it has reached |
| ArrayIndexing.SimIndices | src/compiler/codegen/AssemblyGenerator.cpp:136-289 | the emitted chain computes that address or raises that error |
| ArrayIndexing.SimElement | src/compiler/codegen/AssemblyGenerator.cpp:1492-1593 | reading an element pushes the word at that address |
| ArrayIndexing.SimElementAssign | src/compiler/codegen/AssemblyGenerator.cpp:405-437 | assigning puts the value there, inside the block, and changes no other byte outside the frame's slots |
| ArrayAllocation.DupFetchesLength | src/compiler/codegen/AssemblyGenerator.cpp:1965-1975 | at recursion depth k, dup 4k - 1 fetches exactly the length of level k |
| ArrayAllocation.DepthsExact | src/vm/VM.cpp:398-415 | all these depths survive the fetch, which keeps their low byte, if and only if the array has at most 65 dimensions |
| ArrayAllocation.SimAlloc | src/compiler/codegen/AssemblyGenerator.cpp:1744-2034 | on an aligned heap the nested loops build exactly the tree that Build describes, for lengths of any size: they succeed when it does, and fail when it does |
| ArrayNew.SimNew | src/compiler/codegen/AssemblyGenerator.cpp:1640-1742 | without initialiser, up to 65 dimensions, on an aligned heap: new raises what its lengths raise; otherwise it fails exactly when the tree cannot be built on the heap as it stands, by running out of memory when all lengths fit, and else leaves one pointer and that tree |
| ArrayNew.ReadyInitially | src/vm/memory/HeapManager.cpp:8-11 | the heap a program starts with is ready for `new` if and only if code and data take a multiple of four bytes |
| ArrayBuilding.BuildKeeps | src/compiler/codegen/AssemblyGenerator.cpp:1744-2034 | building keeps the heap sound, adds exactly the blocks of the tree, disjoint and zeroed, and changes no live byte |
| ArrayBuilding.RectangularExact | src/compiler/codegen/AssemblyGenerator.cpp:1752-1790 | what is built is a rectangular tree of blocks with room for all elements if and only if every length that is reached is below 2^30 - 2 |
| ArrayBuilding.ShortBlockExample | src/compiler/codegen/AssemblyGenerator.cpp:1752-1790 | `new int[1073741824]` is granted whenever four bytes are, is no full array, and element 0 lies behind its block |
| ArrayBuilding.ShortBlock | src/compiler/codegen/AssemblyGenerator.cpp:1752-1790 | for every length from 2^30 on, the elements outside the block are exactly those from length mod 2^30 on |
| ArrayBuilding.NeverGranted | src/vm/memory/HeapManager.cpp:13-81 | lengths congruent to 2^30 - 2 and 2^30 - 1 modulo 2^30 always raise an error |
| ArrayBuilding.BuildTakes | src/vm/memory/HeapManager.cpp:13-81 | every array takes its bytes from the free list, whatever memory holds, so an array of 2^30 rows is never completed |
| ArrayNew.TreeIsArray | src/compiler/codegen/AssemblyGenerator.cpp:1640-1742 | a full tree is an array that chains of its depth may walk |
| ArrayNew.FreshElementIsZero | src/compiler/codegen/AssemblyGenerator.cpp:1640-1742 | every element a chain reaches in a new full tree is zero |
| ArrayPages.BlockWordsExact | src/vm/memory/MemoryManager.cpp:42-128 | every word of a block stays in its page if and only if the block starts at a multiple of four or ends before its page does |
| ArrayPages.InitiallyAligned | src/vm/memory/HeapManager.cpp:8-11 | a fresh heap is aligned if and only if code and data together are a multiple of four bytes |
| ArrayPages.BuildAligned | src/compiler/codegen/AssemblyGenerator.cpp:1744-2034 | building arrays on an aligned heap gives aligned blocks only and keeps it aligned |
| ArrayPages.CutElementExample | src/vm/memory/MemoryManager.cpp:42-62 | behind ten bytes of code element 1019 of an array begins two bytes before a page end |
| VirtualMachine.VM.ExecuteInstruction | src/vm/VM.cpp:298-374 | popping, checking, reading and storing on pages and pushing, one operand at a time, does what the step function on pages does, or raises the fault with which it fails |
| VirtualMachine.VM.FetchNext | src/vm/VM.cpp:298-300 | reading opcode, type, depth and operand from memory one after the other, PC moving along, fetches the specified instruction |
| VirtualMachine.VM.ExecuteRotD | src/vm/VM.cpp:427-443 | the pop and push loops of rotD bring the operand at the given depth to the top |
| VirtualMachine.VM.RunProgram | src/vm/VM.cpp:64-76 | the fetch-execute loop, over the bytes in memory, is the iterated step function on pages |
| Assembler.Assembler.ConstructLabelTable | src/assembler/Assembler.cpp:40-100 | pass one accepts exactly the lists without redefinition and open references, and leaves the table of the specification |
| Assembler.Assembler.GenerateBytecode | src/assembler/Assembler.cpp:228-280 | the bytes are header and encoded statements in order, or a depth out of range is reported |
| BytecodeFile.GenerateFile | src/assembler/Assembler.cpp:228-299 | with metadata: the three sections are appended and measured entry by entry and their ends written over the header, which gives exactly the specified file |
| BytecodeFile.ReadMetadata | src/vm/VM.cpp:78-250 | the VM's loops read back the sources, functions and lines that were written, and it takes the program for one without metadata exactly when there are none |
| BytecodeFile.MetadataInvisible | src/vm/VM.cpp:78-119 | the program is loaded from the file as from one without metadata |
| FileFormat.DocumentedExample | docs/SVM/Bytecode-Format.md:712-830 | the complete example of the format's description assembles to the bytes given there |
| FileFormat.NumberedInOrder | docs/SVM/Instruction-Set.md:25-146 | opcodes, type bytes and error bytes number their tables without gaps |
| FileFormat.DepthsAccepted | src/assembler/Assembler.cpp:318-362 | the assembler accepts exactly the depths that an operand stack of 1024 can have |
| Loading.LabelIsOffset | src/assembler/Assembler.cpp:40-187 | a code label is the offset of its target among the emitted bytes; a data label too, exactly when the byte counts before it are right |
| Loading.CountExact | src/assembler/Assembler.cpp:207-220 | the eight-bit byte count is right exactly while no text is longer than 250 bytes |
| DataSection.GlobalLoaded | src/assembler/Assembler.cpp:395-411 | after assembling and loading, the VM holds every global at the address of its label: its type, and its value modulo 2 to the width of the type; a pointer datum holds the address of its target |
| DataSection.TextLoaded | src/assembler/Assembler.cpp:545-563 | a text stands there as its length and its characters |
| DataSection.LoadGlobal | src/vm/VM.cpp:486-503 | loadG pushes a held global with its type |
| DataSection.StoreGlobal | src/vm/VM.cpp:544-553 | storeG accepts exactly operands of the type of the global, which then holds the operand, cut to its width, and no other byte changes |
| DataSection.GlobalOnPages | src/vm/memory/MemoryManager.cpp:42-128 | both do the same on pages when the global lies in one |
| Loading.FetchAgrees | src/vm/VM.cpp:931-957 | read as one list, the bytes at the offset of an instruction decode to that instruction and those at the offset of a method to its header |
| Encoding.DecodeEncode | src/assembler/Assembler.cpp:301-392 | decoding the bytes of an instruction, wherever they stand in a list of bytes, gives it back with labels resolved and depths cut to a byte |
| Fetching.FetchExact | src/vm/VM.cpp:931-957 | wherever bytes decode to an instruction, the VM fetches it from memory if and only if the bytes its immediate or label wraps around to are the ones that follow |
| Fetching.HeaderExact | src/vm/VM.cpp:598-614 | the same for the number of locals in a method header |
| HeapRuns.OutOfMemoryExact | src/vm/memory/HeapManager.cpp:13-81 | out of memory is reported exactly when no free block could host the request below SP, although only the first fitting one is looked at |
| HeapRuns.WrappingExact | src/vm/memory/HeapManager.cpp:13-81 | sizes whose sum with the header wraps are out of memory exactly when no free block has the at most three bytes asked for below SP, and else stopped by the region check |
| HeapRuns.AllocateKeeps | src/vm/memory/HeapManager.cpp:13-81 | a granted request adds one zeroed live block, disjoint from all others and below SP, and keeps free plus live bytes constant |
| HeapRuns.DeallocateKeeps | src/vm/memory/HeapManager.cpp:83-135 | a release returns exactly the block's bytes and restores the canonical form of the list |
| HeapRuns.ReleaseUndoesAllocate | src/vm/memory/HeapManager.cpp:8-135 | releasing the block just allocated restores the free list exactly |
| HeapRuns.AllReleased | src/vm/memory/HeapManager.cpp:83-135 | when everything is released the list is the single block of a fresh heap, whatever happened before |
| HeapLaws.CanonicalUnique | src/vm/memory/HeapManager.cpp:83-135 | two lists in canonical form that offer the same addresses are equal |
| HeapManager.HeapManager.AllocateBlock | src/vm/memory/HeapManager.cpp:13-81 | first fit, unlinking or shrinking and zeroing on linked nodes is Allocate on the list |
| HeapManager.HeapManager.DeallocateBlock | src/vm/memory/HeapManager.cpp:83-135 | relinking in address order and merging with both neighbours is Deallocate on the list |
| MemoryRuns.RunSeparated | src/vm/memory/MemoryManager.cpp:198-212 | over every run of allocations, releases, calls, returns and stores HB <= HP < SP holds, heap blocks and frames do not meet, and each keeps its bytes under operations on the other |
| MemoryRuns.NestedRunRestores | src/vm/memory/CallStackManager.cpp:6-72 | after a properly nested run between call and ret the caller's FP, SP, frame list and frame bytes are back, and control is at the return address |
| MemoryRuns.TraceListsCalls | src/vm/memory/CallStackManager.cpp:85-100 | the chain of saved frame pointers lists the calls in progress, innermost first |
| FrameLaws.EnterBuilds | src/vm/memory/CallStackManager.cpp:6-44 | after a call slot j holds argument j in source order, every local is zero, and no byte outside the frame has changed |
| FrameLaws.EnterRefusedExact | src/vm/memory/CallStackManager.cpp:6-18 | whatever calls are in progress, a call is refused if and only if its frame would not lie wholly above HP |
| MemoryRuns.NestedCallsExact | src/vm/memory/CallStackManager.cpp:6-18 | from any state of a run, calls nested to any depth all succeed if and only if their frames together are smaller than the distance between HP and SP |
| FrameLaws.LeaveUndoesEnter | src/vm/memory/CallStackManager.cpp:46-72 | ret undoes call |
| CallStackManager.CallStackManager.Push | src/vm/memory/CallStackManager.cpp:6-44 | the argument and local loops build the specified frame, or the overflow is reported and nothing has changed |
| CallStackManager.CallStackManager.GetStackTrace | src/vm/memory/CallStackManager.cpp:85-100 | following saved frame pointers collects the return addresses of the calls in progress |
| Pages.PagedReadExact | src/vm/memory/MemoryManager.cpp:80-116 | a read of n bytes agrees with the flat memory, whatever that holds, if and only if it stays in one page |
| Pages.FrameCellStraddles | src/vm/memory/MemoryManager.cpp:42-128 | the k-th cell of the call stack crosses a page boundary exactly when k is a multiple of 512 |
| FramePages.ScopeFrameExact | src/vm/memory/CallStackManager.cpp:6-44 | the call of a scope method writes inside its pages if and only if the method has at most 510 locals |
| FramePages.LargeFrameUndefined | src/vm/memory/CallStackManager.cpp:6-44 | with more, the call is undefined whenever the frame fits above the heap |
| FramePages.CallFrameExact | src/vm/memory/CallStackManager.cpp:6-48 | with d cells in use, a call with arguments writes inside its pages if and only if none of its cells straddles |
| FramePages.FrameInPagesExact | src/vm/memory/MemoryManager.cpp:90-128 | that is, if and only if no multiple of 512 is among d + 1 .. d + n for a frame of n cells |
| Pages.PagedRunIsFlat | src/vm/memory/MemoryManager.cpp:42-128 | a list of reads and writes is defined exactly when no write straddles, and reads and leaves what it does on the flat memory when no access does |
| PagedRuns.RunOnPages | src/vm/VM.cpp:298-374 | a run of the machine on decoded instructions none of whose fetches, header reads, reads and writes crosses a page end, and which stores nothing into the code, is the run of the VM on its pages: the same state after every number of steps |
| PagedRuns.AccessesExact | src/vm/VM.cpp:467-619 | an instruction leaves in memory exactly what its list of data accesses, method headers included, leaves |
| PagedRuns.LoadsRead | src/vm/VM.cpp:467-512 | and a load pushes the last number its accesses read |
| PagedMemory.MemoryManager.Write64 | src/vm/memory/MemoryManager.cpp:56-62 | the byte loop on a page, created on first use, is the flat store; outside the regions an error, across a page end undefined |
| RegionChecks.SlotStoreExact | src/vm/VM.cpp:1005-1027 | of the slots the frame check accepts, a store can change what ret restores through slot 0 and no other |
| RegionChecks.DataCheckExact | src/vm/memory/MemoryManager.cpp:166-212 | an access that begins in the data region is accepted, and stays in it if and only if it ends below HB |
| RegionChecks.HeapCheckExact | src/vm/memory/MemoryManager.cpp:166-212 | a heap access stays where pointers may go if and only if it ends at HP at the latest or HP touches the call stack |
| RegionChecks.StoreAtHp | src/vm/memory/MemoryManager.cpp:206-208 | a store of a word at HP itself is executed, although HP lies in no live block |
| CleanRuns.StepCleanExact | src/vm/VM.cpp:380-929 | every permitted instruction keeps the heap and the frames sound and all 32-bit operands and slots clean, except exactly: not on a narrow operand, a narrow load of slot 0 with a return address, eight-byte or unaligned stores and arguments that put something into a high half |
| CleanRuns.RunStaysClean | src/vm/VM.cpp:64-76 | so a run without those stays clean |
| CleanRuns.InitiallyClean | src/vm/VM.cpp:28-37 | the state the VM starts a program in is clean |
| CleanRuns.AlignedStoreExact | src/vm/VM.cpp:505-566 | a four-byte store at the start of a slot never dirties one, an eight-byte one exactly when the value has more than 32 bits |
| CleanRuns.StoreThenLoadL | src/vm/VM.cpp:505-566 | a four-byte store through an addrL pointer followed by an eight-byte loadL gives the stored word |
| Cleanliness.CleanStepExact | src/vm/ArithmeticOps.cpp:361-380 | on the operand stack alone the exceptions are not on a narrow operand and narrow loads of dirty slots |
| DirtyOperands.EqualityExact | src/vm/ArithmeticOps.cpp:527-569 | ceq and cne on two operands of one type agree with comparing their words if and only if the words differ or the high halves are equal |
| DirtyOperands.LogicShiftExact | src/vm/ArithmeticOps.cpp:479-510 | shr by k gives the shifted word if and only if the k lowest bits of the high half are zero |
| DirtyOperands.ComplementExample | src/compiler/codegen/AssemblyGenerator.cpp:1357-1490 | the code of `~0 == -1` pushes false |
| DirtyOperands.SignOfCharExample | src/compiler/codegen/AssemblyGenerator.cpp:1357-1490 | the code of `+c + 1` for a char c raises an internal error |
| DirtyOperands.SignTagExact | src/compiler/codegen/AssemblyGenerator.cpp:1359-1384 | for every sound operand x the code of `+x` or `-x` leaves the right word, tagged with the type of the expression if and only if x is no char |
| DirtyOperands.EqualityRuns | src/compiler/codegen/AssemblyGenerator.cpp:1145-1200 | the code of an equality of ints with a clean right side answers yes exactly when the words are equal and the left operand has a zero high half |
| DirtyOperands.ComplementEqualityRuns | src/compiler/codegen/AssemblyGenerator.cpp:1145-1200 | so `~x == r` answers no for all clean x and r |
| FloatDivision.FloatQuotientAgrees | src/compiler/optimiser/ConstantFolder.cpp:394-406 | dividing through 24-bit floats, round to nearest even (section 4.3.1 of IEEE 754-2019), agrees with truncating division whenever the dividend is below 2^24 in magnitude |
| FloatDivision.DivideByOneExact | src/compiler/optimiser/ConstantFolder.cpp:394-406 | dividing by one gives the dividend back exactly when it has no bit below the last place of a float of its size |
| FloatDivision.RoundSmall | src/compiler/optimiser/ConstantFolder.cpp:394-406 | a number below 2^24 is rounded to 24 significant bits (FloatDivision.RoundLarge says the same of larger ones) |
| FloatDivision.NearestExact | src/compiler/optimiser/ConstantFolder.cpp:394-406 | the last place is at most half a unit off, and even at exactly half a unit |
| FolderLaws.FoldPreserves | src/compiler/optimiser/ConstantFolder.cpp:78-142 | folding keeps value, store and error of every well-typed safe expression over int, bool and char |
| FolderLaws.ConstantIsLiteral | src/compiler/optimiser/ConstantFolder.cpp:78-142 | foldExpr returns true exactly when it leaves a literal |
| FoldedForms.ConstantExact | src/compiler/optimiser/ConstantFolder.cpp:78-142 | a safe expression folds to a literal if and only if it is constant, said without the folder by its variables and the values of its conditions; the literal is that of its value, of its type, whatever the variables hold; if its evaluation fails it is refused |
| FoldedForms.GroundFolds | src/compiler/optimiser/ConstantFolder.cpp:78-142 | any expression without variables, safe or not, becomes a literal unless it has no value |
| FoldedForms.FixedExact | src/compiler/optimiser/ConstantFolder.cpp:78-142 | the folder leaves an expression as it is exactly when nothing it looks at has only literals to work on; every result is of that form |
| FolderLaws.FoldIdempotent | src/compiler/optimiser/ConstantFolder.cpp:78-142 | folding twice is folding once |
| FolderLaws.Refusal | src/compiler/optimiser/ConstantFolder.cpp:158-517 | a safe expression is refused only for a part that always divides by zero, or whose operator has no defined result on its constant operands |
| FolderLaws.DivideExact | src/compiler/optimiser/ConstantFolder.cpp:296-299 | `//` on two literals with a dividend below 2^24 folds to the run-time value if and only if the divisor is no char from 2^31 on, or both quotients are zero |
| FolderLaws.DivideByOneFolds | src/compiler/optimiser/ConstantFolder.cpp:296-299 | `v // 1` folds to v, for every int v, exactly when v has no bit below the last place of a float of its size |
| FolderLaws.CharDivisorExample | src/compiler/optimiser/ConstantFolder.cpp:540-565 | `4 // (char)(-1)` folds to 0, run time gives -4 |
| FolderLaws.ComparisonExact | src/compiler/optimiser/ConstantFolder.cpp:611-622 | equality folds right always; an order folds right if and only if both sides are ints or their words have the same sign |
| FolderLaws.LostLeftExact | src/compiler/optimiser/ConstantFolder.cpp:236-288 | a logical operator whose right side only is constant folds to it; this is right exactly when the left side has no effect and does not decide otherwise |
| FolderStatements.StmPreserved | src/compiler/optimiser/ConstantFolder.cpp:20-70 | a folded scalar statement runs as the statement, for every amount of fuel |
| FolderStatements.StmIdempotent | src/compiler/optimiser/ConstantFolder.cpp:20-70 | folding a folded statement changes nothing |
| FolderStatements.StmReduces | src/compiler/optimiser/ConstantFolder.cpp:20-70 | folding reaches every expression of a statement; stored literals have the type of their variable, range bounds are ints |
| FolderStatements.FirstFails | src/compiler/optimiser/ConstantFolder.cpp:20-76 | folding a statement fails exactly when the folding of one of its expressions does, and reports the first of them |
| FolderStatements.RangeBoundsExact | src/compiler/optimiser/ConstantFolder.cpp:20-70 | folding a statement fails for an invalid fold if and only if a range loop in it has a bound that does not fold to a literal; in the safe domain that is a bound which is no constant expression, and bounds without variables never fail so |
| FolderStatements.VariableBoundExample | src/compiler/optimiser/ConstantFolder.cpp:20-70 | `for (int i : 0 .. n) {}` with a local variable n ends in that exception |
| FolderStatements.NegativeStepExample | src/compiler/optimiser/ConstantFolder.cpp:20-70 | `for (int i : 3 .. 0 : -1) {}` folds to a loop with the literal step -1 |
| Folder.FoldStmBlock | src/compiler/optimiser/ConstantFolder.cpp:72-76 | the loop over a block replaces every statement where it stands, up to the first failure |
| FoldedProgram.OptimisedProgramCorrect | src/compiler/optimiser/ConstantFolder.cpp:11-18 | fold, compile, assemble, load, run: under the page condition on the emitted code the VM on its pages ends on the optimised bytes as the unoptimised program means |
| FoldedProgram.TameProgramOptimisable | src/compiler/optimiser/ConstantFolder.cpp:11-18 | every well-typed program without `~`, chars and `//`, whose logical operators have a variable on their right, of bounded nesting and locals, is in the domain of that result |
| FoldedProgram.MixedTernaryExample | src/compiler/optimiser/ConstantFolder.cpp:78-142 | a constant condition that selects a complemented int out of a mixed ternary changes the result of a following equality |
| FoldedProgram.MixedEquality | src/compiler/optimiser/ConstantFolder.cpp:78-142 | an equality with such a ternary folds into the code generator's domain if and only if the selected branch is clean |
| FoldedEquality.MixedEqualityRuns | src/compiler/optimiser/ConstantFolder.cpp:78-142 | at run time the folded equality answers differently exactly for the stores in which the answer is yes and the selected branch leaves an operand with a high half |
| DebugMap.MergeLines | src/compiler/codegen/AssemblyEmitter.cpp:377-424 | the merging loops leave a table without joinable neighbours that says the same about every address |
| DebugMap.MergedUnique | src/compiler/codegen/AssemblyEmitter.cpp:377-424 | there is only one such table |
| DebugMap.Lookup | src/vm/RuntimeErrorHandler.cpp:91-137 | upper-bound search finds what a search from the front finds |
| DebugMap.ReadTable | src/vm/VM.cpp:202-247 | the VM reads back the table the assembler wrote |
| AssemblyEmitter.LinesFind | src/compiler/codegen/AssemblyEmitter.cpp:65-91 | looking an address up in the emitted lines gives the position of the instruction whose bytes contain it, by the assembler's offsets |
| AssemblyEmitter.FaultPosition | src/vm/RuntimeErrorHandler.cpp:39-89 | PC - 1 after an instruction has been fetched, and a return address - 1, give the position of that instruction |
| AssemblyEmitter.PositionOf | src/vm/RuntimeErrorHandler.cpp:39-89 | from emitter to error report: merged, encoded, read back and searched, an address gives the position its instruction was compiled from |
| Slots.SlotsDistinct | src/compiler/semantic/SymbolTable.h:117-130 | two symbols on one path of scopes never share a slot, whatever the iteration order |
| Slots.LastSlotUsed | src/compiler/semantic/SymbolTable.h:96-115 | the largest slot magnitude is exactly the computed number of locals |
| Slots.SlotInFrame | src/vm/VM.cpp:1005-1027 | every assigned slot passes the frame check and addresses eight bytes of the current frame |
| Slots.Scope.AssignSlotsToLocalSymbols | src/compiler/semantic/SymbolTable.h:117-130 | numbering symbols in place, scope by scope, is a slot assignment of the specification |

## Findings

Properties that hold for the code only under a condition, each with the lemmas that give an input and the condition:

- Page ends in the code. An operand or a number of locals is read in one page, so one that crosses a multiple of 4096 is
  read with bytes from the start of its page. Inputs: `CodePages.LongBlockExample`, where `int x371 = 0` becomes
  101974016, and `CutLoop.CutLoopExample`, where `while (false) {}` never ends. Condition: `Loading.FetchOnPages` for
  one fetch, `Loading.CodeInPages` for a program; up to 4096 bytes of code it holds (`Loading.ShortCodeInPages`).
- Page ends in the call stack. FP and SP start at 0xFFFFFFFF, not at 2^32 as `docs/SVM/Execution-Model.md` says, so cells
  are unaligned and every 512th of them straddles (`Pages.FrameCellStraddles`): a scope method may have 510 locals, and
  with 511 its call writes behind a page (`FramePages.ScopeFrameExact`, `LargeFrameUndefined`). For calls inside calls
  the straddling cells are those numbered by multiples of 512 (`CallFrameExact`, `FrameInPagesExact`).
- Page ends in the heap. The heap begins behind code and data. Unless those are a multiple of four bytes
  (`ArrayPages.InitiallyAligned`), a block that reaches a page end has a word across it (`ArrayPages.BlockWordsExact`,
  `CutElementExample`). On aligned heaps `new`, element reads and element assignments hold on the pages.
- Array lengths. The byte count `length * 4 + 4` is a 32-bit sum, so a length of 2^30 or more gets the block of its
  residue modulo 2^30, while the length word and the index check use the whole length (`ArrayBuilding.ShortBlock`,
  `ShortBlockExample`, `RectangularExact`). The two largest residues fail in the allocator, one because `size + 4` wraps
  to zero (`ArrayBuilding.NeverGranted`, `HeapRuns.WrappingSizeFails`).
- Depths of `dup`, `rotD` and `rotU` are written in two bytes and read from one (`Encoding.DecodeEncode`), so arrays of
  more than 65 dimensions look for their lengths at wrong depths (`ArrayAllocation.DepthsExact`).
- `not` complements all 64 raw bits, also of 32-bit operands (`Cleanliness.NotStep`). Equality and logical right shift
  read the raw bits: `~0 == -1` is false at run time (`DirtyOperands.ComplementExample`), and so is every `~x == r`
  (`ComplementEqualityRuns`); conditions are `EqualityExact`, `EqualityRuns` and `LogicShiftExact`. The domain of the
  code generator, `Domain.Sound`, is a check on the program text: no operand of these operators may be dirty. Dirty ints
  may be stored, passed on and computed with; for each method the check may allow any set of slots to hold them.
- Unary plus and minus on a char leave a ui32 operand where the analyser promises an int, exactly for chars
  (`DirtyOperands.SignTagExact`), and a following operator raises an internal error (`SignOfCharExample`);
  `Domain.Sound` excludes them.
- A range loop inside a user function is registered as a scope function after all scope functions have been compiled, so
  the program refers to a label that nothing defines (`UserFunctions.LoopInFunctionExample`); the assembler accepts a
  program exactly when no user function has one (`FunctionsAccepted`).
- The folder is wrong for: `&&` and `||` with a constant right side only (`FolderLaws.LostLeftExample`, `LostLeftExact`),
  orders between int and char (`MixedOrderExample`, `ComparisonExact`), `//` through float32 (`DivisionExample`,
  `FloatDivision.FirstWrongQuotient`, `FloatQuotientAgrees`, `DivideByOneExact`), `//` with a char divisor from 2^31 on
  (`CharDivisorExample`, `DivideExact`), and an equality with a mixed ternary whose chosen branch is a complemented int
  (`FoldedProgram.MixedTernaryExample`, `FoldedEquality.MixedEqualityRuns`). It raises an internal error for a range loop
  whose bounds are not constant (`FolderStatements.VariableBoundExample`, `RangeBoundsExact`).
  `docs/SVC/Optimisation/Constant-Folder.md` promises folding only where the result can be determined; the model follows
  the code.
- A ternary of an int and a char is a char for the analyser (`TypeRules.TernaryExact`), but an int in section 6.10 of
  `docs/Language/Semantics.md`, and in the comment above the code; the model follows the code.
- The complete example of `docs/SVM/Bytecode-Format.md` is what the assembler writes (`FileFormat.DocumentedExample`), but
  for the immediate `#10`, whose byte is 0x0A and not 0x10.
- Slot 0 passes the frame check; a store there, and to no other slot the check accepts, changes where `ret` goes
  (`RegionChecks.SlotZeroAccepted`, `SlotStoreExact`).
- Region checks look at the first byte of an access only (`RegionChecks.DataCheckExact`, `HeapCheckExact`), and the heap
  region includes HP itself, which no block does (`HpIsOutside`, `StoreAtHp`).
- The assembler counts the bytes of a text in eight bits, right up to 250 characters (`Loading.CountExact`,
  `LabelIsOffset`).
- A range loop whose last value plus its step leaves the type wraps around (`SourceLaws.RangeWraps`, `RangeIsTurns`).
- INT_MIN // -1 and INT_MIN % -1, and no other quotients of ints with a divisor whose word is not zero, are undefined in
  the VM's C++ source (`Arithmetic.QuotientUndefined`); the model gives them a fault of their own.

## Left out

- Lexers, parsers, the command line, file and console input and output, error texts.
- Floating point, except the float32 division of the folder; 64-bit integer operators, which the generator never emits.
- Native functions, built-ins, global variables in expressions, string values.
- Calls inside expressions and statements: a user function is compiled, assembled, loaded and called with arguments
  (UserCalls), but a call is no operand of `Source.Expr`, so bodies that call functions themselves are not covered.
- `new`, element reads and element assignments as parts of a whole program: their code is proved to do what it means
  from any state with a well-formed heap (ArrayNew, ArrayIndexing), but they are no statements of `Source.Stm`.
- Array initialisers, loops over the elements of an array, and compound assignment to an indexed target.
- The lookup of function names, which is the same search as for lines.
- String operands: a text is found in memory (DataSection.TextLoaded), but loadG of it is a fault of its own in the model.
- EndToEnd.CompiledProgramCorrect: outside `Domain.Sound` nothing is said about the program as a whole, only about the operators that go wrong (DirtyOperands); for code across page ends only single fetches and two examples (Loading.FetchOnPages, CodePages, CutLoop).
- Simulation.OperatorAgrees: ui32, pointer and float operands of the machine's operators are not source operands, because the generator converts both sides of an operator to int.
- ArrayNew.SimNew: for arrays of 2^30 or more rows it says that the machine fails, not with which fault, because the row pointers then go to bytes of other blocks; on an unaligned heap nothing is said.
- FolderLaws.DivideExact: for dividends of 2^24 and more the exact condition is given for the divisor one only (FolderLaws.DivideByOneFolds).
- UserCalls.CallCorrect: the callee's body consists of `Source.Stm`, without calls of its own; the call may stand at any call depth.
- DataSection.LoadGlobal: it asks for room on the operand stack; on 1024 operands every push fails (MachineLaws.FullStack).
- CallStackManager.CallStackManager.Push: numbers of locals for which the 32-bit frame size overflows are not modelled.
- PagedMemory.MemoryManager.Write64: a write across a page end has no effect in the model, because C++ does not define one.
- Pages.PagedRunIsFlat: region checks and the creation of pages are not part of a list of accesses; they are in PagedMemory.MemoryManager.
- VirtualMachine.VM.RunProgram: the loop is bounded by a number of steps, because a run need not end; endless runs are EndToEnd.PagedRunsForever.
- VirtualMachine.VM.ExecuteInstruction: native functions raise a fault of their own; bytes that are no instruction are not modelled.
- HeapManager.HeapManager.AllocateBlock: it expects the heap base at or above 4, which holds for every program that allocates, because its code lies below; headers across a page end are treated in PagedMachine.PagedStore.
- Folder.FoldStmBlock: statements are replaced in place, expressions inside them are values, so aliasing between expression nodes is not modelled.
- AssemblyEmitter.PositionOf: the report's function names and the text of the stack trace are not in it.
- Releases of pointers that are no live block: the heap results require a live one, as the generated code never releases at all.
