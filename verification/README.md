# nand2tetris toolchain in Rust: the core, modelled in Dafny

This project models the core of the m1kc3b/nand2Tetris repository. That repository
is a Rust toolchain for the Hack computer of "The Elements of Computing Systems".
Each model is written as pure Dafny functions over immutable datatypes, with
contracts and lemmas that state what the code promises.

- **Hack assembler** (`assembler/`). Covers:
  - the line parser;
  - the comp/dest/jump code tables;
  - the symbol table, with R0–R15, SCREEN and KBD and variables allocated from 16;
  - `contains_alphabetic`;
  - the two-pass `assemble`.

  The tables are checked against a model of the Hack ALU and jump logic.
- **VM translator** (`hvm/`). Covers:
  - the line classifier;
  - the code writer: arithmetic, push/pop, label/goto/if-goto, function, call, return, bootstrap;
  - the fixed fragments of `asm.rs`;
  - the dispatch loop of `translate`;
  - the path handling of `handle_path`;
  - `Ram`.

  The emitted text is modelled as a sequence of Hack instructions. A small-step
  semantics of the Hack CPU (`Hack`) runs those fragments, so each writer's lemma
  says what the generated code does to the VM stack and segments.
- **Reference VMs** (`project07-virtual-machine/`, `project07/`). Covers:
  - the `VirtualRAM` interpreter;
  - the `Parser` of one command line;
  - the two `Stack`s;
  - `MemorySegment`.
- **`SymbolTable` of `project05-assembler`.** An append-only vector of entries.
- **Jack `CompilationEngine` cursor.** Covers:
  - `peek`, `peek_next_token`, `advance`, `write` and `write_token`;
  - the productions `compile_var_dec`, `compile_class_var_dec`, `compile_parameter_list` and `compile_return`.

Conventions:
- A Rust `panic!` becomes a `Failure` of the `Result` datatype in `Wrappers`. This covers an explicit panic, an `unwrap` on `None`, an index out of bounds, and integer overflow in a debug build. Every operation is total, and its error cases are stated.
- Rust's fixed-width integers are written out explicitly (`RustInts`). Overflow of `u16`/`i16`/`usize` arithmetic is a panic, as in a debug build.
- Randomness becomes a parameter:
  - the two `COUNT_n` draws of eq/gt/lt;
  - the `u8` of a call's return label.
- File contents, directory listings and "is this a file or a directory" become data.

The model follows the code where it departs from the VM language of the book:
- `write_if` jumps on `D;JGT`. Only a strictly positive popped value jumps; true (-1) falls through (`HvmFlow.IfIgnoresNegative`).
- `write_function`:
  - zeroes RAM[LCL];
  - for two or more locals, it also zeroes RAM[LCL+1], and every further iteration rewrites that same cell;
  - it never moves SP (`HvmFlow.FunctionEffect`, `HvmFlow.FunctionLeavesLocals`).
- The hvm `eq`/`gt`/`lt` fragments:
  - decide on the wrapped 16-bit difference, so gt and lt answer wrongly when x − y overflows (`HvmArith.GtOverflow`);
  - when both random draws coincide, they push the difference instead of a boolean (`HvmArith.CompareSameLabels`).
- `VirtualRAM`:
  - `pop` reads the cell above the stack and never moves SP;
  - `eq`, `gt` and `lt` always leave 0;
  - `local`/`argument` ignore the index;
  - `constant` resolves to SP.
- The `project07` stack's `add`/`sub`/`neg` leave the counter behind (`P07Stack.AddDesynchronises`).
- The `project07-virtual-machine` parser panics on every two-word line (`Vm07Parser.TwoWordsPanic`).
- `translate` dispatches `Goto`/`If`/`Label` with two arguments (function name, label) and reads a `NewFile` command. Neither exists in `hvm/src/parser.rs` or `hvm/src/code.rs`. The model gives these commands the shape the dispatch loop uses (`HvmCommands.VmCommand`). The one-argument writer of `code.rs` is applied to the label `function$label`.

## Model

| member | source | states |
|---|---|---|
| `HvmRam.NewRam` | hvm/src/ram.rs:6-8 | a new RAM has 32768 cells |
| `HvmRam.Read` | hvm/src/ram.rs:10-12 | reading succeeds exactly for addresses inside the memory, otherwise the index panics |
| `HvmRam.Write` | hvm/src/ram.rs:14-16 | writing succeeds exactly for addresses inside the memory and keeps its size |
| `HvmRam.NewReadsZero` | hvm/src/ram.rs:6-12 | a new RAM reads 0 below 32768 and panics from 32768 on |
| `HvmRam.ReadAfterWrite` | hvm/src/ram.rs:10-16 | a written cell reads back the value written |
| `HvmRam.WriteOthers` | hvm/src/ram.rs:14-16 | a write changes no other cell |
| `HvmRam.WriteTwice` | hvm/src/ram.rs:14-16 | of two writes to one cell the later wins |
| `HvmParser.GetArgs` | hvm/src/parser.rs:57-60 | the second and third whitespace-separated words; fewer than three words panic |
| `HvmParser.ParseLine` | hvm/src/parser.rs:25-48 | after cutting the comment and trimming: an arithmetic keyword gives that command; otherwise a line starting with `push` with three or more words gives `Push` of its 2nd and 3rd words, and one starting with `pop` gives `Pop` of them; such a line with fewer words panics; every other line, the empty one included, gives nothing |
| `HvmParser.ParseEachFailure` | hvm/src/parser.rs:25-51 | the loop fails exactly when some line's parse fails |
| `HvmParser.ParseEachAppend` | hvm/src/parser.rs:25-51 | lines parse independently: the commands of two blocks concatenate in order |
| `HvmParser.ParseLinesFailure` | hvm/src/parser.rs:25-51 | the file's parse fails exactly when one of its lines panics |
| `HvmParser.ParseLinesAppend` | hvm/src/parser.rs:25-51 | parsing a file is parsing its two halves one after the other |
| `HvmParser.CommentLine` | hvm/src/parser.rs:27-31 | a line that is only a comment contributes no command |
| `HvmParser.PushLine` | hvm/src/parser.rs:34-36 | `push segment index` written with single spaces parses into `Push(segment, index)` |
| `HvmParser.PopLine` | hvm/src/parser.rs:37-39 | `pop segment index` written with single spaces parses into `Pop(segment, index)` |
| `HvmParser.ArithmeticLine` | hvm/src/parser.rs:32-33 | each of the nine keywords alone on a line parses as that arithmetic command |
| `HvmAsm.GetXEffect` | hvm/src/asm.rs:38-40 | GET_X points A at the top word and changes no memory |
| `HvmAsm.PushXEffect` | hvm/src/asm.rs:42-47 | PUSH_X stores D at RAM[SP] and increments SP |
| `HvmAsm.PopYEffect` | hvm/src/asm.rs:32-36 | POP_Y decrements SP and loads the old top word into D |
| `HvmAsm.AddEffect` | hvm/src/asm.rs:1-12 | ADD replaces x, y by x + y mod 2^16 and lowers SP by one |
| `HvmAsm.SubEffect` | hvm/src/asm.rs:14-30 | SUB replaces x, y by x − y mod 2^16 and lowers SP by one |
| `HvmAsm.NegEffect` | hvm/src/asm.rs:49-54 | NEG replaces the top word by its negation mod 2^16, SP unchanged |
| `HvmAsm.NotEffect` | hvm/src/asm.rs:80-85 | NOT replaces the top word by its bitwise complement, SP unchanged |
| `HvmAsm.AndEffect` | hvm/src/asm.rs:56-66 | AND replaces x, y by their bitwise conjunction and lowers SP by one |
| `HvmAsm.OrEffect` | hvm/src/asm.rs:68-78 | OR replaces x, y by their bitwise disjunction, lowers SP by one and zeroes the vacated cell |
| `HvmArith.CountLabelInjective` | hvm/src/code.rs:19-20 | two draws give the same `COUNT_n` label exactly when they are equal |
| `HvmArith.WriteArithmetic` | hvm/src/code.rs:10-41 | a fragment exists exactly for the nine arithmetic keywords; any other word panics with "Unknow arithmetic command" |
| `HvmArith.CompareBindings` | hvm/src/code.rs:18-24 | the assembler's first pass binds the first label to the `D=-1` line and the second to the store after it |
| `HvmArith.CompareEffect` | hvm/src/code.rs:18-38 | with distinct labels, a comparison pops y and x and pushes -1 when its jump holds of x − y mod 2^16, else 0 |
| `HvmArith.CompareSameLabels` | hvm/src/code.rs:18-24 | with equal draws the later label binding wins: a taken branch stores x − y itself, so eq pushes 0 and gt/lt push the difference |
| `HvmArith.CompareMeaning` | hvm/src/code.rs:18-38 | JEQ, JGT and JLT on the wrapped difference push what eq, gt and lt define, negated for gt/lt when x − y overflows |
| `HvmArith.EqMeaning` | hvm/src/code.rs:18-24 | JEQ on the wrapped difference holds exactly when x = y |
| `HvmArith.GtMeaning` | hvm/src/code.rs:25-31 | without overflow, JGT on the wrapped difference holds exactly when x > y as signed words |
| `HvmArith.LtMeaning` | hvm/src/code.rs:32-38 | without overflow, JLT on the wrapped difference holds exactly when x < y as signed words |
| `HvmArith.OverflowFlips` | hvm/src/code.rs:25-38 | when x − y overflows 16 bits, the sign tests of gt and lt give the opposite of the true order |
| `HvmArith.GtOverflow` | hvm/src/code.rs:25-31 | 32767 > -1, but the gt fragment answers false |
| `HvmArith.ArithmeticEffect` | hvm/src/code.rs:10-41 | every arithmetic command, placed with its own labels bound to its own positions (`Placed`) and two distinct draws, runs to its end and replaces its operands by the value the VM language defines (gt/lt negated on overflow); nothing else changes |
| `HvmSegments.WritePushPop` | hvm/src/code.rs:44-75 | the writer fails exactly for a non-push/pop command, `pop constant`, or a temp/static address that overflows `u16`; `pop constant` panics with "Segment unknow!" |
| `HvmSegments.AddressDefined` | hvm/src/code.rs:44-75 | every translatable push/pop names a RAM cell, except push constant which names a literal |
| `HvmSegments.LoadViaPointer` | hvm/src/code.rs:203-216 | the push loader for local/argument/this/that reads the cell `index` past the pointer register |
| `HvmSegments.LoadFixed` | hvm/src/code.rs:219-225 | the static (and temp) loader reads the fixed cell; the `file.index` symbol is overwritten by the next line |
| `HvmSegments.PushShape` | hvm/src/code.rs:203-239 | every translatable push is its loading part followed by PUSH_X |
| `HvmSegments.PushEffect` | hvm/src/code.rs:203-239 | push places the segment's value (the index for constant) on the stack and increments SP; no other cell changes |
| `HvmSegments.IncrementMEffect` | hvm/src/code.rs:275-290 | `incremente_m(index)` moves A from a pointer register's value to `index` cells past it |
| `HvmSegments.PopShape` | hvm/src/code.rs:242-272 | every translatable pop is POP_Y followed by its storing part |
| `HvmSegments.StoreViaPointer` | hvm/src/code.rs:242-254 | the pop store for local/argument/this/that writes D to the cell `index` past the pointer |
| `HvmSegments.PopEffect` | hvm/src/code.rs:242-272 | pop removes the top word, decrements SP and writes the word to the segment's cell; nothing else changes |
| `HvmSegments.HackOperands` | hvm/src/code.rs:203-272 | a push/pop fragment is Hack machine code exactly when its `@` operands fit 15 bits: the index for every push but pointer, index + 5 for temp, 16 + index for static |
| `HvmSegments.WideConstant` | hvm/src/code.rs:228-230 | `push constant 32768` is translated, into an `@32768` that no A-instruction can hold |
| `HvmSegments.PushThenPop` | hvm/src/code.rs:44-75 | a push followed by a pop copies the first place's value into the second and restores SP |
| `HvmFlow.LabelPlacement` | hvm/src/code.rs:78-80 | a label takes no ROM and binds its name to the address where it stands |
| `HvmFlow.LabelEffect` | hvm/src/code.rs:78-80 | running over a label changes nothing |
| `HvmFlow.GotoEffect` | hvm/src/code.rs:83-85 | goto always jumps to its label and changes no memory |
| `HvmFlow.IfEffect` | hvm/src/code.rs:88-90 | if-goto pops y and jumps exactly when y, read as signed, is positive |
| `HvmFlow.IfIgnoresNegative` | hvm/src/code.rs:88-90 | true (-1), and every other negative value, does not make if-goto jump |
| `HvmFlow.FunctionPlacement` | hvm/src/code.rs:93-104 | the function label binds the name to the first zeroing line |
| `HvmFlow.ZeroNextRepeated` | hvm/src/code.rs:99-102 | repeating the loop body zeroes the same cell every time |
| `HvmFlow.FunctionEffect` | hvm/src/code.rs:93-104 | function entry zeroes RAM[LCL] and, for two or more locals, RAM[LCL+1]; nothing else changes, SP included |
| `HvmFlow.FunctionLeavesLocals` | hvm/src/code.rs:93-104 | with three or more locals, the third local on keeps its old contents |
| `HvmCall.SaveRegsEffect` | hvm/src/code.rs:113-116 | saving LCL, ARG, THIS and THAT pushes their values in order |
| `HvmCall.CallPlacement` | hvm/src/code.rs:108-139 | a call takes 47 ROM lines and binds only its return label, to the address just after them |
| `HvmCall.CallPushes` | hvm/src/code.rs:111-116 | the pushes lay out the return address and the caller's four pointers on the stack |
| `HvmCall.RepositionArgEffect` | hvm/src/code.rs:118-118 | ARG becomes SP − nargs − 5 |
| `HvmCall.RepositionLclEffect` | hvm/src/code.rs:120-120 | LCL becomes SP |
| `HvmCall.CallEffect` | hvm/src/code.rs:108-139 | a call pushes the frame, sets ARG and LCL, and jumps to the callee |
| `HvmCall.CallLeavesFrame` | hvm/src/code.rs:108-139 | after a call, SP and LCL sit just past the saved frame and ARG at the first argument |
| `HvmCall.ReturnSaveEffect` | hvm/src/code.rs:144-147 | frame := LCL goes to R13 and the return address RAM[frame − 5] to R14 |
| `HvmCall.ReturnResultEffect` | hvm/src/code.rs:150-154 | the callee's top word goes to RAM[ARG] and SP to ARG + 1 |
| `HvmCall.RestorePointersEffect` | hvm/src/code.rs:157-166 | THAT, THIS, ARG and LCL are restored from frame − 1 … frame − 4 |
| `HvmCall.ReturnEffect` | hvm/src/code.rs:142-184 | a return stores the result, resets SP, restores the four pointers and jumps to the saved return address |
| `HvmCall.ReturnMeaning` | hvm/src/code.rs:142-184 | after a return, SP sits just above the old ARG, which holds the result, and the cells from R15 below it are unchanged |
| `HvmCall.CallReturn` | hvm/src/code.rs:108-184 | when the callee returns with its frame intact, control comes back to the return label with the caller's pointers restored and the result in place of the arguments |
| `HvmCall.BootstrapEffect` | hvm/src/code.rs:187-195 | from any RAM, the bootstrap reaches Sys.init with SP and LCL at 261, ARG at 256 and the return address at 256 |
| `HvmTranslator.Emit` | hvm/src/translator.rs:29-69 | a command's writer fails exactly for an unknown arithmetic word or an untranslatable push/pop; NewFile emits nothing |
| `HvmTranslator.TranslateAppend` | hvm/src/translator.rs:27-71 | translating `a + b` is translating `a`, then `b` in the file and position `a` ended in |
| `HvmTranslator.TranslateSucceeds` | hvm/src/translator.rs:27-71 | the translation succeeds exactly when every command's writer succeeds in the file in force at that command |
| `HvmTranslator.AllEmitStep` | hvm/src/translator.rs:27-71 | every writer succeeds exactly when the first does and all later ones do, in the file after the first |
| `HvmTranslator.NewFileEmpty` | hvm/src/translator.rs:30-32 | NewFile emits nothing and switches the file name |
| `HvmTranslator.BootstrapFirst` | hvm/src/translator.rs:23-24 | every successful translation starts with the bootstrap |
| `HvmTranslator.TranslateStartsSysInit` | hvm/src/translator.rs:23-24 | running any successful translation first reaches Sys.init with SP = LCL = 261 and ARG = 256 |
| `HvmFiles.StemExtension` | hvm/src/translator.rs:89-96 | a name with an extension is its stem, a dot and the extension |
| `HvmFiles.ExtensionOfJoin` | hvm/src/translator.rs:89-96 | adding an extension to a non-empty stem is undone by the stem and extension readers |
| `HvmFiles.VmEntriesSelect` | hvm/src/translator.rs:102-123 | a directory entry is selected exactly when it is a file with extension `vm` |
| `HvmFiles.SortFilesSorted` | hvm/src/translator.rs:125-136 | the sort's result is ordered by the comparator when Sys.vm occurs at most once |
| `HvmFiles.SortFilesOrder` | hvm/src/translator.rs:125-136 | after sorting, Sys.vm (if present) is last, the other names ascend, and the names are the same ones |
| `HvmFiles.SortFiles` | hvm/src/translator.rs:125-136 | sorting keeps exactly the same names, counted with multiplicity |
| `HvmFiles.SysLast` | hvm/src/translator.rs:125-136 | in a list ordered by the comparator, Sys.vm, when present, is the last name |
| `HvmFiles.OutputPath` | hvm/src/translator.rs:83-96 | a directory `d` is translated into `d/<name of d>.asm`, anything else into `<stem>.asm` beside it; a missing name becomes `output` |
| `HvmFiles.OutputInDirectory` | hvm/src/translator.rs:84-88 | a directory's output sits inside it and is named after it |
| `HvmFiles.OutputBesideFile` | hvm/src/translator.rs:89-96 | `stem.vm` is translated into `stem.asm` in the same directory |
| `VirtualMemory.NewLayout` | project07-virtual-machine/src/virtual_memory.rs:22-40 | 32768 zero cells, SP = 256, LCL..THAT at 1..4, temp 5..12, static 16..255, stack 256..2047 |
| `VirtualMemory.Cell` | project07-virtual-machine/src/virtual_memory.rs:45-45 | indexing succeeds exactly inside the memory |
| `VirtualMemory.SetCell` | project07-virtual-machine/src/virtual_memory.rs:54-54 | storing succeeds exactly inside the memory |
| `VirtualMemory.ResolveRules` | project07-virtual-machine/src/virtual_memory.rs:57-83 | local → 1 and argument → 2 whatever the index; pointer 0/1 → 3/4, other indices panic; temp i → 5 + i for i ≤ 7; static i → 16 + i for i ≤ 239; constant → SP; any other name panics |
| `VirtualMemory.Push` | project07-virtual-machine/src/virtual_memory.rs:43-48 | push copies the resolved cell to RAM[SP] and increments SP; it succeeds exactly when the segment resolves and both the address and SP are inside RAM, and a segment that does not resolve gives that panic |
| `VirtualMemory.Pop` | project07-virtual-machine/src/virtual_memory.rs:51-55 | pop copies RAM[SP] to the resolved cell and leaves SP alone; it succeeds exactly when the segment resolves and both the address and SP are inside RAM, and with SP inside RAM a segment that does not resolve gives that panic |
| `VirtualMemory.PushConstantIgnoresIndex` | project07-virtual-machine/src/virtual_memory.rs:43-74 | `push constant i` does not depend on i and only moves SP up |
| `VirtualMemory.PopAfterPushMissesValue` | project07-virtual-machine/src/virtual_memory.rs:43-55 | after a push, a pop stores the cell above the pushed value, not the value |
| `VirtualMemory.Binary` | project07-virtual-machine/src/virtual_memory.rs:86-167 | the two-operand commands need 0 < SP inside the memory, lower SP by one, zero the old RAM[SP] and touch no cell below the new top or above the old one |
| `VirtualMemory.BinaryMeaning` | project07-virtual-machine/src/virtual_memory.rs:86-167 | add, sub, and, or store x op y at the new top, with y = RAM[SP] and x = RAM[SP − 1]; add and sub panic on `i16` overflow |
| `VirtualMemory.ComparisonsAlwaysZero` | project07-virtual-machine/src/virtual_memory.rs:112-147 | eq, gt and lt leave 0 at the new top whatever x and y are |
| `VirtualMemory.EqOfEqualIsZero` | project07-virtual-machine/src/virtual_memory.rs:112-122 | even for x = y, eq leaves 0 |
| `VirtualMemory.Neg` | project07-virtual-machine/src/virtual_memory.rs:106-109 | neg negates RAM[SP] in place and panics on −32768 |
| `VirtualMemory.Not` | project07-virtual-machine/src/virtual_memory.rs:170-173 | not replaces RAM[SP] by −y − 1 (its bitwise complement) in place |
| `VirtualMemory.NegNeg` | project07-virtual-machine/src/virtual_memory.rs:106-109 | negating twice gives the machine back |
| `VirtualMemory.NotNot` | project07-virtual-machine/src/virtual_memory.rs:170-173 | complementing twice gives the machine back |
| `VirtualMemory.AddAfterPush` | project07-virtual-machine/src/virtual_memory.rs:43-93 | after a push, add combines the pushed value with the cell above it |
| `MemorySegment.NewSegments` | project07-virtual-machine/src/memory_segment.rs:14-24 | all seven maps start empty |
| `MemorySegment.Select` | project07-virtual-machine/src/memory_segment.rs:27-35 | a name selects its own map exactly for the six known names; everything else selects temp |
| `MemorySegment.Set` | project07-virtual-machine/src/memory_segment.rs:27-37 | replacing one segment's map leaves the other six unchanged |
| `MemorySegment.Push` | project07-virtual-machine/src/memory_segment.rs:26-38 | push inserts index ↦ value into the selected map and changes no other map |
| `MemorySegment.PushThenGet` | project07-virtual-machine/src/memory_segment.rs:26-38 | a stored value is found again under its segment and index |
| `MemorySegment.UnknownNamesHitTemp` | project07-virtual-machine/src/memory_segment.rs:27-35 | unknown names, misspellings included, write into temp |
| `MemorySegment.PushCommutes` | project07-virtual-machine/src/memory_segment.rs:26-38 | pushes to different segments, or different indices, commute |
| `Vm07Parser.TypeOf` | project07-virtual-machine/src/parser.rs:41-51 | only push, pop and the nine arithmetic keywords get a type |
| `Vm07Parser.Parse` | project07-virtual-machine/src/parser.rs:32-67 | parsing succeeds exactly when the line has one word or at least three; the type comes from the first word, arg1 is the second word, arg2 is the third word read as `i16` when it is one |
| `Vm07Parser.PushPopRoundTrip` | project07-virtual-machine/src/parser.rs:129-143 | `push segment n` / `pop segment n` parse back into their type, segment and index |
| `Vm07Parser.ArithmeticRoundTrip` | project07-virtual-machine/src/parser.rs:129-143 | an arithmetic keyword alone parses with no arguments |
| `Vm07Parser.ParseI16Dec` | project07-virtual-machine/src/parser.rs:63-63 | a non-negative index within `i16` reads back from its decimal rendering |
| `Vm07Parser.TwoWordsPanic` | project07-virtual-machine/src/parser.rs:60-67 | every two-word line panics |
| `Vm07Parser.AnySeparator` | project07-virtual-machine/src/parser.rs:42-67 | `push`/`pop` followed by any Unicode whitespace character (tab, U+00A0, U+3000, …) and then `segment n` parses as with a space |
| `Vm07Stack.NewStack` | project07-virtual-machine/src/stack.rs:8-10 | a new stack is empty and satisfies the pointer invariant |
| `Vm07Stack.Push` | project07-virtual-machine/src/stack.rs:12-15 | push inserts at SP (panicking past the end) and resets SP to the length |
| `Vm07Stack.Pop` | project07-virtual-machine/src/stack.rs:17-21 | pop removes and returns the last element, if any, and resets SP to the length |
| `Vm07Stack.PopUnwrap` | project07-virtual-machine/src/stack.rs:24-24 | `pop().unwrap()` panics exactly on an empty stack |
| `Vm07Stack.Neg` | project07-virtual-machine/src/stack.rs:35-38 | neg replaces the top value by its negation and panics on an empty stack or −32768 |
| `Vm07Stack.PushAppends` | project07-virtual-machine/src/stack.rs:12-15 | on a valid stack push appends |
| `Vm07Stack.PushPop` | project07-virtual-machine/src/stack.rs:12-21 | pop after push gives back the value and the stack |
| `Vm07Stack.BinaryMeaning` | project07-virtual-machine/src/stack.rs:23-33 | add and sub replace the two top values by x ± y and panic exactly when that leaves the `i16` range |
| `Vm07Stack.BinaryNeedsTwo` | project07-virtual-machine/src/stack.rs:23-33 | with fewer than two values add and sub panic |
| `Vm07Stack.OperationsKeepValid` | project07-virtual-machine/src/stack.rs:12-38 | every successful operation leaves SP equal to the length |
| `Vm07Stack.AddExample` | project07-virtual-machine/src/stack.rs:76-84 | pushing 16 and 2 and adding leaves `[18]` with SP 1 |
| `P07Stack.NewStack` | project07/src/stack.rs:8-13 | a new stack is empty with counter 0 |
| `P07Stack.Push` | project07/src/stack.rs:15-18 | push appends and increments the `u16` counter, panicking at 65535 |
| `P07Stack.Pop` | project07/src/stack.rs:20-23 | pop decrements the counter (panicking at 0) and then removes the last value if there is one |
| `P07Stack.PopData` | project07/src/stack.rs:26-26 | `data.pop().unwrap()` panics exactly on an empty vector |
| `P07Stack.Binary` | project07/src/stack.rs:25-35 | add and sub shrink the vector by one and leave the counter alone |
| `P07Stack.Neg` | project07/src/stack.rs:37-40 | neg negates the last value, panicking on an empty vector or −32768, counter untouched |
| `P07Stack.BinaryMeaning` | project07/src/stack.rs:25-35 | add and sub replace the two last values by x ± y and panic exactly on `i16` overflow |
| `P07Stack.PushPop` | project07/src/stack.rs:15-23 | pop after push gives back the value and the stack |
| `P07Stack.AddDesynchronises` | project07/src/stack.rs:15-29 | after push x, push y, add, one value remains but the counter is 2, and two pops still succeed |
| `AsmCode.CompToBin` | assembler/src/code.rs:1-33 | the 28 comp mnemonics get seven bits; anything else panics with "Instruction de calcul inconnue: " and the mnemonic |
| `AsmCode.DestToBin` | assembler/src/code.rs:35-47 | no dest and the seven dest spellings get three bits; anything else panics |
| `AsmCode.JumpToBin` | assembler/src/code.rs:49-61 | no jump and the seven jump mnemonics get three bits; anything else panics |
| `AsmCode.CompTable` | assembler/src/code.rs:1-33 | every mnemonic is accepted, its bits name it back, the ALU run on its bits computes what it means, and the a-bit is set exactly for M mnemonics |
| `AsmCode.CompDomain` | assembler/src/code.rs:1-33 | whatever comp_to_bin accepts, its bits name that very mnemonic back |
| `AsmCode.CompInjective` | assembler/src/code.rs:1-33 | distinct mnemonics get distinct bits |
| `AsmCode.DestMeaning` | assembler/src/code.rs:35-47 | every dest spelling encodes the registers it names |
| `AsmCode.DestDomain` | assembler/src/code.rs:35-47 | only the canonical spellings are accepted ("DM" and "MA" panic) |
| `AsmCode.JumpMeaning` | assembler/src/code.rs:49-61 | every jump mnemonic encodes the condition it names |
| `AsmCode.JumpDomain` | assembler/src/code.rs:49-61 | only the seven mnemonics and no jump are accepted |
| `AsmParser.SplitDest` | assembler/src/parser.rs:29-38 | with an '=', dest is the text before the first '=' and the rest the text between it and the next '='; without one, no dest |
| `AsmParser.SplitJump` | assembler/src/parser.rs:40-42 | comp is the text before the first ';', jump the text between it and the next ';', if any |
| `AsmParser.ParseClean` | assembler/src/parser.rs:22-45 | an empty line gives nothing; `@v` gives A(v); `(n)` gives Label(n); anything else gives a C-instruction |
| `AsmParser.ParseLinesNoBlanks` | assembler/src/parser.rs:18-47 | without blank lines the i-th instruction is the parse of the i-th line |
| `AsmParser.ParseLinesAppend` | assembler/src/parser.rs:18-47 | parsing a file is parsing its halves one after the other |
| `AsmParser.CleanLine` | assembler/src/parser.rs:20-20 | a line of symbol and mnemonic characters is unchanged by comment removal and trimming |
| `AsmParser.ParsePrint` | assembler/src/parser.rs:18-45 | every printable instruction parses back from its printed line |
| `AsmParser.SplitPrinted` | assembler/src/parser.rs:29-42 | the fields of a printed C-instruction are cut back out of its line |
| `AsmParser.ExtraFieldsDropped` | assembler/src/parser.rs:29-42 | `d=c;j;x` reads as `d=c;j` and `d=c=x` as `d=c`: everything after a second separator is dropped |
| `AsmParser.HackPrintable` | assembler/src/parser.rs:5-10 | every Hack C-instruction can be printed and read back |
| `AsmSymbols.RegistersBind` | assembler/src/symbol_table.rs:13-15 | R0 … R(n−1) are bound to their numbers and nothing else is bound |
| `AsmSymbols.RegisterInjective` | assembler/src/symbol_table.rs:14-14 | register names of different numbers differ |
| `AsmSymbols.NewTable` | assembler/src/symbol_table.rs:10-20 | R0..R15 ↦ 0..15, SCREEN ↦ 16384, KBD ↦ 24576, variables from 16 |
| `AsmSymbols.NewTableDomain` | assembler/src/symbol_table.rs:10-20 | a new table binds nothing else |
| `AsmSymbols.AddLabel` | assembler/src/symbol_table.rs:22-24 | add_label binds or rebinds the label, leaves other symbols and the counter alone |
| `AsmSymbols.GetAddress` | assembler/src/symbol_table.rs:26-34 | a known symbol gives its address with nothing changed; a new one is bound to the counter, which moves up by one and panics on `u16` overflow |
| `AsmSymbols.GetAddressIdempotent` | assembler/src/symbol_table.rs:26-34 | asking twice gives the same address and the second time changes nothing |
| `AsmSymbols.FreshConsecutive` | assembler/src/symbol_table.rs:26-34 | the k-th fresh symbol gets counter + k |
| `AsmUtils.ContainsAlphabetic` | assembler/src/utils.rs:3-11 | the scan returns true exactly when the word holds a letter |
| `AsmUtils.NumeralsHaveNoLetter` | assembler/src/utils.rs:3-11 | decimal numerals hold no letter, so they are never taken for symbols |
| `AsmUtils.LetterSurvivesConcat` | assembler/src/utils.rs:3-11 | a word with a letter keeps it whatever is written around it |
| `AsmAssembler.Pass` | assembler/src/assembler.rs:44-54 | the first pass succeeds exactly when the `u16` address counter does not overflow, and keeps the variable counter |
| `AsmAssembler.PassKeeps` | assembler/src/assembler.rs:44-54 | a symbol that no label declares keeps its binding or absence |
| `AsmAssembler.PassBindsLabel` | assembler/src/assembler.rs:44-54 | a label is bound to the start address plus the number of non-labels before its last declaration |
| `AsmAssembler.ALine` | assembler/src/assembler.rs:22-22 | the A line is '0' then the value in binary; it is 16 characters exactly when the value is below 32768 |
| `AsmAssembler.Encode` | assembler/src/assembler.rs:15-37 | labels give no line; a symbol operand already in the table gives the line of its bound address and leaves the table alone; a new symbol succeeds exactly while the variable counter is below 65535, is bound to that counter, gets its line and moves the counter up by one; a numeric operand must parse as `u16` and gives its own line; a C line is "111" + comp + dest + jump |
| `AsmAssembler.LabelOperand` | assembler/src/assembler.rs:5-22 | after the first pass, `@L` for a label L gives the line of the ROM address after L's last declaration, and the table is unchanged |
| `AsmAssembler.FirstVariable` | assembler/src/assembler.rs:5-22 | after the first pass, `@x` for a symbol that is neither declared nor predefined is bound to RAM address 16, and the counter moves to 17 |
| `AsmAssembler.SecondPass` | assembler/src/assembler.rs:14-39 | one all-bit line per non-label instruction |
| `AsmAssembler.NumericOperand` | assembler/src/assembler.rs:23-24 | a decimal operand below 2^15 is written as its own value on sixteen bits |
| `AsmAssembler.CInstructionMeaning` | assembler/src/assembler.rs:28-34 | a C-instruction codes to sixteen bits starting "111" whose comp field computes the mnemonic's meaning, whose dest field names its registers and whose jump field jumps on the named condition |
| `AsmAssembler.CompField` | assembler/src/assembler.rs:31-31 | the comp bits compute what the mnemonic means on every machine state |
| `AsmAssembler.JumpField` | assembler/src/assembler.rs:33-33 | the jump bits jump on exactly the values the mnemonic names |
| `AsmAssembler.UnknownCompPanics` | assembler/src/assembler.rs:28-34 | an unknown comp stops the assembler with the comp table's message before dest and jump are looked at |
| `AsmAssembler.LabelAddresses` | assembler/src/assembler.rs:5-10 | after the first pass over a program, every label names the ROM address after its last declaration, and variables still start at 16 |
| `AsmAssembler.SecondPassAppend` | assembler/src/assembler.rs:14-39 | the second pass over two halves is the second pass over each in turn |
| `AsmAssembler.AssembleSingle` | assembler/src/assembler.rs:5-42 | a one-instruction program assembles to that instruction's line |
| `AsmAssembler.AssembleNumber` | assembler/src/assembler.rs:5-42 | the program `@n` assembles to one sixteen-bit line denoting n |
| `AsmAssembler.NumberLine` | assembler/src/parser.rs:24-25 | the line `@n` parses into the A-instruction of n |
| `P05Symbols.NewSymbolTable` | project05-assembler/src/symbol_table.rs:13-15 | a new table has no entries |
| `P05Symbols.AddEntry` | project05-assembler/src/symbol_table.rs:17-19 | add_entry appends one entry and keeps the earlier ones |
| `P05Symbols.AddEntryRebinds` | project05-assembler/src/symbol_table.rs:17-19 | read by its last entry, a name added is rebound and other names are unchanged |
| `P05Symbols.DuplicatesKept` | project05-assembler/src/symbol_table.rs:17-19 | the same name added twice gives two entries |
| `P05Symbols.AddToNew` | project05-assembler/src/symbol_table.rs:37-42 | a new table with ("test", 1) added holds exactly that entry |
| `JackEngine.NewEngine` | compiler/src/compilation_engine.rs:49-53 | a new engine is at position 0 with no output |
| `JackEngine.Peek` | compiler/src/compilation_engine.rs:61-63 | the current token exactly when the position is inside the tokens |
| `JackEngine.PeekNext` | compiler/src/compilation_engine.rs:66-68 | the token after the current one, if any |
| `JackEngine.Advance` | compiler/src/compilation_engine.rs:71-75 | returns the current token, if any, and moves the position on in any case |
| `JackEngine.Write` | compiler/src/compilation_engine.rs:78-80 | appends one line of output |
| `JackEngine.WriteToken` | compiler/src/compilation_engine.rs:83-93 | copies the current token and advances; at the end, an UnexpectedEof error with the engine unchanged |
| `JackEngine.PeekUnwrap` | compiler/src/compilation_engine.rs:158-158 | `peek().unwrap()` panics exactly at the end of the tokens |
| `JackEngine.CopyUntil` | compiler/src/compilation_engine.rs:158-160 | succeeds exactly when the delimiter occurs ahead, stops on its first occurrence, and copies every token before it; otherwise panics |
| `JackEngine.CompileVarDec` | compiler/src/compilation_engine.rs:207-220 | succeeds exactly when a ';' lies ahead; writes `<varDec>`, the tokens up to and including the first ';', `</varDec>` |
| `JackEngine.CompileClassVarDec` | compiler/src/compilation_engine.rs:148-164 | writes `<classVarDec>`, the tokens before the first ';' (after a leading static/field), `</classVarDec>`; the ';' is left unread |
| `JackEngine.CompileParameterList` | compiler/src/compilation_engine.rs:168-179 | succeeds exactly when a ')' lies ahead; writes the tokens before it between the parameterList tags and leaves ')' unread |
| `JackEngine.CompileReturn` | compiler/src/compilation_engine.rs:310-316 | copies exactly three tokens, whatever they are; with fewer left, UnexpectedEof comes back after the remaining tokens have been written and consumed |
| `JackEngine.OnlyForward` | compiler/src/compilation_engine.rs:148-220 | every production only appends to the output and never moves back |
| `JackEngine.DeclarationAt` | compiler/src/compilation_engine.rs:207-220 | a declaration ending in its only ';' is read whole, whatever follows |
| `JackEngine.VarDecAt` | compiler/src/compilation_engine.rs:207-220 | from any position, compile_var_dec ends just past the first ';' |
| `JackEngine.VarDecExample` | compiler/src/compilation_engine.rs:368-390 | `var int x ;` is copied between the varDec tags |
| `RustInts.CheckedI16` | project07-virtual-machine/src/stack.rs:26-26 | `i16` arithmetic succeeds exactly inside −32768..32767 and panics otherwise |
| `RustInts.NotI16` | project07-virtual-machine/src/virtual_memory.rs:172-172 | `!y` on `i16` is −y − 1 |
| `Text.Trim` | assembler/src/parser.rs:20-20 | trim removes exactly the leading and trailing whitespace, whitespace being every Unicode White_Space character |
| `Text.CutComment` | assembler/src/parser.rs:20-20 | the text before the first "//" |
| `Text.Words` | project07-virtual-machine/src/parser.rs:42-42 | split_whitespace gives the maximal runs of characters that are not Unicode whitespace |
| `Text.WordsUnwords` | project07-virtual-machine/src/parser.rs:42-42 | split_whitespace recovers words that contain no Unicode whitespace, joined with spaces |
| `Text.WordsAfterSeparator` | project07-virtual-machine/src/parser.rs:42-42 | any Unicode whitespace character, not only a space, ends a word |
| `Text.SplitAt` | assembler/src/parser.rs:29-38 | splitting `a + c + b` at its first c gives a and b |
| `Text.ParseU16` | assembler/src/assembler.rs:24-24 | parse::<u16> accepts an optional '+' then digits whose value fits 16 bits |
| `Text.ParseU16Dec` | assembler/src/assembler.rs:24-24 | parsing the decimal rendering of a `u16` gives it back |
| `Text.ParseU16NeedsDigit` | assembler/src/assembler.rs:19-24 | a string without a digit never parses |
| `Text.ParseI16` | project07-virtual-machine/src/parser.rs:63-63 | parse::<i16>: optional sign, then digits whose value fits `i16` |
| `Text.DecInjective` | hvm/src/code.rs:19-22 | distinct numbers render as distinct decimal strings |
| `Text.Binary15Spec` | assembler/src/assembler.rs:22-22 | `{:015b}` has 15 digits exactly when the value fits 15 bits, and denotes the value |

## Left out

- File I/O is replaced by sequences of lines and lists of entries. This covers reading source files, creating and writing output files, and listing directories. An I/O error is not modelled, and neither is the partial output a panic leaves in a file.
- Randomness is a parameter. The model makes no claim about the distribution of `rand`.
- `HvmArith.ArithmeticEffect`: proved only under `Placed`, where the fragment's own labels are bound to its own positions. Two comparisons in one program can draw the same counter value, and then the later binding of the shared label wins for both. The effect of such a program is not stated; `HvmArith.CompareSameLabels` shows the collision.
- `HvmArith.CompareEffect`: rests on the same `Placed` hypothesis, for the same reason as `HvmArith.ArithmeticEffect`.
- `HvmCall.CallEffect`: the return label carries a random `u8`. Two calls of the same function can therefore draw the same label, and then the later label definition wins. The model takes the label number as given and states the effect of one call.
- Overflow is modelled as the panic of a debug build. The wrap-around of a release build is not modelled.
- `AsmUtils.ContainsAlphabetic`: letters are the ASCII letters. Rust's `char::is_alphabetic` also accepts non-ASCII letters.
- `HvmFiles.SortFilesSorted`: with two entries named Sys.vm the comparator is not a total order, and the model states nothing about that case.
- Large A-values give a 17-character line. For `@n` with 32768 ≤ n ≤ 65535 the A-line has 17 characters (`AsmAssembler.ALine`), as in the code. No 16-bit truncation is modelled.
- `HvmSegments.PushEffect`: the Hack semantics gives `@n` the value n for every n below 2^16, although an A-instruction holds only 15 bits. For an index whose operand does not fit (`HvmSegments.HackOperands`), the lemma describes a fragment that does not assemble to Hack machine code.
- `HvmSegments.PopEffect`: the same holds for temp and static pops whose address is 32768 or more.
- `HvmSegments.PushThenPop`: the same holds when either command has such an operand.
- The remaining Jack productions are not modelled: `compile_class`, `compile_subroutine`, `compile_subroutine_body`, `compile_statements`, `compile_let`, `compile_if`, `compile_while`, `compile_do`, `compile_expression`, `compile_term` and `compile_expression_list`. Neither is the output-file creation of `CompilationEngine::new`. They lie outside the token cursor and the four copying productions.
- The drivers are not modelled: `hack_assembler.rs`, the `main.rs` files, `code_writer.rs`, `vm_translator.rs`, `analyzer.rs` and `tokenizer.rs`. They only wire the modelled parts to files.
- The `project07` stack's `eq` and the `project07-virtual-machine` test `should_verify_eq_x_and_y_in_the_stack` are not modelled. The operation is commented out in the code.
- `hvm/src/parser.rs` does not classify label, goto, if-goto, function, call or return lines: they are dropped, as in the code. The writers for those commands are modelled on the command shape of the dispatch loop instead.
- `VirtualMemory.ResolveRules`: the panic message for a pointer index other than 0 or 1 names the segment in lower case. The code writes it in capitals. The condition and the place of the panic are as in the code.
