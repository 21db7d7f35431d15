# Oberon system: a verified model

Dafny models of the parts of this Oberon system that carry its hard properties, one module per
component, with proofs. Check everything with `dafny verify dfyconfig.toml`.

| module | models |
|---|---|
| `Words` | bytes, 32-bit words, wrap-around, two's complement |
| `FileDir`, `FileImage`, `Files`, `FilesRun` | buffered files: the flat host store; what a ring of buffers means; the classes `Buffer`, `File`, `Rider` and their operations; runs of operations by many riders |
| `SklFlags`, `O3`, `SklCpu`, `SklRun`, `SklMachine` | the SKL processor: compare flags, floor division, instructions and decoding, the plain fetch-decode-execute machine, and the emulator that caches decoded instructions and threads them with `next` links |
| `SklEncode`, `SklLaws` | the encodings, from the tables of mnemonics; what each instruction is for, said of registers and memory alone |
| `SklFlagStale`, `SklFlagExample`, `SklFrames` | what the exception flag of an old trap does to cached instructions, and a program that it leads astray; nested ENTER/LEAVE frames |
| `Heap`, `Loader`, `Relocation`, `FixupLaws` | the bootstrap heap and the walk over its tags; the type-descriptor pass; address fixups, and what they do to the arrays of a module |
| `Bootstrap`, `Moving`, `MovedBoot` | the whole bootstrap, module after module; what becomes of each step, and of the whole image, when the heap lies elsewhere |
| `NumCodec`, `NumFiles` | the number format and its C++ readers; `WriteNum` and `ReadNum` through riders of a file |
| `Disasm` | the disassembler's linear sweep against the interpreter's program counter |
| `Search`, `Curves`, `RandomNumbers` | Horspool search; lines, circles and ellipses; Schrage's generator |
| `Tasks`, `Graphics` | the ring of background tasks; graphs as linked lists, and macros |

What is imperative in the source is a class or a loop here, with the source's branches in the
source's order; long procedures are cut into several methods. Such a method is proved against a
value: `File` keeps, in ghost fields, the flat byte array it stands for and the image of its
buffers and disk; `Machine.State()` is the processor state as a value; `Heap` keeps the list of
blocks allocated; rings and lists keep the sequence of their nodes. The properties are then
lemmas about these values.

## Where the code does not do what it is for

Each of these is kept as the code has it, and the exact condition is proved.

* **Files, a stale limit.** When the ring is full and a rider stands on a page at the end that is
  not buffered, `GetBuf` hands out a buffer that still counts as full, with the limit of the page
  it held before (system/Files.Mod:203-213). `Files.File.Stale` is that condition. What is written
  then reaches the buffer, but the length does not count it: `Files.File.Write` and
  `Files.File.WriteBytes` keep the file's invariant exactly when the condition is false, or a whole
  page is written. `FilesRun.StaleExample` gets there with 16384 writes and a `Set`.
* **Files, reading at a page-aligned end.** A rider that has used up the last page
  (`Files.File.Spent`) steps onto a page that does not exist (system/Files.Mod:281-290).
  `Files.File.Read` leaves its position inside the file exactly when neither `Stale` nor `Spent` holds.
  If the file is not on disk and that page is not buffered, it traps on a NIL handle instead
  (`Files.File.Adrift`). `FilesRun.SpentExample` gets there with 4096 writes.
* **Files, the length after WriteBytes.** The bytes are always right; the length field is too
  large by `FileImage.Excess` and too small by `FileImage.Missing`. It is right exactly when the write
  does not begin before the end and go past it in a part-filled last page
  (system/Files.Mod:418, 423), and does not begin at a stale page (`FilesRun.LengthIsRight`).
  `FilesRun.StraddleExample` is a file of three bytes in which two are written at its last one.
* **Traps.** The exception flag is lowered only by a fresh decode (loader/skl.cpp:245), so a
  cached stack instruction run after a trap may do nothing. A flag left up changes what an
  instruction does exactly when it is one that looks at the flag after its first access to memory
  (the stack instructions, LD, LF, SD, SF, bit tests in memory and VM services), and that access
  is within reach; out of reach it traps with the flag up or down (`SklFlagStale.StaleFlag`). So
  whole runs of the emulator agree with the plain machine, but for the flag, exactly when no step
  meets such an instruction with an old flag up (`SklFlagStale.AgreeIffHarmless`). A PUSH and a
  division by zero, whose trap leads back to the PUSH, do not agree
  (`SklFlagExample.OldFlagExample`).
* **Bounds.** `address_valid` adds in 32 bits (loader/skl.h:321-327): it says yes for an access
  inside memory that does not touch the last byte, and for any access that wraps round
  (`SklCpu.AddressCheck`), as for the topmost word, wherever memory is (`SklCpu.AddressWraps`). What
  the latter would touch is outside the model (status `Wild`).
* **Unsafe tasks.** Removing `CurTask` at the start of a pass is for handlers that trapped
  (system/Oberon.Mod:430). But a task that is not due when its turn comes stays in `CurTask` as well
  (system/Oberon.Mod:469-472), and is removed too if it is not safe. `Tasks.Round` says exactly
  which tasks are left after a round; `Tasks.LostExample` loses one.
* **Ellipses.** The first loop keeps every dot within half a pixel, vertically, of the ellipse. The
  second has no counterpart of the first one's guard: it never falls more than half a pixel
  inside, but may go astray outwards. Its dots are all next to the ellipse exactly when the
  ellipse, rounded to pixels, moves in by at most a column from one row to the next
  (`Curves.SideNears`); once outside they stay outside (`Curves.SideStays`). `Curves.SideLeaves` is
  an ellipse that is left.
* **Division.** Next to the limits of 32 bits the C++ expressions for DIV and MOD overflow;
  `O3.DivFits` and `O3.ModFits` say for which operands; `O3.ModOverflows` has two of them.
* **Numbers in files.** A code of more than five bytes, which `WriteNum` never writes, is read by
  shifts whose counts have come round (loader/skl.h:126-151), and then may not be its value
  (`NumCodec.LongCode`).
* **Random numbers.** `InitSeed` takes any number. The next state is 16807 times the seed modulo
  2^31 - 1 exactly when the difference of the two products fits in 32 bits, which fails for some
  negative seeds only (`RandomNumbers.Congruent`, `RandomNumbers.SeedExample`).
* **Disassembler.** An invalid jump encoding is listed at the address of its operand word
  (disasm/skl.cpp:662-664; `Disasm.Disassembler.DecodeBranch`).

## Model

| member | source | states |
|---|---|---|
| Files.File.New | system/Files.Mod:111-126 | a new file stands for the empty array, with four linked buffers and nothing on disk |
| Files.File.Old | system/Files.Mod:89-108 | an opened file stands for the bytes on disk |
| Files.File.GetBuf | system/Files.Mod:197-219 | any page of the file gets a buffer that holds it, evicting, creating and writing back as needed, and the invariant is kept; only a stale request is not served |
| Files.File.Write | system/Files.Mod:382-403 | one byte put into the flat array at the rider's position; at a stale page the length does not count it and the buffer counts as full; a new file within its buffers stays off the disk |
| Files.File.Read | system/Files.Mod:276-294 | the byte of the flat array at the rider's position, 0X and eof at the end; the rider leaves the file exactly when `Stale` or `Spent`, but for the trap on a NIL handle, exactly when `Adrift` |
| Files.File.WriteBytes | system/Files.Mod:405-435 | all bytes land in the flat array; the length is that of the array plus `Excess` less `Missing`; the invariant is kept unless less than a page is written from a stale page |
| FileImage.WriteStep | system/Files.Mod:413-424 | how one turn of its loop keeps length and limit |
| Files.File.CreateFile | system/Files.Mod:188-194 | creating the disk file in the middle of writing loses nothing |
| Files.File.Unbuffer | system/Files.Mod:221-229 | afterwards the disk equals the flat array |
| Files.File.Register | system/Files.Mod:232-243 | afterwards the file is on disk and the disk equals the flat array |
| Files.File.Close | system/Files.Mod:245-248 | a file that is on disk has the flat array there |
| Files.Rider.Set | system/Files.Mod:263-274 | a position is clipped to the file |
| FileImage.PutGood | system/Files.Mod:386-402 | storing bytes in a buffered page, extending the file or not, keeps the invariant: one buffer a page, limits fixed by length and page, unbuffered pages complete on disk |
| FileImage.FlushGood | system/Files.Mod:164-169 | writing a buffer back keeps the invariant and completes its page on disk |
| FileImage.LoadGood | system/Files.Mod:206-213 | a clean buffer may take any other page within the file |
| FileImage.InsertGood | system/Files.Mod:204-213 | so may a buffer added to the ring |
| FileImage.CreateGood | system/Files.Mod:188-194 | with nothing on disk yet, every page that has bytes is in a modified buffer |
| FileImage.AllClean | system/Files.Mod:221-229 | with no buffer modified, the disk is the flat array |
| FilesRun.Step | system/Files.Mod:263-403 | one Set, Write or Read by one of many riders is the same step of the flat array, for all riders |
| FilesRun.Replay | system/Files.Mod:263-403 | any list of such operations by any riders gives the bytes, lengths and positions of the flat array, up to the first that departs, if any |
| FilesRun.BytesAreWrites | system/Files.Mod:382-435 | the bytes and position after WriteBytes are those after a Write for each byte |
| FilesRun.LengthIsRight | system/Files.Mod:417-423 | when the length after WriteBytes is right, both ways |
| FilesRun.StraddleExample | system/Files.Mod:417-418 | a file of three bytes, two written at its last one: four bytes, and a length of five |
| FilesRun.SpentExample | system/Files.Mod:276-294 | a new file with one full page written: the next Read goes past the end |
| FilesRun.StaleExample | system/Files.Mod:203-213 | a new file with four full pages written and a rider set to the end: the next Write is not counted |
| SklMachine.Machine.Execute | loader/skl.cpp:324-358 | cached, link-threaded execution of any number of instructions, through any number of traps, is a run of instructions as written in memory, if none overwrites one already fetched; the cache is then fit for the next call; a pc of 0 is looked up where the source looks it up |
| SklRun.UpToTrap | loader/skl.cpp:324-358 | up to and including the first trap, such a run is the plain machine's |
| SklFlagStale.AgreeIffHarmless | loader/skl.cpp:236-358 | past traps it agrees with the plain machine, but for the flag, exactly when no instruction is kept from its work by an old flag, which one whose access traps is not |
| SklFlagStale.AgreeAtEnd | loader/skl.cpp:324-358 | agreeing step by step, the two end in the same state but for the flag |
| SklMachine.Machine.Turn | loader/skl.cpp:332-351 | one turn of the loop is one step, and leaves every entry current and every link leading to an entry |
| SklMachine.Machine.FetchAndCache | loader/skl.cpp:236-313 | fetching and decoding at the pc, with its traps, and exactly one new entry, at its own place |
| SklMachine.Machine.Interpret | loader/skl_gen_reg.cpp:62-213 | in-place interpretation of every modelled instruction has the effect its specification gives |
| SklLaws.CompareAndBranch | loader/skl_jump.cpp:52-260 | CMP and a jump on its result: taken exactly when the relation, signed or unsigned, held of the operands; otherwise on at the third word |
| SklLaws.CompareAndSet | loader/skl_cond.cpp:24-215 | CMP and a conditional set: 1 or 0 by the same relation |
| SklLaws.CompareEffect | loader/generic/skl_flags_alu.h:51-61 | the flags word itself: 1 if equal, 2 if the difference is negative, 4 for a borrow, 8 for signed overflow |
| SklLaws.ArithmeticEffect | loader/skl_gen_reg.cpp:56-124 | ADD, SUB and MUL are sum, difference and product modulo 2^32, and change nothing else |
| SklLaws.DivideEffect | loader/skl_gen_reg.cpp:125-184 | DIV and MOD are quotient and remainder with x = y*q + k and the divisor's sign; by zero, the trap and its control registers |
| SklLaws.MagnitudeEffect | loader/skl_gen_reg.cpp:208-230 | ABS is the magnitude, but for the least number |
| SklLaws.StoreEffect | loader/skl_reg_mem.cpp:286-344 | a store puts just the low bytes of the register at base + index * 2^scale + offset, the lowest first, or traps |
| SklLaws.LoadEffect | loader/skl_reg_mem.cpp:223-285 | a load puts the bytes there together and extends them by sign or zero, or traps |
| SklLaws.StoreAndLoad | loader/skl_reg_mem.cpp:223-344 | a load of what was stored gives its low bytes, extended |
| SklLaws.AddressEffect | loader/skl_reg_mem.cpp:435-465 | LA is that address |
| SklLaws.CallAndReturn | loader/skl_jump.cpp:23-88 | calls leave their return addresses, and a jump to one returns |
| SklLaws.PushAndPop | loader/skl_stack.cpp:182-291 | what is pushed is popped, and the stack pointer is where it was |
| SklLaws.EnterEffect | loader/skl_stack.cpp:71-168 | ENTER's two saved words, frame register and stack pointer, by number |
| SklLaws.EnterAndLeave | loader/skl_stack.cpp:71-168 | LEAVE undoes it and drops the arguments |
| SklLaws.TrapLaw | loader/skl_systrap.cpp:52-181 | NIL, range and index checks: on, or a software trap with its code in R1 and the pc in R31 |
| SklLaws.AccessEffect | loader/skl_reg_mem.cpp:45-128 | the instructions whose data is beyond the model: where they access memory, with what trap, and what an old flag does |
| SklLaws.StackEffect | loader/skl_stack.cpp:205-353 | PUSHF, PUSHD, POPF and POPD move the stack pointer by one word or two |
| SklLaws.FetchEffect | loader/skl.cpp:236-313 | the words of an encoded instruction in memory are fetched as that instruction |
| SklLaws.InvalidEffect | loader/skl.cpp:303-309 | a word of class 14 or above traps as no instruction |
| SklEncode.RoundTrip | loader/skl_opcode_class.h:2-15 | encoding by class, register fields, scale and mnemonic number, then decoding, gives the instruction back: every modelled one, with its operand word |
| SklEncode.Complete | loader/skl.cpp:249-313 | and every word that is decoded to a modelled instruction is one of these, with the operand word it had |
| SklEncode.OtherAccesses | loader/skl_reg_mem_opc.h:1-16 | the first accesses of LD, LF, SD, SF, of the F-register stack instructions, bit tests and VM service, by opcode |
| SklEncode.NoInstruction | loader/skl.cpp:211-219 | which words are no instructions, both ways |
| SklRun.FitsSame | loader/skl_jump.cpp:57-66 | what decoding captured, operand words included, stays right as long as the bytes of the instruction do |
| SklRun.CachedStep | loader/skl.cpp:337-345 | interpreting an entry that fits is the emulator's step, whatever the flag |
| SklRun.FetchClean | loader/skl.cpp:236-313 | where instructions can be cached, a decode gives an entry that fits, without a trap |
| SklRun.LoopIsQuiet | loader/skl.cpp:324-358 | runs of any length that meet `Execute`'s condition exist: a jump to itself |
| SklFlagStale.StaleFlag | loader/skl_stack.cpp:27-168 | when an exception flag left up changes the effect of an instruction, both ways, for every instruction |
| SklFlagExample.OldFlagExample | loader/skl.cpp:236-358 | a family of states from which the emulator is not in agreement after three instructions, by a quiet run through a trap |
| SklFlagExample.StumblingExists | loader/skl.cpp:236-358 | there is such a state |
| SklCpu.AddressCheck | loader/skl.h:321-327 | when the bounds check says yes, both ways |
| SklCpu.AddressWraps | loader/skl.h:321-327 | the access at FFFFFFFCH passes the check, outside of any memory |
| SklCpu.StoreLoad | loader/skl.h:362-448 | a stored word reads back, little end first |
| SklFlags.Relations | loader/generic/skl_flags_alu.h:13-61 | each of the ten relations, read by masking off the flags that the bit expressions synthesise, is the signed or unsigned comparison it is named for, overflow included |
| O3.FloorDivision | loader/o3.h:92-135 | the two functions, written with truncating operators, are floor division and its remainder, for all signs |
| O3.DivFits | loader/o3.h:92-109 | which operands DIV overflows for, both ways; for all others it is floor division |
| O3.ModFits | loader/o3.h:112-135 | the same for MOD |
| O3.ModOverflows | loader/o3.h:112-135 | -2^31 MOD 3 and 5 MOD -2^31 overflow |
| SklFrames.CallRestores | loader/skl_stack.cpp:71-168 | any tree of nested calls restores frame register and return address, pops its arguments, and leaves protected memory alone, if no body writes at a protected address or a saved frame word and every call starts with the stack pointer at or below the frame |
| SklFrames.StepKeeps | loader/skl_stack.cpp:27-168 | an instruction changes no byte outside the range it writes, and no register but its targets |
| SklFrames.AboveKept | loader/skl_stack.cpp:71-168 | if bodies write nothing at or above the entry stack pointer, all memory there is unchanged |
| SklFrames.NestIsTidy | loader/skl_stack.cpp:71-168 | with room on the stack, calls of any depth that meet the condition of these exist |
| Heap.Heap.constructor | loader/heap.cpp:521-586 | the whole heap is one free block |
| Heap.Heap.SystemNew | loader/heap.cpp:697-718 | a new system block after the others, aligned, with its tag |
| Heap.Heap.NewSimpleElemArray | loader/heap.cpp:815-865 | a new array block: address, tag, size, bound and descriptor at their places, older words unchanged; or NIL for no bytes, and nothing changes |
| Heap.Heap.NewRecordElemArray | loader/heap.cpp:868-918 | the same for arrays of records, with element count, count and position in the longer header |
| Heap.Heap.NewPointerElemArray | loader/heap.cpp:921-976 | the same for arrays of pointers, with element count and position |
| Heap.Heap.NewModule | loader/heap.cpp:765-790 | a module's block, its tag naming a descriptor instead of a size |
| Heap.Heap.Allocate | loader/heap.cpp:697-976 | exactly the words that an allocation of any kind writes: tag, header, and the free block's |
| Heap.Heap.FixupTd | loader/heap.cpp:737-762 | only the word before the data changes; every block keeps its place and size |
| Heap.Heap.Store | loader/heap.h:237-244 | writing to a block's own words never harms a tag |
| Heap.TagParts | loader/heap.cpp:302-349 | flags and size or address can be told apart in any tag |
| Heap.Heap.TagOf | loader/heap.cpp:302-349 | the walk's tests, in their order, tell the four kinds of block apart |
| Heap.Heap.Walk | loader/heap.cpp:297-355 | the walk visits exactly the blocks allocated, in order, and the free block, and lands on the heap's end, if each module block's descriptor records its size |
| Heap.Conservation | loader/heap.cpp:658-682 | the sizes of the blocks add up to what is not free |
| Loader.Fixup | loader/heap.cpp:737-762 | a fixup at an address renames exactly the block whose data begins there, and touches no block's data |
| Loader.FixupTypeDescriptors | loader/o3.cpp:646-717 | the pass over the module list renames the module blocks and touches no data; a block keeps its size for the walk exactly if the descriptor of modules records it |
| Relocation.SizeRecorded | loader/o3.cpp:1714-1723 | the last size fixup of a word leaves the allocator's size for the record in it |
| Bootstrap.LoadParts | loader/o3.cpp:1794-1911 | modules loaded one after the other, allocations, words read and fixups in any order: the whole image after it |
| Bootstrap.SizeSurvives | loader/o3.cpp:1714-1723 | if the last thing to happen to a word is a size fixup, the allocator's size is there after all modules, whatever is allocated after it |
| Bootstrap.Boot | loader/bootstrap.cpp:79-109 | the kernel, the pass over its blocks, all other modules, the arrays left to the end: the whole image; the walk then visits exactly the blocks that were allocated |
| MovedBoot.BootMoves | loader/bootstrap.cpp:79-109 | the same bootstrap in an empty heap d bytes further up is possible as well, and every word of the whole image, tags and headers included, differs by d times its weight: 1 at array tags and where a descriptor other than NIL is named, 0 at sizes and bounds, the weight of its fixups elsewhere |
| MovedBoot.MovedReady | loader/bootstrap.cpp:79-109 | it gives the walk the same blocks |
| MovedBoot.BootBoth | loader/bootstrap.cpp:79-109 | two heaps, booted, meet both |
| MovedBoot.ExampleBoots | loader/bootstrap.cpp:79-109 | there is a bootstrap that meets all that is asked for |
| Moving.AllocMoves | loader/heap.cpp:697-976 | one allocation in both heaps |
| Relocation.FixupSegment | loader/o3.cpp:1156-1204 | one word of the image changes, to the sum, difference or size the fixup asks for, and the heap stays valid |
| FixupLaws.Fixes | loader/o3.cpp:1094-1204 | which word changes, and by which address, per segment and from the layout of the arrays; absolute, relative and block-size fixups; local targets and imported ones, read from the exporter's table |
| FixupLaws.EntriesApart | loader/o3.h:25-36 | different entries of a table have different address words, in the table's order |
| Relocation.ReadFixups | loader/o3.cpp:1673-1729 | the image after a list of fixups; no tag is touched |
| Relocation.SegMoves | loader/o3.cpp:1094-1153 | in a heap moved by d, every segment address moves by d, modulo 2^32 |
| Relocation.Relocation | loader/o3.cpp:1156-1204 | in a heap moved by d, every word of the image differs by d times its weight, modulo 2^32 |
| Relocation.Counted | loader/o3.cpp:1156-1204 | that weight is the number of absolute fixups of the word; relative ones leave no trace |
| Relocation.AnyOrder | loader/o3.cpp:1673-1729 | additive fixups may come in any order |
| NumFiles.WriteNum | system/Files.Mod:471-473 | terminates, and puts the code of its number into the file, byte by byte through a rider |
| NumCodec.EncodeIsCode | system/Files.Mod:471-473 | the code of a number is well formed and has that number as its value |
| NumCodec.FiveBytes | system/Files.Mod:471-473 | 32-bit numbers take one to five bytes |
| NumCodec.PrefixFree | system/Files.Mod:471-473 | no code begins another |
| NumFiles.ReadNum | system/Files.Mod:368-380 | Oberon's reader, on a rider of a file: what the processor's shifts make of the next code, of any length, or of what is left of the file and 0X |
| NumFiles.WriteAndRead | system/Files.Mod:368-473 | a list of 32-bit numbers written through one rider, evictions and write-backs included, is read back by another; the file is otherwise unchanged |
| NumCodec.MachineReads | system/Files.Mod:368-380 | that is the value of the code, modulo 2^32, for codes of up to five bytes |
| NumCodec.LongCode | system/Files.Mod:368-380 | a code of seven bytes that is read as 8 although its value is 2^35, or 0 in 32 bits |
| NumCodec.LoaderReadNum | loader/o3.cpp:818-843 | the loader's reader, with a wider sum: the same for codes of up to five bytes; any code is passed over, whatever shifts by 32 and more give; fatal if the input ends inside one |
| NumCodec.DisasmReadNum | disasm/objio.cpp:79-106 | the disassembler's: the same, input that ends inside a code included, and its closing assert holds for codes of up to five bytes |
| NumCodec.RoundTrip | system/Files.Mod:471-473 | any list of 32-bit numbers is read back from its codes by whichever reader, and what follows is left over |
| Disasm.FallsThrough | loader/skl_jump.cpp:23-88 | for every encoding that the interpreter accepts: an instruction that does not trap or jump goes on, and a call returns, as many words later as its encoding takes |
| Disasm.RunsVisitPlaces | loader/skl_jump.cpp:23-88 | a straight run through a block finds its instructions at exactly the places of the sweep, up to the last word of the code |
| Disasm.Disassembler.DecodeRegMem | disasm/skl.cpp:222-343 | which operand words are fetched, and that the line is headed with the instruction's own address |
| Disasm.Disassembler.DecodeBranch | disasm/skl.cpp:613-665 | the same for jumps, and where an invalid one is listed |
| Disasm.Disassembler.Disassemble | disasm/skl.cpp:829-843 | the addresses listed for a block of encodings that the interpreter accepts are the places where it finds its instructions |
| Search.Editor.SetPattern | system/Edit.Mod:228-237 | the pattern, cut at 32 characters, and the right distance for every character |
| Search.NothingSkipped | system/Edit.Mod:234-245 | no shift passes over an occurrence |
| Search.Editor.Forward | system/Edit.Mod:209-215 | the window shows the characters before the reader, 0X past the end |
| Search.Editor.Find | system/Edit.Mod:238-247 | stops at the first occurrence from the start position on, or says there is none in the text; every shift lies in 1..M and the loop ends |
| Search.OccursInside | system/Edit.Mod:238-247 | without a 0X in the pattern an occurrence found lies inside the text |
| Curves.Line | system/Curves.Mod:19-36 | in both branches one dot for each column or row, moved across by the number `Moves` gives for it, up from the near end or down from the far end |
| Curves.MovesSteps | system/Curves.Mod:19-36 | that number grows by at most one each step and never falls: the dots hang together |
| Curves.MovesAreNear | system/Curves.Mod:19-36 | that is the one number of moves within half a step of the ideal line (and the rounding of one half), both ways |
| Curves.LineEnds | system/Curves.Mod:19-36 | no move at the start, all of the shorter side at the end |
| Curves.NearLineMeans | system/Curves.Mod:19-36 | so every dot is less than a pixel off |
| Curves.Circle | system/Curves.Mod:38-53 | the points of an octant as far as the diagonal, one a row, x the nearest integer to the circle's abscissa, drawn in all eight octants: exactly the dots (x, y) from the centre for which, of their magnitudes, the larger is the nearest integer to the circle in the row of the smaller |
| Curves.OctantIsOne | system/Curves.Mod:38-53 | there is only one such list of points |
| Curves.CircleStep | system/Curves.Mod:49-50 | the decision variable is (y+1)^2 + x^2 - x - r^2 after either branch, and either branch keeps x the nearest |
| Curves.TopArc | system/Curves.Mod:57-68 | h and g are the ellipse's form at the next half-pixel points, rounded down; every dot is within half a pixel vertically; the loop ends |
| Curves.ArcStep | system/Curves.Mod:64-67 | both updates keep the two decision variables equal to their closed forms |
| Curves.SideArc | system/Curves.Mod:69-77 | the second loop's decision variable is the form at its own half-pixel point; no dot is more than half a pixel inside |
| Curves.Ellipse | system/Curves.Mod:55-78 | the two arcs together, exactly at all their mirrorings at the two axes |
| Curves.SideNears | system/Curves.Mod:70-77 | the dots of the second loop are all next to the ellipse exactly when the ellipse moves in by at most a column a row; no dot is mentioned in that condition |
| Curves.SideStays | system/Curves.Mod:70-77 | once it has left the ellipse the second loop never comes back |
| Curves.SideNearIff | system/Curves.Mod:70-77 | one step of it, both ways |
| Curves.NearUnique | system/Curves.Mod:70-77 | there is one column next to the ellipse in a row |
| Curves.SideLeaves | system/Curves.Mod:70-77 | a flat ellipse that it leaves |
| RandomNumbers.Generator.Uniform | system/RandomNumbers.Mod:8-25 | from 1 to 2^31 - 2 the state becomes 16807 times itself modulo 2^31 - 1 and stays in that range; 0 and 2^31 - 1 give 1.0; for any state, when 32 bits suffice |
| RandomNumbers.Congruent | system/RandomNumbers.Mod:18-23 | the next state is congruent to 16807 times the last exactly when the difference of the products fits, negative seeds included |
| RandomNumbers.NeverZero | system/RandomNumbers.Mod:18-23 | the difference of the two products is not 0 for any state |
| RandomNumbers.Runs | system/RandomNumbers.Mod:8-25 | after any number of calls the state is in range, and is the seed times a power of 16807 |
| RandomNumbers.Reversible | system/RandomNumbers.Mod:8-25 | no two states have the same successor |
| Tasks.Scheduler.Install | system/Oberon.Mod:356-361 | an absent task comes just before NextTask, a present one changes nothing; the ring stays one duplicate-free ring |
| Tasks.Scheduler.Remove | system/Oberon.Mod:363-370 | exactly that task goes, and NextTask is repaired, unless it is the only one |
| Tasks.Scheduler.LoopProcess | system/Oberon.Mod:430-473 | which task goes, which has its turn, and the ring, `CurTask` and the times after whatever its handler installs, removes and sets, whether it returns or traps |
| Tasks.Scheduler.Idle | system/Oberon.Mod:430-473 | idle passes on end, with handlers that install and remove tasks, set times and trap, are `Passes` |
| Tasks.Fair | system/Oberon.Mod:430-473 | a task with k others before it has its turn within k+1 passes, whatever handlers install or remove and wherever they trap, unless it is removed |
| Tasks.Round | system/Oberon.Mod:430-473 | in as many idle passes as there are tasks, with handlers that leave the ring alone, each has one turn, in ring order, and those left are the ones that were safe, or due and did not trap |
| Tasks.Scheduler.WholeRound | system/Oberon.Mod:430-473 | the main loop, run for as many passes as there are tasks, meets that, whatever the pass before left in `CurTask` |
| Tasks.LostExample | system/Oberon.Mod:430-473 | an unsafe task, not due at its turn and not trapped, is gone after a round |
| Graphics.Graph.Add | system/Graphics.Mod:92-95 | a new first object, selected |
| Graphics.Copy | system/Graphics.Mod:202-213 | moved copies of exactly the selection come in front of the destination, which may be the source itself; the originals lose the selection; the i-th selected object's copy stands i-th from the end of them, at x + dx and y + dy in 16 bits; terminates |
| Graphics.Delete | system/Graphics.Mod:215-227 | exactly the objects not selected stay, in order, by their places |
| Graphics.MakeMac | system/Graphics.Mod:438-450 | a macro of copies of exactly the selection, in reverse, at x and y less than theirs; the graph is unchanged |
| Graphics.OpenMac | system/Graphics.Mod:422-430 | copies of a macro's objects come in front in reverse, selected, at x and y more than theirs |
| Graphics.OutAndBack | system/Graphics.Mod:422-450 | the two reversals and the two moves cancel, 16-bit wrap-around included |
| Graphics.ThroughMacro | system/Graphics.Mod:422-450 | MakeMac and then OpenMac at the same place put copies of the selection in front, where they were and in their order |

## Left out

- Host services (`FileDir` beyond seek, read and write of a flat store, `skl_vmsvc_*`, `mmap`, `setjmp`): I/O plumbing. Store operations do not fail.
- File names, the table of open handles, dates, `Delete`, `Rename`, `Purge`, `ReadBytes`, the `res` field, and the typed readers and writers other than `ReadNum` and `WriteNum`. `WriteString` omits the terminator (system/Files.Mod:465), so strings have no round trip to state.
- Files.File.WriteBytes: requires that the array is long enough (the source halts).
- LONGINT and INTEGER overflow of file lengths and page offsets, and of the products in `line`, `circle` and `ellipse`: these are unbounded integers here. `Graphics` wraps at 16 bits, `RandomNumbers` and the processor at 32.
- What the instructions on F registers, single bits, control and system registers, integer logic and the VM service do to their data: they are `Beyond`, of which the number of words, the first accesses to memory with their traps, what the flag does to them and the next pc are modelled; the machine stops with status `Outside` when the data would matter. Flags of doubles. The `REAL` result of `Uniform` is an exact quotient here.
- Interrupts, tracing, and the filling of stack space that development builds do in ENTER.
- SklMachine.Machine.Execute: the emulator's endless loop is run for any number `n` of instructions. `Quiet` asks that no instruction overwrites one already fetched (the emulator has no way to notice), and that pcs be where the emulator's asserts let it cache instructions (loader/skl_instruction.h:49-50: word-aligned, and, as the table has one entry a word but is indexed by byte offset from the host's allocation, in the first quarter of the heap; or 0); after a word that is no instruction the next pc must not have been seen, since the emulator then decodes without looking.
- SklCpu.Exec: DIV and MOD of the operands that `O3.DivFits` and `O3.ModFits` exclude, and ABS of the least integer, which C++ leaves undefined, give here what wrapping gives.
- SklLaws.EnterEffect: the frame register is one below R30, and no word of the frame is out of reach; the traps of ENTER and LEAVE are those of `SklCpu.Write` and `SklCpu.Read`. The same holds for `SklLaws.EnterAndLeave`, `SklLaws.PushAndPop` and `SklLaws.StackEffect`.
- SklFrames.CallRestores: bodies are given as the instructions they run, jumps inside them already followed, and nested procedures use the same frame register.
- Heap exhaustion: the allocator does not check for room, so a block that fits is required. The heap's words are those at aligned offsets; stores and fixups elsewhere are not modelled. How modules are found in the list, and which descriptor belongs to which array, come as a list.
- Bootstrap.Boot: the parts are given, with the addresses that the loader computes; the initialisation of modules is left out.
- MovedBoot.BootMoves: the arrays that a fixup mentions are present, and descriptors named are NIL or in the heap.
- Relocation.ReadFixups: fixups come decoded, and the word to change lies in some block's data; reading them from the object file is `NumCodec`'s part. Helper fixups are further absolute ones.
- NumFiles.WriteNum: the rider is not at a stale page (`Files.File.Stale`), where the length would be wrong.
- NumFiles.ReadNum: input that ends inside a code just at the end of a page, where `Read` goes past the end.
- NumCodec.LoaderReadNum: shifts by 32 and more, undefined in C++, are an arbitrary function. The same holds for `NumCodec.DisasmReadNum`.
- Disasm.Disassembler.Disassemble: what the decoders print, and what they assert of invalid encodings. Unless the interpreter accepts all of the block, two more words must follow it, since the sweep may go that far.
- Search.Editor.Find: the pattern is not empty (`Show` does not check that), and the reader gives 0X past the end of the text.
- Curves.Line: for w, h >= 0; clipping, colours, printing and line widths are left out.
- RandomNumbers.Generator.Uniform: `Exp` is left out.
- Tasks.Scheduler.LoopProcess: input, viewers and messages are left out; a trap is a pass that leaves `CurTask` set.
- Graphics.Copy: what an object's own method copies is one value; captions' text, time stamps, drawing, storing and loading are left out.
- `read_privates`, the fingerprint checks of `uses`, imports, options, scripts and makefiles: no deep property.
