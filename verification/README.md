# Verified models of the recompiler's tools

The repository turns PlayStation 3 executables into C. A handful of its tools carry
algorithms the rest relies on without checking: an analysis that decides which registers
a native block may leave stale, a lock-free counter table and the log it writes, readers
for two bytecodes of debug information, two finders of function boundaries, two linkers
that must produce the same image, a hand-written AES behind a seekable decryption, and an
instruction decoder. Each is modelled here in Dafny with the branches, constants and error
exits of its source, and the properties the rest relies on are proved for every input.

Code that changes things step by step is a method or a class here, proved against a
function or a predicate that says what it computes; the theorems are about those.
`dafny verify dfyconfig.toml` checks everything.

**Register liveness** (`SpuFlow`, `SpuLiveness`, `SpuSoundness`, `SpuWitness`,
`SpuPrecision`). The
analysis is a round-robin iteration that rewrites its list of live sets in place. It always
ends in the least solution of the transfer equations. That solution is exactly the set of
registers some path reads, where paths are defined without live sets. It is sound for an
arbitrary machine with a call stack: two runs that differ only in registers outside the
live set make the same steps for ever. And it is not too large where a run can show it: the
successor lists are exactly the places control can go, every step of a path is one some
machine takes or passes over a call that comes back, and a register that a path reads,
through the callees it enters, is told apart by a machine that obeys the same rules. The
search for a witness path ends and is exact for
r1 to r127; for r0 it is exact if and only if no call goes to a callee with r0 live at its
entry, because a call's transfer equation knows that the link overwrites r0 and the search
does not.

**The milestone table** (`Milestone`, `MilestoneProof`, `MilestoneRuns`,
`MilestoneLongKeys`, `Text`, `MilestoneLog`, `MilestoneJournal`, `MilestoneKv`,
`MilestoneReadBack`, `MilestoneCounts`, `MilestoneGate`). Any number of threads advance by atomic steps over one open-addressed
table, one lock and one log. In every interleaving published keys and ordinals are
distinct, nothing empty stands on the way to a published key, no call is lost or counted
twice, a key goes without a slot only if the table was full when its first call was turned
away, and the log can be cut after any line and still reads back as the run's first keys
in order, with the last value given for each key. No call that gives a value is lost or
made up. The counts read from a closed log are bounded by the calls counted before and
after its last block, so a drop the gate reports is one. Keys of more than 95 bytes are outside these theorems: they are cut when stored
and never match again, and a key can end up in two slots if and only if it is that long.

**Debug information** (`Bytes`, `Leb128`, `DwarfInfo`, `DwarfPrinter`, `DwarfAbi`,
`DwarfLine`, `DwarfLineProgram`, `DwarfLineTable`). The readers' loops equal recursive
readings of the same bytes, and those invert printers written from DWARF version 2
(sections 6.2, 7.5 and 7.6): abbreviations, every attribute form, whole forests of entries
over several units, and line programs planned from any rows, each row shown with the path
its directory and file make. On top of them the depth
table that reattaches members is shown to give each function its own direct parameters.
For structs the source's promise of the richest definition does not always hold: one
record collects the members of every definition of the name reached before a member was
read, and it is the richest definition if and only if at most one of those has members and
the last has its size; no definition inside another of its name is enough. One comment in the source does not hold: in the lookup of an address a
real row does *not* win over an end marker at the same address, it wins exactly when there
is no such marker (tools/dwarf_line.py:132-133 against 143-147).

**PPU function boundaries** (`PpuCode`, `FunctionExtents`, `FunctionFinder`,
`FinderPasses`). The passes share one dictionary that they add to, delete from and trim.
The extent worklist ends, for any instruction list, and its result is the furthest
instruction reachable by fall-through and in-range branches. The whole run is the chain of
its passes; after it functions are nonempty and disjoint, every decoded seed is a start,
every function there at the extent pass ends where that pass left it, however many starts
are promoted later, and with increasing addresses a call from code covered after that pass
to a decoded address leads into some function. Seeding and pruning come before the extent
pass and may uncover what the scans had covered.

**SPU function ranges** (`SpuRanges`). The forward walk that ends a function and the merge
of overlapping ranges.

**Linking** (`PrxLink`, `PrxRebase`). One linker decodes relocation entries, the other
picks bytes; they agree byte for byte. With patch sites that do not overlap the order of
the table does not matter, moving the base moves exactly the addresses, and a high and a
low half patched for one address reconstruct it. The agreement is exact, entry by entry: an
entry is treated alike at every base and on every image if and only if its segment indices
exist, the symbol is not 0xFF, its type is 1, 4 or 6, and its site lies in the
image. Outside that the first linker skips what the second refuses or writes (other
indices, types 5, 44 and unknown ones, the absolute index 0xFF), and refuses sites outside
the image where the second grows it.

**Seekable decryption** (`AesField`, `AesSbox`, `AesMix`, `Aes`, `AesStandard`,
`AesCipher`, `AesVector`, `PkgStream`). Each step of the cipher and of its key expansion is
the one of FIPS 197, stated by rows and columns, and the example of its appendix C.1 comes
out. The powers of 3 visit all 255 nonzero bytes before they return to 1, so the
generator walk fills a table that is a permutation; mixing columns four times is the
identity; so encryption is a permutation for every key schedule, keystream blocks never
repeat within 2^128, and any range decrypts to that slice of the whole.

**The SPU decoder** (`SpuDecode`, `SpuEncode`, `SpuWords`). The operands of every format
are the stated bit ranges of the word. No opcode of one width begins another, so
the order of the decoder's checks does not matter. Assembling any instructions and
disassembling them gives them back, with their wrapped targets, and every disassembled
word assembles again to one that decodes the same.

## Model

| member | source | states |
|---|---|---|
| SpuLiveness.Liveness.constructor | tools/spu_lift_live.py:148-162 | The in-place iteration ends, after at most 128 rounds per statement and one, in a solution of the transfer equations that lies below every set assignment closed under them. |
| SpuLiveness.Liveness.TransferOf | tools/spu_lift_live.py:178-195 | The accumulation over successors computes the transfer equation, unlabelled targets making everything live. |
| SpuLiveness.UpdateKeepsAscending | tools/spu_lift_live.py:158-162 | Replacing one set by its transfer while the others have already changed keeps every set below its transfer and below every closed assignment, and grows the total strictly if it changes anything. |
| SpuFlow.TransferMonotone | tools/spu_lift_live.py:178-195 | More live registers at the successors never make fewer live here. |
| SpuSoundness.RunsStayIndistinguishable | tools/spu_lift_live.py:147-195 | Two runs of any machine that agree on the live registers of the statement they are at, and of the continuations of the calls they are in, agree so after any number of steps and are at the same statement, call depth and world. |
| SpuSoundness.StaleRegistersAreNeverRead | tools/spu_lift_live.py:4-8 | From statement i, registers outside live[i] may hold anything: every later statement, call site, output, returned value and exit is the same. |
| SpuWitness.LiveIffSomePathReads | tools/spu_lift_live.py:21-28 | A register is live exactly when control can reach a statement that reads it, through calls into their callees, with nothing overwriting it on the way. |
| SpuLiveness.Liveness.PathToRead | tools/spu_lift_live.py:212-237 | The search ends with a path from i along successor edges, no statement before its last writing or killing r, or with none if there is no such path; for r1 to r127 it finds one exactly when r is live. |
| SpuWitness.WitnessIffLive | tools/spu_lift_live.py:225-236 | For r1 to r127 a witness path exists if and only if the register is live. |
| SpuWitness.LinkWitnessExactIff | tools/spu_lift_live.py:226-230 | For r0 the search agrees with the live sets at every statement if and only if no call goes to a callee that has r0 live at its entry. |
| SpuWitness.LinkWitnessCounterexample | tools/spu_lift_live.py:191-192 | Three statements on which the search reports r0 although it is not live. |
| SpuPrecision.SuccessorsAreWhereControlGoes | tools/spu_lift_live.py:168-176 | A statement's successors are exactly the labels of its targets, for the kinds that jump, and the next statement of its region, for the kinds that fall through; these are exactly the places some choice takes control to, and there are none after a halt, a return or an unknown jump. |
| SpuPrecision.CallComesBack | tools/spu_lift_live.py:17-20 | A return to a call comes back exactly along the call's edge, with the registers the ABI keeps as they were. |
| SpuPrecision.PathsAreRuns | tools/spu_lift_live.py:21-28 | Every edge of a read path is a step some choice makes, or passes over a call; it ends where a run that starts there would notice the register. |
| SpuPrecision.ReadOnAPathIsNoticed | tools/spu_lift_live.py:4-8 | For a path that enters the callees it meets and ends where the register counts, some choices make a machine that obeys the analysis's rules tell any two values of the register apart. |
| SpuPrecision.CalleesKeep | tools/spu_lift_live.py:17-19 | The registers a call does not kill are r1 and r80 to r127. |
| Milestone.ByOrd | runtime/milestone.c:243-250 | The slot found for an ordinal is a published slot that has it whenever one exists, and slot 0 otherwise. |
| MilestoneRuns.StepKeepsInv | runtime/milestone.c:125-186 | Every atomic step of every thread keeps the whole invariant of table, lock, threads and counts. |
| MilestoneRuns.TableShape | runtime/milestone.c:125-155 | In every reachable state published keys and ordinals are distinct, no slot on the way to a published key is empty, and with the lock free the published ordinals are exactly 1 to the last given out. |
| MilestoneRuns.PublishedForGood | runtime/milestone.c:173-181 | A published slot keeps its key and ordinal through any further run; only its count changes. |
| MilestoneRuns.BegunReturnedOrServed | runtime/milestone.c:165-186 | In every run the calls begun on a key are those returned plus those in progress. |
| MilestoneRuns.EveryCallCountedOnce | runtime/milestone.c:125-186 | With no call in progress a key's count is the number of calls made on it modulo 2^32; at every earlier point of the run a call being turned away finds the table full and its key absent, and if the key still has no slot at the end the table was full as soon as its first call had returned. |
| MilestoneRuns.FullStaysFull | runtime/milestone.c:157-162 | Once the table is full it stays full and no key gains a slot. |
| MilestoneProof.HashVector | runtime/milestone.c:87-92 | The hash of "a" is the published FNV-1a value. |
| MilestoneLongKeys.DuplicatedIffTooLong | runtime/milestone.c:133 | Calls on one key can leave it in two slots if and only if the key is longer than 95 bytes. |
| Text.ParsePrinted | tools/regress.py:169-172 | A printed number of either sign is parsed back. |
| MilestoneLog.ParseLog | tools/regress.py:155-175 | The reader's loop equals reading the lines one by one, later counts and values overwriting earlier ones. |
| MilestoneLog.NothingFromNoNumber | tools/regress.py:160-175 | A line without its number gives no key, and a value line without its value or with only a sign gives no value. |
| MilestoneLog.ReaderInvertsWriter | tools/regress.py:160-175 | The text of any printable lines reads back as their stream keys in order, the last bucket of each counted key and the last value of each key set. |
| MilestoneJournal.RunLog | runtime/milestone.c:133-141 | In every run the stream lines are the claimed slots in ordinal order from 1, all of them but one that is still being written. |
| MilestoneKv.KvConserved | runtime/milestone.c:199-212 | In every run the value calls begun with a key and a value are those recorded, those that found the log closed and those still on their way. |
| MilestoneKv.KvLinesAreRecorded | runtime/milestone.c:209-211 | The value lines of the log are the calls recorded, key and value, in the order of their turns to write. |
| MilestoneReadBack.LogSurvivesAKill | runtime/milestone.c:136-141 | Any prefix of whole lines of the log of any run reads back as the first keys in ordinal order, the last bucket per key and, per key, the last value of the value calls recorded so far; nothing is missing from a whole open log, neither a key nor, with no value call in progress, a value call. |
| MilestoneReadBack.CountStepWritesItsSlot | runtime/milestone.c:249-252 | During a counts block each ordinal so far gets one line: its own slot's key and the bucket of its hits at that moment. |
| MilestoneReadBack.CountsWereTrue | runtime/milestone.c:234-255 | Every count line of every run gives a bucket its key really had at some moment of that run. |
| MilestoneReadBack.DroppedMeansFewer | tools/regress.py:398-399 | A lower place in the gate's bucket list means fewer hits, and every bucket written has a place. |
| MilestoneGate.CountWrittenAt | runtime/milestone.c:249-252 | Every count line of every run was written by a step at which its bucket was that of the calls counted on its key so far. |
| MilestoneGate.CountsNeverDrop | runtime/milestone.c:234-255 | In a run with fewer than 2^32 calls on a key its count lines never go down in the gate's bucket order. |
| MilestoneGate.ClosedLogCounts | runtime/milestone.c:276-289 | What is read for a key in a closed log lies between the bucket of the calls counted when the closing block began and that of those counted at the end; with no call on the key then in progress or begun since, it is the bucket of all calls made. |
| MilestoneGate.DropIsReal | tools/regress.py:430-436 | A key found lower in a closed log than in a golden one, cut anywhere, really had fewer calls counted by the time the log began to close than in the whole golden run. |
| MilestoneCounts.IndexByOrdinal | runtime/milestone.c:243-246 | The one pass leaves at each ordinal the index of the last published slot that has it. |
| MilestoneCounts.WriteCounts | runtime/milestone.c:234-255 | On a settled table the indexed pass writes the lines of the ordinal-outer double loop it replaced. |
| MilestoneCounts.CountsAreWrittenSettled | runtime/milestone.c:233-255 | Whenever a thread writes a counts block in a reachable table, the table is settled. |
| Leb128.UlebRoundTrip | tools/dwarf_common.py:43-49 | Every natural number printed by section 7.6 is read back, with the offset after it. |
| Leb128.SlebRoundTrip | tools/dwarf_common.py:52-60 | Every integer printed by section 7.6 is read back. |
| Leb128.Uleb | tools/dwarf_common.py:43-49 | The shifting loop computes the base-128 reading, and fails exactly when the data ends first. |
| Leb128.Sleb | tools/dwarf_common.py:52-60 | The loop with its final sign bit computes the signed reading. |
| Leb128.FindsTerminator | tools/dwarf_common.py:63-65 | A string without zeros followed by a zero is found whole. |
| DwarfInfo.ParseAbbrev | tools/dwarf_common.py:76-94 | The cursor loop reads the table that the recursive reading of the section gives. |
| DwarfInfo.Dies | tools/dwarf_common.py:149-181 | The generator's loops yield the entries of the recursive walk in order, and stop where it does. |
| DwarfPrinter.TableRoundTrip | tools/dwarf_common.py:76-94 | A printed abbreviation table is read back whatever follows it, a repeated code keeping its last entry. |
| DwarfPrinter.OperandRoundTrip | tools/dwarf_common.py:96-147 | A value printed in any of the reader's forms is read back with the offset after it, references made absolute. |
| DwarfPrinter.ForestRoundTrip | tools/dwarf_common.py:165-180 | Walking printed sibling entries yields their preorder with their depths and comes back to the depth it started at. |
| DwarfPrinter.InfoRoundTrip | tools/dwarf_common.py:156-181 | Units printed one after another are walked as the preorder of their entries, each with its own table and base. |
| DwarfPrinter.SectionsRoundTrip | tools/dwarf_common.py:149-181 | For any list of units the printed sections are read as exactly the preorder of all entries, at their true offsets and depths. |
| DwarfAbi.Extract | tools/dwarf_abi.py:47-109 | The loop over the entries leaves the structs and functions of the step by step reading, or fails when a member's location is cut short. |
| DwarfAbi.StructsAreMerged | tools/dwarf_abi.py:72-100 | Over any flattened forest a struct's record has the size of the last definition of its name reached before a member of one is read, and the direct members of all those reached before, inner ones first. |
| DwarfAbi.StructsAreRichestIff | tools/dwarf_abi.py:75-86 | The record is the richest definition, the first with members or the last one if none has any, if and only if at most one of the definitions reached before a member is read has members and the last of them has its size. |
| DwarfAbi.StructsAreRichest | tools/dwarf_abi.py:75-86 | That is so whenever no definition of the name stands inside another. |
| DwarfAbi.DistinctStructIsExact | tools/dwarf_abi.py:58-100 | A name defined once gets its own size and exactly its direct members in order, none of a nested or later entry. |
| DwarfAbi.NestedNamesMerge | tools/dwarf_abi.py:77-86 | A definition nested in one of its own name lends it its members: the record has two where each definition has one. |
| DwarfAbi.OffsetIsLocation | tools/dwarf_abi.py:36-44 | A member's offset is the number its location is, or the constant its expression begins by adding, whatever follows; any other location gives none. |
| DwarfAbi.DistinctStructIsItsEntry | tools/dwarf_abi.py:58-100 | A struct defined by one entry has that entry's size and one member for each of its member children, in order, with the child's name and type and the offset its location gives. |
| DwarfAbi.FuncIsItsEntry | tools/dwarf_abi.py:88-104 | A function has the type of its first declaring entry and the types of that entry's parameter children, in order. |
| DwarfAbi.FuncsAreFirst | tools/dwarf_abi.py:88-104 | Every function has the return type and exactly the direct parameters, in order, of the first declaration of its name, for any forest. |
| DwarfAbi.PrintedAbiIsExact | tools/dwarf_abi.py:47-109 | From the printed sections of any units back to the functions and struct records their trees say, with the exact condition for the richest definition; a struct defined once has its members at the offsets printed. |
| DwarfLine.ParseUnit | tools/dwarf_line.py:26-106 | Header and program loops give the rows of the recursive reading, and keep those yielded before a fault. |
| DwarfLineProgram.OpRoundTrip | tools/dwarf_line.py:71-106 | Every opcode of section 6.2.5, special, standard, unknown and extended, is fetched as what it does to the registers and rows. |
| DwarfLineProgram.ProgramRoundTrip | tools/dwarf_line.py:68-106 | Decoding an assembled program runs it. |
| DwarfLineProgram.SpecialReaches | tools/dwarf_line.py:73-77 | When the planner picks a special opcode it makes exactly the step in address and line that was wanted. |
| DwarfLineProgram.PlanIsExact | tools/dwarf_line.py:68-106 | For every line base, line range above 0, opcode base from 10 and minimum instruction length above 0, the planned program yields exactly the rows asked for and one end marker per sequence. |
| DwarfLineProgram.HeaderRoundTrip | tools/dwarf_line.py:32-59 | A printed unit header is read back with its tables, and its lengths give the program's two ends. |
| DwarfLineProgram.PathsAreShown | tools/dwarf_line.py:61-66 | The path of a file index is the name behind its directory and a slash, the name alone if it has no directory, is absolute or has a colon, or a made-up name whose digits are the index. |
| DwarfLineProgram.ConstantIsSpecial255 | tools/dwarf_line.py:97-98 | Adding the constant advances the address as special opcode 255 does. |
| DwarfLineProgram.UnitRoundTrip | tools/dwarf_line.py:26-106 | A printed unit holding the plan of any sequences is read as exactly their rows, each with the address and line wanted and the path of its file, and one end marker per sequence, whatever surrounds it. |
| DwarfLineTable.BisectRight | tools/dwarf_line.py:143-144 | The bisection splits the rows at the address, equal ones to the left. |
| DwarfLineTable.Resolve | tools/dwarf_line.py:137-147 | The answer is the last real row at the greatest address not above the one asked for, and none if an end marker has that address. |
| DwarfLineTable.RealRowWinsIff | tools/dwarf_line.py:132-134 | A real row at the address asked for is returned if and only if no end marker has that address. |
| DwarfLineTable.AdjoiningSequencesLoseARow | tools/dwarf_line.py:143-147 | One sequence starting where another ends is enough to lose the row at that address. |
| PpuCode.BuildIndex | tools/find_functions.py:148-151 | The loop gives each address the index of its last instruction. |
| FunctionExtents.WalkBlock | tools/find_functions.py:563-576 | One block is walked to its end, its furthest instruction noted and its in-range targets pushed, nothing else. |
| FunctionExtents.FurthestReached | tools/find_functions.py:552-576 | The worklist ends, and its result is one past the furthest instruction reachable from the start by fall-through and branches inside the range, or the old end. |
| FunctionExtents.WorkDone | tools/find_functions.py:555-576 | When the worklist is empty the walked instructions are exactly the reachable ones. |
| FunctionExtents.EdgesByKind | tools/find_functions.py:563-576 | The steps the reachability is made of, by kinds of instruction. |
| FunctionFinder.SeedEndIs | tools/find_functions.py:596-612 | A seed ends behind its first return among 2000 instructions, before the next start; else at the next start, or behind its own instruction if there is none. |
| FunctionFinder.BlockEndIs | tools/find_functions.py:396-414 | A straight run ends at the first start behind its beginning or behind the first instruction that transfers control for good, else at the end of the code. |
| FunctionFinder.BranchEndIs | tools/find_functions.py:469-488 | A promoted branch target ends behind the first return or at the first other start among 500 instructions, and has no end otherwise. |
| FunctionFinder.TargetsByKind | tools/find_functions.py:381-389 | Which calls and branches give targets, by kinds of instruction. |
| FunctionFinder.LooksByKind | tools/find_functions.py:457-463 | What a promoted branch target must be: a target of some call, a seed, or code that makes a frame or saves the link register within three instructions. |
| FunctionFinder.Covers | tools/find_functions.py:319-329 | The bisection answers whether the function that starts last before an address reaches past it. |
| FunctionFinder.PromotionKeepsCover | tools/find_functions.py:383-394 | Adding starts only at uncovered addresses uncovers nothing. |
| FunctionFinder.ClippedIsDisjoint | tools/find_functions.py:646-663 | Whatever ranges it is given, the clipping leaves nonempty ranges, each ending at or before the next start. |
| FunctionFinder.CoveredIffContained | tools/find_functions.py:325-327 | In disjoint ranges the coverage test is containment. |
| FinderPasses.Finder.ApplySeeds | tools/find_functions.py:583-614 | Exactly the decoded seeds that are not starts yet are added, each ending at its first return bounded by the next start, and the others keep their ends. |
| FinderPasses.Finder.DropPrologueSlivers | tools/find_functions.py:616-644 | Exactly the starts that are neither seeds nor call targets and lie within 32 bytes of the last seed with no way out between are gone. |
| FinderPasses.Finder.ExtendExtents | tools/find_functions.py:528-581 | Every decoded function ends at the furthest instruction it reaches, never below its old end and never grown past the next start; the starts stay. |
| FinderPasses.Finder.FindCallTargetFunctions | tools/find_functions.py:357-394 | Only uncovered targets of covered calls are added; with increasing addresses every decoded one is, up to the end of its straight run. |
| FinderPasses.Finder.FindBranchTargetFunctions | tools/find_functions.py:416-488 | Only uncovered targets of covered branches that look like functions are added; with increasing addresses exactly those with an end inside the window. |
| FinderPasses.Finder.ClipOverlaps | tools/find_functions.py:646-663 | Each end is trimmed to the next start, and an empty range gets up to four bytes. |
| FinderPasses.Finder.Run | tools/find_functions.py:665-713 | From any ranges the scans leave, each pass does its work on what the one before left. In the end functions are nonempty and disjoint, decoded seeds are starts and only slivers lose theirs; a decoded function there at the extent pass ends one past the furthest instruction it reaches within its bound (the last one at its old end if that is further); what was covered before that pass stays covered; and with increasing addresses every call from code covered after it to a decoded address leads into a function. |
| FinderPasses.PromotionsCutNothing | tools/find_functions.py:386-394 | Starts promoted after the extent pass cut no function short: it is trimmed only to the next of the functions there at that pass. |
| FinderPasses.CallOne | tools/find_functions.py:391-394 | With increasing addresses a target's end does not depend on the smaller targets added before it. |
| SpuRanges.FindEnd | tools/find_spu_functions.py:569-591 | The walk passes decoded instructions that do not end the function, and stops behind the first that does, or at the least start above or the end of the segment once it is there or off the decoded instructions. |
| SpuRanges.RangesAreEnds | tools/find_spu_functions.py:660-667 | The ranges before the merge are the starts with their ends, sized or walked, where the end is past the start. |
| SpuRanges.MergeRanges | tools/find_spu_functions.py:672-680 | The merge leaves sorted disjoint ranges that cover the same addresses, begin where some range did, split none, and are unchanged if nothing overlapped. |
| SpuRanges.DetectFunctions | tools/find_spu_functions.py:657-680 | The ranges of the sorted seeds, sized by symbol or by walk, merged. |
| SpuRanges.AlignedDetection | tools/find_spu_functions.py:660-680 | With aligned seeds and no sized symbols the result is disjoint, inside the segment, and starts at exactly the seeds. |
| SpuRanges.SeedsAreAligned | tools/find_spu_functions.py:619-655 | Seeds gathered from an aligned entry, symbols and branch targets are in range and aligned, hints being checked one by one. |
| SpuRanges.SeedsAre | tools/find_spu_functions.py:617-655 | The seeds are exactly the entry, symbols and branch targets in the segment and the hints in it that are aligned and decoded, or the segment's start if there are none. |
| PrxLink.Relocate | tools/prx_relocate.py:36-81 | The first linker's loops give its step by step image, or fail on a site outside it. |
| PrxLink.BuildImage | tools/lift_prx.py:77-114 | The second linker's loops give its step by step image, or fail on an index or type it does not know. |
| PrxLink.ParseRelocations | tools/elf_parser.py:830-843 | The cursor loop reads the whole entries of the table in order. |
| PrxLink.EntryBytes | tools/elf_parser.py:437-442 | The decoded segment indices, type and addend are the bytes the other linker picks, the addend up to 2^32. |
| PrxLink.OtherTypes | tools/lift_prx.py:99-107 | For types 5 and 44 the second linker writes the high half and all eight bytes of the value. |
| PrxLink.HighAdjusted | tools/prx_relocate.py:31-33 | Adding 0x8000 to the unmasked value before the shift gives ha16 of the masked one. |
| PrxLink.LinkersAgree | tools/lift_prx.py:77-114 | For every module in range whose entries name existing segments and types 1, 4 or 6, both linkers succeed or fail alike with the same image. |
| PrxLink.EntriesAgreeIff | tools/prx_relocate.py:63-81 | A whole entry leaves both linkers with the same image, at every base and on every image of the module's size, if and only if its indices name segments, its symbol not as 0xFF, its type is 1, 4 or 6 and its site is in the image. |
| PrxLink.SegmentsAgreeIff | tools/lift_prx.py:82-84 | A segment is placed alike if and only if the file holds all of it or the image ends with what the file holds. |
| PrxLink.SegmentsArePlaced | tools/lift_prx.py:82-84 | Segments that do not overlap are placed whole, each byte at its address, and every other byte stays as it was. |
| PrxLink.AbsoluteEntriesDiffer | tools/lift_prx.py:97 | On a symbol segment of 0xFF one linker writes the addend and the other nothing, for every base. |
| PrxRebase.LinkedHolds | tools/prx_relocate.py:63-81 | With separate sites in range the linked image holds each entry's bytes at its site and the old bytes everywhere else. |
| PrxRebase.OrderDoesNotMatter | tools/prx_relocate.py:63-81 | Every permutation of the entries links to the same image. |
| PrxRebase.RebasingMovesAddresses | tools/prx_relocate.py:63-81 | Moving the base by whole 64 KiB steps adds them to each word modulo 2^32 and to each high half modulo 2^16 and changes nothing else. |
| PrxRebase.PairReconstructs | tools/prx_relocate.py:16-20 | The high half shifted up plus the sign-extended low half, as read from the image, is the linked value. |
| AesField.WalkKeepsProduct | tools/pkg_extract.py:34-36 | One step of the walk keeps the product of its two numbers in GF(2^8). |
| AesSbox.NotYetOne | tools/pkg_extract.py:33-39 | No power of 3 before the 255th is 1. |
| AesSbox.EveryByteVisited | tools/pkg_extract.py:33-39 | Every nonzero byte is one of the powers 1 to 255. |
| AesSbox.InitAes | tools/pkg_extract.py:30-41 | The walk ends, and the table then holds the affine map of every byte's inverse, and of 0 at 0 (FIPS 197 section 5.1.1). |
| AesSbox.SboxIsPermutation | tools/pkg_extract.py:30-41 | Looking a byte up and taking its preimage undo each other, both ways. |
| AesMix.MixTwice | tools/pkg_extract.py:67-72 | Mixing a column twice adds to each byte four times its sum with the byte across. |
| AesMix.MixFourTimes | tools/pkg_extract.py:67-72 | Mixing a column four times is the identity, so the step is invertible (FIPS 197 section 5.1.3). |
| AesCipher.EncryptBlock | tools/pkg_extract.py:54-79 | The state changed in place ends a trace of FIPS 197 sections 5.1.1 to 5.1.4: the initial key, nine full rounds and a last one without mixing, each step by rows and columns. |
| AesCipher.ExpandKey | tools/pkg_extract.py:43-53 | The words are the key and then the recurrence of FIPS 197 section 5.2, byte by byte, with its ten round constants. |
| AesStandard.EncryptionIsStandard | tools/pkg_extract.py:54-79 | The cipher's rounds are the standard's: rows taken from as many columns to the right, columns multiplied by {03}x^3+{01}x^2+{01}x+{02}, words 4n to 4n+3 added in round n. |
| AesVector.ExampleEncrypts | tools/pkg_extract.py:43-79 | The example of FIPS 197 appendix C.1 comes out of any table the walk fills and any schedule the expansion gives. |
| Aes.EncryptIsPermutation | tools/pkg_extract.py:54-79 | For every key schedule encryption has a two-sided inverse on blocks. |
| PkgStream.CounterKeystream | tools/pkg_extract.py:92-99 | Joining the counters and encrypting them sixteen bytes at a time gives the keystream block by block, the counter wrapping at 2^128. |
| PkgStream.DebugKeystream | tools/pkg_extract.py:100-114 | The loop gives the hash keystream block by block. |
| PkgStream.DebugKey | tools/pkg_extract.py:106-112 | The sixty-four bytes hashed are each half of the digest twice, twenty-four zeros, and the index modulo 2^64 most significant byte first. |
| PkgStream.CounterBytes | tools/pkg_extract.py:95-99 | A counter's block is the counter modulo 2^128, most significant byte first. |
| PkgStream.DecryptionAdds | tools/pkg_extract.py:162-164 | Zeros decrypt to the keystream, and what is added to the data is added to the result. |
| PkgStream.RangeIsSlice | tools/pkg_extract.py:155-164 | Every range, of any length and wherever it starts, decrypts to that slice of the whole data decrypted from block 0. |
| PkgStream.DecryptTwice | tools/pkg_extract.py:162-164 | Decrypting twice gives the data back. |
| PkgStream.KeystreamNeverRepeats | tools/pkg_extract.py:95-99 | Counter-mode keystream blocks less than 2^128 apart all differ. |
| SpuDecode.FieldsAreParts | tools/spu_disasm.py:321-336 | The decoder's overlapping shifts and masks are the opcode and the three 7-bit fields recombined. |
| SpuDecode.FormatIsClaim | tools/spu_disasm.py:338-644 | Whichever table claims an opcode is the one the decoder takes: no entry of one width begins another. |
| SpuWords.BranchTargets | tools/spu_disasm.py:426-446 | The targets and registers of br, brsl, bra, brasl and the conditional branches, from bits 7 to 22 of the word and the address. |
| SpuWords.ImmediateLoads | tools/spu_disasm.py:405-452 | The operands of the other 16-bit immediate forms, signed, unsigned or rounded to a quadword. |
| SpuWords.WideImmediates | tools/spu_disasm.py:347-399 | The operands of ila and of the two hints, whose branch is nine bits split over the word. |
| SpuWords.RrrOperands | tools/spu_disasm.py:338-344 | The four registers of the 4-bit opcodes, the destination first. |
| SpuWords.Ri10Operands | tools/spu_disasm.py:481-493 | Two registers and a signed ten-bit number, in quadwords for the two loads and stores. |
| SpuWords.ChannelOperands | tools/spu_disasm.py:464-478 | The order of register and channel. |
| SpuWords.ShortImmediates | tools/spu_disasm.py:495-503 | The eight-bit scale and the seven-bit immediate, unsigned for four opcodes. |
| SpuWords.RrOperands | tools/spu_disasm.py:505-575 | The operands of the eleven-bit opcodes and their exceptions. |
| SpuEncode.TargetsDiffer | tools/spu_disasm.py:426-449 | Different 16-bit fields give different targets at one address, although targets wrap at 18 bits. |
| SpuEncode.InsnRoundTrip | tools/spu_disasm.py:317-649 | Every instruction whose operands its format can print encodes to a word that decodes to it. |
| SpuDecode.Disassemble | tools/spu_disasm.py:655-663 | One instruction per whole word at its own address, a rest of up to three bytes left. |
| SpuEncode.DisassemblyReassembles | tools/spu_disasm.py:317-649 | At a word-aligned address every 32-bit word decodes to an instruction its format can print, which encodes to a word that decodes the same. |
| SpuEncode.AssemblyRoundTrip | tools/spu_disasm.py:655-663 | Disassembling any assembled list gives the list back. |

## Left out

- tools/spu_lift_live.py:72-144, the parsing of generated C by regular expressions: statements, labels and regions are inputs, with what the parser guarantees of them as `WellFormed`.
- tools/spu_lift_live.py:197-210, finding the statement a user means; paths hold statement indices where the tool prints line numbers.
- SpuSoundness.StaleRegistersAreNeverRead: assumes the ABI at calls and returns, as the tool does, and ends a run that falls off its region.
- runtime/milestone.c: the clock, the environment variable, opening and flushing the file and atexit. Whether a counts block is due is a choice of the schedule. Slot state 1 is never written by the code and not in the model. Steps are sequentially consistent.
- MilestoneRuns.EveryCallCountedOnce: keys of at most 95 bytes, the exact limit by MilestoneLongKeys.DuplicatedIffTooLong.
- MilestoneReadBack.LogSurvivesAKill: keys of plain ASCII without tabs or line breaks, cuts after whole lines.
- MilestoneGate.ClosedLogCounts: fewer than 2^32 calls on the key, from where its count starts again at 0.
- tools/regress.py:402-458, the comparison of two parsed logs: one list per difference, only its bucket order matters here. Text no writer produces that Python's int and isdigit would still accept is not modelled.
- tools/dwarf_common.py:63-65: a string with no terminator ends the reading here, where the source's search result of -1 makes it go on from the start of the section.
- tools/dwarf_abi.py: the table of types, their names and the comparison with header files.
- tools/dwarf_line.py:121-134: sorting and removing duplicates is taken as done; DwarfLineTable.Resolve asks for the order the sort key gives.
- tools/find_functions.py:155-310: the prologue and leaf scans. They are heuristics; Run starts from whatever ranges they leave. A function is its start and end, without its calls and frame size.
- tools/find_spu_functions.py: the analyses that collect branch targets, jump tables and pointer tables; their results are inputs.
- tools/prx_relocate.py:83-101 and the counts of both linkers: the manifest.
- tools/elf_parser.py: containers, section headers and 32-bit or little-endian entries.
- tools/pkg_extract.py: SHA-1 is a parameter; the library cipher is taken to be the same AES; file tables and output paths are not modelled. The exclusive or of big integers is taken byte by byte.
- SpuEncode.InsnRoundTrip: an instruction is its format, opcode, registers and numbers, not their text; channel numbers stand for their names, and the feature bit of sync for the other mnemonic.
- The auditors, generators and command lines: templating and regular expressions over C.
