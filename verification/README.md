# Verified model of the decompilation toolchain

The repository rebuilds a Nintendo 64 game from C. Its tools rewrite assembly, link and
compare machine code, repair the ROM's checksums, decode debug records and keep the map of
the ROM. This project models the algorithms of those tools in Dafny and proves what they
promise, for every input. `dafny verify dfyconfig.toml` checks all of it.

| area | modules |
|---|---|
| optional values, words, bytes, sign extension | `Prelude` |
| machine the assembly runs on | `Mips` |
| `tools/sn_hilo.py`: multiplies in delay slots, HI/LO hazard | `SnHilo`, `SnHiloHazard`, `SnHiloOrder`, `SnHiloPlaces`, `SnHiloMeaning`, `SnHiloCalm`, `SnHiloLimits` |
| `tools/sn_li.py`: divisions, far accesses, float literals, sections | `SnLiDivide`, `SnLi`, `SnLiPool`, `SnLiSections`, `SnLiFile` |
| both filters in a row | `SnFit`, `SnFilters` |
| `tools/n64crc.c`: CRC-32, boot chip, ROM checksum, header repair | `Bits`, `Crc32`, `N64Checksum` |
| `tools/rodata_match.py`, `tools/rodata_check.py`, `tools/match_func.py`: linking and matching | `Relocation`, `MatchFunc` |
| `tools/lnk_decoder.py`: LNK debug records | `LnkFormat`, `LnkDecoder`, `LnkReader` |
| `tools/struct_scan.py`, `tools/apply_struct.py` | `Groups`, `AliasTracking`, `Subscripts`, `StructLayout` |
| `tools/second_entry_points.py`, `tools/call_target_seeds.py` | `Extents` |
| `tools/import_ref.py` | `Prune` |
| `tools/rodata_match.py`, `tools/auto_match.py`, `tools/c_subsegment.py`: the segment map | `SegmentMap`, `SegmentEditors` |

The loops of the modelled functions are methods with the same branches, proved equal to a
specification function; the theorems are about those functions. Python exceptions and error
messages are `Option`, `None` or outcome values.

## Conditions under which the code meets its promise

Where a promise does not hold of the code as it stands, the code is kept and the condition it
holds under is proved; for most of them a concrete input outside it is given as well.

- `sn_hilo.py` keeps the meaning of a file when: a slot is no branch; a slot that is moved
  and its branch carry no label (`EnteredAtBranch`, `BranchLabelLoses`, `EnteredAtSlot`); a
  slot that is not on the very next line needs no hazard nop (`SlotKeptExactly`: otherwise the
  nop becomes the slot, as in `CommentInFrontOfSlot`); a multiply moved over a linking branch
  does not read the link register (`MovesOverLinkExactly`). Behind the not-taken edge of a
  likely branch HI and LO may differ (`LikelyEdge`), so a run must not read them there before
  they are written; a file without a multiply in such a slot needs no condition on its runs
  (`CalmKept`). What `sn_li.py` writes meets the conditions when cc1's own lines do
  (`FitAfterExpansion`).
- The docstring of `sn_hilo.py` says that a label on the branch stays on the moved
  instruction. The code leaves it on the branch (`LabelOnBranchLine`).
- A signed division macro needs `$at` to stay out of its operands (`DivideRightExactly`).
- A far access needs a base other than `$at`, and must not store `$at` or merge a word into it
  (`FarAccessExactly`): `sw $1,0x20000($4)` stores half an address (`RegisterLost`).
- A line keeps its section when cc1's directives, read with `.section .rodata` entered at each
  flush of the pool and without it, agree at every line (`SectionsKeptExactly`); they do when no
  directive looks back to what a flush hid (`SectionsKept`), in particular when no relative
  directive stands at or behind the first flush (`SettledKeeps`). `SectionsLost` gives a file
  for each way to fail, `FlushEffect` and `FlushHarmlessExactly` what one flush does to each
  directive.
- The two relocation engines pair a HI16 differently: one with the next LO16 in the order of
  the file, the other, which sorts the list by offset first, with the next LO16 of the same
  symbol; and a HI16 with no LO16 behind it is refused by the first alone
  (`DanglingTellsApart`). On a list of known symbols and types they agree exactly when no HI16
  is left over and each has the same LO16 in both or a symbol that is a multiple of 64 KB
  (`EnginesAgreeExactly`). They part on crossed pairs (`CrossedPairsTellApart`) and, with one
  symbol alone, on `hi@0 lo@12 hi@4 lo@8`, a list not in the order of offsets
  (`UnsortedTellsApart`).
- `match_func.py` never compares the low half of a HI16 word (`HighHalfIsNotCompared`).
- The register scan of `struct_scan.py` reads a call before its delay slot, and takes a
  `jalr` or branch-and-link for no call. Over a call and its slot it is right on all machines
  exactly under the check of `CallRightExactly`: at a `jal`, the slot does not copy the pointer
  out of a saved register into one the callee may overwrite (`JalSlot`, `MoveInSlotMisleads`);
  at another call, all registers followed behind the slot are ones the callee saves
  (`OtherCallSlot`, `JalrMisleads`).
- `branch_target` knows neither bltzl, bgezl, bltzall and bgezall nor the branches of
  coprocessors 0 and 2, and takes a jump in the last word of a 256 MB region to stay in it.
  It is right about every other word (`TargetsExactly`); a stretched extent is the least that
  no branch leaves forwards exactly when no word it misreads leaves the extent found
  (`StretchRightExactly`, `StretchRight`). `LikelyLeaves` gives a bgezl that does.
- Trimming a second entry point to the last return before data takes one word too many
  exactly when that return is the word directly before the data (`TrimPastData`,
  `TrimExample`).
- `rodata_subsegment` and `c_subsegment` leave an empty entry at the segment's end when the
  new slice reaches it (`InsertOrderedExactly`, `EmptyEntryLeft`). They leave a file that has
  an entry already with two, unless its line is the one taken over (`InsertOneEntryExactly`,
  `SecondEntryLeft`). A named host that is cut loses its name (`OwnSliceMeans`,
  `InsertMeans`). The refusal in `own_slice` for a slice that ends inside the file's own old
  one is never reached (`CutHostIsRaw`).
- `apply_struct.py` flattens an array of matrices to the first one (`MatrixAgreesExactly`,
  `TwoMatricesDiffer`).
- `n64crc.c` has an error return for an unknown boot chip; `N64GetCIC` already answers 6105
  then, so it is never taken. Its ROL by 0 shifts a 32-bit value by 32; it is read as the
  identity.

## Model

| member | source | states |
|---|---|---|
| SnHilo.Advance | tools/sn_hilo.py:71-114 | the loop body, branch by branch, is one turn of the specification |
| SnHilo.Filter | tools/sn_hilo.py:63-115 | the whole filter writes the rewriting of its input |
| SnHiloHazard.SafeIsHazardFree | tools/sn_hilo.py:92-110 | a line-by-line check of the last two kinds emitted implies the distance between every read and every later write of a region |
| SnHiloHazard.MarkedSafe | tools/sn_hilo.py:70-114 | from every loop state the lines still to be written pass that check |
| SnHiloHazard.OutputHazardFree | tools/sn_hilo.py:81-110 | in every output file, at least two instructions stand between an mfhi/mflo and a later HI/LO write of its noreorder region, at least one if the write is one the filter itself moved out of a slot |
| SnHiloOrder.OnlySwapsPairs | tools/sn_hilo.py:77-114 | the output is the input line for line, with at most two nops added in front of a line and some branch/multiply pairs turned into the bracketed multiply, the branch and a nop; a moved divide may be respelled with `$0` |
| SnHiloPlaces.LabelTracks | tools/sn_hilo.py:76-114 | a label, on a line of its own or on any instruction that is not moved, is found in the input iff in the output, and at corresponding places |
| SnHiloPlaces.ReturnTracks | tools/sn_hilo.py:81-102 | the place behind the k-th call exists in both files and corresponds |
| SnHiloPlaces.LinksKept | tools/sn_hilo.py:81-114 | no call is added, dropped or doubled |
| SnHiloPlaces.SlotTracks | tools/sn_hilo.py:77-80 | a slot behind comments or labels is still the slot when nothing is padded in front of it |
| SnHiloMeaning.ExecBeforeBranch | tools/sn_hilo.py:83-93 | a multiply commutes with the branch's link when it does not read the link register |
| SnHiloMeaning.MovedTracks | tools/sn_hilo.py:83-94 | a moved slot: branch, nullification and HI/LO afterwards match, stale only on a likely branch not taken |
| SnHiloMeaning.StepTracks | tools/sn_hilo.py:70-114 | each input step is matched by one or more output steps |
| SnHiloMeaning.RunTracks | tools/sn_hilo.py:63-115 | the same over runs of any length, traps and exits included |
| SnHiloMeaning.MeaningKept | tools/sn_hilo.py:63-115 | from any label or return point and machine state, every run is followed with equal registers and memory, and equal HI/LO unless stale |
| SnHiloMeaning.StopsTogether | tools/sn_hilo.py:63-115 | where the output stops, the input has stopped for the same reason |
| SnHiloCalm.CalmRun | tools/sn_hilo.py:81-94 | in a file without multiplies in slots of likely branches no run leaves HI or LO stale |
| SnHiloCalm.CalmKept | tools/sn_hilo.py:63-115 | such a file keeps everything, HI and LO included, from every label or return point on every run |
| SnHiloCalm.LoopQualifies | tools/sn_hilo.py:81-94 | a loop with a multiply in its slot meets the conditions and is rewritten |
| SnHiloLimits.SlotKeptExactly | tools/sn_hilo.py:103-110 | a slot not on the next line survives iff no hazard nop lands in front of it |
| SnHiloLimits.CommentInFrontOfSlot | tools/sn_hilo.py:77-114 | the whole output for mflo, branch, comment, mult: the branch's slot was the mult and is a nop |
| SnHiloLimits.MovesOverLinkExactly | tools/sn_hilo.py:81-94 | a multiply is the same on either side of a branch for all machines iff it does not read the link register |
| SnHiloLimits.LikelyEdge | tools/sn_hilo.py:90-93 | what input and output hold behind a likely branch not taken, linking or not: the same but for HI/LO |
| SnHiloLimits.LabelOnBranchLine | tools/sn_hilo.py:90 | a label on the branch's line is found on the branch, behind the moved multiply |
| SnHiloLimits.LabelOnSlotLine | tools/sn_hilo.py:82-90 | a label on the slot's line is found on the moved multiply, in front of the branch |
| SnHiloLimits.EnteredAtBranch | tools/sn_hilo.py:90 | entered at a label on the branch, the output makes the link alone where the input has run the multiply as well: the machines of both behind the branch |
| SnHiloLimits.BranchLabelLoses | tools/sn_hilo.py:90 | for every such file with a branch that is not likely, a machine that leaves the branch with other HI/LO |
| SnHiloLimits.EnteredAtSlot | tools/sn_hilo.py:82-90 | entered at a label on the slot, the input goes on behind it, the output runs the multiply and then the branch |
| SnLiDivide.QuotRem | tools/sn_li.py:83-88 | quotient and remainder truncate toward zero: a = b q + r, with r smaller than b and of a's sign |
| SnLiDivide.RunZeroCheck | tools/sn_li.py:82-84 | the divide and its zero check: break 7 iff the divisor is 0 |
| SnLiDivide.RunOverflowCheck | tools/sn_li.py:85-87 | the signed check: break 6 iff the operands are INT_MIN and -1 |
| SnLiDivide.LabelsInContext | tools/sn_li.py:80-87 | in any file where the labels are not defined before, the macro's own two are found |
| SnLiDivide.DivideRuns | tools/sn_li.py:71-91 | the expansion traps 7 iff the divisor is 0, traps 6 iff INT_MIN / -1 signed, else leaves the truncated quotient or remainder in rd, aliased or not, in the mode it began in |
| SnLiDivide.BadTraps | tools/sn_li.py:86-87 | for each other choice of operands a machine on which the expansion goes wrong |
| SnLiDivide.DivideRightExactly | tools/sn_li.py:71-91 | the expansion is right on every machine iff `$at` stays out of the signed operands |
| SnLi.Halves | tools/sn_li.py:54-55 | high and low part rebuild the offset mod 2^32, the low part signed 16-bit |
| SnLi.OnlyAtDiffers | tools/sn_li.py:56-65 | before the access itself, `$at` is the only thing the expansion has changed |
| SnLi.FarRuns | tools/sn_li.py:41-65 | numeric or symbolic, the expansion is three steps to the line behind it, in any program |
| SnLi.FarAccess | tools/sn_li.py:41-65 | it makes the access the line names, at base + offset mod 2^32, with the registers as they were: same memory, same register loaded, all others but `$at` kept |
| SnLi.BaseLost | tools/sn_li.py:56 | with `$at` as the base, a machine on which the access goes astray |
| SnLi.RegisterLost | tools/sn_li.py:56 | a store of `$at`: a machine on which half an address is stored |
| SnLi.FarAccessExactly | tools/sn_li.py:41-65 | the expansion is the access on every machine iff `$at` is not the base, nor stored, nor merged into (lwl, lwr) |
| SnLiPool.Advance | tools/sn_li.py:103-135 | the loop body is one turn of the specification |
| SnLiPool.ExpandFile | tools/sn_li.py:97-138 | the whole filter, last flush included |
| SnLiPool.LiteralsInOrder | tools/sn_li.py:105-129 | from every loop state: the pool entries and loads still to come are those of the floats still to come, numbered on |
| SnLiPool.PoolOfFile | tools/sn_li.py:121-137 | the k-th float literal is defined once, as label k with its own value and width, and its load names label k |
| SnLiSections.FlushEffect | tools/sn_li.py:94-107 | what a directive behind a flushed pool enters and remembers, for all four kinds, against the same directive without the flush |
| SnLiSections.FlushHarmlessExactly | tools/sn_li.py:105-107 | it enters the same section iff it is absolute, a push, a `.previous` with both sections equal, or a pop with something to pop |
| SnLiSections.SectionsKeptExactly | tools/sn_li.py:97-138 | every line stays in its section iff the directives, read with and without the flushes, are in step |
| SnLiSections.SectionsKept | tools/sn_li.py:105-137 | it does, and the pool is in .rodata, when no directive looks back to what a flush hid |
| SnLiSections.SettledKeeps | tools/sn_li.py:105-107 | that holds when no relative directive stands at or behind the first flush |
| SnLiSections.SectionsLost | tools/sn_li.py:94-107 | four files that lose a section, one for each way |
| SnLiSections.PoolInRodata | tools/sn_li.py:105-107 | whatever the directives, pool entries stand in .rodata |
| SnLiFile.WrittenClean | tools/sn_li.py:103-115 | the division labels written so far carry the numbers of the lines so far |
| SnLiFile.DivisionsOfFile | tools/sn_li.py:97-138 | in the file as written, from the place of every division macro the machine traps or divides as promised |
| SnFilters.HiloCut | tools/sn_hilo.py:70-114 | behind a line that is no instruction the filter goes on as from the beginning of a file |
| SnFit.FitIsWellFormed | tools/sn_hilo.py:77-110 | the conditions of `MeaningKept` from a reading of the lines alone, whatever hazard is pending |
| SnFit.FitAfterExpansion | tools/sn_li.py:97-138 | if each branch of cc1's file that has a slot is followed by an instruction that neither branches, writes HI/LO nor is a division macro, or on the next line by a write free to move, then what sn_li.py writes meets the conditions of `MeaningKept` |
| SnFilters.DivisionsOfBoth | tools/sn_li.py:71-91 | for such a file as both filters leave it, from the place of every division macro the machine traps or divides as promised |
| Crc32.TableEntry | tools/n64crc.c:52-58 | a table entry is eight steps of the bit-serial register |
| Crc32.GenTable | tools/n64crc.c:47-60 | all 256 entries |
| Crc32.StepsLinear | tools/n64crc.c:54-57 | n steps are linear over exclusive or |
| Crc32.TableStep | tools/n64crc.c:67 | one look-up feeds eight message bits to the definition |
| Crc32.ComputeCrc | tools/n64crc.c:62-71 | the table-driven loop computes the reflected CRC with polynomial 0xEDB88320 (section 8 of RFC 1952), bit by bit, of every message |
| Crc32.CrcAffine | tools/n64crc.c:62-71 | crc(a) xor crc(b) xor crc(c) = crc(a xor b xor c) for equal lengths |
| Crc32.BurstDetected | tools/n64crc.c:62-71 | bit strings that differ only within 32 consecutive bits have different CRC states |
| Crc32.CrcDetectsBursts | tools/n64crc.c:62-71 | the same for messages of bytes and their CRCs |
| N64Checksum.GetCic | tools/n64crc.c:74-84 | the boot chip read off the CRC of the boot block |
| N64Checksum.MixWord | tools/n64crc.c:117-127 | one turn of the loop on the six accumulators |
| N64Checksum.Operands | tools/n64crc.c:117-126 | the two words a turn reads: the ROM word, and the boot code word at i mod 256 |
| N64Checksum.MixAll | tools/n64crc.c:113-130 | the loop over the megabyte |
| N64Checksum.CalcCrc | tools/n64crc.c:86-145 | both checksums for every boot chip |
| N64Checksum.Accumulators | tools/n64crc.c:116-130 | for words of any number: t4:t6 is seed:seed plus their sum mod 2^64, t3 the seed xor all of them, t5 the seed plus their self-rotations mod 2^32 |
| N64Checksum.FirstChecksumOrderFree | tools/n64crc.c:86-145 | two images with the same boot block whose checksummed words are a permutation of each other have the same first checksum, for every chip |
| N64Checksum.WriteWord | tools/n64crc.c:39-43 | the four bytes written, big-endian, and no others |
| N64Checksum.StoreField | tools/n64crc.c:188-195 | a field that is right is reported good and left, a wrong one is written |
| N64Checksum.Repair | tools/n64crc.c:182-206 | the repaired image, and which fields were good |
| N64Checksum.ChecksumsFrame | tools/n64crc.c:26-33 | the checksums depend on nothing below offset 0x40 and nothing behind the megabyte |
| N64Checksum.RepairOnce | tools/n64crc.c:182-206 | repair keeps the checksums, stores them, and a second repair changes nothing |
| Relocation.HiLoPair | tools/rodata_match.py:115-124 | hi' 2^16 + sext16(lo') = S + A mod 2^32 (Relocation section of chapter 4 of the System V ABI MIPS Processor Supplement) |
| Relocation.JumpField | tools/rodata_match.py:110-111 | a linked jump keeps its opcode and addresses S + A within 256 MB |
| Relocation.PatchPending | tools/rodata_match.py:118-123 | every waiting HI16 and no other word gets its high half |
| Relocation.RelocateOne | tools/rodata_match.py:95-127 | one entry keeps the queue to the HI16s still without LO16, and all others linked |
| Relocation.Relocate | tools/rodata_match.py:87-129 | the section linked, or the first error in the source's order, an unpaired HI16 included |
| Relocation.LookAhead | tools/rodata_check.py:211-214 | the addend found ahead is the partner's original low half, 0 without partner |
| Relocation.CheckOne | tools/rodata_check.py:206-218 | the word written for one entry |
| Relocation.Sorted | tools/rodata_check.py:160-165 | the list the check goes by is a permutation of the file's with increasing offsets |
| Relocation.CheckSorted | tools/rodata_check.py:196-222 | the loop over a list: the section linked with each HI16's own symbol, and the entries reported |
| Relocation.CheckText | tools/rodata_check.py:160-222 | the same for a file's list, sorted by offset first |
| Relocation.EnginesAgree | tools/rodata_match.py:94-129 | on a list in the order of offsets with each HI16 paired, one engine accepts iff the other reports nothing, and both write the same words |
| Relocation.WordsAgreeExactly | tools/rodata_check.py:160-222 | the words linked from the file's list and from the sorted one are the same for every section iff every HI16 has the same LO16 in both or a symbol aligned to 64 KB |
| Relocation.EnginesAgreeExactly | tools/rodata_match.py:94-129 | the engines agree (one accepts iff the other reports nothing, and then writes the same words into every section) iff a list of known symbols and types leaves no HI16 without LO16 and has only such HI16s |
| Relocation.DanglingTellsApart | tools/rodata_match.py:128-129 | a lone HI16: refused by one engine, linked by the other |
| Relocation.CrossedPairsTellApart | tools/rodata_check.py:211-212 | two crossed pairs that both accept and link apart |
| Relocation.UnsortedTellsApart | tools/rodata_check.py:165 | a list of one symbol, each HI16 paired, that is not in the order of offsets: both accept it and link it apart |
| Relocation.PairsAddress | tools/rodata_match.py:94-129 | in a linked section each HI16 and its LO16 address symbol plus addend, however many HI16s share the LO16 |
| MatchFunc.WordOkExactly | tools/match_func.py:116-151 | mask and target test together, field by field |
| MatchFunc.Compare | tools/match_func.py:162-183 | accepts iff sizes agree and every word passes; otherwise lists exactly the words that do not |
| MatchFunc.MatchMeansLinked | tools/match_func.py:116-183 | with jumps, HI16s and LO16s against address names: MATCH iff sizes agree, all words but HI16 words equal the linked ones, and HI16 words agree in their upper halves |
| MatchFunc.HighHalfIsNotCompared | tools/match_func.py:120-121 | a HI16 word that matches and is not the linked word |
| LnkFormat.ExprRoundTrip | tools/lnk_decoder.py:202-226 | decoding an encoded expression tree gives it back, with the end position exact |
| LnkFormat.ExprParsed | tools/lnk_decoder.py:202-226 | whatever was decoded encodes to exactly the bytes read |
| LnkFormat.FieldRoundTrip | tools/lnk_decoder.py:116-150 | the same for numbers, names, blobs, dimension lists and expressions |
| LnkFormat.FieldParsed | tools/lnk_decoder.py:116-150 | and back |
| LnkDecoder.OpRoundTrip | tools/lnk_decoder.py:240-386 | each of the record kinds decodes to itself |
| LnkDecoder.OpParsed | tools/lnk_decoder.py:240-386 | a decoded record encodes to the bytes it came from, and the reader has moved on inside the buffer |
| LnkDecoder.EncodedWhole | tools/lnk_decoder.py:230-245 | magic, records and END written out in a row are an encoded record |
| LnkDecoder.RecordRoundTrip | tools/lnk_decoder.py:229-393 | an encoded record list with END decodes to its effect, nothing truncated, end offset just behind END |
| LnkDecoder.ContentsBack | tools/lnk_decoder.py:264-383 | sections, files, symbols and functions come back in order |
| LnkDecoder.FunctionsBack | tools/lnk_decoder.py:327-349 | each function gets the end line of the last FUNCTION_END before the next function |
| LnkDecoder.RecordExplained | tools/lnk_decoder.py:229-393 | on arbitrary bytes the result is that of a record list encoding exactly the bytes up to the stop: END, a reported opcode boundary, or the end of the buffer |
| LnkReader.Reader.BytesN | tools/lnk_decoder.py:137-142 | the next n bytes, or no move at all |
| LnkReader.Reader.Number | tools/lnk_decoder.py:116-135 | a little-endian number |
| LnkReader.Reader.Expression | tools/lnk_decoder.py:202-226 | recursive descent over the reader's state is the expression grammar |
| LnkReader.Reader.Field | tools/lnk_decoder.py:116-150 | one operand |
| LnkReader.Reader.Operation | tools/lnk_decoder.py:240-386 | the operands of one opcode, or the error |
| LnkReader.DecodeLoop | tools/lnk_decoder.py:240-393 | the record loop |
| LnkReader.ReadRecord | tools/lnk_decoder.py:229-393 | with the magic test |
| LnkReader.Find | tools/lnk_decoder.py:400 | first occurrence of the magic from a position on |
| LnkReader.FindRecords | tools/lnk_decoder.py:396-405 | exactly the offsets of the magic, increasing, although the scan jumps four bytes |
| Groups.UnionFind.Find | tools/struct_scan.py:93-96 | terminates at the root; changes no one's root |
| Groups.UnionFind.Link | tools/struct_scan.py:101 | the two trees become one, all others stay |
| Groups.JoinOffset | tools/struct_scan.py:99-101 | the functions of one offset end in one tree, and no strangers are joined |
| Groups.GroupFunctions | tools/struct_scan.py:91-101 | same root iff a chain of shared marked offsets connects the two functions |
| Groups.CollectGroups | tools/struct_scan.py:102-105 | each function lands in the group of its root and in no other |
| Groups.Group | tools/struct_scan.py:93-107 | two functions with marked offsets are in one group iff a chain of shared marked offsets connects them |
| AliasTracking.Arg0Accesses | tools/struct_scan.py:40-69 | the scan, with its early stop, records what the line-by-line specification records |
| AliasTracking.StepTracks | tools/struct_scan.py:45-68 | outside calls every register followed keeps the entry value of $a0 |
| AliasTracking.CallRightExactly | tools/struct_scan.py:61-66 | over a call and its slot every register followed holds the pointer and every access recorded is made, for all machines, iff reading link, slot and callee in their order follows and records no less |
| AliasTracking.JalSlot | tools/struct_scan.py:61-62 | at a jal that is: the slot does not copy the pointer from a saved register into a caller-saved one |
| AliasTracking.OtherCallSlot | tools/struct_scan.py:64-66 | at a jalr or branch-and-link it is: all registers followed behind the slot are saved ones |
| AliasTracking.ScanSound | tools/struct_scan.py:40-69 | from any state that tracks, in a body whose calls pass that check, what is recorded is a sub-multiset of the accesses made |
| AliasTracking.BodySound | tools/struct_scan.py:40-69 | in such a body every recorded offset and kind is a real access at entry $a0 plus the offset |
| AliasTracking.MoveInSlotMisleads | tools/struct_scan.py:61-62 | a body with a call and a move in its slot on which a recorded access is not made |
| AliasTracking.JalrMisleads | tools/struct_scan.py:64-66 | a body with a jalr on which one is not made |
| Subscripts.Index | tools/apply_struct.py:46-51 | the subscript text, digits found last first |
| Subscripts.DigitsRank | tools/apply_struct.py:46-51 | the subscripts are in bounds and their row-major rank is the element number |
| Subscripts.RankDigits | tools/apply_struct.py:46-51 | every subscript tuple in bounds is that of exactly its rank |
| Subscripts.RowMajor | tools/apply_struct.py:46-51 | a smaller element number has lexicographically smaller subscripts |
| StructLayout.FillLayout | tools/struct_scan.py:157-179 | the dictionary filled field by field, or the error |
| StructLayout.FillPaths | tools/apply_struct.py:37-71 | the shared dictionary filled by the recursion: what it held, overwritten by the struct's own slots |
| StructLayout.Agreement | tools/apply_struct.py:37-71 | for every acyclic table without arrays of matrices both programs find the same offsets with corresponding kinds, and fail together |
| StructLayout.MatrixAgreesExactly | tools/apply_struct.py:60-62 | on a matrix field they agree iff it is a single matrix |
| StructLayout.TwoMatricesDiffer | tools/apply_struct.py:60-62 | a struct with two matrices on which they differ |
| Extents.TargetsExactly | tools/call_target_seeds.py:51-63 | the target found is that of the instruction set, for every word, iff it is no branch the code does not know and no jump in the last word of a 256 MB region |
| Extents.BranchRoundTrip | tools/call_target_seeds.py:51-63 | every conditional branch assembled to reach an address reaches it, and is found to iff the code knows it |
| Extents.JumpRoundTrip | tools/call_target_seeds.py:54-55 | a jump assembled to reach an address of its 256 MB reaches it, and is found to iff it is not in their last word |
| Extents.LookAt | tools/second_entry_points.py:282-299 | one word: the length grows iff its branch leaves the extent forwards |
| Extents.Pass | tools/second_entry_points.py:281-299 | one pass, its range fixed at the start: growth, or a closed extent |
| Extents.Stretch | tools/second_entry_points.py:277-299 | terminates with the least aligned extent not below the start that no branch `branch_target` knows leaves forwards, or the limit if that would pass it |
| Extents.StretchRightExactly | tools/second_entry_points.py:277-299 | that is the least extent no branch at all leaves forwards iff no word misread inside it leaves it |
| Extents.StretchRight | tools/second_entry_points.py:277-299 | so it is when no word below the limit is misread |
| Extents.LikelyLeaves | tools/call_target_seeds.py:59 | two words, a bgezl out of the extent found for them |
| Extents.AnswerUnique | tools/second_entry_points.py:277-299 | that extent is unique |
| Extents.LimitExactly | tools/second_entry_points.py:278-280 | the limit is returned iff no closed extent ends before it |
| Extents.Trim | tools/second_entry_points.py:266-272 | the end behind the last return before the data |
| Extents.TrimPastData | tools/second_entry_points.py:266-272 | the trimmed extent covers data iff the last return is directly before it |
| Extents.TrimExample | tools/second_entry_points.py:266-272 | `jr $ra` directly before data: eight bytes for a four-byte body |
| Prune.Scan | tools/import_ref.py:159-163 | one scan: grows the chosen set, or finds it closed |
| Prune.Run | tools/import_ref.py:150-164 | the items of the least closed set, in original order |
| Prune.PrunedUnique | tools/import_ref.py:150-164 | the result is determined by the items and the name to keep |
| Prune.KeptForAReason | tools/import_ref.py:161 | each kept item declares a name that keep or a kept item wants |
| Prune.OrderFree | tools/import_ref.py:157-163 | for every permutation of the items the same ones are kept |
| Prune.PruneTwice | tools/import_ref.py:150-164 | pruning again changes nothing |
| SegmentMap.EditOwner | tools/rodata_match.py:234-241 | who owns each address after an edit |
| SegmentMap.PointwiseExactly | tools/rodata_match.py:234-241 | the owner map changes on [start, end) alone iff the remainders of cut hosts keep type and name |
| SegmentEditors.EditOneEntry | tools/rodata_match.py:228-241 | the file has exactly one entry afterwards |
| SegmentEditors.CutHostIsRaw | tools/rodata_match.py:237-239 | a cut host is always raw: the last refusal is dead |
| SegmentEditors.OwnSliceMeans | tools/rodata_match.py:212-244 | after success starts increase, and owners change on [start, end) alone iff no named host is cut |
| SegmentEditors.Segment.OwnSlice | tools/rodata_match.py:212-244 | succeeds iff the addresses are free, raw or the file's own and the file owns nothing outside; the new list; one entry; unchanged on refusal |
| SegmentEditors.InsertMeans | tools/auto_match.py:752-767 | the same of an insertion, for rodata and asm hosts |
| SegmentEditors.InsertOneEntryExactly | tools/c_subsegment.py:98-120 | the file has exactly one entry afterwards iff it had none but possibly the one whose line is taken over |
| SegmentEditors.SecondEntryLeft | tools/auto_match.py:750-767 | a file with an entry that is given a second one |
| SegmentEditors.InsertOrderedExactly | tools/auto_match.py:760-761 | every entry still owns something iff an entry follows or the slice ends before the segment does |
| SegmentEditors.EmptyEntryLeft | tools/auto_match.py:760-761 | a one-entry segment that gets an empty entry at its end, with which `OwnSlice` still works |
| SegmentEditors.Segment.InsertInHost | tools/c_subsegment.py:98-120 | succeeds iff one host of the wanted type has room for the range; the new list; unchanged on refusal |
| SegmentEditors.Segment.RodataSubsegment | tools/auto_match.py:738-768 | its instance for rodata |
| SegmentEditors.Segment.CSubsegment | tools/c_subsegment.py:95-120 | its instance for asm |
| SegmentEditors.EditorsAgreeExactly | tools/auto_match.py:738-768 | on a fresh slice in one raw host both rodata editors succeed, and write the same list iff the host's head has no name and something follows the slice |

## Left out

- Text parsing and printing of assembly lines, YAML and C headers: lines, entries and fields are given as data, so comments between segment entries and the formatting of literals are not modelled.
- The heap, pager and scheduler of the game itself: their bodies are not part of this model.
- SnHiloMeaning.MeaningKept: assumes the side conditions above; return addresses and code addresses in registers are symbolic, so a program that computes with them as numbers is not covered; loads, stores, floating point and 64-bit multiplies are arbitrary functions, not the real ones. `.set pop` restores no mode in this machine, so an input with its own `.set push`, a mode switch and `.set pop` is not covered (the pairs the filter writes hold no mode switch).
- SnHiloMeaning.StepTracks: a two-operand divide is the plain instruction in both files; that gas would read an unmoved one as its checking macro is not modelled.
- SnHiloHazard.OutputHazardFree: reads before a `.set noreorder` do not count, as in the source's own region; gas pads those.
- SnLiDivide.DivideRuns: the machine's div and divu must divide right when neither trap applies; what they leave otherwise is free.
- SnLi.FarAccess: the access is an arbitrary function of the registers that does not trap; the expansion is run from its own place, so a macro written into a delay slot is not covered. cc1 writes macros in reorder regions only.
- SnLiFile.DivisionsOfFile: the file must not define `.Lsn_div` labels of its own.
- N64Checksum.Repair: file reading and writing is left out; the buffer is the image.
- Relocation.Relocate: offsets are word indices inside the section and distinct; symbol values are given, the same to both engines, so section and local symbols are resolved before.
- MatchFunc.MatchMeansLinked: symbols whose names carry no address are accepted unseen by the source and are outside this theorem.
- LnkReader.Reader.Expression: Python's recursion limit on very deep expressions is not modelled; names are bytes, not decoded text.
- LnkDecoder.RecordRoundTrip: the decoder's branches are given as a table of operand kinds per opcode and an effect per opcode; the text of error messages is left out.
- Groups.Group: which functions use an offset and which offsets are marked (tools/struct_scan.py:82-92) is given, and the report is left out.
- AliasTracking.BodySound: straight-line bodies whose calls pass the check above; a branch's own slot is plain straight-line code here.
- StructLayout.Agreement: field names are a total table, so a struct without recorded names (an exception in apply_struct.py) is not modelled; the rank makes "no struct contains itself" explicit.
- Extents.Stretch: reading the ROM is a sequence of words from the entry on; finding the first data word is left out, and the entry address is a multiple of four.
- Prune.Run: which names an item declares and uses is given; the regular expressions that find them are left out.
- SegmentEditors.Segment.OwnSlice: the list is ordered and every entry owns something beforehand, but for an empty raw one at the end; finding the segment in the file, and which of several code segments holds a run, are left out.
- SegmentEditors.Segment.CSubsegment: the list is that of the entries the program sees. Its pattern (tools/c_subsegment.py:33) takes the type as a word, so an entry such as `.rodata` inside a code segment would be invisible to it; the model does not say what happens then.
- tools/struct_scan.py `fits`, tools/apply_struct.py `rewrite`, tools/c_subsegment.py reading the ELF, and the emit functions of the LNK decoder: reports and lexical rewriting.
- The small stream filters (fix_asm, fix_data_align, jumptable_targets, romdiff) are not modelled.
