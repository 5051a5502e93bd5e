# S5LBox: what its fast paths promise, proved

S5LBox emulates an iPhone's ARMv6 processor. Its speed comes from shortcuts that stand in for a slow, obvious execution:
signed threaded code instead of an instruction interpreter, native row renderers instead of interpreted drawing code, packed
lanes instead of channels, in-place patching instead of rebuilding. This project models those shortcuts and proves each one
against the slow execution it replaces.

**The threaded-code engine** (`tools/a64_static.c`, `tools/gen_a64_static.py`). `Handlers` numbers the 26,508 handlers and
builds the generator's table loop nest by loop nest. `Decode` and `Program` turn ARM and Thumb words into records;
`Operands` shows that no record has an operand outside its handler's ranges, `Accepted` which words have records at all.
`Validate` is the structural validator and the cheap recheck, loops and all. `Soundness` shows that any record array the
validator accepts dispatches in order and ends, `Confined` what it promises about registers, branches and refusals, and
`Dispatch` that the machine's runs over such an array are that walk and stay inside memory; `Agreement` shows that every block
the decoder returns is accepted, `Recheck` what the recheck decides. `Machine`, `ExecVfp` and `Exec` give the machine and what
each handler does to it, as the generated code does it. `Arch` is an independent reading of the ARM Architecture Reference
Manual (ARM DDI 0100I: sections A3.2, A4, A5.1, A5.2, A5.4 and A7), written with a shifter that moves one bit at a time, with
one translation per word transferred, and with no records, caches or scratch registers; `ArchVfp` is the VFP unit as the
literal interpreter has it (`core/src/arm/vfp.c`). `Shifter`, `Fields`, `RefineAlu`, `RefineMemory`, `RefineBlock`,
`RefineArith`, `RefineVfp`, `VfpTransfer`, `RefineInsn` and `RefineThumb` prove one instruction at a time, for every word the
decoder accepts in any of its three contracts; `RefineProgram` proves whole blocks against the architecture fetching live
memory, `RefineLoop` flat loops run many times over, and `Overwritten` is a flat block that stores over its own code.
`ByteOrder` and `Layout` fix the order of bytes and the places of bits. `Chain` is the chaining context with its accounting and
its raw-byte witness, `ChainRun` a whole graph run.
`Encodings`, `VfpHost`, `VfpFormat`, `VfpCompare` and `VfpWiden` treat the integer-only VFP handlers against the real numbers
the encodings stand for (IEEE 754-2008, sections 3.4 and 5.11).

**The native raster replacements** (`tools/ios3_hle.c`). `RowShadow` renders rows through a shadow memory, against a memory
into which every write goes at once; `RectRoot` publishes all rows together. `Publish` is the machine's own translated memory
with its two-pass vectored write, and the capture oracle that stands in for it; `Spans` is memory with spans written.
`Tiling` says which calls the row renderer gets. `LiveRows` renders the same rows with every read and write going to the
machine's RAM, and `RowAlias` says exactly when the two come to the same. `Sampler` has the two bulk shortcuts and the scalar loop, `TexelReads` runs them on the readers a row
has, and `TexelRules` says what its conversions mean. `Lanes` has the packed-lane blends and the four separate channels.

**Transactions, codecs and state machines.** `Sha256` (FIPS 180-4) with its words, tables and a published example,
`DeviceTree` (in-place patching of a serialized tree),
`GuestPatch` and `KernelGate` (an atomic RAM patcher and the gate that calls it), `PayloadTar`, `TarWriter` and `HardLinks` (a
ustar reader, a writer to hold against it, and its hard links) and `FileBlock` with `FileOutcomes` (device sessions with
sticky failure, and what they report). `Words` and `Text` are shared arithmetic and byte-string
helpers.

Conventions. Machine words are bounded integers with wrap-around written out; SHA-256 uses bit-vectors. What the program
cannot see is a parameter: cache contents and translations (a live entry holds the right host block), condition outcomes,
the next block a chain selector offers, the arithmetic of the floating-point unit, the row renderer, a read-back of stored
bytes, and every answer of the host operating system. The quantification over those parameters is over all of them.

Eight places where the code does not do what one might expect, or does it only under a condition:

* A hard link in an archive is resolved by comparing path suffixes, so an earlier member whose path merely ends with the
  link's text is taken instead of the member named, or in place of refusing a link that names nothing.
  `HardLinks.LinkSourceMistaken` is an archive that shows both, `HardLinks.LinkSourceExact` the exact condition.
* The source-over blend is exact for premultiplied sources and for no others; `Lanes.BlendExactIffPremultiplied`.
* The shadow of a row is keyed by virtual address. Publishing rows together therefore comes to the same RAM, rows and refusals
  as writing each to RAM where and when it is drawn, for every request and renderer, if and only if no byte a pixel can be
  drawn to shows at a second address; `RowAlias.SameIffSeenOnce`. Published spans read back as flat memory with the spans
  written under the same condition on the bytes written; `Publish.PublishedIff`.
* A flat block may store before its last instruction. If it overwrites an instruction it has yet to reach, dispatch runs what
  was decoded and the architecture what is there; `Overwritten.StoreOverCode` is such a block, and
  `RefineProgram.LiveFetchesDecoded` says exactly when the architecture fetches what was decoded. Under the cache-hit
  contracts a store ends its block and this cannot happen.
* The full validator looks at the VFP register numbers of arithmetic and of stores, and takes those of moves, comparisons,
  conversions and loads as they are. An accepted array stays inside the register file exactly if those do;
  `Confined.WithinFileIff`, with an accepted array that does not in `Confined.StrayAccepted`; with the same condition it stays
  inside RAM as well, `Dispatch.AcceptedStays`. No decoded block dispatches such a record; `RefineProgram.BlockRefines`.
* The archive reader reckons its name space from the archive's size alone, so a long prefix or long link targets make it refuse
  an archive it could provision; `TarWriter.RoundTrip` says exactly when, `TarWriter.LongPrefixRefused` is such a case and
  `TarWriter.ModestAccepted` when it never happens.
* Flat accesses test no alignment, so they are the architectural accesses exactly where the address is aligned;
  `RefineMemory.FlatRefines`.
* The defensive checks against a chain exceeding its budget, the overflow check of the octal reader and the fallback error
  number of a failed flush cannot be reached.

## Model

| member | source | states |
|---|---|---|
| Handlers.AtId | tools/a64_static.c:17-84 | looking up the id of a legal handler in the table gives that handler with those operands back: the ids of different handlers never collide |
| Handlers.IdAt | tools/a64_static.c:17-84 | every id below 26,508 is the id of a legal handler: the families tile the table without gaps |
| Handlers.FamilySpan | tools/a64_static.c:17-84 | an id inside a family's block belongs to that family alone |
| Handlers.TupleOfIndex | tools/gen_a64_static.py:1754-2144 | mixed-radix operands are read back exactly from their index, for any loop bounds |
| Handlers.IndexOfTuple | tools/gen_a64_static.py:1754-2144 | every index of a loop nest is that of operands within the bounds |
| Handlers.BuildHandlers | tools/gen_a64_static.py:1754-2144 | the nested loops build a list whose entry at every id is the handler of exactly those operands |
| Handlers.AppendNest | tools/gen_a64_static.py:1754-2144 | one loop nest, for any bounds, appends its handlers in id order |
| Handlers.DecoderAluIds | tools/a64_static.c:184-217 | the decoder's id formulas for arithmetic, shifts and flat accesses are the numbering |
| Handlers.DecoderAddressIds | tools/a64_static.c:219-233 | the same for address records |
| Handlers.DecoderAccessIds | tools/a64_static.c:235-248 | the same for direct accesses |
| Handlers.DecoderBlockIds | tools/a64_static.c:250-274 | the same for block transfers |
| Handlers.DecoderVfpIds | tools/a64_static.c:280-294 | the same for VFP core moves |
| Handlers.DecoderVfpSystemIds | tools/a64_static.c:533-553 | the same for VFP system registers |
| Handlers.DecoderVfpDataIds | tools/a64_static.c:276-278 | the same for VFP data operations and VSTM |
| Handlers.FlatRanges | tools/a64_static.c:320-343 | the range tests on ids are tests on the handler's family, both ways |
| Handlers.MemoryRanges | tools/a64_static.c:373-414 | the same for store, STM and LDM handlers |
| Handlers.GuardRanges | tools/a64_static.c:345-361 | the same for direct reads and writes |
| Handlers.VfpAndBranchRanges | tools/a64_static.c:416-465 | the same for VFP and terminal branches |
| Program.DecodeProgramAt | tools/a64_static.c:1336-1447 | the decoding loop over bytes, with its running flags and limits, is the decoding of the instruction list, for any bytes, address, length and mode |
| Operands.DecodedLegal | tools/a64_static.c:754-1334 | whatever the instruction word, mode and position, every record the decoder forms has operands inside its handler's ranges: its id is below the handler count and stands for that handler alone |
| Accepted.ThumbAccepted | tools/a64_static.c:1060-1334 | a halfword has records exactly if it is a branch ending its block, arithmetic that leaves the PC alone, or a load or final store the contract allows |
| Accepted.ArmAccepted | tools/a64_static.c:754-998 | a word has records exactly if it is conditional and a branch ending its block, data processing that leaves the PC alone, a transfer the contract allows, or, behind the caches, one of the VFP instructions listed |
| Accepted.VfpAccepted | tools/a64_static.c:499-752 | which VFP words those are: every core and pair move, arithmetic but no square root, moves, signs, comparisons, widening, and transfers of registers that exist |
| Program.AppendRecords | tools/a64_static.c:1376-1430 | appending one instruction's records accepts exactly lists whose ids are below the handler count and whose exits and stores come last, and patches guard metadata |
| Program.TraitWitness | tools/a64_static.c:1378-1428 | a block flag is set if and only if some record calls for it |
| Validate.ValidateRun | tools/a64_static.c:1722-1873 | the validator's loops accept exactly the blocks whose records, kinds, flags and instruction count are right |
| Validate.ScanCommits | tools/a64_static.c:1576-1655 | the register-mask loop accepts exactly ascending commit lists and returns their registers |
| Validate.ScanBlock | tools/a64_static.c:1576-1655 | a block-transfer span is preflight, the right number of commits and a matching finish, or zero |
| Validate.ScanSpan | tools/a64_static.c:1657-1697 | the span scanner gives the length of the semantic instruction at a record |
| Soundness.ValidatorIsSound | tools/a64_static.c:1722-1873 | on any accepted record array, however built, and for any condition and guard outcomes, dispatch stays inside, moves forwards, leaves within as many steps as there are records, and a failed condition skips exactly one whole semantic instruction |
| Confined.WithinFileIff | tools/a64_static.c:1786-1830 | arithmetic and store records of an accepted array stay inside the VFP register file, and the array does exactly if its moves, comparisons, conversions and loads do |
| Confined.StrayAccepted | tools/a64_static.c:1722-1873 | an accepted array that names a register outside the file |
| Confined.RefusalNamesPrefix | tools/a64_static.c:1768-1784 | whatever refuses in an accepted array names an instruction of its block, and counts those before it and those from it on |
| Confined.BranchLeaves | tools/a64_static.c:1722-1873 | a direct branch closing an accepted array goes to a target on an instruction boundary or to the instruction behind the block, which it links to |
| Dispatch.DispatchIsControl | tools/gen_a64_static.py:39-46 | whatever a record and the machine, a handler goes on, skips, leaves or refuses as the walk over the array says |
| Dispatch.AcceptedRuns | tools/a64_static.c:1722-1873 | so the machine's own dispatch over any accepted array stays inside it, visits no record twice, skips whole semantic instructions at failed conditions, and ends at a record that leaves or refuses, unless one goes outside what is modelled |
| Dispatch.AcceptedStays | tools/a64_static.c:1722-1873 | behind sound caches none does: an array accepted for a hit mode, with the VFP registers of Confined.WithinFileIff, never touches memory outside RAM or a register outside the file, block transfers included |
| Dispatch.ReadHitsUnwritten | tools/a64_static.c:1785-1860 | an array accepted for cached reads only never writes memory, however it was built and wherever its run ends |
| Dispatch.FlatRefusesLast | tools/a64_static.c:1785-1860 | an array accepted for flat memory refuses nowhere but at an indirect branch closing it |
| Agreement.DecodedIsValid | tools/a64_static.c:1336-1447 | every block the decoder returns, in each mode, for any words, address and length, is accepted by the full validator of that kind exactly from its own address and instruction set, over RAM of a power of two, once or, as a flat fixed loop to its start, any number of times |
| Agreement.ValidIsValidDecoded | tools/a64_static.c:1950-2007 | what the full validator accepts in a hit mode, the cheap recheck accepts |
| Agreement.CachedRecheckSuffices | tools/a64_static.c:1950-2007 | every hit-mode block the decoder returns passes the cheap recheck, so skipping the full scan is sound |
| Recheck.RecheckExact | tools/a64_static.c:1950-2007 | over blocks a full validation has accepted the recheck lets through exactly those that start here in this instruction set, fit the budget, use RAM behind a cache guard only and, without consent to store, hold no storing record |
| Recheck.DecodedMade | tools/a64_static.c:1336-1447 | every block the decoder returns is one of those |
| Machine.HitIsTranslation | tools/gen_a64_static.py:471-533 | a cache hit is the architectural translation and its whole block lies in RAM |
| Layout.SlotBits | tools/gen_a64_static.py:471-533 | which bits of an address, and privilege, select the cache slot |
| Layout.WordBits | tools/gen_a64_static.py:160-286 | AND, OR, EOR and NOT of words are those of their bits |
| Layout.GraphSlotExact | tools/gen_a64_static.py:2320-2431 | every instruction address of a fetch block has a graph slot of its own, inside the table |
| ByteOrder.LoadIsLe | tools/gen_a64_static.py:471-533 | a data load of any width is the sum of its bytes, the lowest address weighing least |
| ByteOrder.FetchIsLoad | tools/a64_static.c:1336-1447 | an instruction is fetched as a data load at its address reads it |
| ByteOrder.StoredBytes | tools/gen_a64_static.py:536-640 | a store leaves byte k of the value at the k-th address and everything else alone |
| ByteOrder.LoadStored | tools/gen_a64_static.py:536-640 | loading what was stored gives the value modulo two to the number of bits stored |
| ByteOrder.OtherReadsAreLe | tools/ios3_hle.c:342-352 | texels and device-tree words are read in the same order |
| Shifter.ShiftRegIsShifted | tools/gen_a64_static.py:337-434 | register shifts by 0, 1 to 31, 32 and more give the value and carry of shifting bit by bit, for all four kinds |
| Shifter.ShiftImmIsShifted | tools/gen_a64_static.py:292-334 | immediate shifts, including the encodings of 32 and RRX, likewise |
| Shifter.RotatedImmediate | tools/gen_a64_static.py:160-213 | a rotated immediate and its carry are the rotation by bits |
| RefineAlu.AluAgrees | tools/gen_a64_static.py:160-286 | every data-processing opcode's result and NZCV are the architecture's |
| RefineAlu.ArmDpRefines | tools/a64_static.c:922-996 | every ARM data-processing word, in immediate, compact and two-record form, gives exactly the architectural registers and flags, PC operands included |
| RefineAlu.ThumbAluRefines | tools/a64_static.c:1100-1216 | every Thumb register operation likewise |
| RefineAlu.ThumbArithmeticRefines | tools/a64_static.c:1100-1216 | Thumb shifts, additions, subtractions and immediates likewise |
| RefineAlu.ThumbHighRefines | tools/a64_static.c:1100-1216 | Thumb high-register operations likewise |
| RefineMemory.ReadRefines | tools/gen_a64_static.py:471-533 | a direct load hits if and only if the address is aligned and cached, and is then the architectural load; otherwise nothing changes |
| RefineMemory.WriteRefines | tools/gen_a64_static.py:536-640 | a direct store, with writeback and unprivileged forms, likewise |
| RefineMemory.ArmSingleRefines | tools/a64_static.c:851-920 | under the cache-hit contracts the records of an ARM single load or store do what the instruction does, or refuse without a trace |
| RefineMemory.FlatRefines | tools/gen_a64_static.py:1837-1868 | a flat access, masked to the RAM, is the architectural word access if and only if the address is aligned |
| RefineMemory.ArmFlatRefines | tools/a64_static.c:909-920 | under the flat contract an ARM word load or store does what the instruction does wherever the architecture defines it |
| RefineBlock.PreflightProves | tools/gen_a64_static.py:643-722 | a block preflight passes if and only if the whole range is aligned in one cached block, and then has proved every word of it |
| RefineBlock.BlockRefines | tools/gen_a64_static.py:643-859 | LDM and STM are all or nothing: with the range in one cached block, registers, memory, writeback, flags and hit counters are those of the architectural word-by-word transfer in ascending order; otherwise everything is untouched |
| RefineBlock.BlockAddressesAgree | tools/gen_a64_static.py:643-722 | first address and writeback value are those of the four address modes (section A5.4) |
| RefineBlock.ArmBlockRefines | tools/a64_static.c:811-849 | every decoded LDM or STM word likewise |
| RefineInsn.MissIsGuarded | tools/gen_a64_static.py:2250-2290 | only a runtime-guarded record refuses, and a refusal changes nothing |
| RefineInsn.RunWithin | tools/gen_a64_static.py:39-46 | an instruction's records behave inside any block as on their own |
| RefineInsn.ArmBranchRefines | tools/a64_static.c:765-784 | ARM B and BL leave to the architectural target with the architectural link |
| RefineInsn.ArmBxRefines | tools/gen_a64_static.py:71-114 | ARM BX and BLX set the T bit and target, or refuse a misaligned ARM target |
| RefineInsn.ArmVfpOurs | tools/a64_static.c:499-752 | every decoded VFP word, moves, system registers, data processing and transfers: its records do what the interpreter does, or refuse untouched |
| RefineInsn.ArmRefines | tools/a64_static.c:754-998 | every ARM word the decoder accepts, in each contract, conditional or not: its records do what the instruction does, skip it, or refuse untouched |
| RefineThumb.ThumbMemoryRefines | tools/a64_static.c:1218-1334 | Thumb loads and stores likewise, SP-relative ones under the flat contract too |
| RefineThumb.ThumbDirectBranchRefines | tools/a64_static.c:1067-1090 | Thumb conditional and unconditional branches leave to the architectural target |
| RefineThumb.ThumbRefines | tools/a64_static.c:1060-1334 | every Thumb halfword the decoder accepts, in each contract, does what the instruction does or refuses untouched |
| RefineProgram.OnlyLastStores | tools/a64_static.c:1411-1415 | a storing record belongs to the last instruction of its block, flat stores excepted |
| RefineProgram.BlockRefines | tools/a64_static.c:1336-1447 | any decoded block, of any instructions and in each contract, leaves in the architecture's state with all instructions retired, or refuses at a record that names the first unretired instruction, in the state before it |
| RefineProgram.BlockRunsLiveCode | tools/a64_static.c:1411-1415 | the same against an architecture that fetches every instruction from memory as it is at that moment: every block under the cache-hit contracts, and every flat block that has not overwritten an instruction before reaching it |
| RefineProgram.LiveFetchesDecoded | tools/a64_static.c:1336-1447 | the architecture fetches exactly the decoded instructions if and only if RAM still holds each of them when it is reached |
| Overwritten.StoreOverCode | tools/a64_static.c:1218-1334 | on any flat machine whose first two instructions store a branch over the second, the block leaves at its end while the architecture stays |
| RefineLoop.LoopRefines | tools/gen_a64_static.py:1757-1771 | a block that END restarts while rounds are left is the architecture executing its instructions round after round, from each round's end to the next, for any number of rounds |
| RefineLoop.OneRound | tools/gen_a64_static.py:1757-1771 | dispatch with a count of rounds is one run of the block, then dispatch with one round fewer from where that run ended |
| RefineProgram.BlockRefinesApplies | tools/a64_static.c:1081-1090 | the block theorem's hypotheses hold together: the Thumb branch to itself decodes to such a block, and a machine with empty caches is sound |
| RefineProgram.FlatApplies | tools/gen_a64_static.py:1837-1868 | the flat theorems' hypotheses hold together for every power-of-two RAM of at least one translation block |
| Chain.LoadInjective | tools/gen_a64_static.py:2380-2431 | two wide loads are equal if and only if all their bytes are |
| Chain.RawMatches | tools/gen_a64_static.py:2380-2431 | the 8, 4 and 2-byte comparison accepts if and only if all bytes match |
| Chain.ChainContext.Advance | tools/a64_static.c:2044-2069 | a finished head adds its instructions and one block; the chain goes on if and only if budget is left and the selector's block, if some validation has accepted it, starts here, fits and holds no record the runner has no licence for; the over-budget returns are not reached |
| Chain.ChainContext.Partial | tools/a64_static.c:2071-2081 | a refused head adds its retired prefix, and a block only if something retired |
| Chain.ChainContext.Miss | tools/gen_a64_static.py:2250-2283 | the miss epilogue decodes the prefix from the metadata and leaves cycles risen by exactly the retired instructions |
| Chain.ChainContext.GraphAdvance | tools/gen_a64_static.py:2320-2431 | the graph goes on exactly to a node with the same identity, within budget, whose bytes are those in memory now |
| Chain.Witness | tools/gen_a64_static.py:2340-2431 | the node checks one by one accept exactly such nodes |
| Chain.ChainIsLinked | tools/a64_static.c:2083-2149 | in any chain each head starts where and in the instruction set in which the one before ended, and the retired instructions never exceed the budget |
| Chain.HeadsRunnable | tools/a64_static.c:2083-2149 | no head of a chain, whatever the selector offers and wherever heads end, uses RAM without a cache guard, and without consent to store none holds a storing record |
| Chain.RunHitsChain | tools/a64_static.c:2083-2149 | for any selector and any misses: completed is the sum over the heads and within budget, cycles rises by exactly that, blocks counts exactly the heads that retired something, the final address is the first unretired one; the entry is accepted, and every head run, exactly under the recheck's conditions on its records; a rejected entry changes nothing |
| ChainRun.AcceptedIsLive | tools/gen_a64_static.py:2320-2431 | an accepted node's records, of whatever instructions and under whichever contract, are the decode of the bytes in memory at that moment |
| ChainRun.HeadIsLive | tools/gen_a64_static.py:2320-2431 | a live head's run is that many architectural instructions fetched live, and a refusal names the exact prefix |
| ChainRun.LiveRunJoin | tools/gen_a64_static.py:2320-2431 | live runs compose |
| ChainRun.RunGraph | tools/gen_a64_static.py:2320-2431 | a whole graph-chained run, under either cache-hit contract, is exactly `completed` architectural instructions executed from live memory, stores into code and VFP included, within budget, with cycles and blocks to match; and it stops only because a record refused, the budget is spent or no node continues |
| ChainRun.DecodedGuards | tools/a64_static.c:1398-1404 | every guard of a decoded block carries the metadata the miss epilogue relies on |
| VfpCompare.NumberOrder | tools/gen_a64_static.py:1075-1178 | the order of the encoded real numbers, zeros equal and infinities extreme, is the order of the encodings read as sign and magnitude |
| VfpCompare.CompareIsOrder | tools/gen_a64_static.py:1075-1178 | every bit of FPSCR after a compare: N, Z, C, V for less, equal, greater and unordered, the exception bits for NaNs and flushed denormals, all others kept |
| VfpCompare.CompareAgrees | core/src/arm/vfp.c:971-1018 | the integer-only compare handler leaves the FPSCR the interpreter leaves, for every pair of encodings and every mode |
| Layout.FlagsStand | core/src/arm/vfp.c:840-915 | the cumulative exception flags stand in bits 0 to 4 of the status word in their order |
| RefineVfp.VcmpRefines | tools/a64_static.c:643-745 | every decoded compare word, register and zero forms, single and double, commits exactly behind its gate, and then does what the interpreter does |
| VfpWiden.WidenIsExact | tools/gen_a64_static.py:1181-1256 | widening maps every finite binary32 encoding, subnormals included, to a binary64 encoding of the same real and sign, infinities to infinities, NaNs to quiet NaNs with payload or the default, and flushes exactly as FZ says |
| VfpWiden.NormalizedAtOnce | tools/gen_a64_static.py:1214-1226 | counting leading zeros and shifting once is moving the significand up bit by bit |
| VfpWiden.WidenAgrees | core/src/arm/vfp.c:1043-1060 | the widening handler's result and FPSCR are the interpreter's for every binary32 and every mode |
| RefineVfp.VcvtRefines | tools/a64_static.c:643-745 | every decoded widening word commits exactly behind its gate with that result and status, and touches no other register |
| RefineArith.OperationAgrees | tools/gen_a64_static.py:1259-1313 | whatever the arithmetic unit computes, a result the handler classifies as safe is the interpreter's under flush-to-zero and default-NaN: no operand or result flushed, no NaN replaced, no rounding at the flush boundary, nothing to report but inexact |
| RefineArith.ArithAgrees | tools/gen_a64_static.py:1316-1451 | the nine operations, the four multiply-accumulates rounding twice with their negations, commit only the interpreter's result, and FPSCR already holds every flag the interpreter would set |
| RefineVfp.VfpArithRefines | core/src/arm/vfp.c:840-915 | every decoded arithmetic word, single and double, refuses or does what the interpreter does, for any arithmetic unit |
| RefineVfp.VfpUnaryRefines | tools/gen_a64_static.py:1050-1072 | every decoded VMOV, VABS and VNEG likewise |
| RefineVfp.CoreMoveRefines | core/src/arm/vfp.c:704-783 | every decoded transfer between a core register and an S register, half a D register or a system register likewise, with the unit on or off and privileged or not |
| RefineVfp.PairMoveRefines | core/src/arm/vfp.c:792-826 | every decoded two-register transfer likewise |
| VfpTransfer.VstrRefines | tools/gen_a64_static.py:1521-1628 | VSTR, single or double: hits if and only if the unit is enabled and every word is aligned and cached, even over two blocks, and is then the architectural word stores; otherwise nothing |
| VfpTransfer.VldrRefines | tools/gen_a64_static.py:1454-1518 | VLDR hits if and only if the unit is enabled and the words are aligned inside one cached block, and is then the architectural word loads |
| VfpTransfer.VstmRecord | tools/gen_a64_static.py:1631-1751 | the VSTM loop, register after register, stores what its specification says or refuses before the first store |
| VfpTransfer.VstmRefines | tools/gen_a64_static.py:1631-1751 | VSTM hits if and only if the unit is enabled and the whole range is in one cached block, and is then the ascending word stores with the writeback of its mode; otherwise nothing |
| VfpTransfer.SingleDecodes | tools/a64_static.c:594-609 | a decoded VLDR or VSTR is an address record for its base and offset and a transfer record for its register |
| VfpTransfer.VstmDecodes | tools/a64_static.c:611-640 | a decoded VSTM carries the register range, mode and base of its word and stays inside the register file |
| VfpTransfer.ArmVfpSingleRefines | core/src/arm/vfp.c:597-624 | every decoded VLDR and VSTR word does what the interpreter does at its base plus or minus four times its offset, or refuses untouched |
| VfpTransfer.ArmVstmRefines | core/src/arm/vfp.c:626-692 | every decoded VSTM word likewise, in its three address modes with writeback |
| RowShadow.OverlaidIsWritten | tools/ios3_hle.c:1337-1350 | overlaying captured rows on bytes read from old memory gives the bytes of the memory with those rows written in order |
| RowShadow.Shadow.Read | tools/ios3_hle.c:1352-1439 | every shadow read below the limit equals guest memory with earlier rows and the current row's chunks written |
| Layout.FrameAreas | tools/ios3_hle.c:1364-1383 | reads inside the stack, start and delta areas of a call frame give those areas' bytes |
| RowShadow.Shadow.SearchPrior | tools/ios3_hle.c:1410-1424 | the scan of earlier rows serves a range only from a row that holds all of it with nothing later over it |
| RowShadow.Shadow.Write | tools/ios3_hle.c:1469-1502 | a shadow write is a write to that memory, or is refused by the row's limits without a change |
| RowShadow.ShadowCall | tools/ios3_hle.c:1626-1702 | any renderer, whatever it reads and writes, behaves through the shadow as with immediate writes |
| RectRoot.Drawn | tools/ios3_hle.c:1779-1880 | what a clip leaves of a shape is exactly their common pixels, and none of them is off the 320 by 480 display |
| Tiling.CallsTile | tools/ios3_hle.c:1599-1702 | a pixel is inside shape and clip exactly if one renderer call draws it, and then only one does; rows go down, chunks to the right, each call is as wide as allowed and has the frame of its place |
| Tiling.OnlyTheseCalls | tools/ios3_hle.c:1599-1702 | what comes out depends on the renderer's answers to those calls alone |
| Tiling.EachOfTheseCalls | tools/ios3_hle.c:1626-1702 | a renderer that refuses any one of them makes the root decline |
| RowShadow.RenderRow | tools/ios3_hle.c:1626-1702 | a row rendered in chunks captures exactly what immediate writing leaves, disjoint from all earlier rows |
| RectRoot.RenderRows | tools/ios3_hle.c:1599-1702 | all rows, each in one call or two as the texture state in memory decides, are captured as immediate writing leaves them, memory untouched |
| Publish.Machine.Read | tools/bootkernel.c:3603-3624 | the interval-wise reader serves a range if and only if every byte of it is mapped in RAM, and gives those bytes |
| Publish.ReadIsView | tools/bootkernel.c:3603-3624 | a served read of real memory is a piece of memory as its addresses show it |
| Publish.Machine.WriteV | tools/bootkernel.c:3701-3745 | the two passes write all spans in order, or nothing if any byte of any span is not writable RAM |
| Publish.PublishedView | tools/bootkernel.c:3701-3745 | published spans show as memory with the spans written, if no other address shows their bytes |
| Publish.PublishedIff | tools/bootkernel.c:3701-3745 | spans of given addresses and lengths, whatever their bytes and RAM, show as flat memory with the spans written if and only if no other address shows a byte of them |
| Publish.Oracle.CheckSpan | tools/ios3_hle.c:2395-2425 | a span is taken if and only if it fits the capacity and meets neither a captured span nor an earlier one of its call |
| Publish.Oracle.CaptureV | tools/ios3_hle.c:2395-2441 | capturing appends all spans in order behind what is there, or changes nothing; everything captured stays pairwise disjoint |
| Layout.OverlapIsShared | tools/ios3_hle.c:2395-2425 | two nonempty ranges overlap exactly if a byte is in both |
| LiveRows.ReadRuleIsMachine | tools/ios3_hle.c:1352-1439 | while everything captured can be stored, the shadow serves exactly the reads the machine serves from RAM with the rows in it, and the same bytes |
| LiveRows.CallAlike | tools/ios3_hle.c:1626-1702 | any renderer call through the shadow and directly on RAM: if either ends in a row that can be stored and shows nowhere else, both do, with the same row and RAM that shows the shadow's memory |
| LiveRows.LiveRowsStore | tools/bootkernel.c:3701-3745 | rows written directly, chunk by chunk, leave RAM as the vectored write of the same rows does |
| LiveRows.RowsAlike | tools/ios3_hle.c:1599-1702 | all rows, overlap checks included: storable rows that show nowhere else come out of the shadow if and only if they come out of direct writing |
| RectRoot.PublishedDirectly | tools/ios3_hle.c:1760-1943 | RAM and rows none of whose bytes show at a second address are the outcome of publishing if and only if they are the outcome of writing every row directly to RAM |
| RectRoot.RenderRect | tools/ios3_hle.c:1760-1943 | rendering all rows into scratch and publishing once succeeds exactly when immediate writing would and every row is writable; RAM is then that of writing every row directly, provided no written byte shows at a second address, and where no pixel does even the refusals agree; every decline leaves memory and program counter unchanged |
| RowAlias.SameIffSeenOnce | tools/ios3_hle.c:1760-1943 | publishing together and writing directly agree on RAM, rows and refusals for every RAM, request and renderer if and only if no byte a pixel can be drawn to shows at a second address |
| RowAlias.AliasTells | tools/ios3_hle.c:1352-1439 | where one does, drawing a pixel and reading one byte back tells the two apart |
| Sampler.RoundMono | tools/ios3_hle.c:573-691 | rounding an integer to binary32 is monotone |
| Sampler.HalfTexelsExact | tools/ios3_hle.c:498-532 | multiples of half a texel convert exactly |
| Sampler.IdentityIsScalar | tools/ios3_hle.c:498-532 | where the identity shortcut applies, the scalar loop with its conversions, clamps and refusals gives the consecutive texels |
| Sampler.ConstantIsScalar | tools/ios3_hle.c:534-571 | where the constant shortcut applies, the scalar loop gives that one texel throughout |
| Sampler.SampleScalar | tools/ios3_hle.c:600-691 | the scalar loop computes the per-pixel definition |
| TexelRules.ScalarIsPixels | tools/ios3_hle.c:607-681 | pixel k of the scalar loop is the texel at u + k du and v + k dv modulo two to the 32, over w after k additions, whatever the other pixels; the row is refused exactly if one of its pixels is |
| Sampler.SampleNearest | tools/ios3_hle.c:573-691 | the sampler with both shortcuts gives, pixel for pixel, what the scalar loop gives, refusals included |
| TexelRules.ClampedIsNearest | tools/ios3_hle.c:665-670 | a coordinate becomes the nearest one the texture has |
| TexelRules.RoundIsNearest | tools/ios3_hle.c:659-663 | an integer becomes the nearest binary32 number, the even one of two |
| TexelRules.ToIntTruncates | tools/ios3_hle.c:659-663 | a binary32 number becomes an integer by dropping its fraction, unless a 32-bit integer cannot hold it |
| TexelRules.AddressOfTexel | tools/ios3_hle.c:672-673 | every coordinate inside a texel addresses that texel |
| TexelRules.RefusedBytes | tools/ios3_hle.c:674-679 | a texel is refused exactly if one of its bytes lies beyond the address space or among the pixels being written |
| TexelRules.TexelChannels | tools/ios3_hle.c:680-681 | an opaque row's pixels keep the colours and have full alpha |
| TexelReads.FacadeConsistent | tools/ios3_hle.c:1352-1439 | a bulk read through the row shadow, whatever rows it holds, is its word reads one after the other |
| TexelReads.SampleRow | tools/ios3_hle.c:573-691 | sampling through the row shadow with both shortcuts gives the scalar loop's pixels through the shadow, and those of the scalar loop on RAM with the rows in it |
| Lanes.BilinearIsLerp | tools/ios3_hle.c:713-726 | the wrapping bilinear blend is t + floor(w(b - t)/256) in each channel, for every weight |
| Lanes.LerpBetween | tools/ios3_hle.c:713-726 | that value lies between t and b |
| Lanes.BlendIsOver | tools/ios3_hle.c:955-966 | for premultiplied sources source-over is floor(d(256 - a)/256) + s in each channel, without carries |
| Lanes.BlendExactIffPremultiplied | tools/ios3_hle.c:955-966 | it is exact over every destination if and only if the source is premultiplied |
| Lanes.BlendPremultiplied | tools/ios3_hle.c:955-966 | premultiplied over premultiplied stays premultiplied |
| Lanes.ModulateChannels | tools/ios3_hle.c:968-978 | colour modulation is floor((t + 1)c/256) in each channel and never exceeds the colour's |
| Lanes.ModulateThenBlend | tools/ios3_hle.c:955-978 | modulation keeps premultipliedness, so modulating and then blending stays exact per channel |
| Sha256.ConstantsAreCubeRoots | tools/sha256.c:10-33 | the round constants are the fractional bits of the cube roots of the first sixty-four primes (FIPS 180-4, section 4.2.2) |
| Sha256.InitialIsSquareRoots | tools/sha256.c:115-128 | the initial hash value is that of the square roots of the first eight (section 5.3.3) |
| Sha256.ZeroCountIsLeast | tools/sha256.c:175-204 | the padding is the least that fills a block (section 5.1.1) |
| Sha256.Context.Transform | tools/sha256.c:51-113 | the in-place rounds over the message schedule are the compression function of section 6.2.2 |
| Sha256.Context.Update | tools/sha256.c:130-173 | an update appends to the message; it is refused exactly after finalization or when the message would be too long, and then the whole context is unchanged |
| Sha256.Context.Feed | tools/sha256.c:149-171 | waiting and new bytes are compressed exactly as far as they fill blocks |
| Sha256.Context.Final | tools/sha256.c:175-204 | the digest is that of everything added, and a second call is refused |
| Sha256.PadSplits | tools/sha256.c:184-197 | the one or two last blocks are exactly the padded message |
| Sha256.Hash | tools/sha256.c:206-215 | one call gives the digest, or refuses a message that is too long |
| Sha256.HashParts | tools/sha256.c:130-204 | for every message and every split into updates the digest is that of the concatenation |
| Sha256Words.LoadStored | tools/sha256.c:35-49 | reading a stored word gives the word |
| Sha256Words.StoreLoaded | tools/sha256.c:35-49 | storing a read word gives its bytes |
| Sha256Words.DigestAt | tools/sha256.c:198-204 | word i of the hash value is bytes 4i to 4i+3 of the digest |
| Sha256Words.BigSigma0Bits | tools/sha256.c:51-113 | each bit of the function is the parity of bits 2, 13 and 22 places to its left, counted around (section 4.1.2) |
| Sha256Words.BigSigma1Bits | tools/sha256.c:51-113 | likewise 6, 11 and 25 places |
| Sha256Words.SmallSigma0Bits | tools/sha256.c:51-113 | likewise 7 and 18 places around and 3 places without coming around |
| Sha256Words.SmallSigma1Bits | tools/sha256.c:51-113 | likewise 17 and 19 places around and 10 without |
| Sha256Words.Chooses | tools/sha256.c:51-113 | choice takes the second operand's bits where the first has ones and the third's elsewhere |
| Sha256Words.IsMajority | tools/sha256.c:51-113 | majority has ones where two operands have |
| Sha256Example.DigestOfAbc | tools/sha256.c:51-204 | the digest of "abc" is the published one |
| DeviceTree.EndSer | tools/dt_inplace.h:72-81 | on the serialization of any tree within the limits the walker returns its exact extent |
| DeviceTree.EndIsSerialized | tools/dt_inplace.h:72-81 | on any bytes the walker returns an extent if and only if a tree within the limits is serialized there, and it is the extent of that tree |
| DeviceTree.WalkSer | tools/dt_inplace.h:104-127 | a path walk finds, at each level, the first child of that name, and the node it reaches is serialized there |
| Layout.RoundedUp | tools/dt_inplace.h:55-71 | padding goes to the next multiple of four, in archives to the next multiple of 512, and no farther |
| Layout.NamesItsText | tools/dt_inplace.h:104-127 | a node's name matches a path component exactly if the component is its text up to the first zero byte |
| DeviceTree.PropFromSer | tools/dt_inplace.h:83-102 | a property search finds the first property of that name, its value and length |
| DeviceTree.ReplacedSer | tools/dt_inplace.h:130-154 | overwriting a value's bytes turns the serialization of a tree into that of the tree with only that value replaced |
| DeviceTree.SetCommutes | tools/dt_inplace.h:130-154 | patching commutes with parsing: a successful set is replacement in the tree, and a set fails only if the tree lacks such a property of that size |
| DeviceTree.DtnPropsEnd | tools/dt_inplace.h:58-70 | the property walker, on any bytes |
| DeviceTree.DtnEnd | tools/dt_inplace.h:72-81 | the recursive walker computes the extent, on any bytes, and zero exactly for malformed ones |
| DeviceTree.DtnProp | tools/dt_inplace.h:83-102 | the property search computes its definition and never points outside the buffer |
| DeviceTree.DtnPath | tools/dt_inplace.h:104-127 | the path loop walks the path's components |
| DeviceTree.SetU32 | tools/dt_inplace.h:130-154 | the buffer becomes the patched one, in which the property reads as the number written, or is untouched on refusal |
| DeviceTree.SetReg | tools/dt_inplace.h:193-212 | the same for an address and, behind it, a size |
| GuestPatch.OverlapIsShared | tools/guest_patch.c:193-217 | two entries overlap in virtual addresses if and only if they share a byte of RAM, so separate entries cannot undo each other |
| GuestPatch.Apply | tools/guest_patch.c:63-282 | RAM ends untouched on every failure, or equal to the old RAM with every replacement applied; the manifests that succeed are characterised exactly; on ordinary memory verification cannot fail; every other status names the first thing wrong, and what was checked before it is right |
| GuestPatch.PatchedUnique | tools/guest_patch.c:236-281 | "old RAM with every replacement applied" determines the RAM |
| GuestPatch.StoreAll | tools/guest_patch.c:239-246 | the writing loops leave the patched RAM |
| GuestPatch.Rollback | tools/guest_patch.c:256-268 | rolling back restores the original RAM byte for byte |
| GuestPatch.FindOverlap | tools/guest_patch.c:193-217 | the pairwise search finds an overlap if and only if there is one |
| KernelGate.SitesPlanned | tools/ios3_kernel_patch.c:503-617 | the five sites are a legal, separate, in-range manifest for every RAM the gate accepts |
| KernelGate.SegmentsPlaced | tools/ios3_kernel_patch.c:209-330 | every table segment lies in the file and in RAM |
| KernelGate.LoadedIsFile | tools/ios3_kernel_patch.c:209-330 | a segment counts as loaded exactly if RAM holds its part of the file byte for byte with zeros behind it |
| KernelGate.PatchedIsLoadedButSites | tools/ios3_kernel_patch.c:503-617 | after the patch, loaded segments differ from the file with zero-filled tails only inside the five sites |
| KernelGate.Apply | tools/ios3_kernel_patch.c:332-618 | the gate passes if and only if digest, geometry, segments, prologues and site bytes are as required; once the checks pass the patch transaction cannot fail; every refusal leaves RAM unchanged, and says what is wrong while everything checked before it is right |
| PayloadTar.OctalField | tools/payload_tar.c:53-66 | the field reader returns the number its digits spell or refuses, and its overflow branch is not reached |
| PayloadTar.CheckSum | tools/payload_tar.c:75-83 | the loop accepts exactly headers whose field is their byte sum with the field read as spaces |
| PayloadTar.TraversalIsExact | tools/payload_tar.c:98-103 | the path test refuses exactly absolute paths and paths with a ".." component |
| PayloadTar.Payload.Take | tools/payload_tar.c:205-329 | one member changes entries, statistics and names as the plan says, or the archive is refused |
| PayloadTar.Payload.Load | tools/payload_tar.c:172-336 | the member loop ends and computes the archive's plan, or refuses |
| PayloadTar.PlanCorrect | tools/payload_tar.c:172-336 | an accepted archive's entries are exactly its usable members in order, with their names, modes, kinds and contents; names are relative, printable and free of ".."; file contents lie inside the image; the statistics add up to the entries and to their bytes |
| PayloadTar.PlanIsUsableMembers | tools/payload_tar.c:172-330 | the same from any offset and any plan so far |
| PayloadTar.PlanIsSound | tools/payload_tar.c:172-330 | every member keeps the plan safe and its statistics exact |
| TarWriter.HeaderReads | tools/payload_tar.c:172-215 | a ustar header written for a safe path, split at any slash that makes both parts fit, with any mode, size, kind, link text and other fields, has a valid checksum and reads back as path, mode, size, kind and link text |
| TarWriter.MemberReads | tools/payload_tar.c:205-329 | the reader's step on a written member adds that member's entry, or refuses for number, name space or a missing link source |
| TarWriter.OtherKinds | tools/payload_tar.c:205-245 | GNU long names refuse the archive, pax records, volume labels and devices leave no trace, other unknown kinds leave no entry, unsafe names refuse |
| TarWriter.PaddedReads | tools/payload_tar.c:53-66 | a number reads back behind any spaces and zero bytes and up to any such byte, a field of them is zero, and any other byte among the digits refuses |
| TarWriter.PrintableIs | tools/payload_tar.c:90-96 | printable means ASCII from space to tilde but no backslash |
| TarWriter.RoundTrip | tools/payload_tar.c:172-336 | writing any members as an archive and reading it below a prefix gives one entry a member in order, with exactly its path, permission bits, kind, link text and contents byte for byte; it is refused exactly for the reasons of MemberReads |
| TarWriter.ModestAccepted | tools/payload_tar.c:150-155 | an archive without hard links whose members need no more name space than is reckoned for a header is accepted |
| TarWriter.LongPrefixRefused | tools/payload_tar.c:150-155 | below a long enough prefix an archive of one empty member is refused |
| PayloadTar.Payload.FindSource | tools/payload_tar.c:295-305 | a hard link takes the first earlier regular member whose path ends with its text |
| HardLinks.LinkSourceExact | tools/payload_tar.c:295-305 | the search finds the member the link names, and none if it names none, if and only if no earlier regular member's path merely ends with the text |
| HardLinks.LinkSourceMistaken | tools/payload_tar.c:172-336 | an archive, read by the reader, in which one hard link copies another member than the one it names and one that names nothing is not refused |
| FileBlock.Session.Revalidate | tools/file_block.c:387-419 | regularity, size, link count and identity are checked and a fault latches |
| FileBlock.Session.ReadOrWrite | tools/file_block.c:458-597 | a read or write request makes exactly the calls and changes of its specification |
| FileBlock.Session.FlushCallback | tools/file_block.c:599-621 | the same for a flush |
| FileBlock.Adapter.OpenFile | tools/file_block.c:656-755 | opening runs its checks in order, closes what it cannot use and reports why |
| FileBlock.Adapter.Flush | tools/file_block.c:763-789 | the bounded flush loop computes its specification |
| FileBlock.Adapter.CloseFile | tools/file_block.c:791-866 | the bounded close with its separately kept failure flag and first error is validation, sync and close, each remembered by the session |
| FileBlock.RevalidatedKeeps | tools/file_block.c:387-419 | validation succeeds if and only if the answer just given matches the file that was opened |
| FileBlock.TransferredKeeps | tools/file_block.c:458-597 | a successful transfer is one validation and one request inside the expected size; a request outside it makes no host call |
| FileOutcomes.TransferOutcome | tools/file_block.c:458-597 | what a nonempty transfer reports, from the host's own answers: success exactly if the file was found and bytes moved, with the host's count up to the request; zero bytes latches EIO, an interruption asks for a retry with nothing changed, any other errno latches |
| FileOutcomes.OtherRequests | tools/file_block.c:458-597 | every other request is answered without the host, with success exactly for an empty one inside the file of a clean session |
| FileOutcomes.FlushOutcome | tools/file_block.c:599-621 | the same for a flush callback |
| FileOutcomes.OpenOutcome | tools/file_block.c:656-755 | opening succeeds exactly if every answer of the host is as required; otherwise it reports the first that is not, keeps its errno and closes the descriptor |
| FileOutcomes.FlushReport | tools/file_block.c:763-789 | a flush makes callbacks until one asks for no retry, 64 at most, and reports and keeps the last one's answer |
| FileOutcomes.CloseOutcome | tools/file_block.c:791-866 | closing asks for metadata and a sync until an answer is no interruption, closes the descriptor once whatever they say, and retires the session with the first error there was; success exactly if there was none |
| FileOutcomes.LookedFirst | tools/file_block.c:656-755 | metadata is asked for until an answer is no interruption, at most 64 times |
| FileOutcomes.SyncedFirst | tools/file_block.c:791-866 | so is a sync when closing |
| FileBlock.OpeningKeepsGood | tools/file_block.c:656-755 | opening gives a session on a file that was locked and then found unchanged, or leaves no descriptor open, and never disturbs an open session |
| FileBlock.FlushingKeepsGood | tools/file_block.c:763-789 | a flush reports success only after a validation and a sync the host confirmed |
| FileBlock.RetiringKeepsGood | tools/file_block.c:791-866 | a close reports success only for a clean session whose metadata was found unchanged and whose sync and close succeeded; otherwise the first error is kept and reported |
| FileBlock.RetiredFails | tools/file_block.c:458-621 | a retired session's descriptor fails every callback with no host call and no change |
| FileBlock.FailedSessionFails | tools/file_block.c:458-621 | a failed session errs on all I/O without host calls, and its flush and close report failure |
| FileBlock.FailureSticks | tools/file_block.c:355-367 | over any run a failure is never cleared and its first error never replaced |
| FileBlock.StepKeepsGood | tools/file_block.c:656-866 | every operation keeps the session invariant and makes a bounded number of host calls |
| FileBlock.RunKeepsGood | tools/file_block.c:656-866 | over any sequence of operations with any host answers retired sessions stay as they are and the log only grows |
| FileBlock.RunsAreSafe | tools/file_block.c:656-866 | from the start, over any sequence and any host: at most one session is active, its descriptor is the only one open, none is used after its close, closed twice or leaked, and every transfer directly follows a validation of the locked file and stays inside it |

## Left out

- RefineArith.ArithAgrees: both sides use the same arbitrary arithmetic unit for one rounded operation, as the handler and the
  interpreter use the same host's; what an IEEE addition is, is not part of this model. Square root, narrowing and integer
  conversions are refused by the decoder and left to the interpreter.
- RefineProgram.BlockRefines: under the flat contract it speaks of runs whose accesses the architecture defines, over RAM of
  at least one 1 KiB block.
- RefineProgram.BlockRunsLiveCode: false of a flat block that overwrites an instruction before reaching it, as
  Overwritten.StoreOverCode shows, so for flat blocks it assumes that none does.
- RefineLoop.LoopRefines: the cycle count, which a flat run raises by rounds times instructions before it starts, is left out.
- RefineMemory.ArmFlatRefines: likewise only where the architecture defines the access.
- Accepted.ArmAccepted: speaks of one word; the block also refuses a VFP store that is not last, and more than 80 records.
- Tiling.CallsTile: how many calls a row takes, one or two, is what the guest's structures say; their offsets are the program's
  own and are not checked against anything else.
- Dispatch.AcceptedStays: of hit modes only; a flat word access across the end of RAM is outside this model.
- Dispatch.AcceptedRuns: of runs that reach neither such an access nor a missing VFP register.
- RefineInsn.ArmRefines: concerns the words the decoder accepts; words it refuses go to the interpreter, which is not part
  of this model.
- ChainRun.RunGraph: takes nodes whose records are the decode of their bytes; building nodes, filling the data caches and
  walking page tables are not part of this model.
- Sampler.SampleNearest: host reciprocal, multiplication and addition are arbitrary except where an operand is one or zero;
  the perspective divide is therefore covered only as an unknown function that both sides share.
- RectRoot.RenderRect: a store to memory that cannot take it ends direct writing, as a fault would, without the fault's own
  effects; shape and clip are given as integers and each row's call frame as a function; converting the guest's
  vertices, edge and texture interpolation, and the scanline code itself, which is an arbitrary renderer, are left out.
- Lanes.BilinearIsLerp: the vertical step on packed pixels; the bilinear row loop around it is left out.
- GuestPatch.Apply: the manifest's own storage does not overlap RAM; report fields other than status, entry and byte are
  left out.
- KernelGate.Apply: the parsed load commands are the fixed segment table; Mach-O parsing, host pointer overlap checks and
  the report's text are left out, and no particular digest is computed.
- DeviceTree.DtnPath: paths and names are byte strings without terminators; the compatible-string search is left out.
- PayloadTar.Payload.Load: reading the file, allocation failure and error texts are left out.
- FileBlock.Session.ReadOrWrite: one method for the two callbacks, which differ only in the host call; buffer contents, the
  Windows seek and the host's own retry loops for opening and locking are left out.
- FileBlock.Adapter.CloseFile: destroying the adapter closes and frees and is left out.
- Program.DecodeProgramAt: the variant that reads host-endian arrays equals the little-endian one on the hosts the engine
  runs on and is left out.
- AArch64 calling convention, stack slots and the saving of the host's own floating-point state by the generated code; tracing and diagnostics;
  the button ring, drag interpolation, WAV sink, boot options and readiness probe.
