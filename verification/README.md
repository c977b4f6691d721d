# nub: a verified model

`nub` runs PVM2 programs (RV64E with compressed and bit-manipulation
instructions and a few custom-0 operations) on two engines that must agree on
bytes and on gas. This project models the parts of it that carry whole-run
promises and proves those promises in Dafny 4.11. `dafny verify dfyconfig.toml`
checks everything.

Each part is modelled twice where the source updates things in place: once as
functions on values, about which the laws are proved, and once as classes and
methods with the loops of the source, each proved to compute its function.

## What is modelled

**Metered execution** (`nub-exec`). `GasSim` is the single-pass pipeline
simulator, `GasCost` the cost table, `Isa` and `Predecode` the decoding into gas
blocks, `Interp` one interpreter iteration, `Metering` the laws of whole runs,
`FlatMemory` the flat memory with first-touch accounting, and `Interpreter` the
counter, memory and loop in place. `Formats` checks the decoder against the
instruction formats, `InstLaws` says what each instruction does and that the
gas model tracks the registers it uses, and `KnownPrices` writes prices out.
Control flow, `lui` and `auipc` are decoded and run concretely; the remaining
decoding and all arithmetic results are function parameters, and so is the ecall
handler (a function of its own state, the ecall kind, the registers and memory).
Results hold for all of them.

**Demand-paged memory** (`nub-arch-x86`, `nub-flat-guest-x86`). `PagedMemory` is
the page-fault handler on values, `DemandPaging` its agreement with the flat
memory over every run, `TableReuse` the reuse of parked page tables,
`PageTables` the four-level table as an object, and `FaultHandler` the handler
in place on such a table. Pages are named by page number and physical pages by
frame number. The hardware is modelled as follows: an access succeeds if every
page it touches is mapped with enough permission; otherwise it faults on the
first byte of the access in the lowest page that is not, and is retried.

**The linker** (`nub-linker`). `Encoding` holds the branch immediates of the
RISC-V Unprivileged ISA (20191213, section 2.3 and chapter 16), `Chunks` code as
a list of instructions and the linker's own classification, `Inject` the
fallthrough injection, `AlignPass` the same pass on bytes with its four loops,
`LinkSimulation` the bisimulation between old and new program, each running with
its own code addresses, `RenamedRuns` a simple machine it applies to, `PcRel` the
address pairs, `LinkedRuns` runs through injection and fixup together, and
`LinkedCalls` the path from the linker to the interpreter.

**Kernel bookkeeping and the blob** (`nub-arch-x86`, `nub-program`). `GasBank`,
`Scheduler` and `LaneSlot` are the gas bank, the cooperative scheduler and the
host/guest slot protocol, and `Outcomes` says whose outcome a run returns;
`Codec` is the program blob and its encoding, and `WireFormat` its layout.

## Where the code does not keep a promise

Each of these has a concrete counterexample and the exact condition under which
the promise holds.

- If code abuts `DATA_BASE`, a read straddling the border is refused by the flat
  memory but succeeds in the fault handler once the code page is mapped. The two
  agree on all runs if and only if an undeclared page separates code from data
  (`AgreementNeedsGap`, `AbuttingExample`).
- Topping up gas is transparent if and only if the ecall handler never itself
  exits with `OutOfGas` (`TopUpTransparent`, `TopUpExample`).
- A blob round-trips if and only if it is valid, its lengths fit their 32-bit
  fields, which fails only if its page sum wraps, and no endpoint sets all 256
  register indices: the count is one byte and 256 becomes 0 (`RoundTripExactly`,
  `LengthsFitUnlessWrapped`, `RoundTripBroken`).
- `validate` bounds the data regions if and only if the four page counts sum to
  less than 2^32; the sum wraps (`ValidateBounds`, `ValidateWraps`).
- `decode_error_at` is documented as the first reserved encoding, but a
  truncated instruction at the end replaces it. It is the first error if and
  only if the code does not have both (`ErrorIsFirst`, `ErrorIsLast`).
- The saturation of a block reserve is said never to bind. It binds if and only
  if the block holds 2^23 stores or more, which 16 MiB of compressed stores do
  (`ReserveSaturates`, `ReserveBinds`). It does no harm: 256 gas for every page
  of the address space stays below it (`PagesBelowSaturation`).
- Fallthrough injection leaves a four-byte branch to anywhere but an instruction
  start as it is. Taking it goes on as before if and only if no old instruction
  and no fallthrough is moved to where it points, which the old code and the
  offset map tell (`TakeExact`, `OccupiedExactly`, `StrayParts`, `StrayBranch`).
- The pipeline simulator computes the longest dependency chain of a block if and
  only if no completion cycle reaches 2^32. Blocks under 2^24 instructions are
  safe; 229 MB of serial loads, within the permitted code size, are not
  (`LongestChain`, `BlocksFit`, `CountersWrap`).

One promise holds in a stronger form than documented: one fault per access is
enough, not two.

## Model

| member | source | states |
|---|---|---|
| Mat.ChargeFor | nub/nub-exec/src/mat.rs:164-184 | a touch hard-faults exactly on a write to a pinned page; a write leaves the page writable, a read never takes that away; COW_COST is due exactly on the step into PresentRw |
| Mat.AccessPages | nub/nub-exec/src/mat.rs:220-236 | an access touches one or two distinct pages of the 32-bit space |
| Mat.AccessPagesExact | nub/nub-exec/src/mat.rs:215-236 | the page set is exactly the set of pages of the accessed bytes, wrap at 4 GiB included |
| Mat.UnitIdentifiesCapAndCluster | nub/nub-exec/src/mat.rs:52-72 | a read-only unit name identifies its (cap, 2 MiB cluster) pair: disjoint caps never share one |
| FlatMemory.TouchPages | nub/nub-exec/src/mem.rs:384-404 | charging an accessible page set costs COW_COST times the drop in not-yet-written pages, at most COW_COST per page, nothing for reads |
| FlatMemory.TouchedState | nub/nub-exec/src/mem.rs:389-400 | a write leaves its page writable, a first read present; read-only pages and all other pages keep their state |
| FlatMemory.TouchPagesInOrder | nub/nub-exec/src/mem.rs:389-400 | pages are advanced low to high, each on the state the previous one left |
| FlatMemory.Touch | nub/nub-exec/src/mem.rs:334-425 | first-touch accounting is all-or-nothing; its charge is COW_COST per page turned writable, at most 512 for a store and 0 for a load |
| FlatMemory.TouchCharge | nub/nub-exec/src/mem.rs:389-404 | the charge is COW_COST for exactly the set of pages the access turned writable, and no page loses writability |
| FlatMemory.Write | nub/nub-exec/src/mem.rs:495-556 | a write succeeds exactly where a read of that width does, and reading back gives the bytes written |
| FlatMemory.WriteFrame | nub/nub-exec/src/mem.rs:452-556 | a write leaves every non-overlapping read unchanged |
| FlatMemory.Load | nub/nub-exec/src/interp.rs:153-223 | a guest load changes no byte, debits nothing and leaves the number of written pages alone |
| FlatMemory.Store | nub/nub-exec/src/interp.rs:225-262 | a guest store debits COW_COST times the pages it turned writable, at most two of them, faulting or not |
| FlatMemory.StoreCharge | nub/nub-exec/src/interp.rs:225-262 | the debit of a store is COW_COST for exactly the set of pages it turned writable, also when it then faults |
| FlatMemory.StoreThenLoad | nub/nub-exec/src/interp.rs:153-262 | a load of the bytes a successful store wrote returns them |
| FlatMemory.ReadCodeImage | nub/nub-exec/src/interp.rs:930-950 | the code region reads as the code followed by zeros to the end of its last page, and past that not at all |
| FlatMemory.LoadCode | nub/nub-exec/src/interp.rs:153-223 | a load inside the code gets exactly code[o..o + width], debits nothing and changes nothing |
| FlatMemory.LoadData | nub/nub-exec/src/interp.rs:153-223 | a load from readable data pages gets the bytes of the buffer at its address |
| FlatMemory.StoreData | nub/nub-exec/src/interp.rs:225-262 | a store to writable data pages puts its bytes at its address and changes no other byte |
| LittleEndian.LeRoundTrip | nub/nub-exec/src/mem.rs:463-556 | bytes stored little-endian read back as the value modulo the width |
| LittleEndian.LeByte | nub/nub-exec/src/mem.rs:463-556 | byte k of a stored value is its digit k in base 256 |
| LittleEndian.LeInverse | nub/nub-exec/src/mem.rs:463-556 | every byte sequence is the bytes of the value read from it |
| PagedMemory.RangeFor | nub/nub-arch-x86/src/jit_run.rs:419-424 | the first materialization range covering a page, or none exactly when no range covers it |
| PagedMemory.RangeForFirst | nub/nub-arch-x86/src/jit_run.rs:419-424 | no range before the one found covers the page |
| PagedMemory.UnitWindow | nub/nub-arch-x86/src/jit_run.rs:836-875 | the fault-around window holds read-only pages of one cap and one unit only |
| PagedMemory.UnitMembers | nub/nub-arch-x86/src/jit_run.rs:836-875 | every page of a unit lies in its fault-around window |
| PagedMemory.MapUnitKeepsInv | nub/nub-arch-x86/src/jit_run.rs:836-875 | faulting a unit around keeps the handler invariant, permits the read and takes no permission away |
| PagedMemory.MapDataKeepsInv | nub/nub-arch-x86/src/jit_run.rs:636-725 | making a data page present (map, re-arm or copy) keeps the invariant and permits the access |
| PagedMemory.MapPageKeepsInv | nub/nub-arch-x86/src/jit_run.rs:606-725 | every page step of the handler keeps the invariant: frames used once, leaves name the effective frame, states match leaves |
| DemandPaging.MapPageAgrees | nub/nub-arch-x86/src/jit_run.rs:636-725 | one materialized page and one touched page of the flat memory stay in agreement and cost the same |
| DemandPaging.PermittedIsFree | nub/nub-arch-x86/src/jit_run.rs:528-736 | a page the hardware already permits is free in the flat accounting too |
| DemandPaging.MaterializeKeepsInv | nub/nub-arch-x86/src/jit_run.rs:528-736 | a whole fault resolution keeps the handler invariant |
| DemandPaging.MapPageKeepsBacking | nub/nub-arch-x86/src/jit_run.rs:758-818 | copy-on-write never writes a shared backing page |
| DemandPaging.RefusedFaults | nub/nub-arch-x86/src/jit_run.rs:546-580 | an access the layout does not allow faults at once and changes nothing, whatever is already mapped |
| DemandPaging.RefusedFlat | nub/nub-exec/src/mem.rs:334-425 | the flat memory refuses the same accesses, charging nothing |
| DemandPaging.AttemptResolves | nub/nub-arch-x86/src/jit_run.rs:528-736 | an allowed access succeeds after at most one fault |
| DemandPaging.ReadDataAgrees | nub/nub-flat-guest-x86/src/mem.rs:72-101 | bytes read through the mapping are the flat bytes |
| DemandPaging.WriteAgrees | nub/nub-flat-guest-x86/src/mem.rs:82-119 | bytes written through the mapping change the same flat bytes and no backing page |
| DemandPaging.AccessIsFlatAccess | nub/nub-arch-x86/src/jit_run.rs:528-875 | every access ends as the same access on the flat memory: same bytes or same refusal, same debit, at most one fault |
| DemandPaging.ServeIsFlatServe | nub/nub-arch-x86/src/jit_run.rs:528-875 | over every run of accesses the demand-paged and the flat memory give the same replies and the same total debit, and the shared backing is untouched |
| DemandPaging.AbuttingHandler | nub/nub-arch-x86/src/jit_run.rs:546-580 | counterexample, handler side: with code abutting data, a straddling read succeeds once the code page is mapped |
| DemandPaging.AbuttingFlat | nub/nub-exec/src/mem.rs:347-360 | counterexample, flat side: the same straddling read is refused |
| DemandPaging.AgreementNeedsGap | nub/nub-arch-x86/src/jit_run.rs:546-580 | the two memories agree on all runs if and only if an undeclared page separates code from data |
| DemandPaging.AbuttingExample | nub/nub-arch-x86/src/jit_run.rs:546-580 | counterexample: zeroed code right below one data page starts in agreement, and the second of two reads is told apart; the largest permitted code is one such layout |
| DemandPaging.Effective | nub/nub-flat-guest-x86/src/mem.rs:72-101 | the effective bytes of a frame: its own copy of a page, else the shared one |
| DemandPaging.EffectiveUnique | nub/nub-flat-guest-x86/src/mem.rs:72-101 | no other flat buffer agrees with a frame |
| TableReuse.RearmKeepsInv | nub/nub-arch-x86/src/jit_run.rs:1017-1029 | clearing W on private pages and zeroing the page state keeps the invariant, as does an empty table |
| TableReuse.ReuseIsNeutral | nub/nub-arch-x86/src/jit_run.rs:1007-1029 | for every access sequence a re-armed parked table gives the same replies, gas and effective bytes as a fresh table over the same overlay |
| PageTables.PathInjective | nub/nub-arch-x86/src/paging.rs:576-600 | two pages share a table of some level only if they agree on all index bits above it |
| PageTables.IndexDigits | nub/nub-arch-x86/src/paging.rs:576-600 | the four indices are the digits of the page number in base 512, most significant at the root |
| PageTables.WalkFour | nub/nub-arch-x86/src/paging.rs:576-600 | a walk is four lookups; it grants writing and user access if all four entries do |
| PageTables.HangKeepsTree | nub/nub-arch-x86/src/paging.rs:677-700 | linking a fresh zeroed table into an empty slot keeps the guest tables a tree |
| PageTables.HangKeepsAllWalks | nub/nub-arch-x86/src/paging.rs:677-700 | linking a fresh table changes no walk and breaks no path |
| PageTables.SetLeafOnlyWalk | nub/nub-arch-x86/src/paging.rs:588-600 | writing one leaf entry changes the walk of exactly one page |
| PageTables.PageTable.constructor | nub/nub-arch-x86/src/paging.rs:383-411 | a new table owns exactly its root and maps no guest page |
| PageTables.PageTable.InstallBorrowedPdpt | nub/nub-arch-x86/src/paging.rs:479-495 | planting a borrowed subtree in another slot changes no guest walk |
| PageTables.PageTable.AllocTable | nub/nub-arch-x86/src/paging.rs:209-213 | an allocated frame is in use by no table; failure changes nothing |
| PageTables.PageTable.EnsureInner | nub/nub-arch-x86/src/paging.rs:677-700 | the slot then links a table of the next level, recorded once if new, and no walk changed |
| PageTables.PageTable.MapLeaf | nub/nub-arch-x86/src/paging.rs:576-600 | success changes the walk of exactly that page to the given frame and permission; failure changes no walk |
| PageTables.PageTable.SetLeafW | nub/nub-arch-x86/src/paging.rs:624-666 | true exactly if the page is mapped, and then only its W bit changes |
| PageTables.PageTable.Drop | nub/nub-arch-x86/src/paging.rs:526-536 | every owned table is handed back, none twice, none kept |
| FaultHandler.Handler.constructor | nub/nub-arch-x86/src/jit_run.rs:1068-1190 | a frame starts with nothing mapped, nothing written and the invariant in force |
| FaultHandler.Handler.MaterializeRoUnit | nub/nub-arch-x86/src/jit_run.rs:836-875 | in place on the page table: exactly the specified unit becomes mapped, once; if tables run out, the fault is abandoned with no gas debited, no permission lost and no byte changed |
| FaultHandler.Handler.CowIntoFresh | nub/nub-arch-x86/src/jit_run.rs:758-818 | in place: a private copy of the effective page, mapped writable, in the overlay; if no page or no table can be had, nothing changes |
| FaultHandler.Handler.FlipW | nub/nub-arch-x86/src/jit_run.rs:692-695 | in place: sets W on an existing leaf, and says whether there was one |
| FaultHandler.Handler.MaterializeData | nub/nub-arch-x86/src/jit_run.rs:636-725 | in place: the specified page step and its charge, or nothing if memory runs out |
| FaultHandler.Handler.TryMaterialize | nub/nub-arch-x86/src/jit_run.rs:528-736 | in place: refuses with nothing changed, leaves exactly the specified state and debits once, or, only if tables or private pages run out, is abandoned half way with no gas debited, no permission lost and no byte changed |
| FaultHandler.Handler.RearmCow | nub/nub-arch-x86/src/jit_run.rs:1017-1029 | in place: every private page loses W, nothing else changes |
| FaultHandler.Handler.StartCall | nub/nub-arch-x86/src/jit_run.rs:1007-1029 | a new CALL on the parked table is the state whose neutrality is proved |
| FaultHandler.AbandonedUnit | nub/nub-arch-x86/src/jit_run.rs:836-875 | a unit mapped in part keeps the invariant but for the unit set, every permission and every byte |
| FaultHandler.AbandonedSecond | nub/nub-arch-x86/src/jit_run.rs:606-736 | so does giving up on the second page of a straddle after the first was done |
| FaultHandler.MapPageKeepsEffective | nub/nub-arch-x86/src/jit_run.rs:606-725 | no page step changes an effective byte or takes a permission away |
| GasSim.BlockCost | nub/nub-exec/src/gas_sim.rs:118-124 | a block never costs zero |
| GasSim.RunTracks | nub/nub-exec/src/gas_sim.rs:42-64 | for blocks that fit, the simulator state is decode cycle, last-writer completion per register and latest completion |
| GasSim.ChainBelowFinish | nub/nub-exec/src/gas_sim.rs:42-64 | no dependency chain outweighs the completion cycle of its last instruction |
| GasSim.FinishChain | nub/nub-exec/src/gas_sim.rs:42-64 | some dependency chain reaches that completion cycle |
| GasSim.LongestChain | nub/nub-exec/src/gas_sim.rs:42-64 | max_done is the maximum over all register-dependency chains of decode cycle plus latencies, bound and attained, if and only if no completion cycle reaches 2^32 |
| GasSim.SlowerCostsMore | nub/nub-exec/src/gas_sim.rs:42-124 | raising latencies never lowers a block cost whose completion cycles fit 32 bits |
| GasSim.ClearLowest | nub/nub-exec/src/gas_sim.rs:91-98 | one mask step removes exactly the lowest set bit |
| GasSim.FeedsAgree | nub/nub-exec/src/gas_sim.rs:42-115 | mask-driven and index-driven feed give the same state on matching operands |
| GasSim.GasSimulator.constructor | nub/nub-exec/src/gas_sim.rs:27-34 | a new simulator is the empty one |
| GasSim.GasSimulator.FeedDirect | nub/nub-exec/src/gas_sim.rs:42-64 | in place: the specified step, whose runs compute the longest chain |
| GasSim.GasSimulator.Start | nub/nub-exec/src/gas_sim.rs:88-98 | the bit loop finds the latest completion over the source mask |
| GasSim.GasSimulator.WriteBack | nub/nub-exec/src/gas_sim.rs:103-111 | the bit loop sets exactly the masked registers |
| GasSim.GasSimulator.Feed | nub/nub-exec/src/gas_sim.rs:68-115 | in place: the specified mask step, moves included |
| GasSim.GasSimulator.FlushAndGetCost | nub/nub-exec/src/gas_sim.rs:118-124 | reads the block cost |
| GasSim.GasSimulator.Reset | nub/nub-exec/src/gas_sim.rs:128-133 | back to the empty simulator |
| GasCost.TerminatorFlagsAgree | nub/nub-exec/src/gas_cost.rs:630-694 | the cost table flag and the predecode classifier call the same instructions terminators |
| GasCost.BlocksFit | nub/nub-exec/src/gas_cost.rs:181-252 | no completion cycle of a block under 2^24 instructions overflows 32 bits |
| GasCost.CountersWrap | nub/nub-exec/src/gas_cost.rs:469-564 | counterexample: enough serial spilled loads, within the permitted code size, overflow the counters, and max_done is then not the longest chain |
| GasCost.CostIsLongestChain | nub/nub-exec/src/gas_cost.rs:550-564 | a block cost is its heaviest dependency chain less three, or one, whenever the counters do not overflow |
| GasCost.MemCyclesMonotone | nub/nub-exec/src/gas_cost.rs:469-564 | raising mem_cycles never lowers a block cost, spilled operands included, as long as the raised cost does not overflow |
| GasCost.ReserveOf | nub/nub-exec/src/gas_cost.rs:595-603 | only stores reserve, two copy-on-writes each |
| GasCost.NamedOperands | nub/nub-exec/src/gas_cost.rs:276-452 | the gas model tracks exactly the source and destination registers of each form; the destination of a jalr is not tracked |
| KnownPrices.OtherPrices | nub/nub-exec/src/gas_cost.rs:181-252 | latency, decode slots and operands of loads, stores, jumps, branches, upper immediates, ecalls, fences and the rest |
| KnownPrices.UnaryPrices | nub/nub-exec/src/gas_cost.rs:181-252 | latency, decode slots and operands of arithmetic on one register |
| KnownPrices.BinaryPrices | nub/nub-exec/src/gas_cost.rs:181-252 | latency and operands of arithmetic on two registers, row by row |
| KnownPrices.BinarySlots | nub/nub-exec/src/gas_cost.rs:181-252 | their decode slots, with what writing over a source saves |
| KnownPrices.SpillPrices | nub/nub-exec/src/gas_cost.rs:469-526 | each operand of a load or store in x3 or x4 adds a memory access |
| KnownPrices.SpillPricesElsewhere | nub/nub-exec/src/gas_cost.rs:469-526 | the same for upper immediates, branches and arithmetic, up to 255 cycles |
| KnownPrices.FourPerCycle | nub/nub-exec/src/gas_sim.rs:42-64 | one-slot instructions decode four to a cycle |
| KnownPrices.ThreeFed | nub/nub-exec/src/gas_cost.rs:550-564 | the price of any three instructions: each starts when decoded and when the last writers of its sources are done |
| KnownPrices.LoadPrices | nub/nub-exec/src/gas_cost.rs:550-564 | two loads and a jalr cost 47 at 25 cycles an access if the second waits for the first, else 22 |
| KnownPrices.StorePrices | nub/nub-exec/src/gas_cost.rs:550-564 | a store waits for its base and for its value, and not for a store |
| KnownPrices.BranchPrices | nub/nub-exec/src/gas_cost.rs:550-564 | a branch waits for either register, a jalr for its target |
| KnownPrices.MulDivPrices | nub/nub-exec/src/gas_cost.rs:550-564 | blocks of mul and div with their prices |
| Isa.Slot | nub/nub-exec/src/regs.rs:40-64 | exactly x1..x15 have a slot |
| Isa.SlotInjective | nub/nub-exec/src/regs.rs:40-64 | distinct registers have distinct slots |
| Isa.Decode | nub/nub-exec/src/instruction.rs:835-856 | an instruction is two or four bytes inside the code; only a short tail fails |
| Formats.StreamFormat | nub/nub-exec/src/instruction.rs:835-856 | instructions are little-endian; one is four bytes long exactly if its low bits are 11, and decodes exactly if it is all there |
| Formats.ITypeDecodes | nub/nub-exec/src/instruction.rs:874-1193 | every jalr and custom-0 word decodes as its fields say; x16..x31 and unused funct3 are reserved |
| Formats.UTypeDecodes | nub/nub-exec/src/instruction.rs:874-917 | every lui and auipc word decodes to its signed upper immediate |
| Formats.BTypeDecodes | nub/nub-exec/src/instruction.rs:1151-1212 | every branch word decodes to the condition of its funct3, its registers and the displacement its scattered bits spell |
| Formats.JTypeDecodes | nub/nub-exec/src/instruction.rs:1214-1222 | every jal word decodes to its register and the displacement its scattered bits spell |
| Formats.CJDecodes | nub/nub-exec/src/instruction.rs:1586-1604 | every c.j decodes to the displacement its scattered bits spell |
| Formats.CBDecodes | nub/nub-exec/src/instruction.rs:1606-1615 | every c.beqz and c.bnez, likewise, on x8..x15 |
| Formats.CRDecodes | nub/nub-exec/src/instruction.rs:1519-1556 | c.jr and c.jalr, their link register, and the reserved encodings between them |
| Predecode.PredecodePriced | nub/nub-exec/src/predecode.rs:92-185 | instructions lie back to back, starts are the first, post-terminator and ecall ones, gated blocks cost at least one, reserves are the block sums |
| Predecode.BlockPrices | nub/nub-exec/src/predecode.rs:166-185 | any stretch from one block start to the next is priced as a whole at its first instruction, an ecall at nothing, and nothing else is priced |
| Predecode.ErrorAtExact | nub/nub-exec/src/predecode.rs:93-117 | the recorded error offset is the truncated tail if there is one, else the first reserved encoding |
| Predecode.FirstReservedAt | nub/nub-exec/src/predecode.rs:103-105 | the first reserved encoding: none before it |
| Predecode.ErrorIsFirst | nub/nub-exec/src/predecode.rs:69-117 | the recorded offset is that of the first error if and only if the code does not both hold a reserved encoding and end in a truncated instruction |
| Predecode.ErrorIsLast | nub/nub-exec/src/predecode.rs:93-117 | counterexample: the all-zero instruction and a stray byte record offset 2, not 0 |
| Predecode.ReserveCountsStores | nub/nub-exec/src/gas_cost.rs:595-628 | the reserve of the rest of a block is 512 per store in it |
| Predecode.ReserveSaturates | nub/nub-exec/src/gas_cost.rs:606-628 | the 32-bit cap of a block reserve binds if and only if the block holds at least 2^23 stores |
| Predecode.ReserveBinds | nub/nub-exec/src/gas_cost.rs:606-628 | counterexample: 2^23 or more two-byte stores, from 16 MiB up to the largest permitted code, are one block whose reserve is capped |
| Predecode.FindBlockEnd | nub/nub-exec/src/gas_cost.rs:555-558 | the loop finds the next block start |
| Predecode.CostForBlock | nub/nub-exec/src/gas_cost.rs:550-564 | the driven simulator returns the specified block cost |
| Predecode.ReserveForBlock | nub/nub-exec/src/gas_cost.rs:615-628 | the two saturating sums give the exact reserve capped at 2^32 - 1 |
| Predecode.ComputeBlockCosts | nub/nub-exec/src/predecode.rs:166-185 | costs and reserves at block starts, zero elsewhere and for ecalls |
| Predecode.DecodeAll | nub/nub-exec/src/predecode.rs:93-117 | the decode loop yields the sweep and the recorded error offset |
| Predecode.MarkStarts | nub/nub-exec/src/predecode.rs:132-150 | the marking loop sets exactly the block starts |
| Predecode.PredecodeCode | nub/nub-exec/src/predecode.rs:92-160 | the whole pass computes the specified, priced program, and its error offset is the truncated tail or else the first reserved encoding |
| Interp.FindUnique | nub/nub-exec/src/interp.rs:997-999 | looking up an instruction by its offset finds that instruction |
| Interp.StepShape | nub/nub-exec/src/interp.rs:122-142 | an iteration either stops unpaid at a boundary or pays its fee and runs one instruction whose effect does not depend on gas |
| Interp.BodyLands | nub/nub-exec/src/interp.rs:702-884 | control stays in the program, and off block starts only moves to the next instruction |
| Interp.BodyPays | nub/nub-exec/src/interp.rs:225-262 | a mid-block debit is within the instruction reserve and pays for exactly the pages turned writable |
| Interp.Widen | nub/nub-exec/src/interp.rs:153-223 | an unsigned load value is the number loaded; a signed one keeps its signed value in 64 bits |
| Interp.StoredValueLoads | nub/nub-exec/src/interp.rs:153-262 | running a store and then a load of the same address and width leaves the low bytes of the stored register, widened |
| Interp.OppositeBranches | nub/nub-exec/src/interp.rs:740-811 | of each pair of opposite conditions exactly one is taken; the orders are total |
| InstLaws.RegistersHold | nub/nub-exec/src/interp.rs:897-913 | x0 and x16..x31 read as zero and drop what is written; each other register holds what was last written to it |
| InstLaws.RegistersCover | nub/nub-exec/src/regs.rs:40-64 | two register files with the same x1..x15 are the same |
| InstLaws.BranchDoes | nub/nub-exec/src/interp.rs:740-811 | for each of the six comparisons: if it holds, control goes to pc plus the immediate, or panics in place exactly if no block starts there; if not, to the next instruction; nothing else changes |
| InstLaws.JalDoes | nub/nub-exec/src/interp.rs:702-717 | jal goes to pc plus the immediate, or panics in place exactly if no block starts there, and links the address after it |
| InstLaws.JalrDoes | nub/nub-exec/src/interp.rs:718-739 | jalr goes to the code offset of rs1 plus the immediate, read before the link is written, or panics in place exactly if no block starts there |
| InstLaws.EcallDoes | nub/nub-exec/src/interp.rs:821-852 | the handler gets the kind, the registers and the pc after the ecall; control goes on there with what it left, or ends as it says |
| InstLaws.ComputeDoes | nub/nub-exec/src/interp.rs:264-699 | arithmetic, lui and auipc write their value to rd and nothing else |
| InstLaws.LoadDoes | nub/nub-exec/src/interp.rs:153-223 | a load puts the little-endian value at rs1 plus the immediate, widened, into rd and nothing else, or faults on the page of that address |
| InstLaws.StoreDoes | nub/nub-exec/src/interp.rs:225-262 | a store puts the low bytes of rs2 at rs1 plus the immediate, or faults on the page of that address |
| InstLaws.PlainDoes | nub/nub-exec/src/interp.rs:812-862 | fences and fallthroughs only move on; a trap and a reserved encoding stop in place |
| InstLaws.ChangesOnlyDst | nub/nub-exec/src/gas_cost.rs:276-452 | the tracked destination is the only register an instruction changes |
| InstLaws.SourcesDecide | nub/nub-exec/src/gas_cost.rs:276-452 | registers that agree on the tracked sources give the same control flow, the same access and the same value in the tracked destination |
| InstLaws.StepDoes | nub/nub-exec/src/interp.rs:122-142 | one iteration is refused with nothing changed exactly if the gas covers not price and reserve, or not the ecall floor; else it pays price, floor and the instruction's own debit |
| InstLaws.EnterDoes | nub/nub-exec/src/interp.rs:89-121 | a run starts at the block start the entry pc names, with all it was given, and panics untouched if there is none |
| Interp.CallReturns | nub/nub-exec/src/interp.rs:702-739 | the link of a jal or jalr, given to a jalr anywhere, leads to the instruction after the call, a block start |
| Interp.StepProgress | nub/nub-exec/src/interp.rs:122-884 | each iteration strictly lowers (gas, 0 at a block start else instructions left), so every run ends |
| Metering.PagesBelowSaturation | nub/nub-exec/src/gas_cost.rs:606-628 | COW_COST for every page is below the 32-bit saturation of a reserve |
| Metering.StepBacked | nub/nub-exec/src/interp.rs:132-141 | inside a block gas stays at least the reserve of the unexecuted rest, or COW_COST times the pages not yet writable if the 32-bit cap binds on the block; and no debit fails |
| Metering.AlwaysBacked | nub/nub-exec/src/interp.rs:122-262 | that two-case bound holds in every state a run reaches |
| Metering.CoversLesser | nub/nub-exec/src/interp.rs:132-141 | in either case gas is at least the lesser of the two |
| Metering.RunNeverCrashes | nub/nub-exec/src/mem.rs:401-403 | no run ever fires the `.expect` on the mid-block charge |
| Metering.EnterNeverCrashes | nub/nub-exec/src/interp.rs:89-142 | entering at any pc with any gas and memory never fires it |
| Metering.ExactGas | nub/nub-exec/src/interp.rs:122-262 | gas used is the costs of blocks entered, the floor of each ecall and COW_COST for each page that became writable |
| Metering.OnlyPaidBlocks | nub/nub-exec/src/interp.rs:117-142 | no instruction runs outside a block paid for on that entry, and no payment is left without its instruction |
| Metering.GateIsUnpaid | nub/nub-exec/src/interp.rs:132-142 | a gate stop leaves pc at a block start with less gas than it asks for |
| Metering.StepMoreGas | nub/nub-exec/src/interp.rs:122-142 | more gas changes nothing but the gas, short of a shut gate |
| Metering.RunMoreGas | nub/nub-exec/src/interp.rs:122-884 | with more gas a run goes on from the gate it stopped at, or ends with that much more left |
| Metering.OogAtGate | nub/nub-exec/src/interp.rs:821-856 | if the handler never says OutOfGas, every OutOfGas exit is a gate |
| Metering.TopUpAtGates | nub/nub-exec/src/interp.rs:117-142 | resuming an OutOfGas exit with leftover plus g2 equals one run with g1 + g2: exit, registers, memory, gas, host |
| Metering.TopUpBroken | nub/nub-exec/src/interp.rs:821-856 | wherever the handler exits OutOfGas, some top-up is told apart |
| Metering.TopUpExample | nub/nub-exec/src/interp.rs:821-856 | counterexample: a program of one ecall whose handler exits OutOfGas |
| Metering.TopUpTransparent | nub/nub-exec/src/interp.rs:117-142 | top-up transparency of all runs holds if and only if the handler never exits an ecall with OutOfGas |
| Interpreter.GasCounter.Charge | nub/nub-exec/src/gas.rs:38-50 | deducts exactly if the balance covers it, else empties the counter |
| Interpreter.CopyingMemory.Touch | nub/nub-exec/src/mem.rs:334-360 | in place: the specified touch, all-or-nothing, charge included |
| Interpreter.CopyingMemory.TouchData | nub/nub-exec/src/mem.rs:364-404 | in place: refuses before any change, else advances every page and charges once |
| Interpreter.CopyingMemory.TouchCode | nub/nub-exec/src/mem.rs:412-425 | reads inside the code region only |
| Interpreter.CopyingMemory.Read | nub/nub-exec/src/mem.rs:452-490 | the bytes at the wrapped offset, or none past the buffer |
| Interpreter.CopyingMemory.Write | nub/nub-exec/src/mem.rs:495-556 | in place: the specified write or nothing |
| Interpreter.ReadCode | nub/nub-exec/src/interp.rs:930-950 | the byte loop reads the code region as specified |
| Interpreter.CopyingMemory.Load | nub/nub-exec/src/interp.rs:153-223 | touch, buffer, then read-only code bytes |
| Interpreter.CopyingMemory.Store | nub/nub-exec/src/interp.rs:225-262 | touch, permission of both end pages, then the bytes |
| Interpreter.PassGate | nub/nub-exec/src/interp.rs:132-142 | check before charge: a shut gate or floor charges nothing |
| Interpreter.Exec | nub/nub-exec/src/interp.rs:152-862 | the instruction match has the specified effect on control, memory and gas |
| Interpreter.RunProgram | nub/nub-exec/src/interp.rs:89-885 | the loop computes exactly the specified run, ends, and every charge in it succeeds |
| Encoding.EncodeCJ | nub/nub-linker/src/link.rs:1307-1334 | refuses exactly odd or out-of-range displacements |
| Encoding.EncodeCB | nub/nub-linker/src/link.rs:1286-1303 | refuses exactly odd or out-of-range displacements |
| Encoding.JRoundTrip | nub/nub-linker/src/link.rs:1200-1222 | a re-encoded jal has the new displacement and the same rd and opcode |
| Encoding.BRoundTrip | nub/nub-linker/src/link.rs:929-948 | a re-encoded branch has the new displacement and the same registers, funct3 and opcode |
| Encoding.CJRoundTrip | nub/nub-linker/src/link.rs:1250-1334 | a re-encoded c.j has the new displacement and the same funct3 and quadrant |
| Encoding.CBRoundTrip | nub/nub-linker/src/link.rs:1272-1303 | a re-encoded c.beqz/c.bnez has the new displacement and the same funct3, register and quadrant |
| Chunks.SweepSees | nub/nub-exec/src/predecode.rs:93-117 | predecode sweeping flattened code sees exactly the linker instructions at the linker offsets |
| Chunks.LinkerTerminators | nub/nub-linker/src/link.rs:981-1085 | every instruction the linker calls a terminator is one for predecode, and the only others are reserved encodings |
| Chunks.SameTargets | nub/nub-linker/src/link.rs:981-1085 | linker and predecode read the same static displacement, unless predecode refuses the instruction |
| Inject.RetargetExact | nub/nub-linker/src/link.rs:1140-1242 | a re-encoded branch carries the asked displacement and is otherwise the same instruction |
| Inject.RecodeRelinked | nub/nub-linker/src/link.rs:1140-1242 | each re-encoded instruction goes from map[pc] to map[target]; a branch to anywhere but an instruction start is left as it is |
| Inject.AlignSucceeds | nub/nub-linker/src/link.rs:962-1246 | the pass succeeds if and only if it has nothing to inject, or every static branch to an instruction start reaches it in the new layout (1 MiB for jal, 4 KiB for branches, 2 KiB for c.j, 256 bytes for c.beqz and c.bnez) and every other one is four bytes long |
| Inject.MovesByMarks | nub/nub-linker/src/link.rs:1111-1138 | every instruction moves by four bytes for each fallthrough at or before it |
| Inject.AlignWoven | nub/nub-linker/src/link.rs:962-1246 | both successful ways out of the pass yield the re-encoded instructions with one fallthrough in front of each marked target, none behind a terminator |
| Inject.NewOffsets | nub/nub-linker/src/link.rs:1111-1138 | the offset map gives the true byte offsets in the new code |
| Inject.StartsBlock | nub/nub-exec/src/predecode.rs:132-150 | predecode starts a block behind every linker terminator |
| Inject.TargetsStartBlocks | nub/nub-linker/src/link.rs:1088-1138 | every static target and extra target that was an instruction start is a block start in predecode marking, also after a rewrite that keeps lengths and terminators |
| AlignPass.Scan | nub/nub-linker/src/link.rs:966-1086 | the byte scan finds the instruction starts, the post-terminator offsets and the in-range static targets, stops at a truncated instruction and fails exactly on a lone last byte |
| AlignPass.NeedsMarks | nub/nub-linker/src/link.rs:1088-1103 | an instruction gets a fallthrough exactly if it is targeted and not behind a terminator |
| AlignPass.Build | nub/nub-linker/src/link.rs:1111-1138 | the bytes of the woven program and its offset map |
| AlignPass.Reencode | nub/nub-linker/src/link.rs:1140-1242 | patches every branch in place, or fails exactly when some branch is out of reach in the new layout, by its format, or is a short one to no instruction start |
| AlignPass.Instructions | nub/nub-linker/src/link.rs:981-1040 | any code is a list of instructions laid end to end and a tail shorter than one |
| AlignPass.AlignBranchTargets | nub/nub-linker/src/link.rs:962-1246 | the pass on bytes returns the bytes of the specified program and exactly the specified offset map, or nothing exactly when the specification has an error; code with a truncated tail comes back unchanged if and only if nothing is to be injected |
| LinkSimulation.TakeMatches | nub/nub-linker/src/link.rs:1140-1242 | a taken edge pc -> T becomes map[pc] -> map[T] exactly; any other branch keeps its displacement |
| LinkSimulation.TakeExact | nub/nub-linker/src/link.rs:1140-1242 | taking a static branch leads to matching places if and only if it goes to an instruction start, or points where the offset map moves no instruction and no fallthrough |
| LinkSimulation.OccupiedExactly | nub/nub-linker/src/link.rs:1111-1138 | instructions of the new code start exactly where the offset map puts an old one or a fallthrough in front of one |
| LinkSimulation.StrayParts | nub/nub-linker/src/link.rs:1140-1242 | otherwise, on a machine that takes the branch, the old program stops and the new one runs on |
| LinkSimulation.TargetsSuffice | nub/nub-linker/src/link.rs:1140-1242 | static targets that are all instruction starts meet that condition |
| LinkSimulation.StrayBranch | nub/nub-linker/src/link.rs:1140-1242 | counterexample: four instructions with a branch past the end of the code, at which the old program stops and the new one runs on |
| LinkSimulation.FallMatches | nub/nub-linker/src/link.rs:1122-1138 | a fall-through edge gains at most one instruction |
| LinkSimulation.FallthroughStep | nub/nub-linker/src/link.rs:911-916 | the inserted instruction only moves on to its target |
| LinkSimulation.StepMatches | nub/nub-linker/src/link.rs:962-1246 | with each program computing with its own code addresses, one old step is one new step, plus one through a fallthrough, between related states |
| LinkSimulation.AlignForward | nub/nub-linker/src/link.rs:962-1246 | whenever the pass succeeds, every run of n old steps is matched by at most 2n new steps: for every relation between old and new states that the machine respects instruction by instruction, code pointers being related by the offset map |
| LinkSimulation.AlignBackward | nub/nub-linker/src/link.rs:962-1246 | every state of a run of the new program shows a related state of the old run |
| LinkSimulation.ReturnAddresses | nub/nub-linker/src/link.rs:1111-1138 | the address after a terminator relates to the address after it in the new code, the end of the code included; elsewhere at most one fallthrough comes between |
| LinkSimulation.ReturnOffsets | nub/nub-linker/src/link.rs:1111-1138 | in the returned map, the address after a terminator is map[pc] plus its length |
| RenamedRuns.UnmapEnds | nub/nub-linker/src/link.rs:1111-1138 | both ends of an instruction have an old name, whether or not a fallthrough was put behind it |
| RenamedRuns.RenamedRespects | nub/nub-linker/src/link.rs:962-1246 | any machine whose code addresses are read and followed by their old names respects equality of states |
| RenamedRuns.RenamedForward | nub/nub-linker/src/link.rs:962-1246 | so its runs before and after the pass hold the same states |
| PcRel.HiLo | nub/nub-linker/src/link.rs:533-545 | the +0x800 carry makes up for the sign of the low part, modulo 2^32 |
| PcRel.UpperWordFields | nub/nub-linker/src/link.rs:486-488 | the rewritten upper instruction keeps its register and carries the high part |
| PcRel.PatchIFields | nub/nub-linker/src/link.rs:871-877 | an I-type patch carries the new immediate and keeps the other 20 bits |
| PcRel.PatchSFields | nub/nub-linker/src/link.rs:880-888 | an S-type patch carries the new immediate and keeps the rest |
| PcRel.AuipcPair | nub/nub-linker/src/link.rs:534-536 | auipc plus low part reaches code_base + target in 32-bit arithmetic |
| PcRel.LuiPair | nub/nub-linker/src/link.rs:486-503 | lui plus low part addresses the given 32-bit address |
| PcRel.FoldedPair | nub/nub-linker/src/link.rs:473-503 | a folded pair addresses target + DATA_BASE modulo 2^32; folding fails exactly on anything but an auipc |
| PcRel.FixupCodePcrel | nub/nub-linker/src/link.rs:509-554 | both loops compute the specified fixup, errors included |
| PcRel.FixupSucceeds | nub/nub-linker/src/link.rs:509-554 | the fixup succeeds if and only if the offset map knows every reference and every high one names an auipc, or a two-byte instruction that ends the code |
| PcRel.PairFixed | nub/nub-linker/src/link.rs:520-552 | after the fixup each kept pair with a jalr or addi holds the two halves of its new displacement |
| PcRel.FixupPatched | nub/nub-linker/src/link.rs:509-554 | the fixup changes only immediates of auipc, loads, addi, jalr and stores |
| PcRel.FixupKeepsBlocks | nub/nub-linker/src/link.rs:509-554 | the fixup moves no instruction and unmakes no terminator |
| LinkedCalls.RemapGood | nub/nub-linker/src/link.rs:1111-1138 | the offset map sends instruction starts to instruction starts, one to one |
| LinkedCalls.CallLinked | nub/nub-linker/src/link.rs:278-288 | injection then fixup leaves a kept call with the halves of its mapped displacement |
| LinkedCalls.LinkedTargets | nub/nub-linker/src/link.rs:278-288 | after injection and fixup every static and extra target that was an instruction start is a block start in predecode marking |
| LinkedCalls.AuipcRuns | nub/nub-exec/src/interp.rs:696-699 | running an auipc leaves its value in its register |
| LinkedCalls.CallReaches | nub/nub-exec/src/interp.rs:696-738 | running a linked auipc + jalr goes to the mapped target, which the interpreter accepts as a block start |
| LinkedRuns.LinkLaid | nub/nub-linker/src/link.rs:278-288 | after injection and fixup the old instructions lie where the offset map says, branches re-targeted and fallthroughs in place |
| LinkedRuns.LinkForward | nub/nub-linker/src/link.rs:278-288 | whenever linking succeeds, every run of n old steps is matched by at most 2n steps of the fixed-up code, for every relation the machine respects |
| LinkedRuns.LinkBackward | nub/nub-linker/src/link.rs:278-288 | every state of a run of the fixed-up code shows a related state of the old run |
| LinkedRuns.LinkResolves | nub/nub-linker/src/link.rs:516-520 | a successful link has resolved every reference |
| LinkedRuns.Unnamed | nub/nub-linker/src/link.rs:509-554 | an instruction no reference names is unchanged |
| LinkedRuns.NamedHigh | nub/nub-linker/src/link.rs:520-536 | a named auipc holds the high part of its new displacement |
| LinkedRuns.NamedLow | nub/nub-linker/src/link.rs:537-552 | a named jalr or addi holds the low part of its new displacement |
| LinkedRuns.LinksAreTerms | nub/nub-linker/src/link.rs:981-1085 | only what the linker calls a terminator leaves a link |
| LinkedRuns.CompletedLike | nub/nub-linker/src/link.rs:505-552 | where the old halves add up to an instruction, the new halves add up to where it has moved |
| LinkedRuns.TaggedRespects | nub/nub-linker/src/link.rs:278-288 | a machine with tagged code pointers and half-built ones in registers and memory respects the relation: equal numbers, code pointers related by the offset map, and the halves the same auipc leaves |
| LinkedRuns.TaggedForward | nub/nub-linker/src/link.rs:278-288 | so its runs before and after linking match, through links, indirect jumps and auipc + jalr or addi pairs |
| LinkedRuns.TaggedBackward | nub/nub-linker/src/link.rs:278-288 | and the other way round |
| LinkedRuns.PairExample | nub/nub-linker/src/link.rs:505-554 | a concrete auipc + jalr pair meets the conditions of these theorems, whatever extra targets there are |
| GasBank.NewBalances | nub/nub-arch-x86/src/task.rs:145-157 | a fresh bank: initial gas in the root and the host scope, nothing elsewhere |
| GasBank.ReconcileKeeps | nub/nub-arch-x86/src/task.rs:192-212 | switching changes no scope balance |
| GasBank.SpendIsLocal | nub/nub-arch-x86/src/task.rs:136-143 | spending changes the active scope only |
| GasBank.BankIsAMap | nub/nub-arch-x86/src/task.rs:136-234 | after any history each scope holds its start less what was used while it was active |
| GasBank.RootIsExact | nub/nub-arch-x86/src/task.rs:219-234 | the reported remainder is the root scope balance after any history |
| GasBank.StaleNeverRead | nub/nub-arch-x86/src/task.rs:192-234 | the stale stored copy of the active meter influences no later balance or report |
| GasBank.TaskGasState.constructor | nub/nub-arch-x86/src/task.rs:145-157 | builds the fresh bank |
| GasBank.TaskGasState.UseGas | nub/nub-arch-x86/src/task.rs:136-143 | in place: the specified spending from the live meter |
| GasBank.TaskGasState.ReconcileTo | nub/nub-arch-x86/src/task.rs:162-212 | in place: the specified switch |
| GasBank.TaskGasState.Remaining | nub/nub-arch-x86/src/task.rs:173-234 | the root scope balance |
| Scheduler.SubmitKeeps | nub/nub-arch-x86/src/task.rs:419-432 | a submit admits its id or uses it up, bookkeeping intact |
| Scheduler.PollKeeps | nub/nub-arch-x86/src/task.rs:438-450 | a poll of the queue head finds it resident and keeps the bookkeeping |
| Scheduler.RunKeeps | nub/nub-arch-x86/src/task.rs:434-456 | whatever polled tasks answer, the resident lookup never fails, an outcome is delivered once, and an empty queue means the target was not there |
| Scheduler.AlwaysConsistent | nub/nub-arch-x86/src/task.rs:400-456 | after any sequence of calls the queue lists exactly the resident tasks once and each id is resident, completed, delivered or failed, only one of these |
| Scheduler.AlwaysConsistentFromNew | nub/nub-arch-x86/src/task.rs:400-456 | in particular from a fresh scheduler |
| Scheduler.RoundRobin | nub/nub-arch-x86/src/task.rs:438-450 | while a task waits, exactly those ahead of it are polled, in order |
| Scheduler.Fair | nub/nub-arch-x86/src/task.rs:438-450 | between two polls of a task, exactly the other tasks resident at the first are polled, each once |
| Scheduler.RunIsHistory | nub/nub-arch-x86/src/task.rs:434-456 | a call is a history: polls answered by a prefix of the answers in order, all of them if it is still waiting, then the outcome taken if there is one |
| Scheduler.HistoryKeeps | nub/nub-arch-x86/src/task.rs:400-456 | every history keeps the bookkeeping |
| Scheduler.CallsAreHistory | nub/nub-arch-x86/src/task.rs:400-456 | any sequence of submits and runs is the history of its calls end to end |
| Scheduler.FairAcrossCalls | nub/nub-arch-x86/src/task.rs:438-450 | over any sequence of submits and runs, between two polls of a task, whichever calls made them, exactly the other tasks resident at the first are polled, each once |
| Outcomes.OutcomeIsOwn | nub/nub-arch-x86/src/task.rs:438-456 | over any history of a fresh scheduler, a completed outcome is the one its own task finished with, at the one poll that did not leave that task pending |
| Outcomes.OutcomeStays | nub/nub-arch-x86/src/task.rs:438-456 | and it stays until it is taken |
| Outcomes.TaskIsOwn | nub/nub-arch-x86/src/task.rs:419-450 | a resident task is the one its last poll left pending, or the one submitted if it was not polled |
| Outcomes.RunReturnsOwn | nub/nub-arch-x86/src/task.rs:434-456 | after any calls on a fresh scheduler, what a run returns is what its target finished with at that one poll |
| Outcomes.ErrorEnds | nub/nub-arch-x86/src/task.rs:438-456 | a run that fails with a task's error ends at that task's own poll, with its code |
| Scheduler.KernelScheduler.SubmitInvoke | nub/nub-arch-x86/src/task.rs:419-432 | in place: the specified submit |
| Scheduler.KernelScheduler.RunUntilResult | nub/nub-arch-x86/src/task.rs:434-456 | in place: the specified run, with its error codes; the ids it polls, in order, are those of its history |
| LaneSlot.GuestKeeps | nub/nub-arch-x86/src/guest_fns.rs:132-218 | every worker action keeps the slot invariant |
| LaneSlot.HostKeeps | nub/nub-arch-x86-abi/src/lib.rs:139-166 | every documented host action keeps it |
| LaneSlot.SlotSafe | nub/nub-arch-x86/src/guest_fns.rs:132-218 | in every interleaving: packet and result copies never overlap, job k runs at most once on the packet posted, and what is delivered for it is the outcome of that run |
| LaneSlot.WorkerSettles | nub/nub-arch-x86/src/guest_fns.rs:132-218 | from any reachable state the worker alone does what the host waits for, be it a job, an eviction, a stop or a start, in at most seven actions |
| LaneSlot.HostCollects | nub/nub-arch-x86-abi/src/lib.rs:139-166 | after DONE the host collects the outcome of that run in three actions and the slot is free again |
| LaneSlot.JobFinishes | nub/nub-arch-x86/src/guest_fns.rs:150-185 | from any reachable state the worker alone finishes a posted job in at most seven actions, having run it exactly once |
| Codec.ValidateBounds | nub/nub-program/src/blob.rs:112-126 | validate bounds the data regions if and only if the page sum does not overflow 32 bits |
| Codec.ValidateWraps | nub/nub-program/src/blob.rs:254-264 | counterexample: a blob that validates with a 16 TiB stack |
| Codec.TrimmedLen | nub/nub-program/src/codec.rs:100-105 | everything past it is zero and the byte before it is not |
| Codec.NoExtension | nub/nub-program/src/codec.rs:263-265 | no proper extension of an accepted input is accepted; the surplus is reported |
| Codec.NoPrefix | nub/nub-program/src/codec.rs:204-276 | no proper prefix of an accepted input is accepted |
| Codec.AcceptedIsValid | nub/nub-program/src/codec.rs:267-275 | every accepted input satisfies validate |
| Codec.RoundTrip | nub/nub-program/src/codec.rs:149-276 | decoding the encoding gives the blob back |
| Codec.RoundTripBroken | nub/nub-program/src/codec.rs:185-185 | counterexample: an endpoint with all 256 register indices |
| Codec.RoundTripExactly | nub/nub-program/src/codec.rs:149-276 | a blob round-trips if and only if it is valid, its lengths fit their 32-bit fields and every endpoint has at most 255 initial registers |
| Codec.LengthsFitUnlessWrapped | nub/nub-program/src/codec.rs:149-185 | the lengths of a valid blob fit unless its page sum wraps |
| Codec.AcceptedReencodes | nub/nub-program/src/codec.rs:204-276 | whatever is accepted, its re-encoding is accepted as the same blob |
| WireFormat.HeaderFormat | nub/nub-program/src/codec.rs:9-20 | the header is accepted exactly with magic NUBP, version 1 and flags 0 in forty bytes, and its eight 32-bit words are read at their offsets |
| WireFormat.HeaderErrors | nub/nub-program/src/codec.rs:204-230 | a bad header is refused at the first thing wrong with it, with what was needed or found |
| WireFormat.EndpointFormat | nub/nub-program/src/codec.rs:9-20 | an endpoint record is read byte by byte at its offsets, its registers in sixteen-byte entries of which the last of an index counts |
| WireFormat.EndpointErrors | nub/nub-program/src/codec.rs:114-144 | an endpoint record cut short is refused at the first field that is not all there, with how many bytes were needed |
| WireFormat.KeysDistinct | nub/nub-program/src/codec.rs:231-257 | accepted endpoint records have distinct keys |
| WireFormat.BodyFormat | nub/nub-program/src/codec.rs:9-27 | behind the endpoints stand the code and the two trimmed regions, which are zero-filled to whole pages, and then nothing |
| WireFormat.RegionErrors | nub/nub-program/src/codec.rs:279-288 | a region is refused exactly if it is longer than its pages or not all there |
| WireFormat.ValidateReports | nub/nub-program/src/blob.rs:254-282 | the four conditions of validate with their numbers, the first to fail reported |
| WireFormat.RecordsInOrder | nub/nub-program/src/codec.rs:149-198 | in an encoding endpoints stand in key order, and registers in index order |
| Codec.Reader.TakeBytes | nub/nub-program/src/codec.rs:114-128 | in place: the next n bytes, or how many were needed |
| Codec.Reader.ReadRegs | nub/nub-program/src/codec.rs:238-242 | in place: the register loop |
| Codec.Reader.ReadEndpoints | nub/nub-program/src/codec.rs:231-257 | in place: the endpoint loop, duplicates refused |
| Codec.Decode | nub/nub-program/src/codec.rs:204-276 | the cursor parser is the specified decoder, errors included |
| Codec.Encode | nub/nub-program/src/codec.rs:149-198 | the appending writer is the specified encoder |

## Left out

- Arithmetic, M, Zbb, Zba, Zbs and Zicond results, and the decoding of loads, stores and arithmetic: independent match arms; they are parameters here.
- x86 code generation, ring-3 entry, descriptor tables, CR3 and TLB instructions: no source or no model of the hardware; the TLB is taken as coherent.
- ELF parsing, ecall-marker rewriting, the producer validation pass, `.rodata` code pointers and relative jump tables of the linker.
- `map_region`, the heap pointer and the permission-checked bulk `read`/`write` of the flat memory; a handler may leave any valid memory behind.
- The address argument of a page-fault exit: the engines report different addresses for the same refusal.
- `Regions::iter` and `memory_image`: geometry that adds only easy members.
- The host side of the lanes beyond the documented slot steps, memory orderings (every atomic access is one step here), and the per-lane mutex.
- Personalities, `poll_once` and frame stacks: what one answers when polled is arbitrary.
- Machine-word limits of balances, ids and the saved gas register: gas, task ids and the gas register are unbounded integers.
- FaultHandler.Handler.constructor: models only the guest range of a new frame, not the kernel half, the JIT arena or the code compilation.
- PageTables.PageTable.MapLeaf: does not model large-page ancestors, which no guest slot holds.
- DemandPaging.ServeIsFlatServe: assumes non-empty code, full range coverage of the data extent, a backing page for every data page, disjoint pinned ranges and data ending below 4 GiB.
- Predecode.PredecodeCode: for code shorter than 4 GiB, so that offsets fit 32 bits.
- AlignPass.AlignBranchTargets: for code that ends in a truncated instruction or a lone byte, where it returns no program, it does not tell a link error from a read past the end.
- PcRel.PairFixed: for reference lists that name each instruction once.
- LinkedRuns.TaggedForward: for reference lists that name each instruction once, old pairs that add up to their targets and code below 4 GiB; the machine stops at an auipc or jalr with an immediate that no reference names, at arithmetic on code pointers and at low parts that are loads or stores.
- Scheduler.KernelScheduler.RunUntilResult: takes the answers of the polls as a list and returns nothing when they run out, in place of a call that would go on.
