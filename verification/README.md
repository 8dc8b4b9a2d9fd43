# Verification of the RISC-V core's memory, arithmetic and control blocks

A Dafny 4.11 model of the hardest parts of the core, with proofs. `dafny verify dfyconfig.toml`
checks the whole project.

Registers are fields that one `Clock` method per module updates in place; each such method is
proved to compute the next state of a value-level state machine, and the theorems are about all runs
of that machine. Combinational logic is functions. A run is a sequence of states related by the
next-state function for arbitrary inputs, so every statement about runs is about all inputs, stall
patterns and flushes.

| files | what they model |
|---|---|
| `BitSlices`, `WordArith`, `MemTypes`, `Options` | bit slices of naturals, words, bytes and beats |
| `DCache*`, `FlatSpec`, `LruOrder` | the write-back data cache against a flat byte memory, its miss protocol and its replacement |
| `ICache*` | the instruction cache with its late recency update and its loose invalidation |
| `Div*` | the restoring divider with special cases and the one-entry result cache |
| `CarrySave`, `BaughWooley`, `Simd*`, `Lane*` | the lane-aware multiplier and dot-product unit |
| `MulSpec`, `Mult*` | the byte-split and the inferred multiplier against the same definition |
| `RegFileModel`, `Pipeline*` | register file layouts, forwarding, hazards and stage control |
| `Trap*` | trap controller and trap CSRs |
| `CycleStats` | cycle tags and the counters derived from them |
| `Patcher*` | the marker-based file patcher |

Conventions and choices:

- Addresses, tags and words are naturals; slices are `Low`, `High` and `Join`, and a field that can
  wrap is wrapped explicitly. The number of sets is a power of two; ways are 1 to 32. The divider is
  modelled for words of 2^lw bits (5 in the core), so its overflow constant is half the modulus.
- The state after reset is the initial state of a run. Main memory, bank contents and the divider's
  stored entry start with arbitrary contents.
- Requests to the data cache are aligned, as its source asserts; whatever stands on the request port
  without a valid flag is arbitrary.
- In the pipeline an instruction is a decoded record whose results are an arbitrary function of its
  three operands and its identity, so ALU, memory contents, CSR values and divider results are all
  covered. The one assumption about the outside is that a load in WBK has its data in the first cycle
  in which the data cache does not stall. `PipelineMemory.CacheServesPipeline` proves it for the loads
  that go to the data cache, with the two wired together; other regions are devices.
- The shared counters and adders (`csa`, `csa_tree_4`, `add`, `clz`, `mem`, `cmp_s_lt`, saturation) follow
  `src/common`.

Where the documentation and the code differ, the model follows the code:

- README.md:198 gives 7 and 10 cycles for a data cache miss without and with write-back. The code
  holds ready low for 6 and 10 cycles and answers in cycles 7 and 11 after acceptance.
- README.md:129 gives 2 to 34 cycles for a division. A result cache hit takes 1; the upper bound 34 is
  proved.
- The comment at src/ama_riscv_dcache.sv:264 suspects that both recency updates are active at some
  point; they never are.
- The patcher describes its edit as confined to the lines between markers. On lines that holds for every
  generator (`PatcherOutside.OutsideUnchanged`). On text, everything outside the bodies is reproduced
  exactly when the text is not empty and each line outside the bodies ends in exactly one line feed
  (`OutsideText`); `FinalFeedAdded` is a file for which it is not. Patching twice is patching once exactly
  when no generated line contains a marker (`TwiceIsOnce`); `EndMarkerGenerated` is a case for which it
  is not.
- The banked register file accepts a pair write without the write of rd, which the flat one ignores.
  One write keeps the layouts in step exactly when it is no such write or changes nothing
  (`RegFileModel.WriteAgrees`); `OrphanDiverges` is one that does not. The core never produces one.

## Model

| member | source | states |
|---|---|---|
| `DCacheRefinement.ResetRunRefines` | src/ama_riscv_dcache.sv:492-649 | Main theorem: for every number of sets and ways, every initial memory and every run of aligned requests from reset, the load data returned are, in order, the loads of the accepted requests on a flat byte memory with all stores applied; at most the last one is still owed |
| `DCacheRefinement.StepRefines` | src/ama_riscv_dcache.sv:218-649 | Every cycle is a step of the flat memory: through every eviction and refill beat the abstract memory is unchanged, and a response is the value owed |
| `DCacheRefinement.StoreSteering` | src/ama_riscv_dcache.sv:367-421 | A store of 1, 2 or 4 bytes, masked and shifted into a 16-byte beat, changes exactly its bytes of the abstract memory |
| `DCacheRefinement.LoadSteering` | src/ama_riscv_dcache.sv:612-649 | The word selected, shifted and sign- or zero-extended from a bank output is the flat memory load of that address and type |
| `DCacheRefinement.EvictBase` | src/ama_riscv_dcache.sv:593-602 | A write-back beat changes main memory and leaves the abstract memory alone |
| `DCacheRefinement.RefillBase` | src/ama_riscv_dcache.sv:464-486 | A refill beat overwrites the victim way, whose valid bit is still set, and leaves the abstract memory alone; the last beat hands the line over to the new tag |
| `DCacheRefinement.RunRefines` | src/ama_riscv_dcache.sv:492-649 | Every run from a good state is a run of the flat memory specification |
| `DCacheRefinement.ReachableLines` | src/ama_riscv_dcache.sv:733-753 | In every reachable state two valid ways of a set never share a tag, dirty implies valid, and a clean valid line not being refilled equals main memory |
| `DCacheInvariant.StepKeeps` | src/ama_riscv_dcache.sv:464-616 | The invariant of all four phases survives every clock edge |
| `DCacheInvariant.ResetEstablishes` | src/ama_riscv_dcache.sv:467-475 | Reset establishes it |
| `DCacheInvariant.HitIffTagMatch` | src/ama_riscv_dcache.sv:238-252 | The lookup loop finds a way exactly when some valid way carries the tag |
| `DCacheInvariant.StoreKeepsLines` | src/ama_riscv_dcache.sv:476-485 | A store to a line that is valid and becomes dirty keeps all line properties |
| `FlatSpec.LoadMeaning` | src/ama_riscv_dcache.sv:619-649 | A load of each access type: the addressed bytes, then sign or zeros |
| `FlatSpec.SpecRunLoads` | src/ama_riscv_dcache.sv:492-616 | What was owed plus the loads executed one by one on the flat memory is what came back plus what is still owed |
| `DCacheProtocol.MissProtocol` | src/ama_riscv_dcache.sv:423-456 | Each miss: exactly the scheduled beats on the memory port, ready low for exactly 6 cycles (clean victim) or 10 (dirty), then the answer, with the abstract memory changed only by the request itself |
| `DCacheProtocol.PortDiscipline` | src/ama_riscv_mem.sv:93-104 | Never a read and a write on the memory data port in one cycle |
| `DCacheProtocol.EvictOps` | src/ama_riscv_dcache.sv:593-602 | Write-back beats are the four beats of the victim line in order, addressed by its rebuilt tag and set |
| `DCacheProtocol.RefillOps` | src/ama_riscv_dcache.sv:582-591 | Refill reads are the four beats of the missed line in order |
| `DCacheProtocol.PhasesFollow` | src/ama_riscv_dcache.sv:492-523 | t cycles after a miss the controller is in phase t, whatever the core drives |
| `DCacheProtocol.LoadAnswered` | src/ama_riscv_dcache.sv:492-596 | Every accepted load, hit or miss: the first ready cycle after it carries the response, the flat memory load at acceptance |
| `DCacheProtocol.ReadyExactly` | src/ama_riscv_dcache.sv:525-580 | From the first cycle after reset on, the cache is ready exactly when no accepted miss is still within its latency |
| `DCacheProtocol.AcceptedSoon` | src/ama_riscv_dcache.sv:551-553 | A request that is held valid is accepted within eleven cycles |
| `DCacheProtocol.AbsIsHistory` | src/ama_riscv_dcache.sv:492-616 | The abstract memory is the initial memory with every store accepted so far |
| `LruOrder.TouchIsMoveToFront` | src/ama_riscv_dcache.sv:276-296 | The general rank update and the two-way toggle both are move-to-front on the recency list |
| `LruOrder.OrderIsRecency` | src/ama_riscv_dcache.sv:276-296 | The list obtained by move-to-front is sorted by last access |
| `DCacheLru.LruRun` | src/ama_riscv_dcache.sv:258-297 | After any run the rank counters of a set are the positions in the move-to-front list of its completed accesses |
| `DCacheLru.VictimIsLeastRecent` | src/ama_riscv_dcache.sv:238-255 | The victim of a miss is a way that no other way of the set was accessed longer ago than |
| `DCacheLru.VictimIsLast` | src/ama_riscv_dcache.sv:244-246 | The victim is the last element of the recency list |
| `DCacheLru.UpdatesExclusive` | src/ama_riscv_dcache.sv:260-271 | The two update sources flagged by the FIXME are never active together |
| `DCacheLru.RunGeometry` | src/ama_riscv_dcache.sv:14-17 | The geometry is fixed, so the runs above are all runs |
| `DCacheRtl.DCache.Clock` | src/ama_riscv_dcache.sv:218-649 | Register and array updates of one clock edge, in place, are the next state of the specification; the outputs are those of the state before the edge |
| `DCacheRtl.DCache.Lookup` | src/ama_riscv_dcache.sv:238-252 | The lookup loop computes hit, way and victim |
| `DCacheRtl.DCache.TouchLru` | src/ama_riscv_dcache.sv:276-296 | The in-place rank loop is the rank update of one set |
| `DCacheRtl.DCache.ClockBanks` | src/common/mem.sv:26-33 | All banks load their output registers, then one is written under byte enables |
| `DCacheRtl.DCache.ClockMeta` | src/ama_riscv_dcache.sv:467-486 | Valid, dirty and tag arrays |
| `DCacheRtl.DCache.constructor` | src/ama_riscv_dcache.sv:467-475 | Reset state |
| `ICacheProof.AnswersAreMemory` | src/ama_riscv_icache.sv:368-451 | Main theorem: with memory unmodified, the words answered in any run are the memory words at the accepted addresses, in order and once each, at most one request unanswered |
| `ICacheProof.FetchStepKeeps` | src/ama_riscv_icache.sv:246-451 | The invariant survives every cycle, although the victim index lags and a miss invalidates whatever line the request port then points at |
| `ICacheProof.StartEdge` | src/ama_riscv_icache.sv:360-363 | Invalidating an arbitrary line in the cycle after a miss loses nothing but a copy |
| `ICacheProof.LastFill` | src/ama_riscv_icache.sv:355-359 | The last beat makes a complete line valid under its new tag without creating a duplicate |
| `ICacheProof.MissTiming` | src/ama_riscv_icache.sv:371-446 | A miss reads the four beats of its line in order in cycles 1 to 4, is not ready for exactly 6 cycles and answers in the seventh |
| `ICacheProof.HitTiming` | src/ama_riscv_icache.sv:408-416 | A hit answers in the next cycle with the memory word, ready again |
| `ICacheProof.Handshake` | src/ama_riscv_icache.sv:392-446 | A response belongs to the waiting request; a new one is accepted only when none stays unanswered |
| `ICacheProof.MissIsAbsent` | src/ama_riscv_icache.sv:181-199 | The lookup misses exactly when no valid way carries the tag |
| `ICacheService.ReadyExactly` | src/ama_riscv_icache.sv:404-446 | From the first cycle after reset on, the cache is ready exactly when no miss was accepted in the six cycles before, and reads no memory then |
| `ICacheService.FetchAnswered` | src/ama_riscv_icache.sv:404-451 | Every accepted fetch is answered with its memory word, after one cycle on a hit and seven on a miss |
| `ICacheService.FetchServed` | src/ama_riscv_icache.sv:404-451 | A fetch that is held valid is accepted within seven cycles and answered at most seven cycles later |
| `ICacheService.MissFills` | src/ama_riscv_icache.sv:355-359 | When a miss is answered its whole line is cached |
| `ICacheService.StaysCached` | src/ama_riscv_icache.sv:348-364 | While no miss is accepted, whatever is cached stays cached |
| `ICacheService.VictimLags` | src/ama_riscv_icache.sv:181-202 | The victim is the last of the recency list of the accesses up to one cycle earlier |
| `ICacheService.ReplacedWay` | src/ama_riscv_icache.sv:200-202 | That is the way the missed line goes into |
| `ICacheService.AccessesExactly` | src/ama_riscv_icache.sv:204-218 | Which accesses the recency list sees: hits, and filled ways exactly in the sixth cycle after their miss was accepted |
| `ICacheLru.RanksRunLate` | src/ama_riscv_icache.sv:211-244 | The rank counters stay a permutation and equal the recency list of the accesses up to one cycle earlier |
| `ICacheRtl.ICacheUnit.Clock` | src/ama_riscv_icache.sv:157-451 | Registers and arrays updated in place are the next state; outputs are those before the edge |
| `ICacheRtl.ICacheUnit.Lookup` | src/ama_riscv_icache.sv:181-199 | The lookup loop |
| `ICacheRtl.ICacheUnit.ClockLru` | src/ama_riscv_icache.sv:220-244 | The in-place rank loop on the registered access |
| `ICacheRtl.ICacheUnit.ClockMeta` | src/ama_riscv_icache.sv:348-364 | Valid and tag arrays |
| `DivProof.RequestServed` | src/ama_riscv_div.sv:203-213 | Main theorem, for every power-of-two width: an unflushed request is busy until exactly its latency has passed and then holds the ISA quotient or remainder, whichever path it took |
| `DivProof.StepKeeps` | src/ama_riscv_div.sv:218-315 | The invariant survives every edge with any start and flush |
| `DivProof.RunKeeps` | src/ama_riscv_div.sv:203-213 | Over every run with starts and flushes at arbitrary cycles a valid cache entry holds the correct quotient and remainder of its operands |
| `DivProof.LatencyBound` | src/ama_riscv_div.sv:224-247 | Iterative latency is 3 + (clz of divisor - clz of dividend + 1); no request takes more than W + 2 cycles, 34 in the core |
| `DivProof.StartStep` | src/ama_riscv_div.sv:259-271 | Start: a cache hit answers at once with what recomputation gives, a miss captures the operands |
| `DivProof.SetupStep` | src/ama_riscv_div.sv:273-297 | SETUP: special cases are answered, the others start with remainder below divisor |
| `DivProof.IterateStep` | src/ama_riscv_div.sv:299-305 | ITER keeps the restoring invariant |
| `DivProof.FixStep` | src/ama_riscv_div.sv:307-315 | FIXUP publishes the signed results and a correct entry |
| `DivProof.ResultHeld` | src/ama_riscv_div.sv:249-317 | From the cycle a request is served until the next accepted start, with any flushes, the divider is idle and holds the result; an iterative request also stays cached |
| `DivProof.OnlyAnswersWrite` | src/ama_riscv_div.sv:249-317 | The result register changes only when a request is answered |
| `DivProof.ServedAfterFlush` | src/ama_riscv_div.sv:218-222 | A flush in any cycle leaves the divider idle with result and cache unchanged, and a start in the next cycle is served |
| `DivProof.RepeatHits` | src/ama_riscv_div.sv:203-213 | The same operands again, for quotient or remainder, are answered in one cycle |
| `DivProof.HitsExactly` | src/ama_riscv_div.sv:203-213 | Over every run a start hits exactly when it repeats the last request that completed its iterations, unless another one has entered them since |
| `DivArith.IterateKeeps` | src/ama_riscv_div.sv:178-189 | One step: consumed prefix of the dividend = quotient * divisor + remainder, remainder below divisor, no bit lost to truncation |
| `DivArith.NormaliseCorrect` | src/ama_riscv_div.sv:104-109 | After the leading-zero skip the initial remainder is the skipped prefix and is below the divisor |
| `DivArith.IterCountRange` | src/ama_riscv_div.sv:104-107 | The iteration count lies between 1 and W - 1 for every operand pair that reaches ITER |
| `DivArith.ClzLeading` | src/common/clz.sv:41-58 | The halving leading-zero counter finds the leading one |
| `DivArith.SpecialCorrect` | src/ama_riscv_div.sv:142-170 | By-zero, overflow and smaller-dividend results are the ISA values |
| `DivArith.PowerOfTwoCorrect` | src/ama_riscv_div.sv:120-132 | Power-of-two divisors: the detection is exact and shift and mask give quotient and remainder |
| `DivArith.FixupCorrect` | src/ama_riscv_div.sv:194-196 | Sign fixup turns the magnitude quotient and remainder into the ISA ones |
| `DivArith.AndPred` | src/ama_riscv_div.sv:121-125 | b & (b - 1) is zero exactly for powers of two |
| `DivSpec.TruncMeaning` | src/ama_riscv_div.sv:191-196 | Rounding toward zero: dividend = quotient * divisor + remainder, remainder smaller than the divisor with the sign of the dividend (section 7.2 of the RISC-V Unprivileged ISA 20191213) |
| `DivRtl.Divider.Clock` | src/ama_riscv_div.sv:218-319 | Register updates are the next state; the cache entry stays correct whatever arrives |
| `DivRtl.Divider.CountLeadingZeros` | src/common/clz.sv:41-58 | The halving loop computes the counter function |
| `DivRtl.Divider.constructor` | src/ama_riscv_div.sv:249-253 | Reset state |
| `CarrySave.CsaSum` | src/common/csa.sv:18-35 | Carry-save addition preserves the sum modulo 2^w, exactly when it fits |
| `CarrySave.CsaMultiple` | src/common/csa.sv:18-35 | It preserves common factors 2^k |
| `CarrySave.TreeAligned` | src/ama_riscv_simd_csa_tree_8.sv:17-46 | The tree with matching alignment shifts adds its re-aligned inputs exactly, at the output and at both taps |
| `BaughWooley.FlippedSum` | src/ama_riscv_simd_ppgen.sv:41-49 | For every width n the flipped partial products of two signed words sum to A * B + 2^(2n-1) - 2^n |
| `BaughWooley.TileProduct` | src/ama_riscv_simd_ppgen.sv:41-49 | Signed or unsigned, a tile is the exact product plus its bias |
| `BaughWooley.TileFits` | src/ama_riscv_simd_ppgen.sv:41-49 | A tile fits in 2n bits |
| `SimdTiles.SignMaskBit` | src/ama_riscv_simd_ppgen.sv:28-39 | The constant sign masks mark the top bit of every element |
| `SimdTiles.RowAligned` | src/ama_riscv_simd_ppgen.sv:70-107 | Masked row n*t + i is row i of tile t, shifted left by 2*n*t beyond its place in the tile |
| `SimdTiles.RowsAreDot` | src/ama_riscv_simd_ppgen.sv:94-107 | All masked rows together are the sum of the element products plus one bias per tile |
| `SimdTrees.FirstLevel` | src/ama_riscv_simd.sv:65-89 | Each first-level tree is exact for every element width |
| `SimdTrees.FinalLevel` | src/ama_riscv_simd.sv:124-136 | The final tree and its taps are exact for every element width |
| `SimdTrees.AllRowsFit` | src/ama_riscv_simd.sv:65-89 | Nothing exceeds 64 bits on the way |
| `SimdResults.MultiplyCorrect` | src/ama_riscv_simd.sv:139-196 | MUL, MULH, MULHSU and MULHU deliver the word of the exact product that the ISA asks for |
| `SimdResults.MixedProduct` | src/ama_riscv_simd.sv:159-178 | MULHSU: adding the multiplicand once more above bit 32 gives the signed-by-unsigned product |
| `SimdResults.DotCorrect` | src/ama_riscv_simd.sv:205-255 | Main theorem: for widths 16, 8, 4 and 2, signed and unsigned, and all operands, the result is the accumulator plus the sum of the element products modulo 2^32 |
| `SimdResults.RepairCorrect` | src/ama_riscv_simd.sv:219-229 | The two-bit test repairs every sum in the field, including the one that overflows it as a signed number |
| `SimdResults.DotRange` | src/ama_riscv_simd.sv:206-212 | The signed sum stays within the field, up to its sign weight |
| `SimdResults.DotConstants` | src/ama_riscv_simd_ppgen.sv:118-131 | The correction bit of each width cancels the biases of its tiles up to the weight of the field |
| `SimdResults.Reduced` | src/ama_riscv_simd.sv:139-157 | The reduced sum is the sum of all rows plus the correction, modulo 2^64 |
| `SimdLanes.PackedCorrect` | src/ama_riscv_simd.sv:257-305 | Main theorem: element k of every packed multiply, widening multiply, add, subtract, saturating form, minimum and maximum is the exact element operation on elements k; no carry crosses lanes, and narrow results leave the upper word zero |
| `SimdLanes.ByteTaps` | src/ama_riscv_simd.sv:263-275 | The tree outputs cut at 16-bit boundaries hold the byte products |
| `SimdLanes.HalfTaps` | src/ama_riscv_simd.sv:277-287 | The taps cut at 32-bit boundaries hold the half-word products |
| `LaneProof.LaneCorrect` | src/ama_riscv_simd_lane_wrapup.sv:97-117 | A lane delivers its element operation for every width |
| `LaneProof.LaneProduct` | src/ama_riscv_simd_lane_wrapup.sv:50-73 | Taps plus correction give the product modulo 2^2n |
| `LaneProof.OperandSum` | src/ama_riscv_simd_lane_wrapup.sv:57-74 | The shared adder gives the exact sum or difference |
| `LaneProof.SaturateSigned` | src/common/sat_s_add_sub.sv:10-18 | Signed clamp by the guard bit |
| `LaneProof.SaturateUnsigned` | src/common/sat_u_add_sub.sv:11-13 | Unsigned clamp by carry or borrow |
| `LaneProof.ComparePicks` | src/common/cmp_s_lt.sv:10-18 | Both comparators decide the order of the operand values |
| `SimdRtl.Delivered` | src/ama_riscv_simd.sv:109-122 | An operation that enters at one edge, waits in MEM through any stall and leaves at another puts the ISA result into the write-back register, which keeps it through any stall |
| `SimdRtl.StaleOperands` | src/ama_riscv_simd.sv:121-122 | Operand registers that were not loaded do not influence the result |
| `SimdRtl.Simd.Clock` | src/ama_riscv_simd.sv:113-122 | Pipeline registers updated in place are the next state |
| `SimdRtl.Simd.LoadMem` | src/ama_riscv_simd.sv:113-122 | The EXE/MEM registers load the operation, operands only where needed |
| `MultModel.SplitCorrect` | src/ama_riscv_mult.sv:27-107 | The byte-split multiplier answers all four multiply instructions exactly |
| `MultModel.HalfExact` | src/ama_riscv_mult.sv:63-98 | Every 26-bit product and 34-bit recombination holds its value |
| `MultModel.RecombinedExact` | src/ama_riscv_mult.sv:101-104 | The 64-bit recombination is the exact product modulo 2^64 |
| `MultModel.InferredCorrect` | src/ama_riscv_mult_dsp.sv:36-72 | So is the inferred 64-bit product |
| `MultModel.MultipliersAgree` | src/ama_riscv_simd.sv:139-196 | The Baugh-Wooley array, the byte-split multiplier and the inferred one agree on every instruction and all operands |
| `MultRtl.MulDelivered` | src/ama_riscv_mult.sv:78-112 | A multiply delivers its word through any stall and keeps it through any stall of write-back |
| `MultRtl.Mult.Clock` | src/ama_riscv_mult.sv:84-112 | Pipeline registers updated in place are the next state |
| `PipelineProof.ReadsAreSequential` | src/ama_riscv_core.sv:507-541 | Main theorem: for any in-order stream, any stalls and any EXE flush, the operands an instruction leaves EXE with are those of a sequential machine that executed everything that left EXE before; a dot product leaves MEM with the sequential accumulator |
| `PipelineProof.RegistersAreSequential` | src/ama_riscv_reg_file.sv:36-47 | Registers that WBK is not about to write hold what sequential execution leaves |
| `PipelineProof.InOrder` | src/ama_riscv_core.sv:1053-1075 | No instruction is lost, duplicated or reordered between EXE and completion |
| `PipelineProof.StepKeeps` | src/ama_riscv_core.sv:477-493 | The forwarding invariant survives every cycle |
| `PipelineProof.OperandsSequential` | src/ama_riscv_operand_forwarding.sv:84-239 | Operands resolved in EXE are sequential whenever the instruction advances |
| `PipelineProof.AccumulatorSequential` | src/ama_riscv_core.sv:840-849 | The accumulator resolved in MEM is sequential |
| `PipelineProof.ExeForward` | src/ama_riscv_operand_forwarding.sv:160-187 | MEM wins over WBK, the pair by its own match: the forwarded value is the sequential register |
| `PipelineProof.WbkForward` | src/ama_riscv_operand_forwarding.sv:156-159 | Forwarding from WBK only, as decode and MEM do |
| `PipelineProof.DecodeReads` | src/ama_riscv_core.sv:392-446 | Decode reads see everything up to and including WBK |
| `PipelineProof.SavedOperands` | src/ama_riscv_core.sv:477-493 | Operands saved on a stall are right unless MEM still owes them |
| `PipelineProof.WriteBackRight` | src/ama_riscv_core.sv:924-936 | The write-back bus carries the sequential results once the memory has answered |
| `PipelineFlow.EnteredIsIssued` | src/ama_riscv_core.sv:462-493 | Over every run the instruction in EXE is the last one decode handed over and no flush dropped, and what has left EXE is exactly what was handed over before, in order |
| `PipelineFlow.LeavesExactly` | src/ama_riscv_operand_forwarding.sv:220-239 | An instruction leaves EXE exactly when it is not flushed and neither a stall nor a missing result of MEM holds it |
| `PipelineFlow.WaitsOnce` | src/ama_riscv_operand_forwarding.sv:220-239 | EXE waits for the instruction in MEM for at most one cycle |
| `PipelineRtl.BackEnd.Clock` | src/ama_riscv_core.sv:477-493 | Stage registers updated in place are the next state |
| `PipelineRtl.BackEnd.Resolve` | src/ama_riscv_core.sv:507-541 | The operand mux in EXE |
| `PipelineRtl.BackEnd.ClockRf` | src/ama_riscv_reg_file.sv:36-47 | The register file write |
| `PipelineMemory.CacheServesPipeline` | src/ama_riscv_core.sv:852-857 | Pipeline and data cache wired together: every run meets the assumption of the sequential-reads theorem, for all loads the cache serves |
| `PipelineMemory.LoadServed` | src/ama_riscv_core.sv:913-936 | A load from the cached region finds its flat-memory value on the write-back bus in the first cycle without a stall |
| `PipelineMemory.CameFromMem` | src/ama_riscv_core.sv:1065-1075 | The load in WBK left MEM in the last cycle without a stall, with the operands of its request |
| `RegFileModel.BankedRefinesFlat` | src/ama_riscv_reg_file.sv:67-130 | For every sequence of writes in which a pair write implies the write of rd, the banked file reads as the flat one through all ports, odd rd, x0 and x31 included |
| `RegFileModel.ReadsLastWrite` | src/ama_riscv_reg_file.sv:36-59 | After any sequence of writes every register reads as the last write to it, alone or as a pair; x0 as zero |
| `RegFileModel.WriteAgrees` | src/ama_riscv_reg_file.sv:88-114 | One write keeps the layouts in step exactly when it is not an orphan pair write, or writes back what both registers hold |
| `RegFileModel.FlatFile.Clock` | src/ama_riscv_reg_file.sv:36-47 | In-place write of the flat file |
| `RegFileModel.BankedFile.Clock` | src/ama_riscv_reg_file.sv:98-114 | In-place write of the two banks |
| `RegFileModel.OrphanDiverges` | src/ama_riscv_reg_file.sv:67-130 | The input for which the layouts differ: a pair write of x2 and x3 without the write of x2 |
| `RegFileModel.BankedFile.Read` | src/ama_riscv_reg_file.sv:117-130 | Bank select on a read port |
| `TrapProof.PulsesAlternate` | src/ama_riscv_trap_ctrl.sv:122-155 | Over every run entry and return pulses strictly alternate, starting with an entry |
| `TrapProof.EntryCommits` | src/ama_riscv_trap_ctrl.sv:98-118 | Every entry commits cause, value and aligned address of the last recognition that was not cancelled; for an interrupt out of wfi the address after it |
| `TrapProof.InterruptsNeedEnable` | src/ama_riscv_trap_ctrl.sv:48-86 | An interrupt is recognised only while enabled globally and individually, outside speculation and outside a handler |
| `TrapProof.ReturnRestores` | src/ama_riscv_csr.sv:170-183 | A return restores the interrupt enable of its entry when mstatus was not written in between (section 3.1.6.1 of the RISC-V Privileged Architecture 20211203) |
| `TrapProof.ReturnFollowsLastWrite` | src/ama_riscv_csr.sv:170-183 | In general a return enables interrupts exactly when the last write to mstatus left MPIE set |
| `TrapProof.EnableKept` | src/ama_riscv_csr.sv:174-176 | Inside an unmodified handler interrupts stay disabled and MPIE keeps the saved enable |
| `TrapProof.WarlHolds` | src/ama_riscv_csr.sv:170-216 | MPP always reads machine mode and all other read-only bits zero |
| `TrapProof.TrapUnit.Clock` | src/ama_riscv_trap_ctrl.sv:98-155 | Registers of both modules updated in place are the next state |
| `TrapProof.TrapUnit.ClockCsrs` | src/ama_riscv_csr.sv:172-216 | The trap CSRs under the priority entry, return, csr instruction |
| `TrapFlow.EntryRecords` | src/ama_riscv_trap_ctrl.sv:54-118 | Every entry writes the cause, value and address of the last recognition neither cancelled nor committed; an interrupt has cause 0x8000000B if the external source is pending and enabled, else 0x80000007, and then the timer is |
| `TrapFlow.TrapTaken` | src/ama_riscv_trap_ctrl.sv:126-143 | A recognised trap is entered in the cycle after its tag arrives, unless it is cancelled before, and records what was recognised |
| `TrapFlow.WfiParks` | src/ama_riscv_trap_ctrl.sv:127-136 | A wfi parks until it is cancelled or an enabled interrupt wakes it, into a trap or on to the next instruction |
| `TrapFlow.ReturnTaken` | src/ama_riscv_trap_ctrl.sv:141-155 | After an entry the handler runs until its return instruction, and the return is carried out when its tag arrives |
| `TrapFlow.EdgeExactly` | src/ama_riscv_trap_ctrl.sv:122-155 | Every transition of the controller by its inputs |
| `TrapFlow.BitPositions` | src/ama_riscv_types.svh:879-884 | The enable bits of mie and mstatus |
| `TrapFlow.CsrReads` | src/ama_riscv_csr.sv:57-123 | What a csr instruction reads: the addressed register, mip from the two lines |
| `TrapFlow.CsrLeaves` | src/ama_riscv_csr.sv:170-216 | A csr instruction leaves its combination of old value and source, cut to the legal bits, in the register it addresses and nowhere else |
| `TrapFlow.PulseLeaves` | src/ama_riscv_csr.sv:170-216 | Entry and return leave the registers they do not fill to the csr instruction |
| `TrapFlow.CombinedSets` | src/ama_riscv_csr.sv:130-137 | The set form sets exactly the bits of its source |
| `TrapFlow.CombinedClears` | src/ama_riscv_csr.sv:130-137 | The clear form clears exactly the bits of its source |
| `CycleStats.ChainPriority` | src/ama_riscv_core.sv:969-998 | Which event a cycle is when several tags are set: retiring, bad speculation, back end, front end |
| `CycleStats.TallyCounts` | src/ama_riscv_core.sv:969-998 | Over any run every counter is the number of the cycles it counts |
| `CycleStats.Conserved` | src/ama_riscv_core.sv:964-999 | Over any run retired, bad-speculation and stall cycles never exceed all cycles, and causes never exceed their class |
| `CycleStats.Remainder` | src/ama_riscv_core.sv:964-999 | What is left over is the number of cycles no tag explains |
| `CycleStats.OneClass` | src/ama_riscv_core.sv:969-998 | The priority chain puts a cycle into at most one class |
| `CycleStats.CoreStats.AddEvents` | cosim/core_stats.h:133-171 | All accumulated counters, of the chain and beside it, are the counts of the run modulo 2^64 |
| `CycleStats.CoreStats.Summarize` | cosim/core_stats.h:117-130 | In any run shorter than 2^64 cycles no cycle class underflows and cycles = ret + bad_spec + stall_be + stall_fe + lost_other; ret_int is right exactly when no more packed than retired instructions were reported; IPC and CPI are the ratios |
| `CycleStats.SimdRetires` | cosim/core_stats.h:124-124 | ret_int cannot underflow if packed instructions are reported only in cycles that retire one |
| `Patcher.FindTagPairs` | script/autogen_perf_events.py:286-312 | The two-index loop finds exactly the pairs in order, or fails on a nested or unterminated block |
| `Patcher.PatchFile` | script/autogen_perf_events.py:314-334 | Back-to-front splicing produces the front-to-back patch; the flag says whether the text differs |
| `Patcher.UpdateFile` | script/autogen_perf_events.py:347-364 | A file is written only when its text differs, and left as it is after an error |
| `PatcherProof.TwiceIsOnce` | script/autogen_perf_events.py:314-334 | Main theorem: patching twice is patching once exactly when no generated line contains a marker, for every text and all generators |
| `PatcherProof.RunTwiceIsOnce` | script/autogen_perf_events.py:336-364 | The same for two runs on a file, with carriage returns in it or in generated lines, and when nothing is written |
| `PatcherProof.LastPatchWins` | script/autogen_perf_events.py:326-330 | Patching forgets an earlier patch exactly when that one put no marker between the markers |
| `PatcherProof.PatchedMarks` | script/autogen_perf_events.py:286-330 | Patching keeps every marked line and adds those of the bodies |
| `PatcherProof.PatchedLines` | script/autogen_perf_events.py:317-333 | The lines of a patched text are the patch of its lines with the lines the generators make in a file |
| `PatcherProof.EndMarkerGenerated` | script/autogen_perf_events.py:326-330 | The input for which patching twice differs: a generator that writes an end marker |
| `PatcherOutside.OutsideUnchanged` | script/autogen_perf_events.py:326-330 | For all generators: every block of lines outside the marker pairs is kept, at its place shifted by the growth of the bodies before it, with the generated body behind it |
| `PatcherOutside.OutsideText` | script/autogen_perf_events.py:317-333 | Every character outside the bodies is reproduced exactly when the text is not empty and each line outside the bodies, the last included, ends in exactly one line feed |
| `PatcherOutside.UnchangedWhen` | script/autogen_perf_events.py:333-334 | For all texts and generators, a file is reported unchanged exactly when its lines outside the bodies end in one line feed each, there is one, and each body is the text of its generated lines |
| `PatcherOutside.FinalFeedAdded` | script/autogen_perf_events.py:333-333 | The input for which text outside the bodies changes: a closing marker without a final line feed |
| `PatcherOutside.JoinOfSplit` | script/autogen_perf_events.py:317-333 | Splitting and joining reproduces a text exactly when its last character is a line feed and nothing else ends a line |
| `PatcherPairs.PairsExactly` | script/autogen_perf_events.py:286-312 | The pairs of a file are the one list of blocks, opening line, unmarked lines, closing line, that holds all opening lines; the scan fails exactly when there is none |
| `PatcherSplice.SplicedIsPatched` | script/autogen_perf_events.py:326-330 | Splicing at the pairs found is the front-to-back patch, and both fail on the same files |
| `PatcherSplice.SplicedPlaces` | script/autogen_perf_events.py:326-330 | Where every kept block and every body of a splice stands |
| `PatcherText.SplitsExactlyAt` | script/autogen_perf_events.py:317-317 | Text is split at exactly ten characters |
| `PatcherText.HasExactly` | script/autogen_perf_events.py:291-296 | A line contains a marker exactly when the marker stands somewhere in it |
| `PatcherText.SplitOfJoin` | script/autogen_perf_events.py:333-333 | Entries that span several lines become those lines of the file, each with its ending |
| `PatcherText.ReadTextLines` | script/autogen_perf_events.py:316-317 | Reading a file in text mode turns the carriage returns that end lines into line feeds and changes nothing else |
| `PatcherText.RawOfLines` | script/autogen_perf_events.py:317-317 | Splitting loses no character |

## Left out

- Front-end stall and speculation control, branch predictors and the pattern history table: a mispredict is an arbitrary flush of EXE.
- End-to-end precise traps and liveness of the return path: trap statements are about the controller and the CSRs. RESTORE_PENDING has no cancel arm (src/ama_riscv_trap_ctrl.sv:147-149).
- Coherence between the caches: there is no invalidation path; the instruction cache statements assume unmodified memory.
- True least-recently-used replacement of the instruction cache: its counters are proved to run one cycle late.
- Unaligned data cache requests, which the source excludes by assertion.
- Stores and branches as such in the pipeline: they are instructions without a destination; their operands are covered.
- CycleStats.SimdRetires: that a packed instruction is reported only in a cycle that retires one is a fact of the pipeline beyond the event chain, so it stays a hypothesis.
- CycleStats.CoreStats.Summarize: the ratios are real numbers, without the rounding of `float`.
- PipelineProof.ReadsAreSequential: reset flushes of single stages are not modelled; the state after reset is the initial state.
- TrapFlow.TrapTaken: the tags and redirect requests that carry a recognition down the pipeline and back; their arrival is an input.
- The paired result of a trapped instruction: it is an instruction that writes nothing.
- The write-back select register that keeps its value while nothing is written: a stage uses the select of the instruction it holds.
- Segmented shifts and data-format permutations: in the pipeline they are opaque functions of their operands.
- Decoder tables, ALU, immediate generator, CLINT, HPM counters, UART, FPGA wrappers, simulation interfaces and the remaining scripts: table-like or input/output.
- The generators of the patcher: any lists of lines take their place.
- PatcherProof.RunTwiceIsOnce: one file of a run at a time; missing files, messages and the exit code are not modelled.
- PipelineMemory.CacheServesPipeline: loads from the UART and the CLINT, which their devices answer.
