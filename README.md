# Host-side programming core of an AIE dataflow accelerator

This project models, in Dafny, the host-side code that programs a tiled
dataflow accelerator (AI Engine array) from Python. It covers four parts:

- **Instruction encoder** (`IpuInstructions`, with `Bits`). These are the
  words of the device-control instruction stream:
  - the prolog;
  - `sync`;
  - `write32`;
  - the shim-tile task-queue push;
  - the ten-word `writebd_shimtile` buffer descriptor;
  - the expansion of a descriptor into eight register writes
    (`_exec_write_bd_extend_shim_tile_opt`).

  Python integers are unbounded and non-negative here, so words are `nat`.
  `&`, `|`, `<<` and `>>` are defined in `Bits` by what they do to each
  bit: a bit of `a & b` is set iff it is set in both, a bit of `a | b` iff
  it is set in either, and the shifts move bit i to bit i + n or i - n.
  Lemmas then prove them equal to their arithmetic forms (`ShlIsMul`,
  `ShrIsDiv`, `LowIsMod`, `AndLowMask`, `OrDisjoint`).
  - `write32`, `sync` and the task-queue push have decoders, which are the
    reference layouts, and round-trip lemmas show that every field comes
    back, truncated to its width.
  - The ten `writebd_shimtile` words are given by closed forms in the
    arguments, and field lemmas read each argument back from its word. The
    two lock values do not come back whole: a 7-bit field reads back the
    value AND 0x6F (`LockWordFields`).
  - The expansion into register writes is proved against the decoder of
    `write32`.
- **Channel allocator** (`FlowAllocator`). This is `broadcast_flow` with
  `_find_next_channel`:
  - numpy arrays become a `Grid` (a shape plus row-major cells);
  - broadcasting to the destination shape is explicit;
  - the flows that already exist are an explicit registry;
  - channel choice is proved to be the least free index, with no collision
    with the registry or with the other flows of the same call.
- **Lock protocol** (`LockProtocol`). These are the builders `process_bd`,
  `hold_lock` and `forward_bd`:
  - the ops they emit are recorded on a `Builder` object, which stands for
    the MLIR insertion point;
  - a small simulator runs the pair of DMA programs that `forward_bd`
    builds over lock counts;
  - under every schedule, exactly one of {the read-in lock, the write-out
    lock, the receive program, the send program} holds the buffer
    (ping-pong);
  - one of the two programs can always move, so the pair never deadlocks.
- **Sizing arithmetic of the matmul tests** (`MatmulSizing`,
  `PassthroughPatterns`):
  - `num_rows_cols_per_tile`, the time-slice doubling loop, the rounding of
    fat rows to core rows and the `> 64` iteration guards of
    `test/ipu-xrt/e2e/test_perf.py`;
  - the dimension checks, the MM2S/S2MM `(size, stride)` patterns and the
    command line of `dma_test.py`. The patterns are proved to be bijections
    onto the tiles they walk.

`Results` holds the `Option` and `Result` types. `AieTypes` holds the tile
and DMA-direction types that are shared between modules.

Behaviour of the code worth noting:

- **Source channel only at the first occurrence.** The source channel that
  `broadcast_flow` picks automatically is written only at the first
  occurrence of each source tile, because `np.unique(..., return_index=True)`
  gives the first index. The other occurrences keep `None`; they do not
  share the channel.
- **Distinct destination tiles all get channel 0.** Automatic destination
  channels are distinct only among flows that reach the same tile. N
  different destination tiles with no earlier flows all get channel 0
  (`FreshFanOut`).
- **A given channel array with any `None` cell is rejected.** A channel
  argument that is an array is rejected as soon as one of its cells is
  `None`, including an array of `None` only; a plain `None` means
  automatic (aiex.py:457-460). An explicit channel on one side with
  automatic on the other is accepted.
- **The `> 64` guards let exactly 64 pass.** The guards in
  test_perf.py:897-902 raise only above 64, although their message says
  "must <64".
- **Each call sees only the flows already in the module.** The flows that
  one `broadcast_flow` call creates join the module, so a later call's
  automatic channels avoid them (`BroadcastFlow` returns the extended
  registry, `SecondCallAvoidsFirst`).

## Model

| member | source | states |
|---|---|---|
| Bits.ShlIsMul | python/dialects/aiex.py:128-130 | `x << n` equals x * 2^n |
| Bits.ShrIsDiv | python/dialects/aiex.py:183 | `x >> n` equals floor(x / 2^n) |
| Bits.LowIsMod | python/dialects/aiex.py:178 | masking with 2^n - 1 equals x mod 2^n |
| Bits.AndLowMask | python/dialects/aiex.py:161 | `x & (2^n - 1)` keeps exactly the low n bits of x |
| Bits.OrDisjoint | python/dialects/aiex.py:128-135 | OR of two numbers with no common set bit is their sum |
| IpuInstructions.GetProlog | python/dialects/aiex.py:118-119 | the prolog has 17 words: it starts with 0x11, ends with 0x55FF, and every word fits in 32 bits |
| IpuInstructions.UpperBytesFields | python/dialects/aiex.py:143-145 | opcode, column and row land in bytes 3, 2 and 1, each taken mod 256; byte 0 is clear and the word fits in 32 bits |
| IpuInstructions.ByteFields | python/dialects/aiex.py:128-135 | a word packed from four bytes gives each byte back by field extraction |
| IpuInstructions.Write32RoundTrip | python/dialects/aiex.py:140-149 | decoding the three `write32` words gives back column mod 256, row mod 256, address and value; the header's low byte is 0 |
| IpuInstructions.SyncWord0Is | python/dialects/aiex.py:127-131 | sync word 0 is opcode 3, column and row in bytes 3..1, and the direction in bit 0 |
| IpuInstructions.SyncRoundTrip | python/dialects/aiex.py:123-137 | decoding the two sync words gives back column, row, channel, column count and row count mod 256, and the direction mod 2; both words fit in 32 bits |
| IpuInstructions.PushQueueValueIs | python/dialects/aiex.py:161-165 | the queue value is bd_id mod 16, plus (repeats mod 256) * 2^16, plus the token-issue bit 0x80000000 exactly for S2MM |
| IpuInstructions.PushQueueAddressesDistinct | python/dialects/aiex.py:155-160 | for channel index 0 or 1, the four task-queue addresses are pairwise distinct: two are equal iff direction and index are |
| IpuInstructions.PushQueueOtherIndex | python/dialects/aiex.py:159-160 | any channel index other than 1 selects the index-0 address |
| IpuInstructions.ShimTilePushQueueRoundTrip | python/dialects/aiex.py:152-168 | the push is a `write32` to the selected queue address at row 0 that decodes to that value |
| IpuInstructions.HeaderLowByte | python/dialects/aiex.py:249-250 | ddr_id and bd_id fill the two nibbles of byte 0 of the descriptor header |
| IpuInstructions.BdHeaderWordIs | python/dialects/aiex.py:246-250 | header word = opcode/column/column_num bytes + (ddr_id mod 16) << 4 + bd_id mod 16 |
| IpuInstructions.BdHeaderFields | python/dialects/aiex.py:246-250 | every header field decodes back mod its width, and the word fits in 32 bits |
| IpuInstructions.PacketWordIs | python/dialects/aiex.py:258-261 | packet word = enable at bit 30, out-of-order id at 24, packet id at 19, packet type at 16, each masked |
| IpuInstructions.DimWordIs | python/dialects/aiex.py:264-265 | a dimension word holds the size mod 2^10 in bits 20..29 and the stride mod 2^20 in bits 0..19; the word is below 2^30 |
| IpuInstructions.BurstWordIs | python/dialects/aiex.py:268-270 | word 6 is the burst bit 0x80000000 plus the d1 dimension word |
| IpuInstructions.IterationWordIs | python/dialects/aiex.py:275-277 | iteration word = current mod 64 at bit 26, size mod 64 at bit 20, stride mod 2^20; below 2^32 |
| IpuInstructions.LockMaskBits | python/dialects/aiex.py:283-286 | the lock-value mask 0xEF keeps bits 0..7 except bit 4 |
| IpuInstructions.LockWordBit | python/dialects/aiex.py:280-287 | the exact bit layout of word 9: which argument bit lands on each word bit |
| IpuInstructions.LockWordValid | python/dialects/aiex.py:282 | the valid bit 25 of word 9 is set, and word 9 fits in 32 bits |
| IpuInstructions.LockWordDropsBit4 | python/dialects/aiex.py:283-286 | setting bit 4 of either lock value leaves word 9 unchanged |
| IpuInstructions.LockWordOverlaps | python/dialects/aiex.py:283-286 | bit 7 of the acquire value lands on the acquire-enable bit 12, and bit 7 of the release value lands on the valid bit 25 |
| IpuInstructions.LockWordFields | python/dialects/aiex.py:280-287 | next_bd, use_next_bd and the two lock ids decode back mod their widths; the 7-bit lock-value fields read back the value AND 0x6F |
| IpuInstructions.WriteBdShimTileRefuses | python/dialects/aiex.py:224-227 | the encoder fails iff some stride is below 1, and then with the stride error; otherwise it gives ten words |
| IpuInstructions.WriteBdShimTileWords | python/dialects/aiex.py:201-291 | each of the ten descriptor words as a formula in the arguments: strides minus one, byte offset = offset * (width / 8), absent wrap sizes = 0; the eight packed words fit in 32 bits |
| IpuInstructions.BdWordsHead | python/dialects/aiex.py:244-255 | words 0..4: header, zero address increment, length, byte offset, zero packet word |
| IpuInstructions.BdWordsDims | python/dialects/aiex.py:264-270 | words 5 and 6: the d0 and d1 dimension words, d1 with the burst bit |
| IpuInstructions.BdWordsIteration | python/dialects/aiex.py:273-277 | words 7 and 8: the d2 stride and the iteration word |
| IpuInstructions.BdWordsAre | python/dialects/aiex.py:244-291 | all ten words together, given the decremented strides |
| IpuInstructions.HeaderSelectors | python/dialects/aiex.py:173-174 | the expansion reads bd_id from the low nibble and column from byte 2 of word 0 |
| IpuInstructions.PatchedAddressIs | python/dialects/aiex.py:176-181 | the tensor address is the given one, or (addr_high << 32) \| addr_low, plus the DDR offset 0x80000000 |
| IpuInstructions.AddressLowWord | python/dialects/aiex.py:182 | the low address word is the low 32 bits with the bottom two bits cleared |
| IpuInstructions.AddressHighWord | python/dialects/aiex.py:183 | the high address word is the packet half of word 4 plus the address bits above 32 |
| IpuInstructions.AddressHighWordBits | python/dialects/aiex.py:183 | for every address, the high word's bits 0..15 are the address bits 32..47, its bits 16..31 are the packet half of word 4 OR the address bits 48..63, and the address bits from 64 up stay above bit 31 unmasked |
| IpuInstructions.RegisterHighWord | python/dialects/aiex.py:176-183 | the second address register is that high word of the patched tensor address |
| IpuInstructions.AddressHighWordNoPacket | python/dialects/aiex.py:183 | with no packet bits, the high word is the address divided by 2^32 |
| IpuInstructions.RegisterValuesAre | python/dialects/aiex.py:175-195 | the eight register values: the length, the two address words, then words 5..9 copied |
| IpuInstructions.Write32sTriples | python/dialects/aiex.py:187-196 | the k-th triple of the expansion is a `write32` to base + 4k |
| IpuInstructions.DecodeWrite32s | python/dialects/aiex.py:187-196 | each triple decodes to its register address and value |
| IpuInstructions.ExecTriples | python/dialects/aiex.py:185-196 | the expansion writes the eight values to consecutive registers from 0x1D000 + bd_id * 0x20 in the header's column, at row 0 |
| IpuInstructions.ExecWriteBdRefuses | python/dialects/aiex.py:172-197 | the expansion fails (IndexError) iff fewer than ten words are given; otherwise it emits 24 words |
| IpuInstructions.ExecWriteBdRegisters | python/dialects/aiex.py:172-197 | the 24 words decode to eight `write32`s of the register values at consecutive addresses |
| IpuInstructions.ExecPlainDescriptor | python/dialects/aiex.py:172-197 | for a descriptor without packet bits, the registers get the length, the split address offset + 0x80000000, and words 5..9 |
| IpuInstructions.WriteBdPlainHeader | python/dialects/aiex.py:246-258 | an encoded descriptor carries its column and bd_id in the header, length and byte offset in words 2 and 3, and no packet bits |
| IpuInstructions.WriteBdThenExec | python/dialects/aiex.py:172-291 | expanding an encoded descriptor writes its length, DDR address and words 5..9 to the registers of its own BD in its own column |
| FlowAllocator.Scalar | python/dialects/aiex.py:453-456 | a single tile becomes a well-shaped one-cell array |
| FlowAllocator.AtLeastNd | python/dialects/aiex.py:500 | prepending axes of size 1 reaches rank max(rank, n) and keeps the number of cells |
| FlowAllocator.AtLeastNdOnes | python/dialects/aiex.py:500 | an all-ones shape stays all ones |
| FlowAllocator.BroadcastIndexBound | python/dialects/aiex.py:502-505 | every destination cell reads an argument cell that exists |
| FlowAllocator.Flatten | python/dialects/aiex.py:500-507 | broadcasting to the destination shape succeeds iff the argument fits it, and then yields one cell per destination cell |
| FlowAllocator.BroadcastIndexSame | python/dialects/aiex.py:505 | broadcasting a shape to itself reads each cell in place |
| FlowAllocator.BroadcastIndexOnes | python/dialects/aiex.py:505 | an argument whose axes are all 1 is read at cell 0 everywhere |
| FlowAllocator.FlattenSame | python/dialects/aiex.py:505-507 | flattening an array of the destination's own shape gives its cells unchanged |
| FlowAllocator.FlattenSingle | python/dialects/aiex.py:500-507 | a single-cell argument is replicated to every destination cell |
| FlowAllocator.LeastFreeExists | python/dialects/aiex.py:462-470 | every finite set of used channels has a least free channel |
| FlowAllocator.LeastFree | python/dialects/aiex.py:462-470 | the chosen channel is unused and every smaller channel is used |
| FlowAllocator.LeastFreeUnique | python/dialects/aiex.py:462-470 | that channel is unique |
| FlowAllocator.LeastFreeOfRange | python/dialects/aiex.py:462-470 | when channels 0..n-1 are used, the next is n |
| FlowAllocator.LeastFreeExamples | python/dialects/aiex.py:462-470 | {} gives 0, {0, 2} gives 1, {0, 1, 2} gives 3 |
| FlowAllocator.MaxUsed | python/dialects/aiex.py:463 | `max(used, default=-1)`: -1 iff the set is empty, otherwise a member at least every member |
| FlowAllocator.FindNextChannel | python/dialects/aiex.py:462-470 | the scan with its `for ... else` returns the least free channel: 0 for no used channel, otherwise at most max + 1 |
| FlowAllocator.AssignSourceChannels | python/dialects/aiex.py:472-477 | the loop over unique sources gives the least channel free at that tile, written at the first occurrence only |
| FlowAllocator.ExistingDestChannels | python/dialects/aiex.py:480-483 | the used-channel map holds, for each destination tile, exactly the channels of registry flows into it |
| FlowAllocator.DestChannelsStep | python/dialects/aiex.py:485-487 | the next destination gets the least channel free among the registry's and the ones this call has already given that tile |
| FlowAllocator.TracksStep | python/dialects/aiex.py:485-487 | one loop step keeps the map equal to the registry plus the channels handed out so far |
| FlowAllocator.AssignDestChannels | python/dialects/aiex.py:479-487 | the `ndenumerate` loop yields exactly the specified destination channels |
| FlowAllocator.DestChannelsPrefix | python/dialects/aiex.py:485-487 | the channels of a prefix of the destinations are the prefix of the channels |
| FlowAllocator.DestChannelAt | python/dialects/aiex.py:485-487 | channel i is the least free after the registry and the earlier flows into the same tile |
| FlowAllocator.DestChannelsDistinct | python/dialects/aiex.py:479-487 | no automatic destination channel collides with the registry or with another flow into the same tile |
| FlowAllocator.DestChannelsFresh | python/dialects/aiex.py:479-487 | with no earlier flows, each flow's channel is the number of earlier flows into the same tile (0, 1, 2, ...) |
| FlowAllocator.BroadcastColumns | python/dialects/aiex.py:489-507 | all eight arguments broadcast iff each fits the destination shape; otherwise the error names one of the other seven arguments, never the destination itself |
| FlowAllocator.FlowsOf | python/dialects/aiex.py:508-521 | one flow per destination cell, with the source and destination of that cell |
| FlowAllocator.Wrap | python/dialects/aiex.py:522-524 | the single-flow unwrapping loses no flow |
| FlowAllocator.ResolveChannels | python/dialects/aiex.py:472-487 | the two channel arrays equal the specified resolution: given channels kept, missing ones allocated |
| FlowAllocator.AssembleFlows | python/dialects/aiex.py:508-521 | the groupby loop appends exactly the specified flows in order |
| FlowAllocator.BroadcastFlow | python/dialects/aiex.py:443-524 | the method computes the specified result of `broadcast_flow`, and on success the registry grows by the routes of the new flows that have both channels |
| FlowAllocator.RoutesOfHas | python/dialects/aiex.py:508-521 | a new flow with both channels is entered in the routes it adds |
| FlowAllocator.SecondCallAvoidsFirst | python/dialects/aiex.py:479-521 | after one call's flows join the registry, a second call's automatic destination channels never equal a channel the first call gave a flow into the same tile |
| FlowAllocator.BroadcastFlowErrors | python/dialects/aiex.py:457-504 | fails with mixed channels iff a given channel array has any `None` cell; otherwise succeeds iff every argument broadcasts to the destination |
| FlowAllocator.ResolvedWellShaped | python/dialects/aiex.py:472-487 | resolved channel arrays are well shaped |
| FlowAllocator.OneFlowPerDestination | python/dialects/aiex.py:508-524 | one flow per destination cell in row-major order; a single flow is returned unwrapped exactly when there is one |
| FlowAllocator.AutoDestFlows | python/dialects/aiex.py:479-521 | with automatic destination channels, flow i goes to destination cell i on the allocated channel i |
| FlowAllocator.AutoDestChannels | python/dialects/aiex.py:479-487 | automatic destination channels avoid the registry and differ between flows into the same tile |
| FlowAllocator.FanOut | python/dialects/aiex.py:443-524 | one source to an array of tiles: one flow per destination, all from the source's least free channel, each on its allocated destination channel, no bundles |
| FlowAllocator.FreshFanOut | python/dialects/aiex.py:443-524 | with no earlier flows: source channel 0, and the i-th flow into a tile gets channel i |
| LockProtocol.Builder.UseLock | python/dialects/aiex.py:316 | appends one `use_lock` op; locks unchanged |
| LockProtocol.Builder.DmaBd | python/dialects/aiex.py:317 | appends one `dma_bd` op; locks unchanged |
| LockProtocol.Builder.Lock | python/dialects/aiex.py:341-351 | declares a lock with the tile, initial value and name, and returns a reference to it |
| LockProtocol.Builder.Dma | python/dialects/aiex.py:355-361 | appends one DMA program with direction, channel, loop flag, repeat count and body |
| LockProtocol.Builder.ProcessBd | python/dialects/aiex.py:303-318 | appends acquire, buffer descriptor and release, in this order, with the given actions and values |
| LockProtocol.Builder.ProcessBdDefaults | python/dialects/aiex.py:311-314 | default actions are acquire-greater-equal and release, with no values |
| LockProtocol.Builder.HoldLock | python/dialects/aiex.py:364-370 | the release follows the body whether the body returns or raises, and the exception propagates |
| LockProtocol.Builder.ForwardBd | python/dialects/aiex.py:321-362 | missing locks are declared with init 1 (read-in) and 0 (write-out) and names `<buffer>_read_in_lock` / `_write_out_lock`; then an S2MM program (acquire read-in, fill, release write-out) and an MM2S program (acquire write-out, drain, release read-in) are added on the same channel unless one is given; they loop iff there is no repeat count |
| LockProtocol.ForwardStart | python/dialects/aiex.py:340-351 | locks starting at (1, 0) with both programs at their start satisfy the ping-pong invariant |
| LockProtocol.ForwardBdStartsSafe | python/dialects/aiex.py:340-361 | the two locks `forward_bd` declares are distinct, and the machine started from their declared initial values satisfies the ping-pong invariant |
| LockProtocol.ForwardStep | python/dialects/aiex.py:355-361 | every enabled step of either program keeps the invariant: read-in + write-out + holders == 1 |
| LockProtocol.ForwardRun | python/dialects/aiex.py:355-361 | the invariant holds after any interleaving of the two programs |
| LockProtocol.ForwardProgress | python/dialects/aiex.py:355-361 | under the invariant some program can step (no deadlock), and never both hold the buffer |
| MatmulSizing.TotalSizeMono | test/ipu-xrt/e2e/test_perf.py:824-825 | `total_size(x, x)` grows with x |
| MatmulSizing.TotalSizeGrows | test/ipu-xrt/e2e/test_perf.py:824-825 | and strictly, once some block size is positive |
| MatmulSizing.GreatestFit | test/ipu-xrt/e2e/test_perf.py:827-832 | where the loop stops, x rows/cols fit iff x is at most the count found |
| MatmulSizing.GreedyFit | test/ipu-xrt/e2e/test_perf.py:827-832 | the loop returns a == b, the largest count that fits |
| MatmulSizing.NumRowsColsPerTile | test/ipu-xrt/e2e/test_perf.py:817-838 | ValueError iff not even one row/col fits, carrying total_size(1, 1); otherwise equal counts of at least 1, the greatest that fit |
| MatmulSizing.StillWide | test/ipu-xrt/e2e/test_perf.py:507-510 | while the slice is too big, the slice count has not passed K |
| MatmulSizing.TimeSlices | test/ipu-xrt/e2e/test_perf.py:507-510 | the loop doubles the slice count until the three slices fit in 64 KiB; m, k, n are the floored quotients, and every smaller doubling did not fit |
| MatmulSizing.RoundRowsToCores | test/ipu-xrt/e2e/test_perf.py:854-861 | ZeroDivisionError iff no core rows remain or nothing is packed; otherwise the cores are cut to the packed count, and fat rows = per-core * cores, at most packed, short of it by less than one per core |
| MatmulSizing.RoundingNeverShort | test/ipu-xrt/e2e/test_perf.py:858-863 | once the division succeeds the rounded count is at least 1, so the ValueError at :862 cannot be raised |
| MatmulSizing.ThinSliceIterations | test/ipu-xrt/e2e/test_perf.py:884-903 | fails iff either per-round count exceeds 64, checking A first and naming the count; otherwise gives (count, stride) for A and B |
| MatmulSizing.RowProductSizing | test/ipu-xrt/e2e/test_perf.py:854-903 | zero cores or nothing packed gives ZeroDivision; otherwise, with cores cut to the packed count, per-core = packed / cores and fat = per-core * cores: it succeeds iff both per-round counts per-core * K_slices and fat * K_slices are at most 64; A's count is checked first and named in the error, then B's; on success it returns those cores, per-core, fat and the two (count, stride) pairs, and cores * count A == count B |
| PassthroughPatterns.MyPassthrough | programming_examples/basic/dma_test_for_Andra/dma_test.py:22-97 | succeeds iff k != 0, K % k == 0, m % 4 == 0 and k % 5 == 0, failing at the first of these checks in source order with that check's error; gives the four MM2S and three S2MM dims |
| PassthroughPatterns.BlocksCoverTile | programming_examples/basic/dma_test_for_Andra/dma_test.py:86 | K/k blocks of m*k elements cover the m-by-K memory tile |
| PassthroughPatterns.Mm2sOffsetIs | programming_examples/basic/dma_test_for_Andra/dma_test.py:85-90 | the MM2S pattern visits block * m*k + row * k + group * 5 + column |
| PassthroughPatterns.Mm2sInjective | programming_examples/basic/dma_test_for_Andra/dma_test.py:85-90 | every MM2S index lands inside the memory tile, and its offset gives the index back |
| PassthroughPatterns.Mm2sSurjective | programming_examples/basic/dma_test_for_Andra/dma_test.py:85-90 | every element of the memory tile is visited |
| PassthroughPatterns.S2mmOffsetIs | programming_examples/basic/dma_test_for_Andra/dma_test.py:92-97 | the S2MM pattern visits rowblock * 4k + colgroup * 20 + inner |
| PassthroughPatterns.S2mmInjective | programming_examples/basic/dma_test_for_Andra/dma_test.py:92-97 | every S2MM index lands inside the compute tile, and its offset gives the index back |
| PassthroughPatterns.S2mmSurjective | programming_examples/basic/dma_test_for_Andra/dma_test.py:92-97 | every element of the compute tile is visited |
| PassthroughPatterns.ElementCounts | programming_examples/basic/dma_test_for_Andra/dma_test.py:36-97 | MM2S moves m*K elements (the memory tile) and S2MM moves m*k (the compute tile) |
| PassthroughPatterns.RunFromCommandLine | programming_examples/basic/dma_test_for_Andra/dma_test.py:178-193 | usage error iff 1, 2 or more than 3 dims are given; with 3 it runs `my_passthrough(m, k, K)` |
| PassthroughPatterns.DefaultDimsRejected | programming_examples/basic/dma_test_for_Andra/dma_test.py:180-193 | the defaults (32, 64, 256) fail the k % 5 check |

## Left out

- IpuInstructions: negative arguments to the encoders are not modelled; all inputs are `nat`. Python's `&` on a negative int uses two's complement.
- IpuInstructions: the 0xEF lock-value masks are modelled as written. `LockWordDropsBit4` and `LockWordOverlaps` state what they do, and no corrected mask is proposed.
- IpuInstructions: the `IntegerAttr` conversions of channel arguments are not modelled; channels are plain integers. The `assert not any(w is None ...)` checks cannot fail and are not modelled.
- IpuInstructions: the decoders (`DecodeWrite32`, `DecodeSync`) are reference layouts written for the round trips. They are not part of the source.
- FlowAllocator: `flow`, `find_matching_flows` and the MLIR attributes are not modelled. A flow is a record, and the flows already in the module are an explicit registry of routes.
- FlowAllocator: annotations become plain values on the flow rather than `DictAttr`s.
- FlowAllocator: the `broadcast_shapes(...) == dest.shape` check on the destination itself is not modelled, because it cannot fail.
- FlowAllocator: `TileArray` and its operators are not part of this model.
- FlowAllocator: `np.broadcast_shapes` raises ValueError for shapes that do not broadcast at all, while the assert at aiex.py:502-504 raises AssertionError for shapes that broadcast to something larger than the destination. Both become the one `ShapeMismatch` error.
- FlowAllocator.BroadcastFlow: a flow without a source channel (a later occurrence of a source tile with an automatic channel) is not entered in the registry, because what `flow` does with a `None` channel is not modelled.
- IpuInstructions: Python's default arguments of `_ipu_sync` (aiex.py:123) and `repeats=0` of `_ipu_shimtile_push_queue` (aiex.py:152) are not modelled; every argument is passed explicitly.
- LockProtocol: `use_lock`, `dma_bd`, `dma` and `lock` are MLIR op builders. They are recorded as abstract ops, and their verification by MLIR is not modelled.
- LockProtocol: the simulator uses the following semantics for `forward_bd`'s programs. These are an assumption about the hardware and are not taken from the code:
  - acquire-greater-equal waits for the count and subtracts the value;
  - release adds the value;
  - a missing value means 1.
- LockProtocol: the simulator gives acquire-equal no step.
- LockProtocol.Builder.HoldLock: the body of the `with` block is a given op list plus whether it raised; arbitrary Python code in the block is not modelled.
- MatmulSizing.NumRowsColsPerTile: requires some block size to be positive. With all sizes 0 the source loop never ends.
- MatmulSizing.TimeSlices: requires the slice with k = 0 to fit in 64 KiB. Otherwise the source loop never ends.
- MatmulSizing.RowProductSizing: starts from the packed row count that `num_rows_cols_per_tile` returns, rather than calling it. That count's properties are in `NumRowsColsPerTile` and `GreatestFit`.
- MatmulSizing.RowProductSizing: `thin_slice_stride` (a float `log2`) and `K_slices` are inputs.
- MatmulSizing.NumRowsColsPerTile: the default arguments (m = k = n = 16, 4-byte elements, 512 KiB of memory; test_perf.py:818-819) are not modelled; every argument is passed explicitly.
- MatmulSizing.RoundRowsToCores: the `warnings.warn` when the core rows are cut (test_perf.py:855) is output only and is not modelled.
- MatmulSizing: `n_rounds` (a float `ceil`) and the rest of the test's MLIR construction are not modelled.
- PassthroughPatterns: the rest of `my_passthrough` is not modelled. This covers:
  - the object-FIFO and runtime-sequence construction;
  - the `range_` loops of the core body, which emit IR and do not run on the host.
- PassthroughPatterns: `print` and `exit(-1)` are left out; the command line yields a result value instead.
- PassthroughPatterns: the argument parser's rejection of non-integers is not modelled.
- PassthroughPatterns.Mm2sInjective: the bijection lemmas require m > 0 and k > 0. With a zero dimension the patterns visit nothing.
