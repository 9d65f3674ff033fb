/**
 * The host-side encoder of the device-control instruction stream: each
 * instruction is a short list of words built from masked, shifted fields.
 * Words are Python integers, so they are `nat` here and are not truncated to
 * 32 bits: a verbatim address or value wider than 32 bits stays wide.
 */
module IpuInstructions {
  import opened Bits
  import opened Results
  import opened AieTypes

  const PROLOG: seq<nat> := [
    0x00000011, 0x01000405, 0x01000100, 0x0B590100, 0x000055FF, 0x00000001,
    0x00000010, 0x314E5A5F, 0x635F5F31, 0x676E696C, 0x39354E5F, 0x6E693131,
    0x5F727473, 0x64726F77, 0x00004573, 0x07BD9630, 0x000055FF
  ]

  const MM2S_0_TASK_QUEUE: nat := 0x0001D214
  const S2MM_0_TASK_QUEUE: nat := 0x0001D204
  const TASK_QUEUE_ENABLE_TOKEN_ISSUE_MASK: nat := 0x80000000
  const TASK_QUEUE_START_BD_ID_MASK: nat := 0x0000000F

  const SHIM_DMA_BD0_BASE_ADDR: nat := 0x1D000
  const SHIM_BD_OFFSET: nat := 0x20
  const DDR_AIE_ADDR_OFFSET: nat := 0x80000000

  const WRITE32_OPCODE: nat := 2
  const SYNC_OPCODE: nat := 3
  const WRITEBD_OPCODE: nat := 6

  datatype EncodeError =
    | NonPositiveStride   // the stride assertion of writebd_shimtile
    | ShortInstruction    // an IndexError: fewer than 10 words to re-emit

  // ---------------------------------------------------------------------------
  // Encoders

  /** The constant header that starts every instruction stream (a fresh copy in the source). */
  function GetProlog(): (r: seq<nat>)
    ensures |r| == 17 && r[0] == 0x11 && r[16] == 0x55FF
    ensures forall w <- r :: w < 0x1_0000_0000
  {
    PROLOG
  }

  /** Bytes 3, 2 and 1 of a word, each masked to eight bits; byte 0 is left zero. */
  ghost function UpperBytes(b3: nat, b2: nat, b1: nat): nat
  {
    Or(Or(Shl(And(b3, 0xFF), 24), Shl(And(b2, 0xFF), 16)), Shl(And(b1, 0xFF), 8))
  }

  /** A two-word `sync` instruction: a barrier on a DMA channel of a tile. */
  ghost function Sync(column: nat, row: nat, direction: nat, channel: nat, columnNum: nat, rowNum: nat): seq<nat>
  {
    var w0 := Or(UpperBytes(SYNC_OPCODE, column, row), And(direction, 0x1));
    var w1 := UpperBytes(channel, columnNum, rowNum);
    [w0, w1]
  }

  /** A three-word `write32` instruction: write `value` to register `address` of a tile. */
  ghost function Write32(column: nat, row: nat, address: nat, value: nat): seq<nat>
  {
    var w0 := UpperBytes(WRITE32_OPCODE, column, row);
    [w0, address, value]
  }

  /** The register value of a task-queue push: start BD, repeat count, and the token-issue flag for S2MM. */
  ghost function PushQueueValue(channelDir: DmaChannelDir, bdId: nat, repeats: nat): nat
  {
    var value := Or(And(bdId, TASK_QUEUE_START_BD_ID_MASK), Shl(And(repeats, 0xFF), 16));
    if channelDir == S2MM then Or(value, TASK_QUEUE_ENABLE_TOKEN_ISSUE_MASK) else value
  }

  /** Task-queue register of a shim DMA channel (only index 1 moves off channel 0's register). */
  function PushQueueAddress(channelDir: DmaChannelDir, channelIndex: int): nat
  {
    var address := if channelDir == MM2S then MM2S_0_TASK_QUEUE else S2MM_0_TASK_QUEUE;
    if channelIndex == 1 then address + 0x8 else address
  }

  /** Push buffer descriptor `bdId` onto a shim DMA channel's task queue. */
  ghost function ShimTilePushQueue(channelDir: DmaChannelDir, channelIndex: int, column: nat, bdId: nat, repeats: nat): seq<nat>
  {
    var row := 0;
    Write32(column, row, PushQueueAddress(channelDir, channelIndex), PushQueueValue(channelDir, bdId, repeats))
  }

  /** The parameters of one shim-tile buffer descriptor; a stride is given as written by the caller (at least 1). */
  datatype ShimBd = ShimBd(
    bdId: nat, bufferLength: nat, bufferOffset: nat, ddrId: nat, column: nat,
    d2Stride: int, d1Size: Option<nat>, d1Stride: int, d0Size: Option<nat>, d0Stride: int,
    iterationSize: nat, iterationStride: nat, iterationCurrent: nat,
    lockAcqEnable: nat, lockAcqId: nat, lockAcqVal: nat, lockRelId: nat, lockRelVal: nat,
    nextBd: nat, useNextBd: nat, dataWidth: nat)

  /** The keyword defaults of `writebd_shimtile`. */
  function DefaultShimBd(bdId: nat, bufferLength: nat): ShimBd
  {
    ShimBd(bdId, bufferLength, 0, 0, 0, 1, None, 1, None, 1, 0, 0, 0, 0, 0, 0, 0, 0, 0, 0, 32)
  }

  predicate StridesPositive(bd: ShimBd)
  {
    bd.d2Stride >= 1 && bd.d1Stride >= 1 && bd.d0Stride >= 1
  }

  /** Word 0 of a shim buffer descriptor: opcode, column, column count, DDR id and BD id. */
  ghost function BdHeaderWord(opCode: nat, column: nat, columnNum: nat, ddrId: nat, bdId: nat): nat
  {
    Or(Or(UpperBytes(opCode, column, columnNum), Shl(And(ddrId, 0xF), 4)), And(bdId, 0xF))
  }

  /** Word 4: packet enable, out-of-order BD id, packet id and packet type. */
  ghost function PacketWord(enablePacket: nat, outOfOrderId: nat, packetId: nat, packetType: nat): nat
  {
    Or(Or(Or(Shl(And(enablePacket, 0x1), 30), Shl(And(outOfOrderId, 0x3F), 24)),
          Shl(And(packetId, 0x1F), 19)),
       Shl(And(packetType, 0x7), 16))
  }

  /** Word 5: a wrap size (10 bits at 20) and a stride (20 bits). */
  ghost function DimWord(size: nat, stride: nat): nat
  {
    Or(Shl(And(size, 0x3FF), 20), And(stride, 0xFFFFF))
  }

  /** Word 6: the burst-length bit 31, then a wrap size and a stride laid out as in word 5. */
  ghost function BurstWord(size: nat, stride: nat): nat
  {
    Or(Or(0x80000000, Shl(And(size, 0x3FF), 20)), And(stride, 0xFFFFF))
  }

  /** Word 8: iteration current (6 bits at 26), iteration size (6 bits at 20) and iteration stride (20 bits). */
  ghost function IterationWord(current: nat, size: nat, stride: nat): nat
  {
    Or(Or(Shl(And(current, 0x3F), 26), Shl(And(size, 0x3F), 20)), And(stride, 0xFFFFF))
  }

  /** Word 9 of a shim buffer descriptor: chaining, validity and the two lock actions (masks as in the source). */
  ghost function LockWord(nextBd: nat, useNextBd: nat, validBd: nat, lockRelVal: nat, lockRelId: nat,
                    lockAcqEnable: nat, lockAcqVal: nat, lockAcqId: nat): nat
  {
    Or(Or(Or(Or(Or(Or(Or(Shl(And(nextBd, 0xF), 27), Shl(And(useNextBd, 0x1), 26)),
                      Shl(And(validBd, 0x1), 25)),
                   Shl(And(lockRelVal, 0xEF), 18)),
                Shl(And(lockRelId, 0xF), 13)),
             Shl(And(lockAcqEnable, 0x1), 12)),
          Shl(And(lockAcqVal, 0xEF), 5)),
       And(lockAcqId, 0xF))
  }

  /** A buffer offset counted in elements of `dataWidth` bits, converted to bytes. */
  function ByteOffset(offset: nat, dataWidth: nat): nat
  {
    offset * (dataWidth / 8)
  }

  /** The ten-word `writebd_shimtile` instruction describing one shim buffer descriptor. */
  ghost function WriteBdShimTile(bd: ShimBd): Result<seq<nat>, EncodeError>
  {
    if !(bd.d2Stride - 1 >= 0 && bd.d1Stride - 1 >= 0 && bd.d0Stride - 1 >= 0) then
      Err(NonPositiveStride)
    else
      Ok(BdWords(bd, bd.d2Stride - 1, bd.d1Stride - 1, bd.d0Stride - 1))
  }

  /** The words of a shim buffer descriptor, given its strides already lowered by one. */
  ghost function BdWords(bd: ShimBd, d2Stride: nat, d1Stride: nat, d0Stride: nat): seq<nat>
  {
    var bufferOffset := ByteOffset(bd.bufferOffset, bd.dataWidth);
    // None means do not wrap, which is 0 on the architecture
    var d1Size := bd.d1Size.GetOr(0);
    var d0Size := bd.d0Size.GetOr(0);
    var columnNum, enablePacket, outOfOrderId, packetId, packetType, validBd := 1, 0, 0, 0, 0, 1;
    var opCode := WRITEBD_OPCODE;
    [BdHeaderWord(opCode, bd.column, columnNum, bd.ddrId, bd.bdId),
     0,
     bd.bufferLength,
     bufferOffset,
     PacketWord(enablePacket, outOfOrderId, packetId, packetType),
     DimWord(d0Size, d0Stride),
     BurstWord(d1Size, d1Stride),
     And(d2Stride, 0xFFFFF),
     IterationWord(bd.iterationCurrent, bd.iterationSize, bd.iterationStride),
     LockWord(bd.nextBd, bd.useNextBd, validBd, bd.lockRelVal, bd.lockRelId,
              bd.lockAcqEnable, bd.lockAcqVal, bd.lockAcqId)]
  }

  /** The absolute DRAM address patched into a descriptor, with the fixed bias added. */
  ghost function PatchedAddress(iptr: seq<nat>, tensorAddr: Option<nat>): nat
    requires |iptr| >= 10
  {
    var addrLow := iptr[3];
    // upper 16 bits are for packets
    var addrHigh := And(iptr[4], 0x0000FFFF);
    var tensorAddr := if tensorAddr.None? then Or(Shl(addrHigh, 32), addrLow) else tensorAddr.value;
    tensorAddr + DDR_AIE_ADDR_OFFSET
  }

  /**
   * Re-emit a ten-word buffer-descriptor instruction as eight `write32`s to the
   * shim BD registers, with a concrete DRAM address patched into slots 1 and 2.
   */
  ghost function ExecWriteBdExtendShimTileOpt(iptr: seq<nat>, tensorAddr: Option<nat>): Result<seq<nat>, EncodeError>
  {
    if |iptr| < 10 then Err(ShortInstruction)
    else
      var bdId := And(iptr[0], 0x0000000F);
      var column := Shr(And(iptr[0], 0x00FF0000), 16);
      var tensorAddr := PatchedAddress(iptr, tensorAddr);
      var tWord0 := And(tensorAddr, 0xFFFFFFFC);
      var tWord1 := Or(And(iptr[4], 0xFFFF0000), Shr(tensorAddr, 32));
      var baseAddr := SHIM_DMA_BD0_BASE_ADDR + bdId * SHIM_BD_OFFSET;
      var row := 0;
      Ok(Write32s(column, row, baseAddr, [iptr[2], tWord0, tWord1, iptr[5], iptr[6], iptr[7], iptr[8], iptr[9]]))
  }

  /** One write32 per value, to consecutive registers (4 bytes apart) starting at `address`. */
  ghost function Write32s(column: nat, row: nat, address: nat, values: seq<nat>): seq<nat>
    decreases |values|
  {
    if values == [] then []
    else Write32(column, row, address, values[0]) + Write32s(column, row, address + 4, values[1..])
  }

  // ---------------------------------------------------------------------------
  // Decoders: how the device loader reads the fields back

  datatype Write32Fields = Write32Fields(column: nat, row: nat, address: nat, value: nat)

  ghost function DecodeWrite32(words: seq<nat>): Option<Write32Fields>
  {
    if |words| == 3 && Field(words[0], 24, 8) == WRITE32_OPCODE then
      Some(Write32Fields(Field(words[0], 16, 8), Field(words[0], 8, 8), words[1], words[2]))
    else None
  }

  datatype SyncFields = SyncFields(column: nat, row: nat, direction: nat, channel: nat, columnNum: nat, rowNum: nat)

  ghost function DecodeSync(words: seq<nat>): Option<SyncFields>
  {
    if |words| == 2 && Field(words[0], 24, 8) == SYNC_OPCODE then
      Some(SyncFields(Field(words[0], 16, 8), Field(words[0], 8, 8), Field(words[0], 0, 8),
                      Field(words[1], 24, 8), Field(words[1], 16, 8), Field(words[1], 8, 8)))
    else None
  }


  // ---------------------------------------------------------------------------
  // Field layout: each masked, shifted field lands in its own bits, so every
  // word is the sum of its fields

  /** Three bytes OR-ed side by side above an empty byte 0 add up. */
  lemma PackBytes(x3: nat, x2: nat, x1: nat)
    requires x2 < Pow2(8) && x1 < Pow2(8)
    ensures Or(Or(Shl(x3, 24), Shl(x2, 16)), Shl(x1, 8)) == Shl(x3, 24) + Shl(x2, 16) + Shl(x1, 8)
    ensures LowBits(Shl(x3, 24) + Shl(x2, 16), 16) == 0
    ensures LowBits(Shl(x3, 24) + Shl(x2, 16) + Shl(x1, 8), 8) == 0
  {
    ShlClear(x3, 24);
    OrField(Shl(x3, 24), x2, 16, 8);
    OrField(Shl(x3, 24) + Shl(x2, 16), x1, 8, 8);
  }

  /** The three bytes of UpperBytes sit side by side: the word is their sum, with byte 0 clear. */
  lemma UpperBytesIs(b3: nat, b2: nat, b1: nat)
    ensures UpperBytes(b3, b2, b1) == Shl(b3 % 256, 24) + Shl(b2 % 256, 16) + Shl(b1 % 256, 8)
    ensures LowBits(UpperBytes(b3, b2, b1), 8) == 0
  {
    MaskLit(b3, 0xFF, 8);
    MaskLit(b2, 0xFF, 8);
    MaskLit(b1, 0xFF, 8);
    PackBytes(b3 % 256, b2 % 256, b1 % 256);
  }

  /** Reading back the four bytes of a 32-bit word. */
  lemma ByteFields(x: nat, x3: nat, x2: nat, x1: nat, x0: nat)
    requires x3 < 256 && x2 < 256 && x1 < 256 && x0 < 256
    requires x == Shl(x3, 24) + Shl(x2, 16) + Shl(x1, 8) + x0
    ensures Field(x, 24, 8) == x3 && Field(x, 16, 8) == x2 && Field(x, 8, 8) == x1 && Field(x, 0, 8) == x0
    ensures x == x3 * 0x100_0000 + x2 * 0x1_0000 + x1 * 0x100 + x0
    ensures x < 0x1_0000_0000
  {
    Pow2Table();
    ShlLit(x3, 24, 0x100_0000);
    ShlLit(x2, 16, 0x1_0000);
    ShlLit(x1, 8, 0x100);
    ShlLit(x0, 0, 1);
    LowZero(32);
    ShlClear(x3, 24);
    PackBytes(x3, x2, x1);
    FieldOf(x, 0, x3, Shl(x2, 16) + Shl(x1, 8) + x0, 24, 8);
    FieldOf(x, Shl(x3, 24), x2, Shl(x1, 8) + x0, 16, 8);
    FieldOf(x, Shl(x3, 24) + Shl(x2, 16), x1, x0, 8, 8);
    FieldOf(x, Shl(x3, 24) + Shl(x2, 16) + Shl(x1, 8), x0, 0, 0, 8);
  }

  /** The bytes of UpperBytes read back, byte 0 is clear and the word fits 32 bits. */
  lemma UpperBytesFields(b3: nat, b2: nat, b1: nat)
    ensures Field(UpperBytes(b3, b2, b1), 24, 8) == b3 % 256
    ensures Field(UpperBytes(b3, b2, b1), 16, 8) == b2 % 256
    ensures Field(UpperBytes(b3, b2, b1), 8, 8) == b1 % 256
    ensures Field(UpperBytes(b3, b2, b1), 0, 8) == 0
    ensures UpperBytes(b3, b2, b1) == (b3 % 256) * 0x100_0000 + (b2 % 256) * 0x1_0000 + (b1 % 256) * 0x100
    ensures UpperBytes(b3, b2, b1) < 0x1_0000_0000
  {
    UpperBytesIs(b3, b2, b1);
    ByteFields(UpperBytes(b3, b2, b1), b3 % 256, b2 % 256, b1 % 256, 0);
  }

  /** Decoding a write32 recovers column and row (as bytes), address and value; the header word fits 32 bits. */
  lemma Write32RoundTrip(column: nat, row: nat, address: nat, value: nat)
    ensures DecodeWrite32(Write32(column, row, address, value))
         == Some(Write32Fields(column % 256, row % 256, address, value))
    ensures Field(Write32(column, row, address, value)[0], 0, 8) == 0
    ensures Write32(column, row, address, value)[0] < 0x1_0000_0000
  {
    UpperBytesFields(WRITE32_OPCODE, column, row);
  }

  /** Word 0 of a sync is the opcode, column and row bytes with the direction bit in byte 0. */
  lemma SyncWord0Is(column: nat, row: nat, direction: nat)
    ensures Or(UpperBytes(SYNC_OPCODE, column, row), And(direction, 0x1))
         == Shl(SYNC_OPCODE, 24) + Shl(column % 256, 16) + Shl(row % 256, 8) + direction % 2
  {
    Pow2Table();
    UpperBytesIs(SYNC_OPCODE, column, row);
    MaskLit(direction, 0x1, 1);
    OrLow(UpperBytes(SYNC_OPCODE, column, row), direction % 2, 8);
  }

  /** Decoding a sync recovers every field, masked to its width; both words fit 32 bits. */
  lemma SyncRoundTrip(column: nat, row: nat, direction: nat, channel: nat, columnNum: nat, rowNum: nat)
    ensures DecodeSync(Sync(column, row, direction, channel, columnNum, rowNum))
         == Some(SyncFields(column % 256, row % 256, direction % 2, channel % 256, columnNum % 256, rowNum % 256))
    ensures forall w <- Sync(column, row, direction, channel, columnNum, rowNum) :: w < 0x1_0000_0000
  {
    var words := Sync(column, row, direction, channel, columnNum, rowNum);
    SyncWord0Is(column, row, direction);
    ByteFields(words[0], SYNC_OPCODE, column % 256, row % 256, direction % 2);
    UpperBytesFields(channel, columnNum, rowNum);
  }

  /** The pushed value: start BD in bits 0-3, repeat count in bits 16-23, and for S2MM the token-issue bit 31. */
  lemma PushQueueValueIs(channelDir: DmaChannelDir, bdId: nat, repeats: nat)
    ensures PushQueueValue(channelDir, bdId, repeats)
         == bdId % 16 + (repeats % 256) * 0x1_0000 + (if channelDir == S2MM then 0x8000_0000 else 0)
    ensures PushQueueValue(channelDir, bdId, repeats) < 0x1_0000_0000
  {
    Pow2Table();
    MaskLit(bdId, TASK_QUEUE_START_BD_ID_MASK, 4);
    MaskLit(repeats, 0xFF, 8);
    ShlLit(repeats % 256, 16, 0x1_0000);
    ShlClear(repeats % 256, 16);
    OrLow(Shl(repeats % 256, 16), bdId % 16, 16);
    var value := bdId % 16 + (repeats % 256) * 0x1_0000;
    if channelDir == S2MM {
      ShlLit(1, 31, TASK_QUEUE_ENABLE_TOKEN_ISSUE_MASK);
      ShlClear(1, 31);
      OrLow(TASK_QUEUE_ENABLE_TOKEN_ISSUE_MASK, value, 31);
    }
  }

  /** The four task-queue registers are distinct: the address tells direction and channel apart. */
  lemma PushQueueAddressesDistinct(dir1: DmaChannelDir, index1: int, dir2: DmaChannelDir, index2: int)
    requires index1 in {0, 1} && index2 in {0, 1}
    ensures PushQueueAddress(dir1, index1) == PushQueueAddress(dir2, index2) <==> dir1 == dir2 && index1 == index2
  {
  }

  /** Any channel index other than 1 selects channel 0's register. */
  lemma PushQueueOtherIndex(channelDir: DmaChannelDir, channelIndex: int)
    requires channelIndex != 1
    ensures PushQueueAddress(channelDir, channelIndex) == PushQueueAddress(channelDir, 0)
  {
  }

  /** A push is a write32 of the value above to the channel's task-queue register of the shim tile (row 0). */
  lemma ShimTilePushQueueRoundTrip(channelDir: DmaChannelDir, channelIndex: int, column: nat, bdId: nat, repeats: nat)
    ensures DecodeWrite32(ShimTilePushQueue(channelDir, channelIndex, column, bdId, repeats))
         == Some(Write32Fields(column % 256, 0, PushQueueAddress(channelDir, channelIndex),
                               bdId % 16 + (repeats % 256) * 0x1_0000 + (if channelDir == S2MM then 0x8000_0000 else 0)))
  {
    PushQueueValueIs(channelDir, bdId, repeats);
    Write32RoundTrip(column, 0, PushQueueAddress(channelDir, channelIndex), PushQueueValue(channelDir, bdId, repeats));
  }

  // ---------------------------------------------------------------------------
  // The buffer-descriptor words

  /** The low byte of the header: DDR id in bits 4-7, BD id in bits 0-3. */
  lemma HeaderLowByte(ddrId: nat, bdId: nat)
    ensures Or(Shl(And(ddrId, 0xF), 4), And(bdId, 0xF)) == Shl(ddrId % 16, 4) + bdId % 16
    ensures Shl(ddrId % 16, 4) + bdId % 16 == (ddrId % 16) * 16 + bdId % 16
  {
    Pow2Table();
    MaskLit(ddrId, 0xF, 4);
    MaskLit(bdId, 0xF, 4);
    ShlLit(ddrId % 16, 4, 16);
    ShlClear(ddrId % 16, 4);
    OrLow(Shl(ddrId % 16, 4), bdId % 16, 4);
  }

  /** Word 0 of a buffer descriptor is the sum of its fields: opcode, column, column count, DDR id, BD id. */
  lemma BdHeaderWordIs(opCode: nat, column: nat, columnNum: nat, ddrId: nat, bdId: nat)
    ensures BdHeaderWord(opCode, column, columnNum, ddrId, bdId)
         == UpperBytes(opCode, column, columnNum) + Shl(ddrId % 16, 4) + bdId % 16
  {
    Pow2Table();
    UpperBytesIs(opCode, column, columnNum);
    MaskLit(ddrId, 0xF, 4);
    ShlLit(ddrId % 16, 4, 16);
    OrLow(UpperBytes(opCode, column, columnNum), Shl(ddrId % 16, 4), 8);
    OrField(UpperBytes(opCode, column, columnNum), ddrId % 16, 4, 4);
    MaskLit(bdId, 0xF, 4);
    OrLow(UpperBytes(opCode, column, columnNum) + Shl(ddrId % 16, 4), bdId % 16, 4);
  }

  /** Every field of the header reads back, masked to its width, and the word fits 32 bits. */
  lemma BdHeaderFields(opCode: nat, column: nat, columnNum: nat, ddrId: nat, bdId: nat)
    ensures var w := BdHeaderWord(opCode, column, columnNum, ddrId, bdId);
      && Field(w, 24, 8) == opCode % 256 && Field(w, 16, 8) == column % 256 && Field(w, 8, 8) == columnNum % 256
      && Field(w, 4, 4) == ddrId % 16 && Field(w, 0, 4) == bdId % 16
      && w == (opCode % 256) * 0x100_0000 + (column % 256) * 0x1_0000 + (columnNum % 256) * 0x100
              + (ddrId % 16) * 16 + bdId % 16
      && w < 0x1_0000_0000
  {
    Pow2Table();
    var w := BdHeaderWord(opCode, column, columnNum, ddrId, bdId);
    var upper := UpperBytes(opCode, column, columnNum);
    BdHeaderWordIs(opCode, column, columnNum, ddrId, bdId);
    HeaderLowByte(ddrId, bdId);
    UpperBytesIs(opCode, column, columnNum);
    ByteFields(w, opCode % 256, column % 256, columnNum % 256, (ddrId % 16) * 16 + bdId % 16);
    FieldOf(w, upper, ddrId % 16, bdId % 16, 4, 4);
    OrField(upper, ddrId % 16, 4, 4);
    ShlLit(bdId % 16, 0, 1);
    FieldOf(w, upper + Shl(ddrId % 16, 4), bdId % 16, 0, 0, 4);
  }

  /** Word 4 is the sum of its four packet fields, each masked to its width. */
  lemma PacketWordIs(enablePacket: nat, outOfOrderId: nat, packetId: nat, packetType: nat)
    ensures PacketWord(enablePacket, outOfOrderId, packetId, packetType)
         == (enablePacket % 2) * 0x4000_0000 + (outOfOrderId % 64) * 0x100_0000
            + (packetId % 32) * 0x8_0000 + (packetType % 8) * 0x1_0000
  {
    Pow2Table();
    Pow2Add(16, 3);
    Pow2Add(3, 2);
    Pow2Add(3, 3);
    var e, o, p, t := enablePacket % 2, outOfOrderId % 64, packetId % 32, packetType % 8;
    MaskLit(enablePacket, 0x1, 1);
    MaskLit(outOfOrderId, 0x3F, 6);
    MaskLit(packetId, 0x1F, 5);
    MaskLit(packetType, 0x7, 3);
    ShlClear(e, 30);
    OrField(Shl(e, 30), o, 24, 6);
    OrField(Shl(e, 30) + Shl(o, 24), p, 19, 5);
    OrField(Shl(e, 30) + Shl(o, 24) + Shl(p, 19), t, 16, 3);
    ShlLit(e, 30, 0x4000_0000);
    ShlLit(o, 24, 0x100_0000);
    ShlLit(p, 19, 0x8_0000);
    ShlLit(t, 16, 0x1_0000);
  }

  /** A wrap size in bits 20-29 above a stride in bits 0-19. */
  lemma DimWordIs(size: nat, stride: nat)
    ensures DimWord(size, stride) == (size % 0x400) * 0x10_0000 + stride % 0x10_0000
    ensures Field(DimWord(size, stride), 20, 10) == size % 0x400
    ensures Field(DimWord(size, stride), 0, 20) == stride % 0x10_0000
    ensures DimWord(size, stride) < 0x4000_0000
  {
    Pow2Table();
    MaskLit(size, 0x3FF, 10);
    MaskLit(stride, 0xFFFFF, 20);
    ShlLit(size % 0x400, 20, 0x10_0000);
    ShlClear(size % 0x400, 20);
    OrLow(Shl(size % 0x400, 20), stride % 0x10_0000, 20);
    LowZero(30);
    FieldOf(DimWord(size, stride), 0, size % 0x400, stride % 0x10_0000, 20, 10);
    ShlLit(stride % 0x10_0000, 0, 1);
    FieldOf(DimWord(size, stride), Shl(size % 0x400, 20), stride % 0x10_0000, 0, 0, 20);
  }

  /** Word 6 is word 5's layout with the burst bit 31 set on top. */
  lemma BurstWordIs(size: nat, stride: nat)
    ensures BurstWord(size, stride) == 0x8000_0000 + DimWord(size, stride)
  {
    Pow2Table();
    var s := size % 0x400;
    MaskLit(size, 0x3FF, 10);
    MaskLit(stride, 0xFFFFF, 20);
    ShlLit(1, 31, 0x8000_0000);
    ShlClear(1, 31);
    ShlBound(s, 20, 10);
    OrLow(0x8000_0000, Shl(s, 20), 31);
    LowClearMono(0x8000_0000, 31, 30);
    OrField(0x8000_0000, s, 20, 10);
    OrLow(0x8000_0000 + Shl(s, 20), stride % 0x10_0000, 20);
    DimWordIs(size, stride);
    ShlLit(s, 20, 0x10_0000);
  }

  /** Word 8: iteration current in bits 26-31, iteration size in bits 20-25, iteration stride in bits 0-19. */
  lemma IterationWordIs(current: nat, size: nat, stride: nat)
    ensures IterationWord(current, size, stride)
         == (current % 64) * 0x400_0000 + (size % 64) * 0x10_0000 + stride % 0x10_0000
    ensures IterationWord(current, size, stride) < 0x1_0000_0000
  {
    Pow2Table();
    Pow2Add(20, 6);
    var c, s := current % 64, size % 64;
    MaskLit(current, 0x3F, 6);
    MaskLit(size, 0x3F, 6);
    MaskLit(stride, 0xFFFFF, 20);
    ShlClear(c, 26);
    OrField(Shl(c, 26), s, 20, 6);
    OrLow(Shl(c, 26) + Shl(s, 20), stride % 0x10_0000, 20);
    ShlLit(c, 26, 0x400_0000);
    ShlLit(s, 20, 0x10_0000);
  }

  // ---------------------------------------------------------------------------
  // Word 9: the lock word. Its two lock-value masks are 0xEF, not 0x7F, so
  // bit 4 of each lock value is dropped and bit 7 lands on the neighbouring
  // field (valid-BD bit 25, lock-acquire-enable bit 12).

  /** The bits of the lock-value mask 0xEF, all of bits 0-7 except bit 4, and of 0x6F, which also leaves out bit 7. */
  lemma LockMaskBits(j: nat)
    ensures Bit(0xEF, j) == (j < 8 && j != 4)
    ensures Bit(0x6F, j) == (j < 7 && j != 4)
  {
    Pow2Table();
    if j >= 8 {
      BitsBelow(0xEF, 8);
      BitsBelow(0x6F, 8);
    } else if j == 7 {
    } else if j == 0 {
    } else if j == 1 {
    } else if j == 2 {
    } else if j == 3 {
    } else if j == 4 {
    } else if j == 5 {
    } else if j == 6 {
    }
  }

  /** The bits of the other masks of the lock word: 0x1 and 0xF. */
  lemma LowMaskBits(j: nat)
    ensures Bit(0x1, j) == (j < 1) && Bit(0xF, j) == (j < 4)
  {
    Pow2Table();
    BitLowMask(1, j);
    BitLowMask(4, j);
  }

  /** A masked field shifted to bit n holds bit i - n of the value, where the mask has it. */
  lemma BitMaskedField(v: nat, mask: nat, n: nat, i: nat)
    ensures Bit(Shl(And(v, mask), n), i) == (i >= n && Bit(v, i - n) && Bit(mask, i - n))
  {
    BitShl(And(v, mask), n, i);
    if i >= n { BitAnd(v, mask, i - n); }
  }

  /** Bit i of the lock word: which argument bit it comes from. */
  lemma LockWordBit(nextBd: nat, useNextBd: nat, validBd: nat, lockRelVal: nat, lockRelId: nat,
                    lockAcqEnable: nat, lockAcqVal: nat, lockAcqId: nat, i: nat)
    ensures Bit(LockWord(nextBd, useNextBd, validBd, lockRelVal, lockRelId, lockAcqEnable, lockAcqVal, lockAcqId), i)
         == (|| (27 <= i < 31 && Bit(nextBd, i - 27))
             || (i == 26 && Bit(useNextBd, 0))
             || (i == 25 && Bit(validBd, 0))
             || (18 <= i < 26 && i != 22 && Bit(lockRelVal, i - 18))
             || (13 <= i < 17 && Bit(lockRelId, i - 13))
             || (i == 12 && Bit(lockAcqEnable, 0))
             || (5 <= i < 13 && i != 9 && Bit(lockAcqVal, i - 5))
             || (i < 4 && Bit(lockAcqId, i)))
  {
    var a1 := Shl(And(nextBd, 0xF), 27);
    var a2 := Shl(And(useNextBd, 0x1), 26);
    var a3 := Shl(And(validBd, 0x1), 25);
    var a4 := Shl(And(lockRelVal, 0xEF), 18);
    var a5 := Shl(And(lockRelId, 0xF), 13);
    var a6 := Shl(And(lockAcqEnable, 0x1), 12);
    var a7 := Shl(And(lockAcqVal, 0xEF), 5);
    var a8 := And(lockAcqId, 0xF);
    BitOr(a1, a2, i);
    BitOr(Or(a1, a2), a3, i);
    BitOr(Or(Or(a1, a2), a3), a4, i);
    BitOr(Or(Or(Or(a1, a2), a3), a4), a5, i);
    BitOr(Or(Or(Or(Or(a1, a2), a3), a4), a5), a6, i);
    BitOr(Or(Or(Or(Or(Or(a1, a2), a3), a4), a5), a6), a7, i);
    BitOr(Or(Or(Or(Or(Or(Or(a1, a2), a3), a4), a5), a6), a7), a8, i);
    BitMaskedField(nextBd, 0xF, 27, i);
    BitMaskedField(useNextBd, 0x1, 26, i);
    BitMaskedField(validBd, 0x1, 25, i);
    BitMaskedField(lockRelVal, 0xEF, 18, i);
    BitMaskedField(lockRelId, 0xF, 13, i);
    BitMaskedField(lockAcqEnable, 0x1, 12, i);
    BitMaskedField(lockAcqVal, 0xEF, 5, i);
    BitAnd(lockAcqId, 0xF, i);
    LowMaskBits(i);
    if i >= 27 { LowMaskBits(i - 27); }
    if i >= 26 { LowMaskBits(i - 26); }
    if i >= 25 { LowMaskBits(i - 25); }
    if i >= 18 { LockMaskBits(i - 18); }
    if i >= 13 { LowMaskBits(i - 13); }
    if i >= 12 { LowMaskBits(i - 12); }
    if i >= 5 { LockMaskBits(i - 5); }
  }

  /** The lock word as the source calls it (valid BD set) always has the valid bit 25, and fits 32 bits. */
  lemma LockWordValid(nextBd: nat, useNextBd: nat, lockRelVal: nat, lockRelId: nat,
                      lockAcqEnable: nat, lockAcqVal: nat, lockAcqId: nat)
    ensures Bit(LockWord(nextBd, useNextBd, 1, lockRelVal, lockRelId, lockAcqEnable, lockAcqVal, lockAcqId), 25)
    ensures LockWord(nextBd, useNextBd, 1, lockRelVal, lockRelId, lockAcqEnable, lockAcqVal, lockAcqId) < 0x1_0000_0000
  {
    Pow2Table();
    var w := LockWord(nextBd, useNextBd, 1, lockRelVal, lockRelId, lockAcqEnable, lockAcqVal, lockAcqId);
    LockWordBit(nextBd, useNextBd, 1, lockRelVal, lockRelId, lockAcqEnable, lockAcqVal, lockAcqId, 25);
    forall i: nat | i >= 32 ensures !Bit(w, i) {
      LockWordBit(nextBd, useNextBd, 1, lockRelVal, lockRelId, lockAcqEnable, lockAcqVal, lockAcqId, i);
    }
    BitsAbove(w, 32);
  }

  /** Setting bit 4 of either lock value does not change the lock word: the 0xEF masks drop it. */
  lemma LockWordDropsBit4(nextBd: nat, useNextBd: nat, validBd: nat, lockRelVal: nat, lockRelId: nat,
                          lockAcqEnable: nat, lockAcqVal: nat, lockAcqId: nat)
    ensures LockWord(nextBd, useNextBd, validBd, Or(lockRelVal, 0x10), lockRelId, lockAcqEnable, Or(lockAcqVal, 0x10), lockAcqId)
         == LockWord(nextBd, useNextBd, validBd, lockRelVal, lockRelId, lockAcqEnable, lockAcqVal, lockAcqId)
  {
    Pow2Table();
    var w := LockWord(nextBd, useNextBd, validBd, lockRelVal, lockRelId, lockAcqEnable, lockAcqVal, lockAcqId);
    var w' := LockWord(nextBd, useNextBd, validBd, Or(lockRelVal, 0x10), lockRelId, lockAcqEnable, Or(lockAcqVal, 0x10), lockAcqId);
    forall i: nat ensures Bit(w', i) == Bit(w, i) {
      LockWordBit(nextBd, useNextBd, validBd, lockRelVal, lockRelId, lockAcqEnable, lockAcqVal, lockAcqId, i);
      LockWordBit(nextBd, useNextBd, validBd, Or(lockRelVal, 0x10), lockRelId, lockAcqEnable, Or(lockAcqVal, 0x10), lockAcqId, i);
      if i >= 18 { BitOr(lockRelVal, 0x10, i - 18); BitPow2(4, i - 18); }
      if i >= 5 { BitOr(lockAcqVal, 0x10, i - 5); BitPow2(4, i - 5); }
    }
    BitsEqual(w', w);
  }

  /** Bit 7 of a lock value lands on its neighbour: the acquire value on the acquire-enable bit, the release value on the valid bit. */
  lemma LockWordOverlaps(nextBd: nat, useNextBd: nat, lockRelVal: nat, lockRelId: nat, lockAcqVal: nat, lockAcqId: nat)
    ensures Bit(LockWord(nextBd, useNextBd, 0, lockRelVal, lockRelId, 0, lockAcqVal, lockAcqId), 12) == Bit(lockAcqVal, 7)
    ensures Bit(LockWord(nextBd, useNextBd, 0, lockRelVal, lockRelId, 0, lockAcqVal, lockAcqId), 25) == Bit(lockRelVal, 7)
  {
    Pow2Table();
    BitZero(0);
    LockWordBit(nextBd, useNextBd, 0, lockRelVal, lockRelId, 0, lockAcqVal, lockAcqId, 12);
    LockWordBit(nextBd, useNextBd, 0, lockRelVal, lockRelId, 0, lockAcqVal, lockAcqId, 25);
  }

  /** A field of the lock word whose bits all come from one argument reads back that argument's masked bits. */
  lemma LockFieldEq(w: nat, lo: nat, width: nat, v: nat)
    requires forall j: nat :: j < width ==> Bit(w, lo + j) == Bit(v, j)
    requires forall j: nat :: j >= width ==> !Bit(v, j)
    ensures Field(w, lo, width) == v
  {
    forall j: nat ensures Bit(Field(w, lo, width), j) == Bit(v, j) {
      BitField(w, lo, width, j);
    }
    BitsEqual(Field(w, lo, width), v);
  }

  /** The chaining fields and lock ids read back whole; the lock values read back without bit 4 (and bit 7). */
  lemma LockWordFields(nextBd: nat, useNextBd: nat, validBd: nat, lockRelVal: nat, lockRelId: nat,
                       lockAcqEnable: nat, lockAcqVal: nat, lockAcqId: nat)
    ensures var w := LockWord(nextBd, useNextBd, validBd, lockRelVal, lockRelId, lockAcqEnable, lockAcqVal, lockAcqId);
      && Field(w, 27, 4) == nextBd % 16 && Field(w, 26, 1) == useNextBd % 2
      && Field(w, 13, 4) == lockRelId % 16 && Field(w, 0, 4) == lockAcqId % 16
      && Field(w, 18, 7) == And(lockRelVal, 0x6F) && Field(w, 5, 7) == And(lockAcqVal, 0x6F)
  {
    Pow2Table();
    var w := LockWord(nextBd, useNextBd, validBd, lockRelVal, lockRelId, lockAcqEnable, lockAcqVal, lockAcqId);
    forall i: nat {
      LockWordBit(nextBd, useNextBd, validBd, lockRelVal, lockRelId, lockAcqEnable, lockAcqVal, lockAcqId, i);
    }
    LockFieldLow(w, 27, 4, nextBd);
    LockFieldLow(w, 26, 1, useNextBd);
    LockFieldLow(w, 13, 4, lockRelId);
    LockFieldLow(w, 0, 4, lockAcqId);
    forall j: nat ensures Bit(And(lockRelVal, 0x6F), j) == (j < 7 && j != 4 && Bit(lockRelVal, j))
                  && Bit(And(lockAcqVal, 0x6F), j) == (j < 7 && j != 4 && Bit(lockAcqVal, j)) {
      BitAnd(lockRelVal, 0x6F, j);
      BitAnd(lockAcqVal, 0x6F, j);
      LockMaskBits(j);
    }
    LockFieldEq(w, 18, 7, And(lockRelVal, 0x6F));
    LockFieldEq(w, 5, 7, And(lockAcqVal, 0x6F));
  }

  /** A field of the lock word that holds the low bits of one argument reads back as that argument modulo 2^width. */
  lemma LockFieldLow(w: nat, lo: nat, width: nat, v: nat)
    requires forall j: nat :: j < width ==> Bit(w, lo + j) == Bit(v, j)
    ensures Field(w, lo, width) == v % Pow2(width)
  {
    forall j: nat ensures Bit(LowBits(v, width), j) == (j < width && Bit(v, j)) { BitLow(v, width, j); }
    LockFieldEq(w, lo, width, LowBits(v, width));
    LowIsMod(v, width);
  }

  // ---------------------------------------------------------------------------
  // The whole writebd_shimtile instruction

  /** The instruction is refused exactly when some stride is below 1. */
  lemma WriteBdShimTileRefuses(bd: ShimBd)
    ensures WriteBdShimTile(bd).Err? <==> !StridesPositive(bd)
    ensures WriteBdShimTile(bd).Err? ==> WriteBdShimTile(bd).error == NonPositiveStride
    ensures WriteBdShimTile(bd).Ok? ==> |WriteBdShimTile(bd).value| == 10
  {
  }

  /**
   * The ten words of an accepted descriptor, field by field: strides are
   * stored lowered by one, an absent wrap size is stored as 0, the buffer
   * offset is converted to bytes, and every word but the verbatim buffer
   * length and byte offset fits 32 bits.
   */
  lemma WriteBdShimTileWords(bd: ShimBd)
    requires StridesPositive(bd)
    ensures var r := WriteBdShimTile(bd).value;
      && r[0] == 0x600_0000 + (bd.column % 256) * 0x1_0000 + 0x100 + (bd.ddrId % 16) * 16 + bd.bdId % 16
      && r[1] == 0
      && r[2] == bd.bufferLength
      && r[3] == bd.bufferOffset * (bd.dataWidth / 8)
      && r[4] == 0
      && r[5] == (if bd.d0Size.Some? then bd.d0Size.value % 0x400 else 0) * 0x10_0000 + (bd.d0Stride - 1) % 0x10_0000
      && r[6] == 0x8000_0000 + (if bd.d1Size.Some? then bd.d1Size.value % 0x400 else 0) * 0x10_0000
                 + (bd.d1Stride - 1) % 0x10_0000
      && r[7] == (bd.d2Stride - 1) % 0x10_0000
      && r[8] == (bd.iterationCurrent % 64) * 0x400_0000 + (bd.iterationSize % 64) * 0x10_0000
                 + bd.iterationStride % 0x10_0000
      && r[9] == LockWord(bd.nextBd, bd.useNextBd, 1, bd.lockRelVal, bd.lockRelId,
                          bd.lockAcqEnable, bd.lockAcqVal, bd.lockAcqId)
      && forall i | 0 <= i < 10 && i != 2 && i != 3 :: r[i] < 0x1_0000_0000
  {
    var r := WriteBdShimTile(bd).value;
    assert r == BdWords(bd, bd.d2Stride - 1, bd.d1Stride - 1, bd.d0Stride - 1);
    BdWordsAre(bd, bd.d2Stride - 1, bd.d1Stride - 1, bd.d0Stride - 1);
  }

  lemma BdWordsAre(bd: ShimBd, d2Stride: nat, d1Stride: nat, d0Stride: nat)
    ensures var r := BdWords(bd, d2Stride, d1Stride, d0Stride);
      && r[0] == 0x600_0000 + (bd.column % 256) * 0x1_0000 + 0x100 + (bd.ddrId % 16) * 16 + bd.bdId % 16
      && r[1] == 0
      && r[2] == bd.bufferLength
      && r[3] == bd.bufferOffset * (bd.dataWidth / 8)
      && r[4] == 0
      && r[5] == (if bd.d0Size.Some? then bd.d0Size.value % 0x400 else 0) * 0x10_0000 + d0Stride % 0x10_0000
      && r[6] == 0x8000_0000 + (if bd.d1Size.Some? then bd.d1Size.value % 0x400 else 0) * 0x10_0000
                 + d1Stride % 0x10_0000
      && r[7] == d2Stride % 0x10_0000
      && r[8] == (bd.iterationCurrent % 64) * 0x400_0000 + (bd.iterationSize % 64) * 0x10_0000
                 + bd.iterationStride % 0x10_0000
      && r[9] == LockWord(bd.nextBd, bd.useNextBd, 1, bd.lockRelVal, bd.lockRelId,
                          bd.lockAcqEnable, bd.lockAcqVal, bd.lockAcqId)
      && forall i | 0 <= i < 10 && i != 2 && i != 3 :: r[i] < 0x1_0000_0000
  {
    var r := BdWords(bd, d2Stride, d1Stride, d0Stride);
    BdWordsHead(bd, d2Stride, d1Stride, d0Stride);
    BdWordsDims(bd, d2Stride, d1Stride, d0Stride);
    BdWordsIteration(bd, d2Stride, d1Stride, d0Stride);
    LockWordValid(bd.nextBd, bd.useNextBd, bd.lockRelVal, bd.lockRelId, bd.lockAcqEnable, bd.lockAcqVal, bd.lockAcqId);
    var fit := [r[0], r[1], r[4], r[5], r[6], r[7], r[8], r[9]];
    assert forall w <- fit :: w < 0x1_0000_0000;
    forall i | 0 <= i < 10 && i != 2 && i != 3 ensures r[i] < 0x1_0000_0000 {
      assert r[i] in fit;
    }
  }

  lemma BdWordsHead(bd: ShimBd, d2Stride: nat, d1Stride: nat, d0Stride: nat)
    ensures var r := BdWords(bd, d2Stride, d1Stride, d0Stride);
      && r[0] == 0x600_0000 + (bd.column % 256) * 0x1_0000 + 0x100 + (bd.ddrId % 16) * 16 + bd.bdId % 16
      && r[0] < 0x1_0000_0000
      && r[1] == 0
      && r[2] == bd.bufferLength
      && r[3] == bd.bufferOffset * (bd.dataWidth / 8)
      && r[4] == 0
  {
    BdHeaderFields(WRITEBD_OPCODE, bd.column, 1, bd.ddrId, bd.bdId);
    PacketWordIs(0, 0, 0, 0);
  }

  lemma BdWordsDims(bd: ShimBd, d2Stride: nat, d1Stride: nat, d0Stride: nat)
    ensures var r := BdWords(bd, d2Stride, d1Stride, d0Stride);
      && r[5] == (if bd.d0Size.Some? then bd.d0Size.value % 0x400 else 0) * 0x10_0000 + d0Stride % 0x10_0000
      && r[6] == 0x8000_0000 + (if bd.d1Size.Some? then bd.d1Size.value % 0x400 else 0) * 0x10_0000
                 + d1Stride % 0x10_0000
      && r[5] < 0x1_0000_0000 && r[6] < 0x1_0000_0000
  {
    var d0Size, d1Size := bd.d0Size.GetOr(0), bd.d1Size.GetOr(0);
    DimWordIs(d0Size, d0Stride);
    BurstWordIs(d1Size, d1Stride);
    DimWordIs(d1Size, d1Stride);
  }

  lemma BdWordsIteration(bd: ShimBd, d2Stride: nat, d1Stride: nat, d0Stride: nat)
    ensures var r := BdWords(bd, d2Stride, d1Stride, d0Stride);
      && r[7] == d2Stride % 0x10_0000
      && r[8] == (bd.iterationCurrent % 64) * 0x400_0000 + (bd.iterationSize % 64) * 0x10_0000
                 + bd.iterationStride % 0x10_0000
      && r[7] < 0x1_0000_0000 && r[8] < 0x1_0000_0000
  {
    Pow2Table();
    MaskLit(d2Stride, 0xFFFFF, 20);
    IterationWordIs(bd.iterationCurrent, bd.iterationSize, bd.iterationStride);
  }

  // ---------------------------------------------------------------------------
  // Re-emitting a descriptor as register writes

  /** The address the descriptor is patched with: the given tensor address, or the one in words 3 and 4, plus the fixed bias. */
  lemma PatchedAddressIs(iptr: seq<nat>, tensorAddr: Option<nat>)
    requires |iptr| >= 10
    ensures tensorAddr.Some? ==> PatchedAddress(iptr, tensorAddr) == tensorAddr.value + 0x8000_0000
    ensures tensorAddr.None? && iptr[3] < 0x1_0000_0000 ==>
      PatchedAddress(iptr, tensorAddr) == (iptr[4] % 0x1_0000) * 0x1_0000_0000 + iptr[3] + 0x8000_0000
    ensures tensorAddr.None? && iptr[4] % 0x1_0000 == 0 ==> PatchedAddress(iptr, tensorAddr) == iptr[3] + 0x8000_0000
  {
    Pow2Table();
    var high := iptr[4] % 0x1_0000;
    MaskLit(iptr[4], 0x0000FFFF, 16);
    ShlLit(high, 32, 0x1_0000_0000);
    if iptr[3] < 0x1_0000_0000 {
      ShlClear(high, 32);
      OrLow(Shl(high, 32), iptr[3], 32);
    }
    if high == 0 {
      OrZero(iptr[3]);
    }
  }

  /** The low address word: the address modulo 2^32 with its two low bits cleared. */
  lemma AddressLowWord(t: nat)
    ensures And(t, 0xFFFFFFFC) + t % 4 == t % 0x1_0000_0000
    ensures And(t, 0xFFFFFFFC) % 4 == 0
  {
    Pow2Table();
    ShlLit(Pow2(30) - 1, 2, 4);
    AndShiftedMask(t, 2, 30, 0xFFFFFFFC);
    FieldIsDivMod(t, 2, 30);
    ShlLit(Field(t, 2, 30), 2, 4);
    var q, b := t / 4, (t / 4) % 0x4000_0000;
    assert q == (q / 0x4000_0000) * 0x4000_0000 + b;
    assert t == (q / 0x4000_0000) * 0x1_0000_0000 + (4 * b + t % 4);
    DivModUnique(t, 0x1_0000_0000, q / 0x4000_0000, 4 * b + t % 4);
  }

  /** The high address word: the packet bits 16-31 of word 4 above bits 32-47 of the address. */
  lemma AddressHighWord(word4: nat, t: nat)
    requires t < 0x1_0000_0000_0000
    ensures Or(And(word4, 0xFFFF0000), Shr(t, 32)) == Field(word4, 16, 16) * 0x1_0000 + t / 0x1_0000_0000
  {
    Pow2Table();
    ShlLit(Pow2(16) - 1, 16, 0x1_0000);
    AndShiftedMask(word4, 16, 16, 0xFFFF0000);
    ShlLit(Field(word4, 16, 16), 16, 0x1_0000);
    ShlClear(Field(word4, 16, 16), 16);
    ShrIsDiv(t, 32);
    OrLow(Shl(Field(word4, 16, 16), 16), t / 0x1_0000_0000, 16);
  }

  /** With no packet bits in word 4 the high address word is just bits 32 and up of the address. */
  lemma AddressHighWordNoPacket(t: nat)
    ensures Or(And(0, 0xFFFF0000), Shr(t, 32)) == t / 0x1_0000_0000
  {
    Pow2Table();
    AndZero(0xFFFF0000);
    OrZero(Shr(t, 32));
    ShrIsDiv(t, 32);
  }

  /**
   * The high address word for any address: its low half is bits 32-47 of
   * the address. `tensor_addr >> 32` is not masked, so address bits 48-63
   * are ORed into the packet half taken from word 4, and bits 64 and up
   * land above bit 31 of the word.
   */
  lemma AddressHighWordBits(word4: nat, t: nat)
    ensures var w := Or(And(word4, 0xFFFF0000), Shr(t, 32));
      && Field(w, 0, 16) == Field(t, 32, 16)
      && Field(w, 16, 16) == Or(Field(word4, 16, 16), Field(t, 48, 16))
      && Shr(w, 32) == Shr(t, 64)
  {
    var w := Or(And(word4, 0xFFFF0000), Shr(t, 32));
    Pow2Table();
    ShlLit(Pow2(16) - 1, 16, 0x1_0000);
    assert Shl(Pow2(16) - 1, 16) == 0xFFFF0000;
    forall j: nat ensures Bit(w, j) == ((16 <= j < 32 && Bit(word4, j)) || Bit(t, j + 32)) {
      BitOr(And(word4, 0xFFFF0000), Shr(t, 32), j);
      BitAnd(word4, 0xFFFF0000, j);
      BitShr(t, 32, j);
      BitShl(Pow2(16) - 1, 16, j);
      if j >= 16 { BitLowMask(16, j - 16); }
    }
    forall i: nat ensures Bit(Field(w, 0, 16), i) == Bit(Field(t, 32, 16), i) {
      BitField(w, 0, 16, i);
      BitField(t, 32, 16, i);
    }
    BitsEqual(Field(w, 0, 16), Field(t, 32, 16));
    forall i: nat ensures Bit(Field(w, 16, 16), i) == Bit(Or(Field(word4, 16, 16), Field(t, 48, 16)), i) {
      BitField(w, 16, 16, i);
      BitOr(Field(word4, 16, 16), Field(t, 48, 16), i);
      BitField(word4, 16, 16, i);
      BitField(t, 48, 16, i);
    }
    BitsEqual(Field(w, 16, 16), Or(Field(word4, 16, 16), Field(t, 48, 16)));
    forall i: nat ensures Bit(Shr(w, 32), i) == Bit(Shr(t, 64), i) {
      BitShr(w, 32, i);
      BitShr(t, 64, i);
    }
    BitsEqual(Shr(w, 32), Shr(t, 64));
  }

  /** The BD id and column that the re-emission reads from word 0. */
  lemma HeaderSelectors(word0: nat)
    ensures And(word0, 0x0000000F) == word0 % 16
    ensures Shr(And(word0, 0x00FF0000), 16) == Field(word0, 16, 8)
    ensures Field(word0, 16, 8) < 256
  {
    Pow2Table();
    MaskLit(word0, 0xF, 4);
    ShlLit(Pow2(8) - 1, 16, 0x1_0000);
    AndShiftedMask(word0, 16, 8, 0x00FF0000);
    ShrShl(Field(word0, 16, 8), 16);
    FieldBound(word0, 16, 8);
  }

  /** The values written to the eight BD registers by the re-emission: buffer length, the two address words, words 5-9. */
  ghost function RegisterValues(iptr: seq<nat>, tensorAddr: Option<nat>): seq<nat>
    requires |iptr| >= 10
  {
    var t := PatchedAddress(iptr, tensorAddr);
    [iptr[2], And(t, 0xFFFFFFFC), Or(And(iptr[4], 0xFFFF0000), Shr(t, 32))] + iptr[5..10]
  }

  /** Register 2 for any patched address: address bits 48-63 merge into the packet bits of word 4. */
  lemma RegisterHighWord(iptr: seq<nat>, tensorAddr: Option<nat>)
    requires |iptr| >= 10
    ensures var v, t := RegisterValues(iptr, tensorAddr), PatchedAddress(iptr, tensorAddr);
      && Field(v[2], 0, 16) == Field(t, 32, 16)
      && Field(v[2], 16, 16) == Or(Field(iptr[4], 16, 16), Field(t, 48, 16))
      && Shr(v[2], 32) == Shr(t, 64)
  {
    AddressHighWordBits(iptr[4], PatchedAddress(iptr, tensorAddr));
  }

  /** The re-emission writes the eight register values to consecutive registers of the BD. */
  lemma ExecTriples(iptr: seq<nat>, tensorAddr: Option<nat>)
    requires |iptr| >= 10
    ensures ExecWriteBdExtendShimTileOpt(iptr, tensorAddr)
         == Ok(Write32s(Field(iptr[0], 16, 8), 0, SHIM_DMA_BD0_BASE_ADDR + (iptr[0] % 16) * SHIM_BD_OFFSET,
                        RegisterValues(iptr, tensorAddr)))
  {
    HeaderSelectors(iptr[0]);
    var t := PatchedAddress(iptr, tensorAddr);
    assert RegisterValues(iptr, tensorAddr)
        == [iptr[2], And(t, 0xFFFFFFFC), Or(And(iptr[4], 0xFFFF0000), Shr(t, 32)), iptr[5], iptr[6], iptr[7], iptr[8], iptr[9]];
  }

  /** Write32s lays its instructions out three words apiece: instruction k writes `values[k]` to register `address + 4k`. */
  lemma {:induction false} Write32sTriples(column: nat, row: nat, address: nat, values: seq<nat>)
    ensures |Write32s(column, row, address, values)| == 3 * |values|
    ensures forall k | 0 <= k < |values| ::
      Write32s(column, row, address, values)[3 * k .. 3 * k + 3] == Write32(column, row, address + 4 * k, values[k])
    decreases |values|
  {
    if values != [] {
      var rest := Write32s(column, row, address + 4, values[1..]);
      Write32sTriples(column, row, address + 4, values[1..]);
      var r := Write32s(column, row, address, values);
      assert r == Write32(column, row, address, values[0]) + rest;
      forall k | 0 <= k < |values|
        ensures r[3 * k .. 3 * k + 3] == Write32(column, row, address + 4 * k, values[k])
      {
        if k > 0 {
          assert r[3 * k .. 3 * k + 3] == rest[3 * (k - 1) .. 3 * (k - 1) + 3];
        }
      }
    }
  }

  /** Consecutive write32s decode one by one. */
  lemma DecodeWrite32s(column: nat, row: nat, address: nat, values: seq<nat>)
    requires column < 256 && row < 256
    ensures |Write32s(column, row, address, values)| == 3 * |values|
    ensures forall k | 0 <= k < |values| ::
      DecodeWrite32(Write32s(column, row, address, values)[3 * k .. 3 * k + 3])
      == Some(Write32Fields(column, row, address + 4 * k, values[k]))
  {
    Write32sTriples(column, row, address, values);
    forall k | 0 <= k < |values|
      ensures DecodeWrite32(Write32s(column, row, address, values)[3 * k .. 3 * k + 3])
           == Some(Write32Fields(column, row, address + 4 * k, values[k]))
    {
      Write32RoundTrip(column, row, address + 4 * k, values[k]);
    }
  }

  /** A descriptor of fewer than ten words is refused; a longer one is always re-emitted as 24 words. */
  lemma ExecWriteBdRefuses(iptr: seq<nat>, tensorAddr: Option<nat>)
    ensures ExecWriteBdExtendShimTileOpt(iptr, tensorAddr).Err? <==> |iptr| < 10
    ensures ExecWriteBdExtendShimTileOpt(iptr, tensorAddr).Err? ==> ExecWriteBdExtendShimTileOpt(iptr, tensorAddr).error == ShortInstruction
    ensures ExecWriteBdExtendShimTileOpt(iptr, tensorAddr).Ok? ==> |ExecWriteBdExtendShimTileOpt(iptr, tensorAddr).value| == 24
  {
    if |iptr| >= 10 {
      ExecWriteBdRegisters(iptr, tensorAddr);
    }
  }

  /**
   * The re-emission is eight write32s to row 0 of the column in bits 16-23
   * of word 0, one per register of the shim BD named by bits 0-3 of word 0,
   * in register order.
   */
  lemma ExecWriteBdRegisters(iptr: seq<nat>, tensorAddr: Option<nat>)
    requires |iptr| >= 10
    ensures ExecWriteBdExtendShimTileOpt(iptr, tensorAddr).Ok?
    ensures WritesBdRegisters(ExecWriteBdExtendShimTileOpt(iptr, tensorAddr).value, Field(iptr[0], 16, 8), iptr[0] % 16,
                              RegisterValues(iptr, tensorAddr))
  {
    ExecTriples(iptr, tensorAddr);
    HeaderSelectors(iptr[0]);
    DecodeWrite32s(Field(iptr[0], 16, 8), 0, SHIM_DMA_BD0_BASE_ADDR + (iptr[0] % 16) * SHIM_BD_OFFSET, RegisterValues(iptr, tensorAddr));
  }

  /**
   * What the registers receive: buffer length, the address as a 4-byte aligned
   * low word and a high word under the packet bits of word 4, then words 5-9
   * unchanged.
   */
  lemma RegisterValuesAre(iptr: seq<nat>, tensorAddr: Option<nat>)
    requires |iptr| >= 10
    ensures var v := RegisterValues(iptr, tensorAddr);
      var t := PatchedAddress(iptr, tensorAddr);
      && |v| == 8
      && v[0] == iptr[2]
      && v[3..] == iptr[5..10]
      && v[1] + t % 4 == t % 0x1_0000_0000
      && v[1] % 4 == 0
      && (t < 0x1_0000_0000_0000 ==> v[2] == Field(iptr[4], 16, 16) * 0x1_0000 + t / 0x1_0000_0000)
      && (iptr[4] == 0 ==> v[2] == t / 0x1_0000_0000)
  {
    var t := PatchedAddress(iptr, tensorAddr);
    AddressLowWord(t);
    if t < 0x1_0000_0000_0000 {
      AddressHighWord(iptr[4], t);
    }
    AddressHighWordNoPacket(t);
  }

  /**
   * The register values of a descriptor with no packet bits: the length,
   * the byte offset plus the DDR bias split into a 4-byte aligned low word
   * and a high word, then descriptor words 5-9.
   */
  function PlainRegisters(length: nat, offset: nat, tail: seq<nat>): seq<int>
  {
    var t := offset + DDR_AIE_ADDR_OFFSET;
    [length, t % 0x1_0000_0000 - t % 4, t / 0x1_0000_0000] + tail
  }

  /** `r` is eight `write32`s, at row 0 of `column`, of `values` to the consecutive registers of BD `bdIndex`. */
  ghost predicate WritesBdRegisters(r: seq<nat>, column: nat, bdIndex: nat, values: seq<int>)
  {
    && |r| == 24 && |values| == 8
    && forall k | 0 <= k < 8 ::
         && values[k] >= 0
         && DecodeWrite32(r[3 * k .. 3 * k + 3])
            == Some(Write32Fields(column, 0, SHIM_DMA_BD0_BASE_ADDR + bdIndex * SHIM_BD_OFFSET + 4 * k, values[k]))
  }

  /** Re-emitting a descriptor with no packet bits and no tensor address: the register values spelled out. */
  lemma ExecPlainDescriptor(iptr: seq<nat>, column: nat, bdIndex: nat, length: nat, offset: nat)
    requires |iptr| >= 10 && iptr[4] == 0
    requires Field(iptr[0], 16, 8) == column && iptr[0] % 16 == bdIndex && iptr[2] == length && iptr[3] == offset
    ensures ExecWriteBdExtendShimTileOpt(iptr, None).Ok?
    ensures WritesBdRegisters(ExecWriteBdExtendShimTileOpt(iptr, None).value, column, bdIndex,
                              PlainRegisters(length, offset, iptr[5..10]))
  {
    var t := offset + DDR_AIE_ADDR_OFFSET;
    ExecWriteBdRefuses(iptr, None);
    PatchedAddressIs(iptr, None);
    RegisterValuesAre(iptr, None);
    var v := RegisterValues(iptr, None);
    assert v == PlainRegisters(length, offset, iptr[5..10]) by {
      assert v[..3] == [length, t % 0x1_0000_0000 - t % 4, t / 0x1_0000_0000];
      assert v == v[..3] + v[3..];
    }
    ExecWriteBdRegisters(iptr, None);
  }

  /** The fields of a writebd_shimtile encoding that the re-emitter reads. */
  lemma WriteBdPlainHeader(bd: ShimBd)
    requires StridesPositive(bd)
    ensures var words := WriteBdShimTile(bd).value;
      && |words| == 10 && words[4] == 0
      && Field(words[0], 16, 8) == bd.column % 256 && words[0] % 16 == bd.bdId % 16
      && words[2] == bd.bufferLength && words[3] == bd.bufferOffset * (bd.dataWidth / 8)
  {
    var words := WriteBdShimTile(bd).value;
    assert words == BdWords(bd, bd.d2Stride - 1, bd.d1Stride - 1, bd.d0Stride - 1);
    BdWordsHead(bd, bd.d2Stride - 1, bd.d1Stride - 1, bd.d0Stride - 1);
    BdHeaderFields(WRITEBD_OPCODE, bd.column, 1, bd.ddrId, bd.bdId);
  }

  /**
   * Encoding a descriptor with writebd_shimtile and re-emitting it gives
   * eight register writes to that BD of that column: the buffer length,
   * the byte offset plus the DDR bias split into a 4-byte aligned low word
   * and a high word, then descriptor words 5-9.
   */
  lemma WriteBdThenExec(bd: ShimBd)
    requires StridesPositive(bd)
    ensures var words := WriteBdShimTile(bd).value;
      && ExecWriteBdExtendShimTileOpt(words, None).Ok?
      && WritesBdRegisters(ExecWriteBdExtendShimTileOpt(words, None).value, bd.column % 256, bd.bdId % 16,
                           PlainRegisters(bd.bufferLength, ByteOffset(bd.bufferOffset, bd.dataWidth), words[5..10]))
  {
    var words := WriteBdShimTile(bd).value;
    WriteBdPlainHeader(bd);
    ExecPlainDescriptor(words, bd.column % 256, bd.bdId % 16, bd.bufferLength, ByteOffset(bd.bufferOffset, bd.dataWidth));
  }
}
