# Verified model of an STM32 SD-card stack

A Dafny model of the parts of the stack that carry state and arithmetic, with proofs.

- **Pool allocator** (`PackedBitmap`, `PoolSpec`, `PoolRuns`, `PoolAllocator`). A next-fit allocator over a packed
  bitmap of 4096 one-byte blocks. `PoolMemory` updates the bitmap, the hint and RAM in place; `PoolSpec` says on values
  what each call does; `PoolRuns` is about every sequence of calls.
- **SD command path** (`SdResponses`, `SdTrace`, `SdProtocol`). Card identification and the addressed commands against
  a card that may answer anything. A ghost trace records every command and answer, and when the
  data path is enabled.
- **SD data path** (`SdioFifo`, `SdTransfer`). Words moving between RAM, the 32-word FIFO and the card. Before every
  access of the host to the data registers, also between transfers, the hardware may take any number of steps and raise
  any error.
- **Block adapter** (`ByteStore`, `Runs`, `FlatStore`, `BlockAdapter`). Sector requests on top of the data path: retries, and
  the read-modify-write of a partial tail block in a temporary from the pool.
- **Buffered writer** (`WriterRuns`, `BufferedWriter`). The 2560-byte write buffer in front of a file.
- **Arithmetic and registers** (`MathPow`, `RtcPrescaler`, `RtcCodec`, `RccPll`).

The layers are stacked: the adapter calls the data path and the allocator, the data path calls the command path, and
each relies only on the contracts below it. RAM is one byte array; the pool is a window of it, so that a caller's buffer
may lie in the pool.

## Where the code does not do what it promises

Each item is proved: the exact condition under which the promise holds, and a concrete input or run that breaks it
where the condition does not name one by itself.

- `pool_alloc` can answer NULL although a large enough run is free: the run crosses the hint. Six ordinary calls reach
  such a state (`NullWithRoomIsReachable`). A refused request really had no room iff it is longer than the free stretch
  around the hint (`NullIsRightWhen`; for all sizes at once, `NullIsExactWhen`). Under stack discipline every NULL is
  right (`StackNeverFragments`).
- A request of 65536 bytes or more is cut to 16 bits: 65537 bytes get one block (`HugeRequestGetsOneBlock`,
  `GrantedInFull`). So is the size of a free: 65536 bytes at block 1 are accepted and nothing is cleared
  (`FreeClearsRequest`, `FreedBlocksAre`).
- Sectors at or past 4 GiB alias to the start of the card (`SectorsAliasAt4GiB`, `RequestIsExact`).
- No transfer looks at the flags before its loop, and the clear at the end of a transfer does not wait for the flag it
  did not ask for: a single-block read ends on DBCKEND, and DATAEND may come up after its clear. Then the next write is
  over at once and reports success with not a word sent. This is the write of every partial block
  (`LateDataEndMisleads`); a partial block read after two full ones or more fails likewise (`LateBlockEndMisleads`). A
  transfer that passes its checks has ended itself iff the flag its loop waits for was not already up when it was
  configured (`EndIsOwnIff`; every loop ends as that lemma says). For the requests of `sd_fat32.c` this means:
  - On prompt hardware, where a transfer raises no end flag after its clear, no request is ever misled: a 0 can be
    trusted for every request in every run (`WriteSd`, `ReadSd`, `HonestReadsReturnLastWritten`).
  - On any hardware, when the end flag the first transfer waits for was neither up nor to come before the call and no
    transfer had to be repeated, the 0 of a write is certain iff the request has no partial block, and the 0 of a read
    iff it has none or at most one full block before it (`WriteSd`, `ReadSd` and the two runs). Such a write, or such a
    read of two full blocks or more, leaves DATAEND neither up nor to come, so runs of them are clean throughout
    (`CleanRunsReadBack`).
- The write loops end on STBITERR, but no check after them looks at it, and the clear mask leaves it set. A write can
  then report success although no data ended (`WriteChecksMissStartBit`); and once the flag is up no read succeeds again
  (`ReadMultiBlock`). Every statement about a successful write therefore carries "no start-bit error pending".
- The capacity of a version 2 card is taken modulo 4 GiB, and so no card is ever classified SDXC (`CapacityIsExact`,
  `LoadCsd`).
- When all CMD55 of the bus-width switch are refused, `init_sd_card` waits for the answer to a command it never sent
  (`SetBusWidth`); the condition is that refusal. In the model a wait ends only when an answer is due, and the output
  `hangs` stands for a call that is in a wait where none is.
- CMD8's answer is accepted if it shares one bit with the pattern (`PatternCheckIsLoose`).
- The OCR field called `busy` is bit 30, so a ready standard-capacity card reads as busy (`OcrReadinessAgrees`).
- The year check sees only the low byte: 2236 is accepted and stored as 1980 (`AcceptedYears`). The week is not masked
  and the week enumeration is hexadecimal, so TUESDAY moves 2024 to 2026 (`TuesdayMovesTheYear`, `YearRoundTrip`).
- HCLK is reported doubled for AHB prescalers of 64 and more (`HclkIsRightUpTo16`).
- `sd_fat32_close` drops the status of its flush: it is certain to save every byte iff the buffer is empty when it is
  called (`CloseIsSafeWhen`, `Close`).

## Model

| member | source | states |
|---|---|---|
| PackedBitmap.UpdateBit | allocator/pool_memory.c:46-49 | setting or clearing one bit of one packed byte changes exactly one block of the boolean map |
| PackedBitmap.PackingIsUnique | allocator/pool_memory.c:11 | the boolean map determines the bitmap bytes |
| PoolSpec.FirstFitIsLeast | allocator/pool_memory.c:32-70 | the naive window search finds the least start of a free run of n blocks, or there is none |
| PoolSpec.SkipBlocked | allocator/pool_memory.c:37-69 | a used block rules out every start within reach of it, which is why one pass with a counter is enough |
| PoolSpec.PlacementIsNextFit | allocator/pool_memory.c:28-76 | next-fit exactly: least run from the hint on, else least run ending by the hint, else NULL with nothing changed |
| PoolSpec.NullIsRightWhen | allocator/pool_memory.c:28-76 | a refused request had no room anywhere in the pool iff it is longer than the free stretch around the hint |
| PoolSpec.NullIsExactWhen | allocator/pool_memory.c:28-76 | every NULL is right, whatever the size, iff the hint is 0, next to or on a used block, or a window holds a run as long as the free stretch around the hint |
| PoolSpec.GrantedInFull | allocator/pool_memory.c:19-24 | a granted request marks all its bytes, inside the pool, iff its size is below 65536; otherwise it marks the size modulo 65536 |
| PoolSpec.HugeRequestGetsOneBlock | allocator/pool_memory.c:19-24 | 65537 bytes are granted with one block |
| PoolSpec.FreedBlocksAre | allocator/pool_memory.c:110-117 | for every size: accepted iff the request ends, modulo 65536, inside the pool; it clears up to that end, or nothing when the end is not behind the start |
| PoolSpec.FreeClearsRequest | allocator/pool_memory.c:110-117 | a free is accepted and clears exactly the requested bytes iff they end in the pool; two accepted sizes that clear nothing and one block |
| PoolSpec.HintAfterGrant | allocator/pool_memory.c:51-61 | after a grant the hint is on the first free block behind the granted run, or 0 when every block behind it is used |
| PoolSpec.HintAfterFree | allocator/pool_memory.c:119-129 | after a free the hint is the lesser of the old hint and the first cleared block; without a cleared block it stays |
| PoolSpec.MapAfterFree | allocator/pool_memory.c:110-124 | a free clears the blocks from the first up to the end of the request modulo 65536, when that end is in the pool, and no others |
| PoolSpec.InitAndFreeAll | allocator/pool_memory.c:79-96 | pool_init empties map and hint only when not initialised, pool_free only when initialised, and each flips the flag |
| PoolSpec.AllocThenFree | allocator/pool_memory.c:44-131 | freeing what was just allocated restores the occupancy map, hint at or before the block |
| PoolRuns.EveryRunIsSafe | allocator/pool_memory.c:17-132 | over every run: live regions inside the pool and disjoint, bit set iff its block is live, set bits number the live sizes |
| PoolRuns.StackNeverFragments | allocator/pool_memory.c:17-132 | under stack discipline the used blocks are a prefix, the hint is inside it, and a request succeeds iff it fits above |
| PoolRuns.NullWithRoomIsReachable | allocator/pool_memory.c:28-76 | six calls after which 16 blocks are refused although blocks 4 to 19 are free |
| PoolAllocator.PoolMemory.constructor | allocator/pool_memory.c:10-13 | the zeroed static state |
| PoolAllocator.PoolMemory.Scan | allocator/pool_memory.c:32-70 | the sweep with a counter finds what the naive search finds |
| PoolAllocator.PoolMemory.Alloc | allocator/pool_memory.c:17-77 | the packed state moves as specified and the address is the placement, for every 32-bit size; with its live regions it makes the step of PoolRuns, so every run of calls is safe |
| PoolAllocator.PoolMemory.Claim | allocator/pool_memory.c:46-61 | exactly the run is marked, and the hint moves as HintAfterGrant says |
| PoolAllocator.PoolMemory.Init | allocator/pool_memory.c:79-86 | clears the map only when not initialised |
| PoolAllocator.PoolMemory.FreeAll | allocator/pool_memory.c:88-96 | clears map and pool bytes only when initialised, no other RAM |
| PoolAllocator.PoolMemory.FreeRegion | allocator/pool_memory.c:97-132 | error codes, a rejected free changes nothing, an accepted one moves the state as specified, for every pointer and 32-bit size; freeing a live region whole is the step of PoolRuns |
| PoolAllocator.AllocFreeRestoresBytes | allocator/pool_memory.c:44-131 | allocate and free restores the bitmap byte for byte |
| SdResponses.R1AcceptsIffNoErrorBit | drivers/devices/SD/SD.c:57-129 | the chain of tests accepts exactly the answers without an error bit, and never returns a positive code |
| SdResponses.R1CodeOfBit | drivers/devices/SD/SD.c:57-129 | the code given for each of the eighteen error bits |
| SdResponses.R1ReportsCrc | drivers/devices/SD/SD.c:57-97 | the code that counts as a lost answer is given exactly for COM_CRC_ERROR without any bit tested before it |
| SdResponses.R1Fields | drivers/devices/SD/SD.c:51-54 | READY_FOR_DATA, APP_CMD and CURRENT_STATE by their places in the word |
| SdResponses.R6AcceptsIffNoErrorBit | drivers/devices/SD/SD.c:262-283 | a CMD3 answer is accepted exactly when bits 3, 13, 14 and 15 are clear; which code the others get |
| SdResponses.CsdFields | drivers/devices/SD/SD.c:518-547 | the CSD fields by their places in the three words |
| SdResponses.OcrFields | drivers/devices/SD/SD.c:198-214 | voltage, card type and busy bit by their places in the OCR |
| SdResponses.RcaArgOfField | drivers/devices/SD/SD.c:282 | an addressed command repeats the upper half of the CMD3 answer |
| SdResponses.RcaPlaces | drivers/devices/SD/SD.c:282 | the address is the upper half of the answer, and of the argument |
| SdResponses.PatternCheckIsLoose | drivers/devices/SD/SD.c:306-311 | which CMD8 answers the driver accepts against the echo the SD standard asks for |
| SdResponses.OcrReadinessAgrees | drivers/devices/SD/SD.c:198-203 | driver and card agree on readiness iff bits 30 and 31 are equal |
| SdTrace.DisciplineAt | drivers/devices/SD/SD.c:242-284 | at every position of a trace an addressed command carries the address in force there |
| SdTrace.RcaZeroBeforeCmd3 | drivers/devices/SD/SD.c:314-347 | before the first accepted CMD3 answer the address in force is 0 |
| SdTrace.RcaIsLastPublished | drivers/devices/SD/SD.c:282 | afterwards it is the one last published |
| SdTrace.OpCondAsks | drivers/devices/SD/SD.h:344-346 | ACMD41 asks for high capacity and the voltages of bits 20 and 21, and nothing else |
| SdTrace.RoundEvents | drivers/devices/SD/SD.c:337-365 | in a polling round ACMD41 directly follows an accepted CMD55 |
| SdTrace.BusyEvents | drivers/devices/SD/SD.c:423-451 | before the last round nothing but CMD55 with address 0 and ACMD41 answered busy |
| SdTrace.IdentificationLength | drivers/devices/SD/SD.c:379-493 | a successful identification has at most 731 events |
| SdProtocol.SdHost.Resp1 | drivers/devices/SD/SD.c:28-130 | status 0 iff an answer without error bits came; the state is taken from any answer |
| SdProtocol.SdHost.Reset | drivers/devices/SD/SD.c:314-329 | address 0 and idle iff CMD0 went out |
| SdProtocol.SdHost.SetInactive | drivers/devices/SD/SD.c:367-377 | CMD15 with the address, then CMD0 exactly if that was sent |
| SdProtocol.SdHost.SendAppCommand | drivers/devices/SD/SD.c:337-365 | 1 to 8 CMD55; the application command follows exactly an accepted last one; it is given up after eight, or when an error answer comes without APP_CMD, and not before |
| SdProtocol.SdHost.ValidateOperatingVoltage | drivers/devices/SD/SD.c:331-335 | CMD8 and the three outcomes init_sd distinguishes |
| SdProtocol.SdHost.Open | drivers/devices/SD/SD.c:384-421 | CMD0, CMD8, and CMD0 again iff CMD8 timed out, which forgets the card version; each failure by what was on the line |
| SdProtocol.SdHost.Resp3 | drivers/devices/SD/SD.c:181-217 | busy, ready or timeout; a CRC failure is not checked; type and voltage are those of the OCR; nothing changes unless ready |
| SdProtocol.SdHost.Poll | drivers/devices/SD/SD.c:423-457 | success is at most 39 busy rounds and one ready round; failure is 40 busy rounds or a round that fails |
| SdProtocol.SdHost.PublishRca | drivers/devices/SD/SD.c:242-284 | the address changes only on an accepted CMD3 answer, to its field; the state on any answer |
| SdProtocol.SdHost.Close | drivers/devices/SD/SD.c:463-492 | success is CMD2 and CMD3 accepted; on every failure the first refused of the two is followed by CMD15 |
| SdProtocol.SdHost.InitSd | drivers/devices/SD/SD.c:379-493 | every run puts on the line exactly an identification sequence or one that says why it failed, at most 735 events; type and voltage are those of the ready OCR; the RCA discipline holds throughout |
| SdProtocol.SdHost.WaitCardReady | drivers/devices/SD/SD.c:689-712 | 0 only after a clean answer that says ready and in transfer state; otherwise the last answer did not; timeout only after all 500 tries; nothing but CMD13 is sent; RCA discipline |
| SdProtocol.SdHost.Resp1b | drivers/devices/SD/SD.c:132-145 | a timeout is forgiven exactly when the card then becomes ready, and the card is always asked |
| SdProtocol.SdHost.LoadCsd | drivers/devices/SD/SD.c:565-625 | CMD9 carries the address; the capacity recorded is the product of the CSD fields modulo 2^32; a version 2 card is always classified SDHC |
| SdProtocol.CapacityIsExact | drivers/devices/SD/SD.c:597-615 | the recorded capacity is the card's iff C_SIZE is below 8191; the SDXC test is right iff the card has at most 32 GiB |
| SdProtocol.SdHost.SetBusWidth | drivers/devices/SD/SD.c:738-755 | success is an accepted CMD55, at once ACMD6, and its acceptance; a refused ACMD6 is followed by CMD15; after refused CMD55 the wait is for an answer that is not due |
| SdProtocol.SdHost.InitSdCard | drivers/devices/SD/SD.c:714-762 | success is CMD9, CMD7 accepted or the card ready, up to eight CMD55 and ACMD6, with nothing else but status polls and the address kept; each failure code by what was on the line; RCA discipline |
| SdioFifo.Sdio.ReadFifo | drivers/devices/SD/SD.c:1130-1135 | each word read is the next word of the card's data |
| SdioFifo.Sdio.WriteFifo | drivers/devices/SD/SD.c:814-818 | a word joins the data on its way; never into a full FIFO |
| SdioFifo.ReadChecksAreComplete | drivers/devices/SD/SD.c:1125-1172 | a read that passes its checks has seen the end flag it waits for |
| SdioFifo.WriteChecksMissStartBit | drivers/devices/SD/SD.c:878-919 | a write that passes its checks has seen DATAEND, iff STBITERR is clear |
| SdioFifo.EndIsOwnIff | drivers/devices/SD/SD.c:806-840 | for each of the three loops: passing the checks means the transfer itself has ended, iff its end flag was not up before it, or a flag was up that the checks reject |
| SdioFifo.LateDataEndMisleads | middleware/sd_fat32.c:219-230 | the register accesses of a read-modify-write of one block, from reset: the block is read whole, DATAEND comes up after the clear, and the write passes its checks with nothing sent |
| SdioFifo.LateBlockEndMisleads | middleware/sd_fat32.c:144-166 | the register accesses of a read of two blocks and a partial one, from reset: the last DBCKEND comes up after the clear, and the read of the third passes its checks with no word in the FIFO |
| SdioFifo.Sdio.StartWrite | drivers/core/sdio.c:172-177 | an end flag that was up before is up at the start, and one that was neither up nor to come is not |
| SdTransfer.SdDriver.TargetIsBlock | drivers/devices/SD/SD.c:857-860 | a request reaches its block iff the card is block addressed or the block is below 4 GiB |
| SdTransfer.SdDriver.Address | drivers/devices/SD/SD.c:857-860 | the argument on the line is the block number, or 512 times it modulo 2^32 on a byte-addressed card, and names the target block |
| SdTransfer.SdDriver.NothingLost | drivers/devices/SD/SD.c:1122-1179 | buffer, FIFO and card together are the card's data, at every interleaving |
| SdTransfer.SdDriver.NothingInvented | drivers/devices/SD/SD.c:875-890 | card and FIFO together are a prefix of the caller's data; all of it once the data ended |
| SdTransfer.SdDriver.ReceiveHalves | drivers/devices/SD/SD.c:1122-1137 | the eight-word loop keeps conservation, never underflows data_remaining, never leaves the buffer, and ends, with the flags EndIsOwnIff speaks of; it takes no word when its end flag was up before |
| SdTransfer.SdDriver.ReceiveSome | drivers/devices/SD/SD.c:1127-1136 | a round takes eight words exactly when the FIFO is half full and data is still expected |
| SdTransfer.SdDriver.ReceiveFull | drivers/devices/SD/SD.c:1048-1056 | the same for the single-block loop |
| SdTransfer.SdDriver.Drain | drivers/devices/SD/SD.c:1174-1179 | the drain empties the FIFO or completes the buffer; once all data arrived it completes it |
| SdTransfer.SdDriver.ReadSingleBlock | drivers/devices/SD/SD.c:1021-1089 | 0 means CMD17 with the address of the block, then the data path enabled, and the card ready at the end; and from any flags that the buffer is the block unless DBCKEND was up at the start; it was if up before the call, and not if neither up nor to come; a failure has a refusal or an error flag behind it; no RAM outside the buffer changes |
| SdTransfer.SdDriver.ReadMultiBlock | drivers/devices/SD/SD.c:1091-1185 | the same for many blocks with DATAEND: the data path enabled, CMD18 with the address, CMD12, and then no end flag is left behind; never 0 after a start-bit error |
| SdTransfer.SdDriver.Transmit | drivers/devices/SD/SD.c:875-890 | only a prefix of the data is pushed, never past its end, never into a full FIFO, and nothing when an end flag was up before; it ends with the flags EndIsOwnIff speaks of |
| SdTransfer.SdDriver.TransmitSome | drivers/devices/SD/SD.c:880-889 | eight words exactly when half the FIFO is empty and data is left; dataremaining stays a non-negative multiple of 32, equal to what is still to push |
| SdTransfer.SdDriver.WriteSingleBlock | drivers/devices/SD/SD.c:764-841 | 0 means the data path enabled, CMD24 with the address of the block, and the card ready at the end; and without start-bit error, from any flags, that all data was sent and the block holds it if DATAEND was not up at the start, and nothing was sent if it was; it was if up before the call, and not if neither up nor to come; a failure has a refusal or an error flag behind it; nothing else on the card changes on any path |
| SdTransfer.SdDriver.WriteMultiBlock | drivers/devices/SD/SD.c:843-923 | the same for many blocks, with CMD25 and, without start-bit error, CMD12; a success leaves no DATAEND behind |
| ByteStore.SpliceForgets | middleware/sd_fat32.c:171-188 | what failed attempts left in the range does not matter after a successful one |
| ByteStore.SplicePatch | middleware/sd_fat32.c:219-228 | patching the front of a block and writing the block back changes only the patch |
| ByteStore.SpliceJoin | middleware/sd_fat32.c:206-233 | full blocks and tail make one write |
| FlatStore.StoreIsLastWritten | middleware/sd_fat32.c:116-236 | after any run every byte not left undefined by an unsound write holds its last written value |
| FlatStore.ReadsReturnLastWritten | middleware/sd_fat32.c:116-236 | in any run every read that reported success and was sound delivers the last written bytes |
| FlatStore.HonestReadsReturnLastWritten | middleware/sd_fat32.c:116-236 | where no report was unsound, as on prompt hardware without a start-bit error, every read that reported success does |
| FlatStore.CleanRunsReadBack | middleware/sd_fat32.c:116-236 | in a run of sound requests the bytes every read delivers are the last written, and known |
| FlatStore.NothingUnknown | middleware/sd_fat32.c:116-236 | a run that leaves no bytes undefined leaves no byte unknown |
| BlockAdapter.RequestIsExact | middleware/sd_fat32.c:190-197 | a request lands on the bytes it names iff both products fit 32 bits and the start is block aligned |
| BlockAdapter.SectorsAliasAt4GiB | middleware/sd_fat32.c:193 | the first sector past 4 GiB is block 0 |
| BlockAdapter.SdAdapter.ReadSafe | middleware/sd_fat32.c:116-128 | it tries until one read succeeds, and fails exactly after five failures; 0 means the buffer is the card's data unless the last was misled, which prompt hardware excludes, and a fresh end flag with a single transfer |
| BlockAdapter.SdAdapter.WriteSafe | middleware/sd_fat32.c:171-188 | it tries until one write succeeds, and fails exactly after three failures; a sound 0 means exactly the range holds the data, whatever earlier attempts left; prompt hardware, or a fresh DATAEND with a single transfer, makes it sound |
| BlockAdapter.SdAdapter.ReadTail | middleware/sd_fat32.c:151-166 | 0 means the partial block arrived, unless misled, excluded as for ReadSafe; the pool and its live regions are as before and no other owned RAM touched |
| BlockAdapter.SdAdapter.WriteTail | middleware/sd_fat32.c:213-233 | on a sound 0, on prompt hardware on every 0 without start-bit error, the bytes past the data are kept, even when the data lies in a live pool region; the pool and its live regions are as before on every path |
| BlockAdapter.SdAdapter.ReadSd | middleware/sd_fat32.c:130-169 | 0 means the buffer is the requested range: always on prompt hardware, and on any from a fresh end flag without repeated transfers when no partial block follows two full ones or more; it fails only when its last block request did or the pool has no room; every 0 is logged; pool and owned RAM as before |
| BlockAdapter.SdAdapter.WriteSd | middleware/sd_fat32.c:190-236 | 0 without start-bit error means exactly the requested bytes changed to the data: always on prompt hardware, and on any from a fresh DATAEND with one transfer when there is no partial block; otherwise only the blocks aimed at can change; it fails only when its last block request did or the pool has no room; every request is logged with what it reported; pool and owned RAM as before |
| WriterRuns.ContentIsAccepted | middleware/sd_fat32.c:268-310 | over any run, file then buffer are the accepted bytes in order |
| WriterRuns.FlushedFileDependsOnBytesOnly | middleware/sd_fat32.c:268-310 | after a successful flush the file does not depend on how the bytes were split or retried |
| WriterRuns.FileOnlyGrows | middleware/sd_fat32.c:268-310 | nothing in the file is taken back |
| WriterRuns.CloseIsSafeWhen | middleware/sd_fat32.c:312-325 | a close saves every byte whatever its flush answers, iff the buffer is empty before it; a failed flush loses the bytes otherwise |
| BufferedWriter.SdFat32File.constructor | middleware/sd_fat32.c:245-259 | an opened file has an empty buffer, and its history starts with its contents |
| BufferedWriter.SdFat32File.Round | middleware/sd_fat32.c:275-291 | one round appends what it copies, as much as fits; it calls the library exactly when the buffer is full, with all of it; only a full buffer may copy nothing |
| BufferedWriter.SdFat32File.Write | middleware/sd_fat32.c:268-294 | ends from every state; accepts all on success and exactly a prefix on failure, with the buffer then full; the library is given full buffers only, and a failure is its refusal of the last; the history grows by this call |
| BufferedWriter.SdFat32File.Flush | middleware/sd_fat32.c:296-310 | all on success, nothing changed on failure; it fails exactly when the library, asked once for a buffer that is not empty, refuses; the history grows by this call |
| BufferedWriter.SdFat32File.Close | middleware/sd_fat32.c:312-325 | the buffered bytes are saved iff the flush inside succeeded, always when the buffer was empty; otherwise the file is unchanged |
| MathPow.RoundKeeps | drivers/devices/SD/SD.c:501-507 | a round keeps result times value to the exp, modulo 2^32, although both wrap |
| MathPow.Compute | drivers/devices/SD/SD.c:495-509 | the result is v to the e modulo 2^32 |
| MathPow.PowerOfTwoFits | drivers/devices/SD/SD.c:586-587 | a power of two comes out whole iff the exponent is below 32, so for every four-bit and three-bit field |
| RtcPrescaler.DividerIsLeast | drivers/core/RTC.c:183-192 | the least usable divider in closed form, and when there is one |
| RtcPrescaler.Calculate | drivers/core/RTC.c:179-197 | least usable divider with the rounding bound; fallback iff f is 0 or f/128 exceeds 32768 |
| RtcCodec.TimeRoundTrip | drivers/core/RTC.h:101-107 | hour, minute and second each read back iff their tens digit fits its field |
| RtcCodec.DayMonthRoundTrip | drivers/core/RTC.h:118-127 | day and month likewise, whatever year and week |
| RtcCodec.YearRoundTrip | drivers/core/RTC.h:118-124 | the year reads back iff the unmasked week bits are already set in it |
| RtcCodec.TuesdayMovesTheYear | drivers/core/RTC.h:132-142 | week 0x10 turns 2024 into 2026 |
| RtcCodec.AcceptedYears | drivers/core/RTC.c:58-62 | a year is accepted and comes back iff it is 1980 to 2079; 2236 is accepted as 1980 |
| RtcCodec.TimeFieldsBack | drivers/core/RTC.h:85-107 | decoding and encoding again restores each time field of TR iff its units are a decimal digit |
| RtcCodec.DateFieldsBack | drivers/core/RTC.h:118-127 | the same for DR; the week always |
| RtcCodec.TimeRegisterBack | drivers/core/RTC.h:85-107 | a TR with decimal digits comes back whole from what is read out of it |
| RtcCodec.DateRegisterBack | drivers/core/RTC.h:118-127 | so does a DR, although the unmasked week carries five bits of the year |
| RtcCodec.Rtc.RoundTrip | drivers/core/RTC.c:52-177 | every calendar date-time comes back, the year iff the week leaves it alone, so for every week up to 7 |
| RccPll.FieldsRoundTrip | drivers/core/rcc.c:86-97 | all five fields read back, for every prior register, iff every value fits its field |
| RccPll.OtherBitsKept | drivers/core/rcc.c:86-97 | bits outside the fields are kept |
| RccPll.FieldsArePlaced | drivers/core/rcc.h:77-86 | M, N, P, Q and the source by their places in the register |
| RccPll.ReportedIsTarget | drivers/core/rcc.c:245-247 | reported SYSCLK and PLL48CLK are the ones asked for, including under 32-bit wrap |
| RccPll.PllFormula | drivers/core/rcc.c:245-247 | the target is the VCO rate, input / M * N in 32 bits, divided by 2, 4, 6 or 8, and the 48 MHz clock the VCO rate divided by Q |
| RccPll.ReportedFormula | drivers/core/rcc.c:315-328 | what is reported of a register is the same quotient of its fields; PLL48CLK is 0 without Q |
| RccPll.MainConfiguration | main.c:67-72 | the configuration in use gives 168 MHz and 48 MHz |
| RccPll.WrapIsReachable | drivers/core/rcc.c:245-247 | an in-range configuration whose product wraps |
| RccPll.Rcc.ConfigurePll | drivers/core/rcc.c:71-100 | success means the register holds the configuration iff its values fit their fields, and then no other bit changes; refused, with the register untouched, while the PLL is on or for another source |
| RccPll.Rcc.GetSysclk | drivers/core/rcc.c:303-328 | on the PLL, the SYSCLK reported is the target switch_to_pll_rcc computes for the configuration in the register, whatever wrote it |
| RccPll.Rcc.SelectPll | drivers/core/rcc.c:135-167 | success means SWS and SW both say PLL |
| RccPll.Rcc.SwitchToPll | drivers/core/rcc.c:219-287 | success means the source oscillator is on, the PLL drives SYSCLK and reports the target; each failure down to -5 by its reason, with the PLL register untouched |
| RccPll.HclkIsRightUpTo16 | drivers/core/rcc.c:331-332 | the reported HCLK is SYSCLK over the divider iff the prescaler is at most 16 or SYSCLK too slow to tell; beyond, it is doubled |

## Left out

Assumptions about the hardware and the libraries below the model:

- The data path starts each transfer with an empty FIFO. DATAEND comes up at most once for a transfer and DBCKEND once for a block, at any time after the words they speak of have passed; an overrun stops the data path. Prompt hardware is a named assumption: after the clear that ends a transfer, that transfer raises no end flag. What rests on it says so.
- The data timer loses a tick at every reading of STA and raises DTIMEOUT at zero. Its start value is arbitrary, so every run whose waits end is covered. Waits for command answers end when an answer is due, and only then.
- The write of 0 to DCTRL before each transfer is not modelled: until the new configuration the old transfer may still raise flags.
- A write that ended with DATAEND and without DCRCFAIL is programmed; any other leaves arbitrary bytes in the range it was aimed at.
- The driver knows the card's addressing mode, a byte-addressed card holds at most 2 GiB, and no buffer reaches 2 GiB.
- The FAT32 library is not part of this model. Only the contract of write_file_fat32 that the writer relies on is used: 0 when the whole buffer was appended, otherwise nothing was.

Not modelled:

- SdProtocol.SdHost.LoadCsd: does not compare the version 1 capacity with the SD standard, which takes C_SIZE_MULT from another word and adds 2 to it; the CSD fields that are only logged are not decoded.
- BlockAdapter.SdAdapter.WriteSd: on hardware that is not prompt, does not promise the data of a partial block, nor after a repeated transfer; LateDataEndMisleads shows how it is lost.
- RccPll.Rcc.SwitchToPll: does not model flash latency, nor the clock frequency read before the switch that only serves it.
- RtcCodec.Rtc.RoundTrip: says nothing about the week on read-back, which is not masked.
- PoolAllocator.PoolMemory.Alloc: the two passes of the loop are two calls of one scanning method.
- clear_sd and erase_sd: clear_sd passes a block count where erase_sd expects an end address.
- set_date_rtc, which does not subtract 1980, and the single-register setters.
- DMA transfers, interrupts, logging, delays, GPIO, USART, timers and the bus prescaler registers.
