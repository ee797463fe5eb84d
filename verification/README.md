# mtcadummy in Dafny

A model of the `mtcadummy` device driver and proofs about it. The driver emulates devices without hardware. A device has
32 registers (bar 0) and 1024 words of "DMA" memory (bar 2). User space reaches them word by word through a request
record, in blocks through a virtual file position, and in bulk through DMA reads. Each word stored in a register starts a
simulated firmware that may change other registers and the DMA memory. A proc file shows the bars and sets error flags.

The driver's methods are imperative Dafny over `Device`, `Driver`, `Mutex`, `Kernel` and `ControlData` objects and
arrays. Each is proved against a function on values (`Bars` and the inputs), and the theorems are about those functions.
What the kernel decides is an input: whether a lock is interrupted (`Interrupted`) or granted with some value of the
flag read under it (`Sampled(flag)`), whether a user copy succeeds, whether an allocation is granted. User buffers are
sequences or arrays of words.

| module | contents |
|---|---|
| Layout, Firmware | constants, the bars, the register state machine, devices and locks |
| Transfer, Chunking, BlockLaws, Streaming | block path: decoding, clipping, loops; cutting; exact failure point; draining a bar |
| StructPath, Clients | record path, bulk readers, the two client adapters and their equivalence |
| Runs, Reachable, Commutation, ClosedForm | runs of writes, all calls as histories of stored words, reordering, closed form of a block |
| Locking, Serial, Interleaving, Timeline, OptionRuns, SerialCalls, Progress, EndToEnd | interleaved threads: invariant, serial order, sampled flags, option writes, deadlock freedom, termination, results and registers after any run |
| Lifecycle | loading and unloading the module |
| ProcOptions, ProcNumbers, ProcDump, DumpNumbers | option writes and the dump of the proc file; which numbers the texts mean and show |

## Where code and documentation differ

The model follows the code.

- `mtcadummy_firmware.c:31` says BROKEN_WRITE cannot be written, and `mtcadummy_v00.08.map:18` that its content is its
  offset. A write to it is answered with -EIO, but the word is stored before the firmware refuses it
  (`mtcadummy_rw_no_struct.c:259-269`). `Reachable.BrokenWriteCanBeWritten` shows such a write, and
  `Reachable.BrokenWriteExactly` says when the word holds its offset: exactly when no store reached it, or the latest
  one stored that value.
- The read-only words keep their values only as long as the firmware's own acquisition of `controlMutex` is not
  interrupted (`mtcadummy_firmware.c:48-51`): the raw store then stays, as in `Reachable.ReadOnlyWordCanBeLost`.
  `Reachable.ReadOnlyWordsExactly`: they are intact exactly when no latest store to one of them was an interrupted store
  of another value.
- A request that begins at the end of a bar is accepted and moves nothing (`mtcadummy_rw_no_struct.c:101-112`); the
  record path refuses the same offset (`mtcadummy_drv.c:297`). `Clients.DecodeEncoded` states exactly which positions are
  accepted. The two client paths therefore agree on every area of at least one word, and on an area of no words exactly
  when the block request passes the driver's checks (`Clients.WritePathsAgree`, `Clients.ReadPathsAgree`;
  `Clients.EmptyAreaOfMissingBar` is an area on which they differ).
- The bulk readers do not agree on all requests: the record reader rounds an unaligned offset down, the ioctls refuse it,
  and the record reader serves every empty request, which the ioctls refuse beyond the bar.
  `StructPath.ReadersAgreeExactly` gives the condition, `StructPath.ReadersDisagree` two requests.
- The bounds check of the bulk readers adds offset and size as 32-bit numbers (`mtcadummy_drv.c:336`, `519`, `694`). A
  sum that wraps round to at most the size of the bar passes although the bytes lie outside bar 2, as in
  `StructPath.WrappedSumPasses`. `StructPath.ContainedExactly` says when the check is right: exactly when the sum fits 32
  bits or the wrapped sum is still too large.
- Writing two option texts in turn is not always the same as writing them joined by a space: a negative value cancels an
  earlier setting only inside one write. `ProcOptions.JoinedWriteIsTwoWritesExactly` gives the condition,
  `ProcOptions.CancelsExample` a pair of texts.
- `MTCADUMMY_DRV_VERSION_MAJ` and `_MIN` are 0 and 10, from `CMakeLists.txt:4-5`.

## Model

| member | source | states |
|---|---|---|
| Firmware.InitialiseSystemBar | mtcadummy_firmware.c:6-33 | zeroed registers become the initial registers, all others stay 0 |
| Firmware.InitialTable | mtcadummy_firmware.c:6-33 | the initial content of every word by number: words 1, 15, 16 and 19 are 10, 0x444D4D59, 1 and 0x4C, all others and bar 2 are 0 |
| Firmware.ReactionTable | mtcadummy_firmware.c:59-112 | what every register holds after a reaction to any register, by word numbers and literal values |
| Firmware.SampleTable | mtcadummy_firmware.c:72-81 | what every DMA word holds after a reaction |
| Firmware.BrokenTable | mtcadummy_firmware.c:98-125 | exactly registers 18 and 19 break on writing and 18 on reading |
| Firmware.TakeSamples | mtcadummy_firmware.c:74-80 | the loop writes k squared to DMA words 0 to 24 and leaves every other DMA word alone |
| Firmware.ResetClocks | mtcadummy_firmware.c:60-71 | the clock reset reaction, for any contents of bar 2 |
| Firmware.TriggerAdc | mtcadummy_firmware.c:72-86 | the ADC reaction on both bars |
| Firmware.HandshakeSpi | mtcadummy_firmware.c:101-108 | the SPI reaction, judged on SYNC and the spi error flag |
| Firmware.Driver.PerformActionOnWrite | mtcadummy_firmware.c:37-114 | finds the device by slot number, releases controlMutex on every path, and does to the two bars and returns what `Action` says, the interrupted lock and broken registers included |
| Firmware.PerformPreReadAction | mtcadummy_firmware.c:116-129 | refuses exactly byte offset 0x48 of bar 0 |
| Transfer.Decode | mtcadummy_rw_no_struct.c:47-112 | an accepted position is bar * 2^60 + 4 * first, and the clipped words fit both the bar and the count |
| Transfer.DecodeExactly | mtcadummy_rw_no_struct.c:35-112 | for every count and position: refused if and only if one of them is not whole words or the position lies in neither bar; else the bar, the first word, and as many bytes as the count, cut off at the end of the bar |
| Transfer.BlockRefusals | mtcadummy_rw_no_struct.c:128-156 | what a block call answers before its first word, by number and in order (signal, error flag, bad request, signal); bars, position and buffer stay |
| Transfer.CheckAndCalculateTransferInformation | mtcadummy_rw_no_struct.c:47-120 | the shift, mask and clipping arithmetic computes `Decode`, which looks at no device state: what is computed before locking is still valid inside |
| Transfer.ReadOne | mtcadummy_rw_no_struct.c:167-184 | a word reaches the buffer iff the firmware and the copy let it; nothing else in the buffer changes |
| Transfer.ReadLocked | mtcadummy_rw_no_struct.c:160-194 | the buffer holds exactly the completed prefix of the bar and is otherwise unchanged, the position counts it, devMutex is released on every path |
| Transfer.ReadNoStruct | mtcadummy_rw_no_struct.c:122-195 | return value, position and buffer are those of `BlockRead`, for every interruption, flag and failing copy; both locks are free again |
| Transfer.WriteLocked | mtcadummy_rw_no_struct.c:252-286 | bars, position and return value of the store-then-act loop, devMutex released on every path |
| Transfer.WriteOne | mtcadummy_rw_no_struct.c:259-275 | the raw word is stored before the firmware acts, and stays when it fails |
| Transfer.WriteNoStruct | mtcadummy_rw_no_struct.c:197-287 | bars, position and return value are those of `BlockWrite`, every other device keeps its bars, both locks are free again |
| StructPath.Locate | mtcadummy_drv.c:283-301 | accepts exactly the aligned offsets inside bar 0 or bar 2, and names that very word |
| StructPath.RecordRefusals | mtcadummy_drv.c:239-267 | what a record call answers before its request is looked at, by number and in order; nothing is written or delivered |
| StructPath.WordReply | mtcadummy_drv.c:282-317 | a word read puts exactly the word into the record and leaves the other fields; its failures by number |
| StructPath.InfoReply | mtcadummy_drv.c:269-281 | the reply to RW_INFO, field by field |
| StructPath.OtherModes | mtcadummy_drv.c:319-356 | every other mode is refused, by writes all but the word mode |
| StructPath.ReadStruct | mtcadummy_drv.c:232-268 | answer, record and bytes are those of `StructRead`; locks free again |
| StructPath.ReadStructLocked | mtcadummy_drv.c:269-357 | every path releases devMutex and answers as `StructRead` says |
| StructPath.WriteStruct | mtcadummy_drv.c:359-394 | bars and answer are those of `StructWrite`; every other device keeps its bars; locks free again |
| StructPath.WriteStructLocked | mtcadummy_drv.c:396-446 | every path releases devMutex and does what `StructWrite` says |
| StructPath.IoctlReadDma | mtcadummy_drv.c:512-537 | answer and bytes of the ioctl for every failure, devMutex released on every path |
| StructPath.ContainedExactly | mtcadummy_drv.c:336-340 | the bounds check keeps a bulk read inside bar 2 if and only if offset + size fits 32 bits or the wrapped sum exceeds the size of the bar |
| StructPath.WrappedSumPasses | mtcadummy_drv.c:519-522 | offset 0xFFFFFFFC with size 8 passes the check and lies outside bar 2 |
| StructPath.ReadersAgreeExactly | mtcadummy_drv.c:324-349 | on every request the check keeps inside bar 2, the record reader and the ioctl accept the same request and deliver the same bytes if and only if the offset is aligned, or the request refused by the check anyway; empty requests agree iff aligned and inside |
| StructPath.ReadersDisagree | mtcadummy_drv.c:519-527 | an unaligned and an empty request on which they differ |
| StructPath.BytesOfSlice | mtcadummy_drv.c:342 | bytes 4i to 4j of a word array are the bytes of its words i to j |
| StructPath.BytesGiveWords | mtcadummy_drv.c:342 | four bytes, lowest first, are the word they stand for |
| StructPath.BulkGivesWords | mtcadummy_drv.c:533-536 | the bytes both bulk readers deliver recombine to the words of bar 2 from offset / 4 on |
| Chunking.WriteRangeSplit | mtcadummy_rw_no_struct.c:255-279 | the write loop over a range is the loop over its first part and, unless that fails, over the rest |
| Chunking.ReadRangeSplit | mtcadummy_rw_no_struct.c:163-188 | the same for the read loop |
| Chunking.DecodeRest | mtcadummy_rw_no_struct.c:101-112 | where a request is cut, the rest decodes to the words that follow in the same bar, clipping included |
| Chunking.BlockWriteSplit | mtcadummy_rw_no_struct.c:197-287 | one write equals two writes carried on by the position |
| Chunking.ChunkedWriteIsOneWrite | mtcadummy_rw_no_struct.c:255-286 | any cutting into any number of pieces leaves the bars, the position, and the total or failure of one write; copies may fail and locks inside the loop may be interrupted |
| Chunking.BlockReadSplit | mtcadummy_rw_no_struct.c:122-195 | one read equals two reads carried on by the position |
| Chunking.ReadValuesSplit | mtcadummy_rw_no_struct.c:177-187 | and their data is the concatenation |
| Chunking.ChunkedReadIsOneRead | mtcadummy_rw_no_struct.c:163-194 | any cutting of a read gives the same data, position and total or failure |
| BlockLaws.BlockWriteIsRun | mtcadummy_rw_no_struct.c:255-279 | the loop stops at the first broken word, having performed the single-word writes up to and including it |
| BlockLaws.BlockWriteFailsExactly | mtcadummy_rw_no_struct.c:255-286 | with copies and locks succeeding, -EIO iff the clipped range holds word 18 or 19 of bar 0; the position counts the completed words; the bars are the completed writes plus the raw store into the failing word |
| BlockLaws.BlockReadFailsExactly | mtcadummy_rw_no_struct.c:163-194 | -EIO iff the clipped range holds word 18; position and delivered data are exactly the words before it |
| BlockLaws.ReadStopsAtBroken | mtcadummy_rw_no_struct.c:167-175 | the read loop stops at word 18 of bar 0 if that lies ahead in its range, and nowhere else |
| BlockLaws.LastWriteIsRaw | mtcadummy_firmware.c:98-100 | the last write of a failing block is a raw store without reaction |
| Streaming.PositionConfined | mtcadummy_rw_no_struct.c:101-112 | whatever happens in a call, the position stays in its bar and moves by at most count; it does not move if the request is refused |
| Streaming.DmaPiece | mtcadummy_rw_no_struct.c:163-194 | one read of n words of bar 2 delivers the next words up to the end of the bar and moves the position just behind them |
| Streaming.DrainDeliversTheBar | mtcadummy_rw_no_struct.c:122-195 | repeated reads of any piece size deliver the rest of bar 2 in order, in the rounded-up number of calls, and end at the end of bar 2 |
| Streaming.BulkReaders | mtcadummy_drv.c:687-712 | both bulk readers deliver the bytes of whole words |
| Streaming.AllReadersAgree | mtcadummy_drv.c:324-349 | inside bar 2, the RW_DMA read, the READ_DMA ioctls, the block read and the word-by-word reads deliver the same bytes |
| Clients.StructWriter | automatic_test/src/StructReaderWriter.cc:36-53 | the per-word loop over the driver's record write: final bars and whether it throws |
| Clients.NormalWriter | automatic_test/src/NormalReaderWriter.cc:35-49 | the single pwrite: final bars and whether it throws |
| Clients.StructReader | automatic_test/src/StructReaderWriter.cc:14-34 | the per-word loop: filled prefix of the buffer, untouched rest, and whether it throws |
| Clients.NormalReader | automatic_test/src/NormalReaderWriter.cc:20-30 | the single pread: filled prefix, untouched rest, and whether it throws |
| Clients.EncodeDecode | pcieuni_io_compat.h:7 | shift and mask recover bar and offset from the encoded position, for bars 0 to 5 and all 32-bit offsets |
| Clients.DecodeEncoded | mtcadummy_rw_no_struct.c:52-112 | every encoded position is accepted exactly when it names a word of the device, which is then its first word, or the end of a bar, from where nothing moves |
| Clients.WriteLoopsAgree | mtcadummy_rw_no_struct.c:255-279 | the block loop and the record loop end in the same bars and fail together, from any word on |
| Clients.WritePathsAgree | automatic_test/src/StructReaderWriter.cc:49-53 | one block write leaves the same bars and throws on the same requests as word-by-word writes, for every offset, bar, data and state, if and only if there is a word to write or the driver accepts the empty request |
| Clients.ReadLoopsAgree | mtcadummy_rw_no_struct.c:163-188 | the record loop serves what the block loop serves, from any word on |
| Clients.ReadPathsAgree | automatic_test/src/StructReaderWriter.cc:30-34 | one block read fills the same prefix and throws on the same requests as word-by-word reads, if and only if there is a word to read or the driver accepts the empty request |
| Clients.EmptyAreaOfMissingBar | automatic_test/src/NormalReaderWriter.cc:35-49 | an area of no words on which only the block path throws |
| Runs.RunConcat | mtcadummy_firmware.c:37-114 | a run of writes is the run of its first part followed by the run of the rest |
| Runs.ReadOnlyWords | mtcadummy_firmware.c:87-97 | words 0, 1 and 15 keep their constants in every run of writes |
| Runs.SpiStep | mtcadummy_firmware.c:101-108 | what one write does to SPI_READ and SPI_SYNC |
| Runs.SpiHistory | mtcadummy_firmware.h:25-28 | in every run SPI_READ is the latest of a direct write and an accepted transfer, else 0; SYNC is 0xFF iff a request is pending; each transfer leaves 0 if accepted and 0xAA otherwise |
| Runs.TransfersNeedRequests | mtcadummy_firmware.c:101-108 | accepted transfers never outnumber the writes of 0xFF to SYNC |
| Runs.ClockHistory | mtcadummy_firmware.c:60-86 | the clock words as a function of the history of resets and ADC triggers |
| Runs.DmaHistory | mtcadummy_firmware.c:72-86 | bar 2 is the parabola iff the ADC was ever started |
| Runs.ClockInvariant | mtcadummy_firmware.c:60-86 | CLK_RST nonzero means all clock words are 0; CLK_CNT_0 is 0 or 25; if 25, bar 2 holds the 25 squares and zeros |
| Runs.ResetHistory | mtcadummy_firmware.c:23-25 | CLK_RST is the value last written, 0 if the ADC has run since, 1 if neither happened |
| Reachable.PassiveHistory | mtcadummy_rw_no_struct.c:259-275 | a register no reaction changes, such as BROKEN_WRITE, holds what the latest store to it stored, refused or interrupted stores included, and else what it held at first |
| Reachable.ReadOnlyHistory | mtcadummy_firmware.c:87-97 | a read-only word holds its constant, or what the latest store to it stored if the firmware was interrupted |
| Reachable.CallIsHistory | mtcadummy_drv.c:416-418 | every call leaves the bars its stored words leave one by one, whatever fails or is interrupted |
| Reachable.CallsAreHistory | mtcadummy_drv.c:359-446 | so does every sequence of calls |
| Reachable.BrokenWriteExactly | mtcadummy_firmware.c:98-100 | after any calls on a fresh device BROKEN_WRITE holds 0x4C if and only if no store reached it or the latest stored 0x4C |
| Reachable.BrokenWriteCanBeWritten | mtcadummy_firmware.c:31-32 | a write of 1 to BROKEN_WRITE is answered with -EIO and leaves 1 there |
| Reachable.ReadOnlyWordsExactly | mtcadummy_firmware.c:48-51 | after any calls words 0, 1 and 15 hold their constants if and only if no latest store to one of them was an interrupted store of another value |
| Reachable.ReadOnlyWordCanBeLost | mtcadummy_firmware.c:48-51 | an interrupted write of 1 to FIRMWARE is answered with -EIO and leaves 1 there |
| Reachable.ReadOnlyWordsLostExactly | mtcadummy_firmware.c:48-51 | a single word write loses a read-only word iff its copy succeeds, controlMutex is interrupted and it stores another value there |
| Reachable.ReadOnlyWordsReachable | mtcadummy_firmware.c:87-97 | words 0, 1 and 15 keep their constants after any mix of calls whose firmware is not interrupted, blocks that stop early included |
| Reachable.CallsAreRun | mtcadummy_drv.c:359-446 | calls whose firmware is not interrupted are runs of single-word writes |
| Reachable.SpiReachable | mtcadummy_firmware.h:25-28 | the SPI history after any such mix |
| Reachable.ResetReachable | mtcadummy_firmware.c:23-25 | the history of CLK_RST after any such mix |
| Reachable.ClockReachable | mtcadummy_firmware.c:60-86 | the clock invariant after any such mix that leaves the clock words and bar 2 to the firmware |
| Commutation.SwapIndependent | mtcadummy_firmware.c:59-112 | two writes without conflict may be exchanged in every state |
| Commutation.ConflictIsExact | mtcadummy_firmware.c:59-112 | the conflict relation is exact: two words conflict iff some state and values tell the two orders apart |
| Commutation.MoveToFront | mtcadummy_firmware.c:59-112 | a write without conflicts before it may be done first |
| Commutation.RearrangedRunsAgree | mtcadummy_firmware.c:59-112 | any two runs that are permutations of each other and keep the order of conflicting writes reach the same bars |
| ClosedForm.RunHasClosedForm | mtcadummy_firmware.c:59-112 | the per-register formula for consecutive writes that avoid words 18 and 19 |
| ClosedForm.BlockWriteClosedForm | mtcadummy_rw_no_struct.c:255-279 | every accepted block write to bar 0, clipped, empty or neither, whose words avoid words 18 and 19 goes through, and its final state is that formula: read-only words restored, clocks reset, then sampled, SPI judged on the SYNC before the block |
| Locking.BlockJobs | mtcadummy_rw_no_struct.c:142-156 | the work of an accepted block call, fixed before devMutex is taken, is exactly the words of its clipped range in order, each with its data |
| Locking.BulkJob | mtcadummy_drv.c:533-536 | a bulk read loads exactly the words from the one that holds its offset on, as many as its size needs, and looks at no broken register |
| Serial.StepSeated | mtcadummy_drv.c:239-255 | a step changes a lock only from free to its own or from its own to free; the program counter and the locks agree; a call has entered iff it is in the order of acquisition; a device owned by another thread is untouched |
| Serial.StepLog | mtcadummy_rw_no_struct.c:152-194 | a call enters the serial order when it takes devMutex and its result is final when it releases it |
| Serial.StepAccounted | mtcadummy_rw_no_struct.c:255-284 | the bars are those of the finished calls, with the owner's work so far on top |
| Serial.CommitInParts | mtcadummy_proc.c:145-164 | the assignments of an option write, one by one, add up to the commit |
| Interleaving.DeviceStepInv | mtcadummy_drv.c:232-446 | a step of a read, write or dump keeps the invariant of all threads and devices |
| Interleaving.OptionStepInv | mtcadummy_proc.c:140-166 | so does a step of an option write |
| Interleaving.InvAlways | mtcadummy_rw_no_struct.c:128-195 | the invariant holds after every schedule of any number of threads on any number of devices |
| Timeline.StepInTime | mtcadummy_firmware.c:48-54 | every step keeps the order of the sampled flags: a call sees its error flag first, then never an older option write after a newer one, and nothing older than the calls before it saw |
| Timeline.AlwaysInTime | mtcadummy_proc.c:140-166 | so it holds after every schedule |
| SerialCalls.BarsOnlyUnderDevMutex | mtcadummy.h:81-82 | only the owner of a device's devMutex changes its bars or gets words from them |
| SerialCalls.Serializable | mtcadummy_rw_no_struct.c:197-287 | whenever devMutex is free, bars, results and positions are those of the calls done one at a time in the order in which they took devMutex, each call once, failed and partly done calls included; each flag sampled is the flag between two whole option writes, in non-decreasing order over the words of a call and over the calls of the order; every call in the order saw its own error flag off; every other finished call on the device was turned away for a reason and has no data |
| SerialCalls.GatesByName | mtcadummy_rw_no_struct.c:128-138 | in every state of the invariant: writes that got in saw the write error flag off, reads the read error flag, opens that succeeded the open error flag; a call answered with its error saw that very flag on (or its block request was refused); no other answers occur before devMutex |
| SerialCalls.FlagsByName | mtcadummy_proc.c:145-164 | what an option write leaves in each of the four flags |
| SerialCalls.GatesInEveryRun | mtcadummy_drv.c:239-249 | the same gates after every schedule |
| OptionRuns.OptionWritesAreWhole | mtcadummy_proc.c:140-166 | in every run the option writes that took effect are, as a multiset, exactly those answered with success; the others were stopped by a signal |
| SerialCalls.BlockWriteEntry | mtcadummy_rw_no_struct.c:197-287 | a call in the serial order does what `BlockWrite` says: bars, position and answer |
| SerialCalls.BlockReadEntry | mtcadummy_rw_no_struct.c:122-195 | likewise `BlockRead` and `ReadValues`: data, position and answer |
| SerialCalls.StructWriteEntry | mtcadummy_drv.c:359-446 | likewise `StructWrite` |
| SerialCalls.StructReadEntry | mtcadummy_drv.c:263-318 | likewise `StructRead` for a word, for RW_INFO, and for refused requests |
| SerialCalls.BulkReadEntry | mtcadummy_drv.c:324-349 | likewise `StructRead` for a bulk read, refused or failing ones included: no torn bytes |
| SerialCalls.IoctlEntry | mtcadummy_drv.c:512-537 | likewise `IoctlDma` |
| SerialCalls.DumpEntry | mtcadummy_proc.c:58-70 | a dump shows one consistent state of both bars |
| Progress.WordsAreClipped | mtcadummy_rw_no_struct.c:107-112 | the words of a call are bounded by its clipped request |
| Progress.StepFalls | mtcadummy_rw_no_struct.c:163-188 | every step lowers the total measure |
| Progress.SchedulesAreBounded | mtcadummy_rw_no_struct.c:163-188 | no schedule is longer than the measure of its first state |
| Progress.NoDeadlock | mtcadummy_drv.c:195-542 | while a call is unfinished (open, read, write, READ_DMA ioctl, dump or option write), some thread can move without a signal or a failing copy |
| Progress.RunsEndClean | mtcadummy_drv.c:256-357 | a run that cannot go on has finished every call and released every lock |
| EndToEnd.EntryIsCall | mtcadummy_rw_no_struct.c:197-287 | a call of the serial order leaves the bars `BlockWrite` or `StructWrite` leaves, and reads leave them alone |
| EndToEnd.RunsAreCalls | mtcadummy_rw_no_struct.c:197-287 | in every run the bars are the fold of whole block and record calls over the order of devMutex |
| EndToEnd.EntryReported | mtcadummy_drv.c:232-446 | for every kind of call, answer, data, position and bars of a log entry are those of its own path done alone |
| EndToEnd.ResultsAreCalls | mtcadummy_rw_no_struct.c:122-287 | in every run, call k of the order answered, delivered and did what its own path does on the bars left by the k calls before it |
| EndToEnd.RegistersInEveryRun | mtcadummy_firmware.c:37-114 | in every interleaving of any threads on a fresh device, BROKEN_WRITE and the read-only words hold what the exact conditions say |
| EndToEnd.RegistersInQuietRuns | mtcadummy_firmware.c:59-112 | if no lock is interrupted, every interleaving keeps the read-only words, the SPI and CLK_RST histories and, where it applies, the clock invariant |
| Lifecycle.Balance | mtcadummy_drv.c:149-173 | under the discipline, each resource is acquired exactly once more than it is released while it is held, and equally often otherwise |
| Lifecycle.LiveDevicesAreComplete | mtcadummy_drv.c:82-106 | at every moment exactly the devices whose cdev is held can be opened; each is found under its own slot number, has its bars and mutex, and had its initial registers, an unlocked mutex and no user when it became visible |
| Lifecycle.BuildDevice | mtcadummy_drv.c:98-106 | zeroed memory becomes a device with its slot number in its initial state, its mutex acquired, still invisible |
| Lifecycle.Publish | mtcadummy_drv.c:132-141 | cdev_add and device_create, allowed only for a device object that is complete and unused |
| Lifecycle.SetUpDevice | mtcadummy_drv.c:86-142 | a device gets its first parts up to the failing step; if none fails, this very device becomes visible under its slot number, in its initial state |
| Lifecycle.UndoDevice | mtcadummy_drv.c:151-158 | the labels release exactly the parts acquired before the failing step |
| Lifecycle.TakeDown | mtcadummy_drv.c:162-171 | the loop and the two last labels release everything |
| Lifecycle.InitModule | mtcadummy_drv.c:53-174 | for any number of devices and any refusals: 0 iff nothing needed is refused, then all is held, exactly the driver's devices are visible, slot numbers are indices and devices are separate and initial; otherwise -1 and nothing is held; never a double or premature release |
| Lifecycle.CleanupModule | mtcadummy_drv.c:176-193 | unloading after loading leaves nothing held |
| ProcOptions.StrSep | mtcadummy_proc.c:127 | the cut-off token and the rest are the head and tail of the token list |
| ProcOptions.ControlData.ProcWrite | mtcadummy_proc.c:103-171 | all four flags change as `WriteOptions` says, or none does and an error is returned; controlMutex free again |
| ProcOptions.CollectIsLast | mtcadummy_proc.c:127-138 | the token fold yields for each option the value of its last token |
| ProcOptions.EachFlagFollowsItsLastToken | mtcadummy_proc.c:145-164 | each flag is set from the last token naming it, unless negative or absent |
| ProcOptions.TokensAppend | mtcadummy_proc.c:127 | the tokens of a text joined by a space are those of its parts |
| ProcOptions.JoinedWriteIsTwoWritesExactly | mtcadummy_proc.c:119-166 | for texts of at most 254 characters together, writing them joined equals writing them in turn, for all flags, iff the second does not cancel an option the first sets |
| ProcOptions.CancelsExample | mtcadummy_proc.c:146-149 | `open:-1` after `open:1` is such a pair |
| ProcNumbers.OneCharacter | mtcadummy_proc.c:128 | a single digit is its value; "0" is 0 |
| ProcNumbers.DecimalDigit | mtcadummy_proc.c:128 | a further digit behind a decimal number: ten times the number plus the digit |
| ProcNumbers.OctalDigit | mtcadummy_proc.c:128 | behind a leading zero: eight times |
| ProcNumbers.HexFirst | mtcadummy_proc.c:128 | the first character behind 0x or 0X, in digits and both cases of letters |
| ProcNumbers.HexFurther | mtcadummy_proc.c:128 | each further one: sixteen times |
| ProcNumbers.DecimalEnds | mtcadummy_proc.c:128 | a decimal number ends at the first other character |
| ProcNumbers.OctalEnds | mtcadummy_proc.c:128 | so does an octal one |
| ProcNumbers.BlanksAreSkipped | mtcadummy_proc.c:128 | blanks before the number are skipped |
| ProcNumbers.PlainNumber | mtcadummy_proc.c:128 | below 2^31 the value is the number |
| ProcNumbers.NegativeNumber | mtcadummy_proc.c:128 | a minus sign negates, down to -2^31 |
| ProcNumbers.WideNumber | mtcadummy_proc.c:128 | beyond, the value differs by a multiple of 2^32 |
| ProcNumbers.NoNumber | mtcadummy_proc.c:128 | anything that begins otherwise is no match |
| ProcNumbers.OpenToken | mtcadummy_proc.c:128-129 | the token "open:" and a number sets the open option |
| ProcNumbers.ReadToken | mtcadummy_proc.c:130-131 | the same for "read:" |
| ProcNumbers.WriteToken | mtcadummy_proc.c:132-133 | the same for "write:" |
| ProcNumbers.SpiToken | mtcadummy_proc.c:134-135 | the same for "spi:" |
| ProcNumbers.OtherToken | mtcadummy_proc.c:127-138 | every other token is ignored |
| ProcNumbers.TokensJoin | mtcadummy_proc.c:127 | the tokens hold no space and, joined by spaces, are the text |
| ProcNumbers.TextEnds | mtcadummy_proc.c:119-123 | what follows a NUL does not count |
| ProcNumbers.LongText | mtcadummy_proc.c:119-123 | nor what follows 254 characters |
| ProcNumbers.OneOption | mtcadummy_proc.c:145-164 | the effect on the flags of a text with one option, by the option's literal name |
| ProcNumbers.SwitchOffAndOn | mtcadummy_proc.c:151-157 | "read:0" clears the read error, "write:1" sets the write error |
| ProcDump.ShowSystemBar | mtcadummy_proc.c:58-61 | the loop prints every register once, in order |
| ProcDump.ShowDmaBar | mtcadummy_proc.c:67-70 | the loop prints every DMA word once, in order, four to a line |
| ProcDump.SeqShow | mtcadummy_proc.c:36-75 | the text for a closed, an interrupted and an open device; devMutex released |
| DumpNumbers.HexReads | mtcadummy_proc.c:59-60 | n hexadecimal digits, read back by the value of each character, are the number |
| DumpNumbers.DecReads | mtcadummy_proc.c:56 | the decimal text, read back, is the number, without leading zeros |
| DumpNumbers.SignedReads | mtcadummy_proc.c:59-60 | the decimal column is the word as a signed 32-bit number |
| DumpNumbers.SysLineShows | mtcadummy_proc.c:59-60 | columns and separators of a register line show number and content |
| DumpNumbers.DmaLineShows | mtcadummy_proc.c:68-69 | columns and separators of a DMA line show its byte offset and its four words |
| DumpNumbers.ClosedTitle | mtcadummy_proc.c:45 | the line of a device that is not in use |
| DumpNumbers.SysTitleLines | mtcadummy_proc.c:56-57 | the two title lines before the registers, with the slot number |
| DumpNumbers.DmaTitleLines | mtcadummy_proc.c:63-66 | the three lines before the DMA words |
| DumpNumbers.RegisterIsShown | mtcadummy_proc.c:56-61 | line 2 + k of the text of an open device is the line of register k with its content |
| DumpNumbers.RowIsShown | mtcadummy_proc.c:63-70 | line 37 + k is the line of DMA words 4k to 4k + 3 with their contents |
| ProcDump.HexInjective | mtcadummy_proc.c:59-60 | fixed-width hex determines the value |
| ProcDump.DecInjective | mtcadummy_proc.c:56 | decimal text determines the number |
| ProcDump.SysLinesInjective | mtcadummy_proc.c:58-61 | equal register listings, whatever follows them, come from equal registers |
| ProcDump.DmaLinesInjective | mtcadummy_proc.c:67-70 | the same for the DMA listing |
| ProcDump.DumpInjective | mtcadummy_proc.c:56-71 | equal dumps come from equal slot numbers, system bars and DMA bars |
| ProcDump.ReadFrom | mtcadummy_proc.c:18-75 | start, next and show from any position print the sections of exactly the remaining devices in order, up to the first open one whose lock is interrupted |
| ProcDump.SectionsSplit | mtcadummy_proc.c:18-27 | reading may be resumed at any position: the pieces are the whole |
| ProcDump.OpenIsNotClosed | mtcadummy_proc.c:44-57 | no text begins both as an open and as a closed device |
| ProcDump.FileInjective | mtcadummy_proc.c:18-75 | two equal texts of the proc file show the same number of devices, the same of them open, and the same bars of every open one |

## Left out

- Kernel plumbing (cdev, class and proc registration, version switches): only acquire and release tokens that may be refused. The proc file's own registration is not a token.
- The slot, version, bar-size and LLRF ioctls, and the ioctl command check: each is one branch.
- Slot 5, which is wired to an operations table that is never filled (mtcadummy_drv.c:116); claims about calls are about devices that have a read and write operation.
- Module removal while files are open, which depends on module reference counting.
- StructPath.IoctlReadDma: does not say what a bulk read delivers that the bounds check wrongly lets out of bar 2 (`StructPath.ContainedExactly`), because those bytes are not part of the device; nor do `StructPath.ReadStruct`, `StructPath.ReadStructLocked` and `StructPath.ReadersAgreeExactly`.
- Counting opens and releases: `inUse` is only what the dump consults. Among the threads an open samples its error flag and counts nothing, a dump is one of an open device, and release takes no lock.
- The buffering of seq_file between the sections of the proc file.
- File positions are non-negative and counts fit a signed size, as the kernel ensures before it calls the driver.
- Partial user copies: a copy succeeds or leaves its target unchanged.
- Scanning by the kernel's sscanf beyond blanks, an optional minus sign and decimal, octal or hex digits; a value is reduced to 32 bits, where the kernel may differ for values out of range.
- Log output.
- Clients.WritePathsAgree: error flag and locks are the same for both paths, since the per-word path samples the flag once per word and the block path once; copies succeed. The same holds for `Clients.ReadPathsAgree`.
- Locking.JobOf: one call per thread, so that a thread's next call is another thread. The copies of a record call succeed or fail as its parameters say, those of a block call word by word as the schedule says. The reply of RW_INFO, which holds constants only, is not among the values of a thread.
- The C functions with many exits are several methods here (`ReadLocked`, `ReadOne`, `WriteLocked`, `WriteOne`, `ReadStructLocked`, `WriteStructLocked`, `AllocateBars`, `BuildDevice`, `Publish`, `SetUpDevices`, `UndoDevice`), one for each part.
- Interleaving.InvAlways: the token parsing of an option write happens before its first lock and is not a step; each of the four assignments is one step.
- Progress.NoDeadlock: nothing is said about which of several waiting threads the scheduler picks; that every schedule ends is `Progress.SchedulesAreBounded`.
