# A Dafny model of the utility library's stateful core

This project models the parts of the C++ utility library whose correctness rests on state,
protocols or arithmetic bounds, and proves what they promise.  `dafny verify dfyconfig.toml`
checks everything.

| files | component |
|---|---|
| `Mailbox.dfy`, `MailboxCalls.dfy` | the lock-free two-slot value mailbox, one step per atomic operation, and what its calls do when they are left alone |
| `Chunks.dfy`, `DownloadBuffers.dfy`, `Downloads.dfy`, `DownloadLoops.dfy`, `DownloadWrites.dfy`, `DownloadThreads.dfy`, `DownloadRuns.dfy`, `DownloadProgress.dfy`, `DownloadFates.dfy` | the chunked downloader: bitmaps, first-fit buffers, the three threads as a state machine, what one pass of its loop and a sequence of writes do, the two buffer loops as code over it, runs that stall or lose a chunk, and when a file can still finish |
| `Decimals.dfy`, `Framing.dfy`, `Sessions.dfy`, `PacketGrammar.dfy`, `MessageProcessers.dfy` | packet framing over a byte stream: printer, incremental parser, reassembly, whole sessions, and the language the parser decides |
| `Calendar.dfy` | timestamps to broken-down time |
| `RollingAdler.dfy` | the rolling checksum |
| `Registers.dfy`, `Crc32.dfy` | the table-driven CRC-32 |
| `Intervals.dfy`, `Requests.dfy`, `FileBacked.dfy`, `FlushRuns.dfy` | byte ranges of a request, dirty ranges of a mapped file, and writers at work beside its tick |
| `ResponseBodies.dfy` | response bodies, kept or written to a caller's buffer |
| `Arena.dfy`, `ArenaPlaces.dfy` | the bump arena, and where it puts its blocks |
| `Octets.dfy`, `BitVector.dfy`, `SteamId.dfy` | the bit vector and the account identifier packed into one |
| `CharBuffers.dfy` | the doubling character buffer |
| `Arithmetic.dfy`, `Bytes.dfy`, `Options.dfy` | shared helpers |

Code that updates state in place is modelled by classes and loops, proved against functions on
values; the results about those functions are the lemmas in the table below.  The mailbox and the
downloader's threads are state machines over their steps, because what matters there is every
interleaving.

## What the proofs show about the code

Some expectations hold only under a condition.  Each condition is proved to be the exact one.

- **Mailbox.** Ownership and the order of the versions told to the delegate hold for any number of
  writers, readers and interleavings.  That the delegate's arguments stay live, and that reads never
  go back in time, hold if and only if at most one thread reads: two readers can put an older buffer
  back over a newer one.  The newest write is never lost before the delegate is told of
  it, and the ticker alone can always get it told.
- **Chunk flags.** The test on the last flag byte equals "all chunks are flagged" on every run
  without a failed chunk.  With failures it does so in every run if and only if the file has at most
  eight chunks.  Every longer file can stall: a chunk given back while that byte is full is asked for
  again only after a response for a chunk of that byte is rejected, and until then the file never
  finishes.  It is stalled for good exactly when nothing of that byte's chunks is left to arrive.
- **Failed writes.** A chunk whose write fails leaves its buffer and stays flagged without being
  complete.  A chunk is flagged, incomplete and in no buffer exactly when a write of it has failed; it
  stays so, and its file is never finished.
- **Finishing.** At every moment of every run a file can still be finished exactly when the remote file
  is not empty, no write of one of its chunks has failed, and it is not stuck: the last flag byte is
  full, the chunks of it that buffers hold have arrived, and some chunk is unflagged or has a response
  that can only be rejected.
- **Framing.** Reading back what BuildPacket wrote works exactly for indexes and body lengths below
  2^31, because the unsigned numbers printed are read with stoi.  Beyond that, reading throws.
  A channel beyond the queues is undefined behaviour exactly when some read ends with bytes that are
  free of errors and name it; a stream that also has an error may meet either first.
- **Calendar.** The result is the exact calendar date for every 64-bit timestamp but for the year,
  which is narrowed to 32 bits; the round trip through the POSIX formula holds exactly before second
  67768036191676800.
- **Rolling checksum.** Init takes the remainder of the whole 32-bit checksum instead of its low half,
  each roll adds the first sum's constant once more to the second, and each wrap of the 32-bit
  product adds 225.  The value read equals the window's Adler-32 exactly when the first window's
  second sum is zero and the number of rolls, with 225 for each wrap, is a multiple of 65521.
- **Arena.** Its sums are 64 bits wide.  The blocks stay inside their regions and disjoint exactly as
  long as no block is handed out although the rounding or the sum on the path taken wrapped; such a
  block always reaches beyond its region, and the next one may overlap earlier blocks.
- **Bit vector.** The guard of the byte-at-a-time batch wraps for starts of 2^64 - 8 and more.  The
  batch leaves the array exactly when the wrapped sum does not exceed the batch's end; a loop over
  single bits would then have done nothing.  Single-bit operations accept padding positions; setting
  or inverting one spoils the clear padding.
- **Character buffer.** Sizes are cut to 32 bits when the buffer grows; an Append fits exactly when
  its bytes fitted before or the requested size is below 2^32, and so does an Assign.  Resize keeps the contents only when
  it grows, and loses a block exactly when it grows a buffer that is there but empty.

## Assumptions

- Downloader: a successful response of the chunk's size carries exactly the requested bytes, progress reports arrive in
  order and never ahead of the bytes, a request whose progress reached the full size completes
  successfully and delivers no more bytes, and the answer to HEAD tells the remote length.  These are
  the guards of the steps in `Downloads.Enabled`.
- Framing: `strstr` looks no further than the bytes received and stops at a NUL, and a receive buffer
  stays below 2^32 bytes.
- Mailbox: one value handle, registered before and not removed during the calls modelled; atomic
  operations are sequentially consistent; addresses may be reused after a buffer was freed.
- Mapped file: a flush writes exactly the bytes of the range it is given, and a byte is stored or
  written back in one step.
- Arena: no object has 2^63 bytes or more, so the scratch buffer is smaller and the system refuses
  larger chunks.
- Bit vector: at most 2^64 - 16 bits, so that its word count and the sums over positions inside it fit
  64 bits.

## Model

| member | source | states |
|---|---|---|
| Mailbox.EveryRunOwnedAndFresh | src/simple_utilpp/private/SimpleValueStorage.cpp:71-150 | In every interleaving of any number of writers and readers with the ticker, at every moment each live buffer has exactly one owner (a slot or one call between its exchanges), nothing is destroyed twice or copied after destruction, and the versions the delegate is told strictly increase |
| Mailbox.QuiescentHeapIsTheSlots | src/simple_utilpp/private/SimpleValueStorage.cpp:71-150 | When no call is under way the live buffers are exactly those in the two slots: nothing has leaked |
| Mailbox.EveryRunWithOneReader | src/simple_utilpp/private/SimpleValueStorage.cpp:100-120 | With one reading thread both delegate arguments are live during the call, and successful reads never go back to an older version |
| Mailbox.TwoReadersBreakBoth | src/simple_utilpp/private/SimpleValueStorage.cpp:100-120 | With any two distinct readers there is a run in which a delegate argument is destroyed during the call, and one in which a read returns an older version than the read before |
| Mailbox.SafeReadingIffOneReader | src/simple_utilpp/private/SimpleValueStorage.cpp:100-148 | The delegate's arguments stay live in every run, and reads never go back in every run, each if and only if at most one thread reads |
| Mailbox.EveryRunKeepsNewest | src/simple_utilpp/private/SimpleValueStorage.cpp:122-148 | In every run the newest write is in the latest slot, or in the ticker's hands before it is installed or put back, or is what the delegate was told of last: putting back and discarding never lose it |
| MailboxCalls.SetValueAlone | src/simple_utilpp/private/SimpleValueStorage.cpp:71-98 | An undisturbed SetValue(v), whatever waits in the slot: it returns, v is the newest write and waits in the latest slot, the buffer that waited there is destroyed, and nothing else changes |
| MailboxCalls.SetValueEnds | src/simple_utilpp/private/SimpleValueStorage.cpp:88-98 | From wherever SetValue stands before its exchange, and whatever the slot holds by now, it publishes its own value once it is left alone |
| MailboxCalls.SetValueRetries | src/simple_utilpp/private/SimpleValueStorage.cpp:91-93 | A weak exchange that fails for no reason only costs SetValue another attempt |
| MailboxCalls.SetValueDestroys | src/simple_utilpp/private/SimpleValueStorage.cpp:94-96 | After its exchange SetValue destroys exactly the buffer it replaced and returns |
| MailboxCalls.GetValueAlone | src/simple_utilpp/private/SimpleValueStorage.cpp:100-120 | An undisturbed GetValue copies what the value slot holds, puts it back and changes nothing else; with an empty slot it changes nothing |
| MailboxCalls.GetValueEnds | src/simple_utilpp/private/SimpleValueStorage.cpp:107-120 | From its exchange on GetValue copies and puts back the buffer it saw when that is still in the slot, and else gives up without effect |
| MailboxCalls.CopyEnds | src/simple_utilpp/private/SimpleValueStorage.cpp:114-118 | With its buffer in hand GetValue copies it and puts it back, or destroys it when the slot is taken |
| MailboxCalls.GetDestroyEnds | src/simple_utilpp/private/SimpleValueStorage.cpp:117-119 | When the slot was taken GetValue destroys exactly its own buffer and returns |
| MailboxCalls.GetValueGivesUp | src/simple_utilpp/private/SimpleValueStorage.cpp:111-113 | A weak exchange that fails for no reason makes GetValue give up without effect |
| MailboxCalls.TickAloneMoves | src/simple_utilpp/private/SimpleValueStorage.cpp:122-150 | An undisturbed Tick, whatever the value slot holds: the pending buffer moves to the value slot, the delegate is told of it, the buffer it replaces is destroyed, and nothing else changes; without a pending buffer nothing changes |
| MailboxCalls.InstallEnds | src/simple_utilpp/private/SimpleValueStorage.cpp:139-148 | With the newest buffer in hand Tick installs it when the value slot is as it was seen, and else puts it back or discards it for a newer one |
| MailboxCalls.TickGivesUp | src/simple_utilpp/private/SimpleValueStorage.cpp:136-144 | A weak exchange that fails for no reason ends the tick without effect, or puts the buffer in hand back |
| MailboxCalls.NewestCanBeDelivered | src/simple_utilpp/private/SimpleValueStorage.cpp:122-150 | At every moment of every run, steps of the ticker alone suffice for the delegate to be told of the newest write |
| Mailbox.OwnedStep | src/simple_utilpp/private/SimpleValueStorage.cpp:71-150 | Every atomic step of any thread, weak exchanges failing at will, keeps one owner per buffer |
| Mailbox.FreshStep | src/simple_utilpp/private/SimpleValueStorage.cpp:88-148 | Every step keeps the versions in the slots and in the calls ordered as freshness needs |
| Mailbox.OneReaderStep | src/simple_utilpp/private/SimpleValueStorage.cpp:107-148 | Every step keeps the stronger ordering that holds while one thread reads |
| Mailbox.EffectKeepsBijection | src/simple_utilpp/private/SimpleValueStorage.cpp:90-147 | Allocating, swapping, dropping and destroying keep the owners in one-to-one correspondence with the live buffers |
| Chunks.RangesTile | src/net_util/private/Downloader/DownloaderImpl.cpp:1054-1060 | Each byte of a file lies in exactly one chunk's range and no range is empty |
| Chunks.ChunkSizeIffChunk | src/net_util/private/Downloader/DownloaderImpl.cpp:411-417 | The size computed from the file size alone agrees with the range exactly for the chunks the file has and, for sizes that are multiples of the chunk size, one past the last |
| Chunks.TakesSetAPrefix | src/net_util/private/Downloader/DownloaderImpl.cpp:246-308 | Without reverts the flags set are always the first ones, as many as chunks were taken |
| Chunks.TailDecidesWithoutRevert | src/net_util/private/Downloader/DownloaderImpl.cpp:318-327 | On every run without reverts the last-byte test says whether all chunks are flagged |
| Chunks.TailDecidesIffOneByte | src/net_util/private/Downloader/DownloaderImpl.cpp:310-327 | With reverts the last-byte test is exact in every run if and only if the file has at most eight chunks |
| Chunks.ChunkFlags.constructor | src/net_util/private/Downloader/DownloaderImpl.cpp:246-269 | A file starts with no chunk flagged and none complete |
| Chunks.ChunkFlags.GetNotDownloadFilechunk | src/net_util/private/Downloader/DownloaderImpl.cpp:271-308 | Flags and returns the least clear chunk; none when and only when all are flagged; the other bitmap and all padding stay |
| Chunks.ChunkFlags.RevertDownloadFilechunk | src/net_util/private/Downloader/DownloaderImpl.cpp:310-316 | Clears exactly the given chunk's flag |
| Chunks.ChunkFlags.IsAllChunkInDownload | src/net_util/private/Downloader/DownloaderImpl.cpp:318-327 | True exactly when the chunks of the last flag byte are flagged |
| Chunks.ChunkFlags.CompleteChunk | src/net_util/private/Downloader/DownloaderImpl.cpp:400-409 | Sets exactly the chunk's completion bit and counts its size |
| DownloadBuffers.DownloadBuf.InsertInBuf | src/net_util/private/Downloader/DownloaderImpl.cpp:470-499 | Places the chunk at the first gap that holds it, or refuses and changes nothing |
| DownloadBuffers.DownloadBuf.RemoveChunk | src/net_util/private/Downloader/DownloaderImpl.cpp:501-511 | Removes the named chunk and keeps the others in order |
| DownloadBuffers.InsertTakesLowestPlace | src/net_util/private/Downloader/DownloaderImpl.cpp:482-497 | The place taken is free and no lower free place exists |
| DownloadBuffers.FitsIffSomePlaceFree | src/net_util/private/Downloader/DownloaderImpl.cpp:482-498 | Insertion is refused if and only if no free place of that size exists |
| DownloadBuffers.EveryRunPacked | src/net_util/private/Downloader/DownloaderImpl.cpp:470-511 | Over every run of insertions and removals the regions stay in address order, disjoint and inside the buffer |
| Downloads.StepKeepsInv | src/net_util/private/Downloader/DownloaderImpl.cpp:940-1052 | Every step of the main, network and I/O threads keeps the downloader's invariant |
| Downloads.EveryRunKeepsInv | src/net_util/private/Downloader/DownloaderImpl.cpp:618-651 | The invariant holds at every moment of every run, for any number of files, orders, failures and retries |
| Downloads.FinishedFileIsRemote | src/net_util/private/Downloader/DownloaderImpl.cpp:940-1052 | End to end: a file that was declared finished holds exactly the remote bytes |
| DownloadFates.CanFinishIff | src/net_util/private/Downloader/DownloaderImpl.cpp:940-1052 | At every moment of every run, whatever other files are under way and however the buffers are filled, some events can follow that finish a file if and only if its remote file is not empty, no chunk of it is stranded by a failed write, and it is not stuck: last flag byte full, what the buffers hold of that byte's chunks fully arrived, and a chunk unflagged or with a response that can only be rejected |
| DownloadFates.DoomedForever | src/net_util/private/Downloader/DownloaderImpl.cpp:940-1052 | A file that is stranded or stuck stays so, unfinished, whatever follows |
| DownloadFates.StuckStep | src/net_util/private/Downloader/DownloaderImpl.cpp:949-998 | Every step of any thread keeps a stuck file stuck |
| DownloadProgress.CanFinish | src/net_util/private/Downloader/DownloaderImpl.cpp:618-651 | From every state of a run in which the file has lost no chunk and is not stuck, running requests of all files can settle, all buffers can be written and come back, and the rest of the file can be fetched |
| DownloadProgress.SettleAll | src/net_util/private/Downloader/DownloaderImpl.cpp:980-1003 | All running requests of all files can end; of a file exactly the chunks are given back for which what the response delivered does not start the range |
| DownloadProgress.Drain | src/net_util/private/Downloader/DownloaderImpl.cpp:1026-1052 | Once no request runs, all buffers can be written and come back empty, and no file's flags change |
| DownloadProgress.SoundStep | src/net_util/private/Downloader/DownloaderImpl.cpp:940-1052 | Every step also keeps that a request still running for a chunk already written has received exactly its range |
| DownloadFates.EveryFileCanFinish | src/net_util/private/Downloader/DownloaderImpl.cpp:940-1052 | The guarantee is about every file: each non-empty remote file of any list has a run that finishes it with the remote bytes |
| DownloadFates.EveryLongFileCanStall | src/net_util/private/Downloader/DownloaderImpl.cpp:949-998 | Every remote file of more than eight chunks has a run after which it is stalled, and stays stalled whatever follows |
| DownloadFates.StalledForGoodIff | src/net_util/private/Downloader/DownloaderImpl.cpp:949-998 | At every moment of every run a stalled file stays stalled whatever follows if and only if no buffer holds a chunk of the last flag byte that is still to arrive |
| DownloadFates.NoRequestNoneToArrive | src/net_util/private/Downloader/DownloaderImpl.cpp:949-998 | In particular when no request for a chunk of the last flag byte is running |
| DownloadLoops.StartsIffTailOpen | src/net_util/private/Downloader/DownloaderImpl.cpp:949-967 | A pass of the loop over an unfinished file starts a chunk if and only if a chunk of the last flag byte is unflagged, fewer than three requests run, and some buffer of the pool has a free place for the least unflagged chunk |
| DownloadLoops.StartsLeastInFirst | src/net_util/private/Downloader/DownloaderImpl.cpp:956-967 | What it starts is the least unflagged chunk, in the first buffer of the pool that has a place for it, and nothing else changes |
| DownloadLoops.FirstRoomIs | src/net_util/private/Downloader/DownloaderImpl.cpp:654-662 | The buffer chosen is the first of the pool with a free place of the chunk's size, and there is none exactly when no buffer has one |
| DownloadLoops.LoopFinishesIff | src/net_util/private/Downloader/DownloaderImpl.cpp:946-948 | A pass declares a file finished if and only if all its chunks are complete, and then does nothing else |
| DownloadLoops.EveryRunFewRequests | src/net_util/private/Downloader/DownloaderImpl.cpp:953-955 | In every run at most three requests of a file run at a time |
| DownloadRuns.StallStepIff | src/net_util/private/Downloader/DownloaderImpl.cpp:949-998 | A step gets a stalled file going again if and only if it rejects a response for a chunk of the last flag byte |
| DownloadRuns.StalledUntilRejection | src/net_util/private/Downloader/DownloaderImpl.cpp:949-998 | In every run a stalled file stays stalled and unfinished exactly up to the first such rejection |
| DownloadRuns.StrandedIffWriteFailed | src/net_util/private/Downloader/DownloaderImpl.cpp:1036-1048 | In every run a chunk is flagged, incomplete and in no buffer if and only if a write of it has failed before, and then its file is not finished |
| DownloadRuns.StrandedForever | src/net_util/private/Downloader/DownloaderImpl.cpp:1036-1048 | Such a chunk stays flagged, incomplete and in no buffer, and its file is never finished |
| Downloads.ChunkLifecycle | src/net_util/private/Downloader/DownloaderImpl.cpp:271-316 | In every run each chunk is exactly one of unflagged, held by exactly one buffer, complete, or lost to a failed write, and the counter is the sum of the complete chunks |
| Downloads.FullIffAllDone | src/net_util/private/Downloader/DownloaderImpl.cpp:450-459 | The counter equals the file size exactly when all chunks are complete |
| Downloads.BuffersConserved | src/net_util/private/Downloader/DownloaderImpl.cpp:618-651 | The four buffers are always spread over the pool and the two queues, each in exactly one place |
| Downloads.AppendExtendsPrefix | src/net_util/private/HTTP/CurlHttpRequest.cpp:525-538 | Received bytes extend the prefix already in a chunk's region and touch nothing outside it |
| Downloads.AcceptKeepsInv | src/net_util/private/Downloader/DownloaderImpl.cpp:999-1003 | A response of exactly the chunk's size leaves its region holding exactly the remote range |
| Downloads.RejectKeepsInv | src/net_util/private/Downloader/DownloaderImpl.cpp:983-998 | A failed or short response gives the chunk back: flag cleared, region freed, nothing else changed |
| Downloads.WriteRange | src/net_util/private/Downloader/DownloaderImpl.cpp:376-396 | Writing a chunk's region at its range makes that range right and leaves every other chunk's range alone |
| Downloads.SaveKeepsInv | src/net_util/private/Downloader/DownloaderImpl.cpp:1026-1052 | A chunk that is written becomes complete with the remote bytes in its range; one whose write fails spoils no other range |
| DownloadThreads.Downloader.TransferBuf | src/net_util/private/Downloader/DownloaderImpl.cpp:618-651 | Does a sequence of possible transfer and recycle steps, after which no pool buffer is full and nothing waits to be recycled |
| DownloadThreads.Downloader.TickIO | src/net_util/private/Downloader/DownloaderImpl.cpp:1026-1052 | Does a sequence of possible save and release steps, after which every waiting buffer has been handed back in order; in every state of a run the k-th waiting chunk is complete with its region's bytes in its range if and only if the k-th write was answered as written, and else lost, and no other chunk changes |
| DownloadWrites.WritesOutcome | src/net_util/private/Downloader/DownloaderImpl.cpp:1036-1043 | Each of a sequence of writes has its own outcome and keeps it: complete with its bytes in its range when it was answered as written, lost otherwise |
| DownloadWrites.OthersUntouched | src/net_util/private/Downloader/DownloaderImpl.cpp:1036-1043 | The writes touch no chunk and no byte outside their own ranges |
| DownloadWrites.NothingMoreLost | src/net_util/private/Downloader/DownloaderImpl.cpp:1036-1043 | When every write succeeds, no file loses a chunk |
| Downloads.FollowKeepsInv | src/net_util/private/Downloader/DownloaderImpl.cpp:618-651 | Whatever sequence of possible steps a loop does keeps the downloader's invariant |
| DownloadThreads.InvIsWellFormed | src/net_util/private/Downloader/DownloaderImpl.cpp:1026-1052 | The invariant supplies everything the loops need to be safe |
| Framing.PacketStable | src/ipc_util/private/RPC/message_processer.cpp:70-170 | A complete or erroneous first packet stays the same on every extension of the input |
| Framing.StreamSplits | src/ipc_util/private/RPC/message_processer.cpp:120-170 | A pass over a longer input gives what the pass over its start gave and goes on with the bytes left over; an error is final |
| Framing.ResidueIsIncomplete | src/ipc_util/private/RPC/message_processer.cpp:158-169 | What an error-free pass leaves over holds neither a complete packet nor an error |
| Framing.BuildParses | src/ipc_util/private/RPC/message_processer.cpp:277-303 | Round trip for every body, whatever follows: reading gives back body, length, channel and index exactly when index and length are below 2^31, and throws otherwise |
| PacketGrammar.PacketIff | src/ipc_util/private/RPC/message_processer.cpp:120-167 | A packet is read from the front of a text if and only if there stand V1.0, a line end, well-formed header lines, an empty line and as many bytes as the last Length says, and its fields are the last values given, narrowed to their widths |
| PacketGrammar.WrongIff | src/ipc_util/private/RPC/message_processer.cpp:90-113 | Reading is a parse error if and only if the first four or six bytes are there and wrong, or after good lines a line ends without a colon |
| PacketGrammar.UnreadableIff | src/ipc_util/private/RPC/message_processer.cpp:142-153 | Reading throws if and only if after good lines a known key has a value that is not an int |
| PacketGrammar.StreamIs | src/ipc_util/private/RPC/message_processer.cpp:120-170 | A pass takes the texts of as many packets as stand at the front, and ends in the error of what is left |
| PacketGrammar.ReadFailsIff | src/ipc_util/private/RPC/message_processer.cpp:249-256 | A read ends in a parse error if and only if the bytes kept and the new ones go wrong after some whole packets, and in an exception if and only if they go unreadable |
| PacketGrammar.EveryCutFailsIff | src/ipc_util/private/RPC/message_processer.cpp:249-256 | For every cut that meets no channel beyond the queues, the last read ends in a parse error, or an exception, if and only if the whole stream does so by this grammar |
| PacketGrammar.UnknownLineSkipped | src/ipc_util/private/RPC/message_processer.cpp:137-140 | A well-formed line with an unknown key, anywhere among the header lines, changes neither the packet nor what follows |
| PacketGrammar.FindIff | src/ipc_util/private/RPC/message_processer.cpp:102-108 | The bounded strstr finds exactly the first occurrence that no NUL precedes |
| Decimals.ReadIntAt | src/ipc_util/private/RPC/message_processer.cpp:142-153 | stoi on white space, at most one sign and digits gives their number when it fits an int, and is out of range otherwise |
| Decimals.ReadIntNone | src/ipc_util/private/RPC/message_processer.cpp:142-153 | Without such digits stoi throws an invalid argument |
| Decimals.ReadDec | src/ipc_util/private/RPC/message_processer.cpp:142-153 | Printing an unsigned number and reading it with stoi gives it back exactly when it fits an int, and throws otherwise |
| Sessions.EveryCutReads | src/ipc_util/private/RPC/message_processer.cpp:249-261 | For every way of cutting a stream into reads: an error-free stream gives the same packets and the same bytes left over; an error-free stream that names a channel beyond the queues is undefined behaviour in every cut; an erroneous stream ends in its own error with a prefix of its packets queued, unless it names such a channel and the cut made that undefined behaviour first |
| Sessions.UndefinedIff | src/ipc_util/private/RPC/message_processer.cpp:258-261 | For any stream, erroneous ones included, and any cut: reading is undefined behaviour if and only if at the end of some read the bytes so far are free of errors and name a channel beyond the queues |
| Sessions.CutsAreIndependent | src/ipc_util/private/RPC/message_processer.cpp:249-269 | Two cuts of one error-free stream agree on the packets, the bytes left over and what each channel delivers |
| Sessions.EveryCutDelivers | src/ipc_util/private/RPC/message_processer.cpp:258-268 | Every queued packet is delivered exactly once and each channel keeps stream order |
| Sessions.DeliveryKeepsOrder | src/ipc_util/private/RPC/message_processer.cpp:263-268 | Delivering channel by channel permutes the packets of a read and keeps the order on each channel |
| Sessions.WireParses | src/ipc_util/private/RPC/message_processer.cpp:277-295 | The concatenated packets of any sends are read back entirely when every index and length is below 2^31, and otherwise reading ends in an exception |
| Sessions.EverySessionInOrder | src/ipc_util/private/RPC/message_processer.cpp:249-303 | For any sends within 2^31 per channel and per body and any cut, every channel delivers exactly the bodies sent on it, in order, with indexes 0, 1, 2, ..., and no byte is left over |
| Sessions.EverySessionBeyondLimitsThrows | src/ipc_util/private/RPC/message_processer.cpp:142-153 | A whole session is read without error if and only if all indexes and lengths are below 2^31; otherwise its last read reports an exception |
| Sessions.OrderBetweenChannelsDependsOnCuts | src/ipc_util/private/RPC/message_processer.cpp:263-268 | A send on a higher channel followed by one on a lower channel is delivered in either order, depending on the cut |
| MessageProcessers.MessageProcesser.TryConsume | src/ipc_util/private/RPC/message_processer.cpp:70-170 | The cursor loop computes exactly the pass over the buffer |
| MessageProcessers.MessageProcesser.OnRead | src/ipc_util/private/RPC/message_processer.cpp:249-270 | One read takes the receiver from its state to the next, disconnects exactly on a parse error, and leaves the queues empty |
| MessageProcessers.MessageProcesser.Enqueue | src/ipc_util/private/RPC/message_processer.cpp:258-261 | Sorts the packets into their channels' queues in order, or meets a channel that has no queue |
| MessageProcessers.MessageProcesser.Deliver | src/ipc_util/private/RPC/message_processer.cpp:263-268 | Hands out the queues one after the other and empties them |
| MessageProcessers.MessageProcesser.BuildPacket | src/ipc_util/private/RPC/message_processer.cpp:277-295 | Writes the packet with the channel's counter and advances only that counter, modulo 2^32 |
| MessageProcessers.MessageProcesser.AddHeader | src/ipc_util/private/RPC/message_processer.cpp:297-303 | Appends one header line |
| MessageProcessers.Cursor.TryConsumeString | src/ipc_util/private/RPC/message_processer.cpp:79-89 | Moves past the string exactly when the remaining bytes start with it |
| MessageProcessers.Cursor.ConsumeString | src/ipc_util/private/RPC/message_processer.cpp:90-101 | As above, and enough bytes without a match are a parse error |
| MessageProcessers.Cursor.FindKeyValue | src/ipc_util/private/RPC/message_processer.cpp:102-118 | Takes the next header line, or tells a missing line end from a malformed line |
| MessageProcessers.Cursor.ConsumeHeaders | src/ipc_util/private/RPC/message_processer.cpp:129-157 | Reads lines up to the empty one, keeping the fields of known headers |
| MessageProcessers.Cursor.ConsumePacket | src/ipc_util/private/RPC/message_processer.cpp:120-167 | Reads one packet and moves past it exactly when it is complete |
| Calendar.PosixInverseIff | src/simple_util/private/simple_time.c:3-37 | The Seconds Since the Epoch formula of section 4.16 of POSIX.1-2017 gives ts back if and only if ts lies before the first year that does not fit tm_year |
| Calendar.FieldsAreDate | src/simple_util/private/simple_time.c:5-35 | Month, day, day of the year and weekday are those of the Gregorian calendar counted year by year and month by month, and the time of day is the rest, for every 64-bit ts; only the year is narrowed |
| Calendar.EveryDateIsReached | src/simple_util/private/simple_time.c:3-37 | Every valid date and time of day up to the last representable year is the result for the timestamp it makes up |
| Calendar.YearAndDay | src/simple_util/private/simple_time.c:11-14 | Year of the era and day of the year are exact, and every 32-bit intermediate result on the way is in range |
| Calendar.MonthOfDay | src/simple_util/private/simple_time.c:15-17 | Month and day are exact and every 32-bit intermediate result is in range, but the month sum exactly for January and February |
| Calendar.DateUnique | src/simple_util/private/simple_time.c:5-34 | A day has exactly one date |
| Calendar.YearBefore | src/simple_util/private/simple_time.c:18-27 | The year lies before a bound exactly when the day lies before the bound's first day |
| RollingAdler.RollFollowsIff | src/simple_hash/private/simple_adler32.cpp:21-46 | A roll keeps the closed form, with the constant of the first sum added once more to the second, if and only if the 32-bit product of window size and outgoing byte does not wrap |
| RollingAdler.RollFollows | src/simple_hash/private/simple_adler32.cpp:21-46 | In any case a roll keeps the closed form with 2^32 more in the second sum for each wrap of the product |
| RollingAdler.EveryRollFollows | src/simple_hash/private/simple_adler32.cpp:21-46 | Closed form after any number of rolls over any stream, for windows of any 32-bit length, wraps included |
| RollingAdler.ShortNeverWraps | src/simple_hash/private/simple_adler32.cpp:35 | Windows of fewer than 2^32 / 255 bytes never wrap |
| RollingAdler.InitFollows | src/simple_hash/private/simple_adler32.cpp:9-19 | Init's remainder of the whole checksum adds fifteen times the second sum to the first |
| RollingAdler.GetIsChecksumIff | src/simple_hash/private/simple_adler32.cpp:9-46 | From Reset, for windows of any length, the value read after k rolls is the window's Adler-32 of section 2.2 of RFC 1950 if and only if the first window's second sum is zero and k plus 225 for each wrap is a multiple of 65521 |
| RollingAdler.RolledIsFreshIff | src/simple_hash/private/simple_adler32.cpp:9-46 | Rolling agrees with a fresh Init of the same window if and only if both windows have the same second sum, and the added constants and the wraps cancel |
| RollingAdler.AdlerClosed | src/simple_hash/private/simple_adler32.cpp:13 | Adler-32 in closed form: plain and weighted sums |
| RollingAdler.RollingAdler32.Init | src/simple_hash/private/simple_adler32.cpp:9-19 | Starts from the current first sum and leaves both sums below 65521 |
| RollingAdler.RollingAdler32.Roll | src/simple_hash/private/simple_adler32.cpp:21-46 | The conditional subtractions give the remainders, and both sums stay below 65521 |
| RollingAdler.RollingAdler32.Get | src/simple_hash/public/simple_adler32.h:22-24 | Packs the two sums into 32 bits |
| Crc32.ConstCrcIsReference | src/simple_utilpp_header/public/constant_hash.h:55-81 | For all strings, whether char is signed or not, the table-driven function is the bit-at-a-time CRC of section 8 of RFC 1952 |
| Crc32.TableHolds | src/simple_utilpp_header/public/constant_hash.h:8-52 | Each of the 256 table entries is eight division steps of its index |
| Crc32.TableStepsAreBytes | src/simple_utilpp_header/public/constant_hash.h:55-57 | One table step takes the low byte through eight division steps, whether char is signed or not |
| Crc32.FourByteBurstsAreSeen | src/simple_utilpp_header/public/constant_hash.h:55-76 | Two strings of one length that differ, but only within four consecutive bytes, never have the same value |
| Crc32.FiveBytesCanCollide | src/simple_utilpp_header/public/constant_hash.h:74-76 | Differences over five bytes can collide |
| Crc32.ShiftIsInjective | src/simple_utilpp_header/public/constant_hash.h:55-57 | A division step loses nothing: running values that differ stay different |
| Requests.HttpRequest.SetRange | src/net_util/private/HTTP/CurlHttpRequest.cpp:284-319 | The erase-and-insert loop gives the canonical insertion, ignores empty ranges and terminates |
| Requests.EveryRunExactUnion | src/net_util/private/HTTP/CurlHttpRequest.cpp:284-319 | After every sequence of calls the list is sorted and disjoint and holds exactly the integers of the valid ranges given |
| Requests.CallOrderIrrelevant | src/net_util/private/HTTP/CurlHttpRequest.cpp:284-319 | Runs that give the same ranges, in any order and number, end with the same list |
| Intervals.InsertCoverage | src/net_util/private/HTTP/CurlHttpRequest.cpp:290-318 | Insertion covers exactly what was covered and the new range |
| Intervals.CanonicalUnique | src/net_util/private/HTTP/CurlHttpRequest.cpp:290-318 | A union of ranges has one canonical list |
| ResponseBodies.HttpResponse.ContentAppend | src/net_util/private/HTTP/CurlHttpRequest.cpp:525-538 | Copies what still fits of the user's buffer and counts everything; without a buffer appends to the content |
| ResponseBodies.ReceiveInto | src/net_util/private/HTTP/CurlHttpRequest.cpp:519-538 | A response that is given a buffer and then a body in any pieces leaves the body's first bytes in the buffer's region, the rest of the buffer as it was, and keeps none itself |
| ResponseBodies.AnyPiecesSameBuffer | src/net_util/private/HTTP/CurlHttpRequest.cpp:525-538 | However a body is cut into pieces, its first bytes fill the region and nothing outside changes |
| FileBacked.FileBackedBuffer.TickIO | src/simple_utilpp/private/FileBackedBuffer.cpp:195-235 | Afterwards file and memory agree everywhere, the ranges flushed are the canonical union of those queued, and no clean byte of the file changes |
| FileBacked.FileBackedBuffer.WriteData | src/simple_utilpp/private/FileBackedBuffer.cpp:75-78 | Writes the bytes and queues their range, so that file and memory agree outside the queued ranges |
| FileBacked.FileBackedBuffer.UpdateDirtyRange | src/simple_utilpp/private/FileBackedBuffer.cpp:80-82 | Queuing the range of the bytes just written restores that memory and file agree outside the queued ranges |
| FileBacked.FileBackedBuffer.Drain | src/simple_utilpp/private/FileBackedBuffer.cpp:197-204 | Batches of ten move the whole queue |
| FlushRuns.EveryRunAccounts | src/simple_utilpp/private/FileBackedBuffer.cpp:75-82 | Whatever the interleaving of writers storing byte by byte, the tick and the system's own write-back, every byte on which memory and file differ is in a write under way, a queued range or a range the tick has taken |
| FlushRuns.QuietMeansEqual | src/simple_utilpp/private/FileBackedBuffer.cpp:195-235 | In every run, whenever no write is under way and nothing is queued or being flushed, memory and file agree everywhere |
| FlushRuns.TickCatchesUp | src/simple_utilpp/private/FileBackedBuffer.cpp:195-235 | At every moment of every run, steps of the tick alone suffice to leave nothing queued or taken; with no write under way memory and file are then equal |
| FlushRuns.StepKeeps | src/simple_utilpp/private/FileBackedBuffer.cpp:195-235 | Every single step, draining and flushing beside writers included, keeps that account |
| FileBacked.Coalesce | src/simple_utilpp/private/FileBackedBuffer.cpp:216-225 | The in-place pass with two indexes computes the merge of the sorted ranges |
| FileBacked.MergedSortedIsInsertAll | src/simple_utilpp/private/FileBackedBuffer.cpp:209-225 | Sorting and merging gives the canonical union, whatever the order of the queue and however the sort breaks ties |
| FileBacked.EachDirtyByteOnce | src/simple_utilpp/private/FileBackedBuffer.cpp:216-232 | Every dirty byte lies in exactly one flushed range and no clean byte in any; flushed ranges are strictly apart |
| Arena.TakeGoodIff | src/memory_pool/private/ArenaMemoryPool.cpp:5-31 | For a request of any 64-bit size, all blocks stay aligned, inside their regions and pairwise disjoint if and only if no block is handed out although the rounding, or the sum on the path taken, wrapped |
| Arena.EveryRunGoodIff | src/memory_pool/private/ArenaMemoryPool.cpp:5-46 | Over every run of requests of any size between and across Clears the guarantee holds at every moment if and only if no request of the run overruns |
| ArenaPlaces.MallocPlaces | src/memory_pool/private/ArenaMemoryPool.cpp:5-31 | Where a block goes for every request that wraps no sum: behind the last block of the scratch buffer while that is in use and has room, else behind the last block of the newest chunk when that has room, else to the start of a new chunk of the usual or the needed size; nowhere only when the system has no memory |
| ArenaPlaces.NeedIsLeast | src/memory_pool/private/ArenaMemoryPool.cpp:8 | A block takes the least multiple of eight that holds its size |
| ArenaPlaces.EveryRunDense | src/memory_pool/private/ArenaMemoryPool.cpp:5-46 | Over every run of such requests, between and across Clears, each block starts where the earlier blocks of its region end, sizes rounded up to multiples of eight |
| ArenaPlaces.ClearForgets | src/memory_pool/private/ArenaMemoryPool.cpp:33-46 | After a Clear every run goes as in a new arena |
| Arena.OverrunLeavesRegion | src/memory_pool/private/ArenaMemoryPool.cpp:8-29 | A block handed out although a sum wrapped reaches beyond its region |
| Arena.WrappedRequestOverlaps | src/memory_pool/private/ArenaMemoryPool.cpp:10-14 | Requests of 16, 2^64 - 16 and 8 bytes make the third block overlap the first |
| Arena.SmallNeverOverruns | src/memory_pool/private/ArenaMemoryPool.cpp:5-31 | Requests up to about half the address space never overrun |
| Arena.ArenaMemoryPool.Malloc | src/memory_pool/private/ArenaMemoryPool.cpp:5-31 | The method takes exactly the step described, for every 64-bit size, and leaves the contents of all blocks alone |
| Arena.ArenaMemoryPool.Realloc | src/memory_pool/public/ArenaMemoryPool.h:23-31 | Takes the step Malloc takes; unless it overruns, the new block starts with the old one's first bytes and no block handed out before changes |
| Arena.ArenaMemoryPool.AddChunk | src/memory_pool/private/ArenaMemoryPool.cpp:17-26 | A new chunk, with the memory the system was asked for less the link, joins the list |
| Arena.ArenaMemoryPool.Clear | src/memory_pool/private/ArenaMemoryPool.cpp:33-46 | Every chunk is given back exactly once and the arena is as new |
| Arena.RoundedEnoughIff | src/memory_pool/private/ArenaMemoryPool.cpp:8 | Rounding to eight reserves enough bytes if and only if it does not wrap |
| Arena.PushApart | src/memory_pool/private/ArenaMemoryPool.cpp:10-30 | A block placed behind all others of its region is apart from all blocks |
| BitVectors.BitVector.Test | src/simple_utilpp_header/public/bit_vector.h:40-42 | The bit at a position; padding reads as clear |
| BitVectors.BitVector.Set | src/simple_utilpp_header/public/bit_vector.h:47-49 | Sets exactly one bit; the padding stays clear if and only if the position is inside the vector |
| BitVectors.BitVector.Reset | src/simple_utilpp_header/public/bit_vector.h:52-54 | Clears exactly one bit; a position in the padding changes nothing |
| BitVectors.BitVector.Flip | src/simple_utilpp_header/public/bit_vector.h:57-59 | Inverts exactly one bit; the padding stays clear if and only if the position is inside the vector |
| BitVectors.OneBitChanged | src/simple_utilpp_header/public/bit_vector.h:47-59 | Giving one bit a value keeps the padding clear exactly when the position is inside the vector or the value is clear |
| BitVectors.BitVector.SetBits | src/simple_utilpp_header/public/bit_vector.h:82-97 | The field holds the lowest bits of the value and every other bit stays |
| BitVectors.BitVector.GetBits | src/simple_utilpp_header/public/bit_vector.h:99-113 | The number the field's bits make |
| BitVectors.BitVector.ClearBits | src/simple_utilpp_header/public/bit_vector.h:116-124 | Clears exactly the field |
| BitVectors.BitVector.Count | src/simple_utilpp_header/public/bit_vector.h:134-145 | The number of set bits |
| BitVectors.BitVector.None | src/simple_utilpp_header/public/bit_vector.h:148-153 | Whether no bit is set |
| BitVectors.BitVector.All | src/simple_utilpp_header/public/bit_vector.h:156-163 | Whether all bits are set |
| BitVectors.BitVector.FindFirst | src/simple_utilpp_header/public/bit_vector.h:173-180 | The first set bit, or the size |
| BitVectors.BitVector.FindFirstZero | src/simple_utilpp_header/public/bit_vector.h:183-196 | The first clear bit, or the size |
| BitVectors.BitVector.FindNext | src/simple_utilpp_header/public/bit_vector.h:199-218 | The first set bit from a position on, or the size |
| BitVectors.BitVector.SetBatch | src/simple_utilpp_header/public/bit_vector.h:223-242 | For all 64-bit arguments: the byte-at-a-time path sets exactly the bits a loop over single bits would, if and only if its wrapping guard does not let a byte beyond the array in |
| BitVectors.BitVector.ClearBatch | src/simple_utilpp_header/public/bit_vector.h:245-261 | The same for clearing |
| BitVectors.OverrunMeansNothing | src/simple_utilpp_header/public/bit_vector.h:223-242 | Whenever the guard wraps like that, the loop over single bits would have changed nothing |
| BitVectors.EmptyBatchOverruns | src/simple_utilpp_header/public/bit_vector.h:233 | The empty batch at position 2^64 - 8 overruns a vector of 64 bits |
| BitVectors.BitVector.SetAll | src/simple_utilpp_header/public/bit_vector.h:62-68 | All bits set, padding clear |
| BitVectors.BitVector.ClearAll | src/simple_utilpp_header/public/bit_vector.h:71-73 | All bits clear |
| BitVectors.BitVector.And | src/simple_utilpp_header/public/bit_vector.h:298-304 | Bitwise conjunction, padding clear |
| BitVectors.BitVector.Or | src/simple_utilpp_header/public/bit_vector.h:306-312 | Bitwise disjunction, padding clear |
| BitVectors.BitVector.Xor | src/simple_utilpp_header/public/bit_vector.h:314-320 | Bitwise difference, padding clear |
| BitVectors.BitVector.Not | src/simple_utilpp_header/public/bit_vector.h:322-332 | Bitwise complement, padding clear |
| BitVectors.BitVector.Equals | src/simple_utilpp_header/public/bit_vector.h:336-341 | Byte equality is equality of the bits |
| BitVectors.NumberOfToBits | src/simple_utilpp_header/public/bit_vector.h:82-113 | Writing a value into n bits and reading it gives the value modulo 2^n |
| BitVectors.CountIgnoresPadding | src/simple_utilpp_header/public/bit_vector.h:134-145 | With clear padding the bits of all bytes count as the bits of the vector |
| SteamIds.SteamId.SetField | src/steam_util/public/SteamID.h:23-46 | Writing one field leaves the other three alone |
| SteamIds.SteamId.SetAccountID | src/steam_util/public/SteamID.h:23-25 | Replaces the account number, modulo 2^32 |
| SteamIds.SteamId.SetAccountInstance | src/steam_util/public/SteamID.h:29-31 | Replaces the instance, modulo 2^20 |
| SteamIds.SteamId.SetAccountUniverse | src/steam_util/public/SteamID.h:35-37 | Replaces the universe, modulo 2^8 |
| SteamIds.SteamId.SetAccountType | src/steam_util/public/SteamID.h:41-43 | Replaces the type, modulo 2^4 |
| SteamIds.SteamId.GetAccountID | src/steam_util/public/SteamID.h:26-28 | The account number, below 2^32 |
| SteamIds.SteamId.GetAccountInstance | src/steam_util/public/SteamID.h:32-34 | The instance, below 2^20 |
| SteamIds.SteamId.GetAccountUniverse | src/steam_util/public/SteamID.h:38-40 | The universe, below 2^8 |
| SteamIds.SteamId.GetAccountType | src/steam_util/public/SteamID.h:44-46 | The type, below 2^4 |
| SteamIds.SteamId.GetValue | src/steam_util/public/SteamID.h:74-76 | The weighted sum of the four fields |
| SteamIds.SteamId.SetValue | src/steam_util/public/SteamID.h:77-79 | Afterwards the weighted sum is the value |
| SteamIds.ValueIsWeightedSum | src/steam_util/public/SteamID.h:74-91 | The number of the 64 bits is the weighted sum of the fields |
| SteamIds.ValueDeterminesFields | src/steam_util/public/SteamID.h:74-79 | A value determines all bits, so setting and getting are inverse |
| SteamIds.DisjointField | src/steam_util/public/SteamID.h:84-91 | Writing one field leaves the bits of every disjoint field alone |
| CharBuffers.Run | src/simple_utilpp/private/CharBuffer.cpp:71-82 | Any Appends and Puts below 2^31 bytes in all give the concatenation, copy at most twice its length, lose no block, and keep the capacity within twice the length and a constant |
| CharBuffers.CharBuffer.Append | src/simple_utilpp/private/CharBuffer.cpp:71-82 | Adds the bytes at the end and keeps the amortised bounds |
| CharBuffers.CharBuffer.Put | src/simple_utilpp/private/CharBuffer.cpp:383-390 | Adds one byte and keeps the amortised bounds |
| CharBuffers.CharBuffer.Reserve | src/simple_utilpp/private/CharBuffer.cpp:391-407 | Keeps the contents, and copies them only when it grows |
| CharBuffers.CharBuffer.Resize | src/simple_utilpp/private/CharBuffer.cpp:409-431 | Growing keeps the contents and adds zeros; otherwise only zeros remain; a block is lost exactly when a buffer grows that is there but empty |
| CharBuffers.CharBuffer.Assign | src/simple_utilpp/private/CharBuffer.cpp:266-274 | The contents become the bytes given; a block is lost exactly when a buffer grows that is there but empty |
| CharBuffers.AssignRoomIff | src/simple_utilpp/private/CharBuffer.cpp:266-274 | The bytes of an Assign fit if and only if they fitted before or their number and the two spare bytes stay below 2^32 |
| CharBuffers.RoomIff | src/simple_utilpp/private/CharBuffer.cpp:76-79 | The bytes of an Append fit if and only if they fitted before or the size asked for survives the cut to 32 bits |
| CharBuffers.RoomDoubles | src/simple_utilpp/private/CharBuffer.cpp:76-79 | A buffer that grows doubles, from 128 bytes on, or grows to what is needed and two spare bytes |
| CharBuffers.RoomBelowLimit | src/simple_utilpp/public/CharBuffer.h:99-102 | Below 2^31 bytes no request is cut |
| CharBuffers.CutRequestLeavesNoRoom | src/simple_utilpp/private/CharBuffer.cpp:391-397 | Doubling a buffer of 2^31 bytes is cut to nothing |

## Left out

- Mailbox.EveryRunOwnedAndFresh: a failed allocation in SetValue is no step at all, so it is not mentioned; registering and removing handles while other calls are under way is not modelled.
- Downloads.FinishedFileIsRemote: covers files downloaded in chunks; downloads without a content length, recovery files and integrity sums are not modelled.
- Downloads.StepKeepsInv: the loop that starts requests is one event per iteration over values; only the buffer hand-over loops are also given as code.
- Downloads.ChunkLifecycle: a chunk whose write failed leaves its buffer's list at once, while the source clears the list when the buffer is recycled; nobody looks at the list in between.
- DownloadThreads.Downloader.TickIO: the queues are emptied one buffer at a time instead of in batches of four, which a single consumer cannot tell apart.
- Chunks.ChunkFlags.GetNotDownloadFilechunk: chunk numbers are unbounded integers, 32-bit in the source; files stay below 2^32 chunks.
- MessageProcessers.MessageProcesser.OnRead: a channel without a queue is an out-of-range access in the source; nothing is promised after it.
- MessageProcessers.MessageProcesser.TryConsume: reading past the end of the receive buffer, which an unbounded `strstr` may do, is outside the model.
- Framing.BuildParses: bytes are characters of a string; the signedness of char plays no role.
- RollingAdler.RollingAdler32.Roll: the outgoing byte is taken as given, as in the source; that it is the window's oldest is assumed by the lemmas.
- FileBacked.FileBackedBuffer.TickIO: one tick without writers beside it; FlushRuns.EveryRunAccounts covers writers.  The page alignment that `msync` asks for is not modelled.
- FileBacked.FileBackedBuffer.UpdateDirtyRange: needs a range that does not end before it begins, inside the map, and covering what was written, which every caller in the source guarantees.
- FileBacked.FileBackedBuffer.Drain: one tick without writers beside it; in FlushRuns.StepKeeps the queue grows while it is drained.
- Arena.ArenaMemoryPool.Realloc: nothing is said about copying to a block that overruns.
- BitVectors.BitVector.GetBits: bits are added rather than combined with a disjunction, which is the same for bits not yet set.
- BitVectors.BitVector.SetBatch: after the first write outside the array nothing more is said.
- Conversion of a bit vector to a standard bitset and its construction from a value.
- SteamIds.SteamId.SetValue: the validity test of an identifier is left out, a table of case distinctions.
- ResponseBodies.HttpResponse.ContentAppend: buffer lengths are not negative; headers and status lines are left out.
- CharBuffers.CharBuffer.Append: the bytes appended do not lie inside the buffer itself.
- The datagram branch of OnRead: it reads a table of policies that is never given a size.
- Networking, files, processes, databases, archives and JSON: what they answer enters the model as parameters of its steps.
- Login flow, application manifests, timers, handle counters, hex and URL helpers: separate components that nothing modelled here calls.
