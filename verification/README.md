# UniFlow, verified

UniFlow moves files over a lossy one-way channel. A file is cut into blocks of K data symbols,
M parity symbols are added to each, several sender processes share the work and put the symbols
on the wire, several receiver processes check and forward what arrives, and a session manager
rebuilds the blocks and the file. This project models that pipeline in Dafny and proves what it
keeps over every run.

## What is proved

* **End to end** (`Streams.dfy`, `EndToEnd.dfy`, `Corruption.dfy`). Senders that share a counter
  file divide a file and each sends its stream. If every block loses at most M symbols, and the
  rest arrives at least once, in any order, through any interleaving of any number of threads,
  beside any packets of other files, and the reconstruction helper is reached, the file is delivered
  exactly once and byte for byte. If some block loses more, it is never delivered. Bursts that
  span at most M times the width of each stride are such a loss; one packet more is not. The
  channel may also damage packets: that what is forwarded is genuine follows from the checksum.
* **Safety without those assumptions** (`Reassembly.dfy`, `Completion.dfy`, `HonestFile.dfy`,
  `Contributors.dfy`). Whatever is lost, repeated or reordered, and whatever arrives for other
  files, every delivery is the source file; a block is given up exactly when the helper could not
  be reached for it; while it is reached, a file is delivered exactly once if K distinct symbols of
  each of its blocks arrived and never otherwise; every block is in exactly one place in every
  reachable state; and a delivery is credited to exactly the receivers that reported a packet of
  one of its blocks in time.
* **Independence of files** (`NonInterference.dfy`). For any packets at all, honest or not, one
  file's pools, blocks and deliveries are those of a run with only that file's packets.
* **Sharing a file between senders** (`Claims.dfy`). Under every interleaving of file creation,
  zero-write, counts and I/O errors, in 32-bit arithmetic, claimed strides are disjoint and cover
  the file. The condition under which 32-bit arithmetic suffices is exact: beyond it some run
  claims block 0 twice. A task that is through, or met an error, never claims again.
* **Burst tolerance** (`Transmission.dfy`). A burst of up to M times the stride width leaves every
  block K symbols; every burst one packet longer inside a stride breaks some block.
* **The erasure code** (`ErasureCode.dfy`, `GF256.dfy`, `Interpolation.dfy`). The contract "any K
  of N symbols determine the data" is a predicate on an arbitrary library. It is met by
  interpolation over GF(2^8), proved to be a field, for every K and M with K + M at most 256.
* **The packet checksum** (`CyclicCode.dfy`, `Crc32.dfy`, `CheckValues.dfy`,
  `PacketChecksum.dfy`). The sender's and the receiver's computations agree; any change within 32
  consecutive bits, and any odd number of flipped bits, is detected; 32 is exact, since within any
  33 consecutive bits some change passes. It is CRC-32C: its check value is 0xE3069283, a leading
  zero byte always changes it, and a text followed by its checksum always sums to 0x48674BC7.
* **The scheduler** (`Scheduling.dfy`, `ScheduleSafety.dfy`). Whatever the senders report: no
  sender is listed twice, the files that senders are given are the arrived ones in arrival order
  with none skipped, a large file goes at most once to each sender and ends within a bounded
  number of observations; a sender's status is its last heartbeat; and which senders get a file is
  said outright.
* **A receiver process** (`Receiving.dfy`, `ReceiverSafety.dfy`, `ReceiverProgress.dfy`,
  `ReceiverProcess.dfy`). In every interleaving of its two loops every datagram is accounted for,
  the packets forwarded are the decodings of datagrams, in order and unchanged although their
  objects are reused, and damaged packets are never forwarded. The forwarder makes progress: a
  bounded number of turns empties the queue, and after closing stops it with everything flushed.
* **Framing** (`Framing.dfy`). However the stream is split into reads, exactly the messages sent
  are read back if and only if each is shorter than 2^32 bytes; a stream cut anywhere gives the
  messages complete by then.

Objects the program updates in place are classes (`Aggregator`, `FileTracker`, `CounterFile`,
`Orchestrator`, `Digest`, `Connection`, `Writer`, `Process`), each proved against the function or
the step machine that the run-level theorems are about. Threads and processes are interleaved as
sequences of atomic steps: what happens under a lock, or on data only one thread holds, is one
step.

Where the program and its documentation disagree the model follows the program: the checksum uses
the Castagnoli polynomial (`common/integrity/integrity.go:14`), not IEEE 802.3 (`README.md:95`),
and the senders share a locked counter file (`senders/internal/counter/counter.go:11`), not an
atomic counter in shared memory (`README.md:57`).

Dimensions are parameters (K, M, symbol size, stride), instantiated at 100, 50, 1344 and 8.
Times, tickers, sockets, the protobuf decoder and the reachability of other processes are
parameters or events that may happen at any point.

## Model

| member | source | states |
|---|---|---|
| `EndToEnd.FileGetsThrough` | senders/cmd/sender/senders.go:85-174 | If every block of the streams actually sent loses at most M symbols, the rest arrives in any order beside any packets of other files, the helper was reached in every reconstruction of the file and no thread is still busy with it, the file has been delivered exactly once and equals the source |
| `EndToEnd.FileIsLost` | README.md:61-66 | The converse: if some block loses more than M symbols and nothing else arrives, the file is delivered in no state of any run |
| `Corruption.FileSurvivesDamage` | README.md:95 | The same over a channel that loses, repeats, reorders and damages: honesty of what arrives is derived from the checksum, not assumed, and of the helper only that it was reached |
| `Corruption.DamageNeverDelivered` | README.md:95 | Whatever is lost or damaged, no delivery of the file is anything but the file |
| `Corruption.ChecksumsMakeHonest` | receivers/cmd/main.go:157-172 | If the channel brings only sent packets and damage the checksum detects, every packet the receivers hand on for the file is one of its true symbols |
| `Corruption.ForwardsGenuine` | receivers/cmd/main.go:151-185 | In every interleaving of its loops a receiver hands on only packets that were sent, undamaged |
| `Corruption.StampedIsWhole` | common/integrity/integrity.go:63-75 | A message whose checksum holds and that became of a stamped packet is that packet |
| `EndToEnd.BlockGetsThrough` | README.md:61-66 | A block of a claimed stride is received but for its lost symbols |
| `EndToEnd.EnoughGetsThrough` | README.md:61-66 | If the claims cover the file and the loss is recoverable, K distinct symbols of every block arrive |
| `EndToEnd.MildIsRecoverable` | README.md:62-66 | A loss that spans at most M times the width in every stride costs no block more than M symbols |
| `EndToEnd.LongBurstIsNot` | README.md:62-66 | M times the width plus one consecutive packets lost from one stride cost some block more than M symbols |
| `EndToEnd.LostNotReceived` | senders/cmd/sender/senders.go:128-173 | Since claims are separate, no lost symbol of a block is received in another way |
| `EndToEnd.TurnsDivide` | senders/cmd/sender/senders.go:85-104 | Tasks that took turns without an I/O error, one of them to the end, within the 32-bit bound, have divided the file |
| `Streams.ShareFile` | senders/cmd/sender/senders.go:62-180 | Any number of tasks taking turns in any order on one real counter file go through the steps of the claim machine, each alternating counts and strides, and each has sent exactly its stream |
| `Streams.TaskTurn` | senders/cmd/sender/senders.go:69-173 | One turn of a task opens the file, writes the owed zero, or takes a count and sends the stride it stands for |
| `Streams.StreamSegment` | senders/cmd/sender/senders.go:128-173 | Packet q of a claimed stride is found in its sender's stream at the stride's offset plus q |
| `Streams.StreamPlace` | senders/cmd/sender/senders.go:128-173 | Every packet of a stream is a packet of one of that task's claims |
| `EndToEnd.BurstsAreMild` | README.md:62-66 | Any number of bursts on any stream, across strides or not, is such a loss if no stride is touched by two of them and none takes more than M times its width out of a stride |
| `EndToEnd.DividedClaims` | senders/cmd/sender/senders.go:85-104 | Senders that divided a file have claimed separate strides of it that cover it |
| `EndToEnd.ProductionIsSendable` | common/config/config.go:8-17 | The end-to-end theorem applies to the production dimensions with a concrete Reed-Solomon code |
| `HonestFile.DeliveredExactly` | session-manager/src/file_tracker.py:24-44 | In every state of every run, whatever arrives for other files, every delivery of a file whose own packets are honest is that file byte for byte |
| `HonestFile.CompletesExactly` | session-manager/src/file_tracker.py:35-44 | If the helper was reached, then once no thread is busy with the file it was delivered exactly once if K symbols of each block arrived, and not at all otherwise |
| `HonestFile.FailsOnlyUnreached` | session-manager/src/block_assembler.py:21-45 | In every reachable state a block of the file has been given up if and only if the helper could not be reached in some reconstruction of it |
| `Contributors.CreditIsExact` | session-manager/src/file_tracker.py:32-44 | A delivery names exactly the receivers that reported a packet of one of the file's blocks while fewer than K distinct symbols of that block had arrived |
| `Contributors.ContributorIndex` | session-manager/src/aggregator.py:30-50 | The contributors to a block are those that reported it before it was handed off |
| `Contributors.RunCredited` | session-manager/src/file_tracker.py:29-44 | In every state of every run each hand-off, block, unfinished file and delivery carries the contributors to its blocks |
| `HonestFile.NeverEarlyOrTwice` | session-manager/src/file_tracker.py:26-44 | In every reachable state the file was not delivered twice or before its blocks had K symbols |
| `HonestFile.OnePlaceEach` | session-manager/src/aggregator.py:18-66 | In every reachable state each block of the file is in exactly one of: unseen, pending, one thread, tracker, finished file, failed |
| `HonestFile.HonestShare` | session-manager/src/aggregator.py:27-51 | One file's share of any state is a state of a run of its own honest events |
| `Reassembly.StepSafe` | session-manager/src/aggregator.py:26-66 | Each atomic step of any thread keeps all hand-offs, blocks and files true to their source |
| `Reassembly.RunSafe` | session-manager/src/aggregator.py:26-66 | The safety invariant holds in every state of every run |
| `Reassembly.HandOffGood` | session-manager/src/aggregator.py:44-66 | A hand-off carries exactly K distinct true symbols and the file's metadata |
| `Reassembly.HandedOffByCount` | session-manager/src/aggregator.py:44-51 | A block has been handed off if and only if K distinct symbols of it arrived |
| `Reassembly.AssembleRestores` | session-manager/src/block_assembler.py:19-45 | Reconstructing, joining and trimming a hand-off gives back the block cut from the file |
| `Reassembly.CompletionGood` | session-manager/src/file_tracker.py:29-40 | The count test closes a file only when every block 0..T-1 is there |
| `Reassembly.JoinRestores` | session-manager/src/file_tracker.py:42 | The ordered join of a complete file is the file |
| `Completion.RunOwned` | session-manager/src/aggregator.py:18-66 | The ownership invariant holds in every state of every run |
| `NonInterference.FilesAreIndependent` | session-manager/src/aggregator.py:27-51 | For any packets, one file's share of the final state is that of a run of its own events alone |
| `NonInterference.StepProjects` | session-manager/src/file_tracker.py:26-40 | A step about one file is that step on its share of the state and leaves every other file's share alone |
| `Aggregation.Aggregator.AddPacket` | session-manager/src/aggregator.py:26-66 | The in-place update of the three pending maps and the completed set is the specified one, and every lookup succeeds |
| `Aggregation.AddRepresents` | session-manager/src/aggregator.py:26-51 | The pools hold exactly what the packets so far determine (first content wins), and a hand-off happens exactly when the threshold is first reached |
| `Aggregation.AddConsistent` | session-manager/src/aggregator.py:33-51 | The three pending maps keep one key set, disjoint from the completed blocks |
| `Aggregation.AddElsewhere` | session-manager/src/aggregator.py:27-51 | A packet of one block changes nothing held for another |
| `FileTracking.FileTracker.HandleBlockAssembled` | session-manager/src/file_tracker.py:24-40 | The in-place update of the tracker is the specified one |
| `FileTracking.FileTracker.JoinBlocks` | session-manager/src/file_tracker.py:42 | The loop over block indices computes the ordered join, or fails on a missing block |
| `FileTracking.HandleEffect` | session-manager/src/file_tracker.py:26-40 | Below the total the block is added; at the total the whole file, and only it, leaves the tracker |
| `FileTracking.JoinConcat` | session-manager/src/file_tracker.py:42 | Joining in index order is the concatenation of the blocks |
| `FileTracking.JoinFails` | session-manager/src/file_tracker.py:42 | Joining fails exactly when a block below the total is missing |
| `Claims.ClaimsDisjoint` | senders/cmd/sender/senders.go:85-104 | In every run within the bound, claimed strides are nonempty, inside the file and pairwise disjoint |
| `Claims.ClaimInside` | senders/cmd/sender/senders.go:92-100 | Each claimed stride is nonempty and inside the file |
| `Claims.ClaimsCover` | senders/cmd/sender/senders.go:85-104 | Once a task has counted past the end and no count was lost, the strides cover exactly the blocks 0..T-1 |
| `Claims.ZeroWriteIsFirst` | senders/internal/counter/check-file.go:20-53 | In every run, within the 32-bit bound or not, while a zero-write is outstanding nothing has been claimed and nobody else is about to write one |
| `Claims.FinishedForGood` | senders/cmd/sender/senders.go:85-104 | A task that counted past the end or gave up never claims again, in any run |
| `Claims.FailureEnds` | senders/cmd/sender/senders.go:86-90 | After an I/O error the sender that met it stays stopped and has no further claim |
| `Claims.LastStrideEmpty` | senders/cmd/sender/senders.go:92-100 | In a file of more than 2^32 - 8 blocks the end of the last stride wraps to zero, so that its blocks are claimed by nobody |
| `Claims.StepInv` | senders/internal/counter/counter.go:11-40 | Every create, open, zero-write, count or I/O error keeps the claim invariant |
| `Claims.NoWrap` | senders/cmd/sender/senders.go:92-100 | Within the bound the 32-bit stride arithmetic is exact |
| `Claims.WrapClaimsTwice` | senders/cmd/sender/senders.go:92-100 | Beyond the bound some run with that many tasks claims block 0 twice, so the bound is exact |
| `Claims.ProductionBound` | senders/cmd/sender/senders.go:92-100 | T + 8 S at most 2^32 is within the bound for S tasks |
| `Claims.ClaimStride` | senders/cmd/sender/senders.go:86-100 | Counting and the 32-bit arithmetic after it are the Count step of the claim machine: a stride, the end, or a failure |
| `Claims.OpenCounter` | senders/internal/counter/check-file.go:24-53 | Opening or creating the counter file is the Join step of the claim machine |
| `Claims.WriteInitialZero` | senders/internal/counter/check-file.go:26-30 | The creator's write is the ZeroWrite step of the claim machine |
| `Claims.PlayIsRun` | senders/cmd/sender/senders.go:62-104 | Tasks taking turns in any order are a run of the claim machine |
| `CounterBytes.CounterFile.Count` | senders/internal/counter/counter.go:11-40 | Returns the stored 64-bit number and stores its successor, zero after the largest; an empty file is an error and stays empty |
| `CounterBytes.CounterFile.CreateExclusive` | senders/internal/counter/check-file.go:24 | Exclusive creation succeeds for exactly the first caller |
| `CounterBytes.CounterFile.WriteZero` | senders/internal/counter/check-file.go:26-30 | The zero-write leaves a counter of zero |
| `CounterBytes.CounterFile.ReadCounter` | senders/internal/counter/counter.go:18-28 | Reads the stored number from the first eight bytes; an empty file is end-of-file |
| `CounterBytes.CounterFile.WriteCounter` | senders/internal/counter/counter.go:30-36 | The first eight bytes become the number and whatever follows them stays |
| `CounterBytes.ShortFile` | senders/internal/counter/counter.go:18-28 | A file of one to eight bytes counts as the number those bytes spell |
| `Transmission.BurstTolerated` | senders/cmd/sender/senders.go:128-173 | Any burst of up to M times the width leaves every block of the stride K symbols, wherever it starts |
| `Transmission.BurstSpreads` | senders/cmd/sender/senders.go:128-173 | A burst of L packets hits each block at most ceil(L / width) times |
| `Transmission.LongerBurstBreaks` | senders/cmd/sender/senders.go:128-173 | Every burst of M times the width plus one inside a stride leaves some block fewer than K symbols |
| `Transmission.SendStride` | senders/cmd/sender/senders.go:128-173 | The nested loops send symbol-major: symbol 0 of each block, then symbol 1 of each, with the right header |
| `Transmission.EncodeStride` | senders/cmd/sender/senders.go:102-126 | The blocks of a stride are read and encoded in order, all of them |
| `Transmission.EmissionIndex` | senders/cmd/sender/senders.go:131-147 | Symbol i of block b of a stride is packet i * width + b |
| `BlockCodec.EncodeBlock` | common/codec/codec.go:43-66 | Exactly the oversized blocks are refused; otherwise N symbols of the symbol size result, of which the first K joined are the block followed by zero bytes up to the block size |
| `BlockCodec.DecodeBlock` | common/codec/codec.go:73-110 | Succeeds only with N shards, K present and all of the right size, with the verified data shards joined; each refusal has its cause |
| `BlockCodec.CodecRoundTrip` | common/codec/codec.go:43-110 | For every block, every presence pattern and whatever the absent slots hold, decoding succeeds exactly when K symbols are present and gives the block followed by zero bytes |
| `BlockCodec.FromRequest` | session-manager/rs_helper/internal/decode/decode.go:15-36 | Sparse-to-dense expansion with range checks, equal to the answer for the pool of symbols listed |
| `BlockCodec.PoolOfListing` | session-manager/rs_helper/internal/decode/decode.go:22-29 | Listing the same symbols in any order gives the same pool, hence the same answer |
| `BlockCodec.PoolLast` | session-manager/rs_helper/internal/decode/decode.go:22-29 | A symbol listed more than once counts with the content listed last |
| `BlockCodec.AnswerRejects` | session-manager/rs_helper/internal/decode/decode.go:15-29 | No data symbols, no parity symbols or an identifier out of range are refused |
| `BlockCodec.AnswerRecovers` | common/erasure/reconstruct.go:15-24 | K or more true symbols are answered with the block's data shards |
| `BlockCodec.AnswerRefuses` | common/erasure/reconstruct.go:20-22 | Fewer than K symbols are refused |
| `BlockCodec.ShardsConcat` | senders/internal/erasure/fec.go:23-46 | Joining the data shards of a block gives the block followed by zero bytes up to the block size |
| `BlockCodec.ProductionDimensions` | common/config/config.go:8-17 | The compiled-in dimensions give blocks of 134400 bytes and 150 symbols |
| `Partition.BlocksConcat` | senders/internal/reader/reader.go:35-53 | The sender's chunks concatenate to the file, for every size |
| `Partition.BlockLength` | senders/internal/reader/reader.go:40-44 | Every chunk but the last is full |
| `Partition.NoFurtherBlock` | senders/internal/reader/reader.go:36-38 | Reading meets end-of-file exactly from the announced block count on |
| `Partition.TrimLength` | session-manager/src/block_assembler.py:38-40 | The trim length of the last block is in 1..BlockSize and is that chunk's length |
| `Partition.TrimUndoesPad` | session-manager/src/block_assembler.py:34-40 | Trimming a padded block gives the chunk back |
| `Partition.TrimAnyway` | session-manager/src/block_assembler.py:34-40 | Whatever the metadata says, a prefix is kept: all of every block but the last, and of the last what the file has left, counted from the end where that is negative |
| `Partition.PartitionRoundTrip` | session-manager/src/block_assembler.py:34-40 | Joining trimmed, padded blocks restores the file |
| `ReedSolomon.CodecMeetsContract` | README.md:80-85 | Interpolation over GF(2^8) meets the any-K-of-N contract for every K and M with K + M at most 256 |
| `ReedSolomon.EncodeIsSystematic` | README.md:81-83 | The first K symbols of a codeword are the data |
| `ReedSolomon.ReconstructRecovers` | README.md:84-85 | Any K surviving symbols rebuild the whole codeword |
| `GF256.FieldLaws` | README.md:72 | Bytes with carry-less multiplication form a field |
| `GF256.InverseExists` | README.md:72 | Every nonzero byte has an inverse |
| `Interpolation.Agreement` | README.md:84-85 | Two polynomials of degree below n that agree at n points agree everywhere |
| `Interpolation.InterpolateHits` | README.md:84-85 | The interpolating polynomial takes the given values |
| `PacketChecksum.ChecksumPacket` | common/integrity/integrity.go:38-59 | Checksum of the header followed by an update with the content is the one-pass checksum of both, which is CRC-32C by `Crc32cValues.CheckValue` |
| `PacketChecksum.VerifyPacket` | common/integrity/integrity.go:63-75 | Accepts exactly the packet's own CRC-32C |
| `PacketChecksum.CalculateCRC` | senders/internal/pb/packet.go:43-70 | The sender's two writes to a running hash give that same CRC-32C, so every stamped packet verifies |
| `PacketChecksum.FillHeader` | common/integrity/integrity.go:48-55 | The seven in-place writes produce the fixed 36-byte layout |
| `PacketChecksum.CheckedDecodes` | common/integrity/integrity.go:27-35 | Each field reads back from its documented offset, and the rest is the content |
| `PacketChecksum.BurstRejected` | common/integrity/integrity.go:63-75 | A packet changed only within 32 consecutive bits of its checked bytes has another checksum |
| `PacketChecksum.FieldChangeRejected` | common/integrity/integrity.go:38-59 | A packet changed only in one 32-bit header field has another checksum |
| `PacketChecksum.ContentChangeRejected` | common/integrity/integrity.go:38-59 | A packet changed only in four consecutive content bytes has another checksum |
| `PacketChecksum.OddFlipsRejected` | common/integrity/integrity.go:63-75 | A packet with an odd number of flipped bits has another checksum |
| `PacketChecksum.LongerBurstAccepted` | common/integrity/integrity.go:57-58 | 32 is exact: within any 33 consecutive content bits some change keeps the checksum |
| `Crc32.UpdateConcat` | common/integrity/integrity.go:57-58 | Updating in two pieces is updating once with both |
| `Crc32cValues.CheckValue` | common/integrity/integrity.go:14 | The checksum of the nine characters 1 to 9 is 0xE3069283, the published check value of CRC-32C |
| `Crc32cValues.LeadingZeroSeen` | common/integrity/integrity.go:57-58 | A zero byte put in front of any text changes its checksum |
| `Crc32cValues.Residue` | common/integrity/integrity.go:57-58 | Any text followed by its own checksum, least significant byte first, has the checksum 0x48674BC7 |
| `Crc32cValues.OwnBytes` | common/integrity/integrity.go:57-58 | So does any checksum continued with its own bytes |
| `Crc32cValues.DataValue` | common/integrity/integrity.go:48-55 | Bits are fed in the order in which the bytes, least significant first, spell a number |
| `RegisterWords.WordStep` | common/integrity/integrity.go:14 | A step of the bit register is a right shift of a 32-bit word with a conditional exclusive-or of 0x82F63B78 |
| `Castagnoli.CastagnoliFacts` | common/integrity/integrity.go:14 | The polynomial's bits spell 0x82F63B78; its constant term is set and x + 1 divides it |
| `CyclicCode.WindowDetected` | common/integrity/integrity.go:57-58 | For any generator with a constant term, strings that differ only in a window no wider than the register end in different registers |
| `CyclicCode.WiderWindowEscapes` | common/integrity/integrity.go:57-58 | One bit wider, some change goes unseen, for any generator |
| `CyclicCode.RunInjective` | common/integrity/integrity.go:57-58 | Feeding a fixed string is injective on the register |
| `CyclicCode.OddFlipsDetected` | common/integrity/integrity.go:57-58 | When x + 1 divides the generator, an odd number of flips changes the register |
| `Scheduling.Orchestrator.SyncStates` | file-monitor/src/orchestrator.py:37-63 | The nested loops and the deletions compute the specified state: idle senders leave, empty transfers end, leavers of the large file are remembered |
| `Scheduling.Orchestrator.DispatchTasks` | file-monitor/src/orchestrator.py:64-94 | Idle senders join the large file unless they left it, or the next file is taken and given out |
| `Scheduling.Orchestrator.AssignTask` | file-monitor/src/orchestrator.py:96-109 | The sender is marked as working and appended to the file's list |
| `Scheduling.Orchestrator.RunOnce` | file-monitor/src/orchestrator.py:25-34 | One turn of the loop is the poll's heartbeats in order, then synchronising, then dispatching; what each of the three does is stated by `ScheduleSafety.LastReportCounts`, `ScheduleSafety.SyncExactly` and `ScheduleSafety.WhoGetsIt` |
| `ScheduleSafety.SchedulerInvariant` | file-monitor/src/orchestrator.py:20-109 | After every turn no sender is listed twice anywhere, all listed senders are working, no list is empty, the large file is listed |
| `ScheduleSafety.FirstComeFirstServed` | file-monitor/src/orchestrator.py:64-109 | Over every run the file each sender is given is the one that arrived under the logged number; numbers start at 0, never skip and never go back; a small file once, a large one at most once per sender |
| `ScheduleSafety.TenureEnds` | file-monitor/src/orchestrator.py:41-63 | A large file ends within as many idle observations of its senders as there are senders, and at once when all are idle |
| `ScheduleSafety.TakenWithCause` | file-monitor/src/orchestrator.py:64-94 | A file leaves the queue exactly when no large file is current and a sender is idle; it is the first in the queue, and in that turn a sender is given it and listed under it |
| `ScheduleSafety.LogMatchesLists` | file-monitor/src/orchestrator.py:74-109 | The history is what happened: a round gives one file and appends exactly the logged senders, in order, to its list and to no other |
| `ScheduleSafety.NobodyLeftIdle` | file-monitor/src/orchestrator.py:64-94 | While a large file is current, every turn puts to work every sender that has not already finished with it |
| `ScheduleSafety.RunInv` | file-monitor/src/orchestrator.py:20-109 | The scheduler invariant holds after every event of every run |
| `ScheduleSafety.LoopTurn` | file-monitor/src/orchestrator.py:25-34 | A turn of the loop is a run of its heartbeats and one round |
| `ScheduleSafety.HeartbeatSets` | file-monitor/src/ipc_manager.py:75-80 | After any run, a heartbeat sets the status of its sender and changes nothing else; one from an unknown sender changes nothing |
| `ScheduleSafety.LastReportCounts` | file-monitor/src/ipc_manager.py:75-80 | After a poll each sender that reported has the status of its last report |
| `ScheduleSafety.SilentSenderKeeps` | file-monitor/src/ipc_manager.py:75-80 | A sender that did not report keeps its status |
| `ScheduleSafety.SyncExactly` | file-monitor/src/orchestrator.py:37-63 | Synchronising takes exactly the idle senders off the lists, forgets exactly the transfers without a working sender, and remembers exactly who left the large file until it ends |
| `ScheduleSafety.WhoGetsIt` | file-monitor/src/orchestrator.py:64-94 | A file below ten megabytes goes to the first idle sender alone; from there on it goes to every idle sender and becomes the current large file |
| `ScheduleSafety.FirstFile` | file-monitor/src/config.py:19-23 | All senders start idle: the first file is given out in the first round |
| `ReceiverSafety.Conservation` | receivers/internal/stats/stats.go:1-5 | In every interleaving every datagram read is in one counter, one lost batch, the queue, the open batch or the reader's hand; at rest this is the documented identity |
| `ReceiverSafety.OrderKept` | receivers/internal/forwarder/forwarder.go:66-121 | Flushed batches, open batch and queue are the accepted packets in order and unchanged; batches hold 1..batchSize packets, or one when the size is zero |
| `ReceiverSafety.TrueToDatagrams` | receivers/cmd/main.go:134-185 | The malformed and checksum counters count exactly the datagrams so judged, and the accepted packets are, in order, the decodings of the good ones less exactly as many as were dropped for lack of room |
| `ReceiverSafety.FlushedWasRead` | receivers/cmd/main.go:151-185 | Whatever is in a batch is the decoding of a datagram that was read |
| `ReceiverSafety.SingleOwner` | receivers/cmd/main.go:144-185 | Each packet object is in exactly one of pool, reader, batch and queue |
| `ReceiverSafety.StoppedDrained` | receivers/internal/forwarder/forwarder.go:97-101 | A forwarder that stopped has flushed every accepted packet |
| `ReceiverSafety.StepInv` | receivers/cmd/main.go:131-187 | Each atomic step of either loop keeps ownership, order, accounting, bounds and soundness |
| `ReceiverSafety.StepTouches` | receivers/internal/forwarder/forwarder.go:116-121 | No step overwrites an object that still waits to be marshalled |
| `IntakeIntegrity.OnlyStampedForwarded` | receivers/cmd/main.go:157-172 | In every interleaving nothing is forwarded unless its checksum is right |
| `IntakeIntegrity.DamagedNeverForwarded` | receivers/cmd/main.go:157-172 | A stamped packet damaged within 32 consecutive bits is never forwarded |
| `ReceiverProcess.Process.ReaderTurn` | receivers/cmd/main.go:131-187 | Each atomic action of the read loop on shared packet objects is a step of the model |
| `ReceiverProcess.Process.ForwarderTurn` | receivers/internal/forwarder/forwarder.go:79-144 | The forwarder does exactly what is due in its state, or waits when nothing is; without a tick it takes the first packet of the queue, with one it sends off the batch; a send yields the batch's contents as payload |
| `ReceiverProcess.Process.SendBatch` | receivers/internal/forwarder/forwarder.go:114-138 | The payload is the contents of the batch's objects at that moment, in order |
| `ReceiverProcess.Interleave` | receivers/cmd/main.go:84-95 | After any interleaving of the two loops, each turn having led to the reader's step or to what was due of the forwarder, the process is in the state of that run and has handed on exactly its batches |
| `ReceiverProgress.TakesWhatWaits` | receivers/internal/forwarder/forwarder.go:97-105 | A turn without a tick takes the first packet of the queue into the batch, and sends the batch off exactly when it is full |
| `ReceiverProgress.TickSendsOff` | receivers/internal/forwarder/forwarder.go:71-107 | A tick sends off what has been collected, and leaves an empty batch alone |
| `ReceiverProgress.TurnWorks` | receivers/internal/forwarder/forwarder.go:79-144 | No turn adds work, and every turn without a tick gets some done unless the forwarder stopped or has nothing to wait for but more packets |
| `ReceiverProgress.ClosedStops` | receivers/internal/forwarder/forwarder.go:97-101 | Once the queue is closed, as many turns as there is work, among any number of ticks, stop the forwarder with an empty queue |
| `ReceiverProgress.OpenEmpties` | receivers/internal/forwarder/forwarder.go:97-105 | While it is open and no tick comes, as many turns as there is work empty the queue |
| `ReceiverProgress.ShutdownFlushesAll` | receivers/internal/forwarder/forwarder.go:97-144 | However far a run had come when the queue was closed, enough turns of the forwarder end it with every accepted packet flushed |
| `ReceiverProgress.OnlyFullBatches` | receivers/internal/forwarder/forwarder.go:97-107 | In every interleaving without tick and end of queue every batch has exactly the size asked for |
| `ReceiverProgress.DroppedOnlyWhenFull` | receivers/cmd/main.go:179-185 | In every interleaving the intake counter counts exactly the good packets that met a full queue |
| `ReceiverProgress.PoolStaysClean` | receivers/internal/forwarder/forwarder.go:116-121 | Sent, lost and surplus packets go back blank: as long as no datagram was undecodable or damaged the pool holds only blank packets |
| `Framing.RoundTrip` | receivers/internal/sessionClient/sessionClient.go:71-80 | The reader recovers the list of messages sent if and only if each is shorter than 2^32 bytes |
| `Framing.FrameBytes` | receivers/internal/sessionClient/sessionClient.go:71-80 | On the wire a message is four bytes of length, most significant first, and then itself |
| `Framing.CutStream` | session-manager/src/receiver_server.py:76-97 | A stream cut after n bytes gives exactly the messages complete by then |
| `Framing.Connection.RecvExact` | session-manager/src/receiver_server.py:88-97 | However the socket splits the stream, exactly n bytes are read, or nothing when it ends first |
| `Framing.Connection.ReadBatch` | session-manager/src/receiver_server.py:76-86 | Reads one length-prefixed message, or nothing when the stream ends inside it |
| `Framing.Connection.HandleConnection` | session-manager/src/receiver_server.py:62-74 | Passes on every message of the stream in order until it ends |
| `Framing.Writer.SendBatch` | receivers/internal/sessionClient/sessionClient.go:71-80 | Appends the length prefix and the payload |
| `Octets.LittleEndianRoundTrip` | senders/internal/counter/counter.go:28-30 | Writing and reading back keeps a number modulo 256^width |
| `Octets.BigEndianRoundTrip` | receivers/internal/sessionClient/sessionClient.go:71-72 | The same for the big-endian length prefix |
| `Octets.LittleEndianDigit` | common/integrity/integrity.go:48-55 | Byte i of a little-endian number is its i-th digit to the base 256 |
| `Octets.BigEndianMirrors` | receivers/internal/sessionClient/sessionClient.go:71-72 | Big-endian is the mirror image |

## Left out

- Internals of the Reed-Solomon library: its generator matrix and field representation are not modelled; the any-K-of-N contract is, with a concrete code that meets it.
- Errors returned by the library's encoder for well-formed input, and its failure to construct: a well-formed encode always succeeds here.
- The lookup tables behind the checksum: the register is fed bit by bit.
- Protobuf encoding, generated message code and the SHA-256 check of the finished file: messages are values, and decoding is a parameter.
- Writing the finished file to disk, watching the inbox, starting processes, flags and logging.
- Reconnecting, backing off and closing in the session client, and the shutdown grace period: easy range facts only.
- Real time: pacing sleeps and intervals; a tick may happen at any point.
- `IPCManager._handle_read`: it reads with single `recv` calls, so the framing theorem does not apply to it; heartbeats are events here.
- Failures of `send_task`: the scheduler ignores them, and so does the model.
- Whether a transfer reported complete was really finished by its senders: the scheduler theorems are about reported states.
- Shutting a receiver down while its reader still runs: the queue is closed only after the reader has returned.
- The forwarder's stop channel, which production passes as nil, and its drain loop.
- A receiver queue of depth zero: sending on an unbuffered channel meets a waiting receiver, which the bounded queue of this model does not express.
- 64-bit wrap-around of the receiver's counters.
- The pooled datagram buffers, whose contents are copied out before they are put back.
- Sending a file again with its old counter file, and retrying a block whose reconstruction failed: neither the counter nor the completed set is ever reset.
- Reading errors other than end-of-file in the sender's loop, which leave a stride short.
- `GenerateFileHash`, and `common/erasure/fec.go` as a second copy of the sender's encoder.
- HonestFile.DeliveredExactly: assumes every packet under the file's hash is a symbol of the registered file with its metadata; the code checks neither `block_id` nor the metadata.
- HonestFile.CompletesExactly: for runs in which the helper was reached in every reconstruction of the file's blocks, since a block given up is never retried; `HonestFile.FailsOnlyUnreached` says that nothing else gives one up.
- Corruption.FileSurvivesDamage: damage is described on the decoded packet (its checksum alone, 32 consecutive checked bits, or an odd number of them), since the protobuf bytes are not modelled; damage that decodes to nothing may be anything.
- Streams.ShareFile: the counter file itself does not fail here; lost counts and I/O errors are steps of the claim machine (`Claims.StepInv`), not of these loops.
- EndToEnd.FileGetsThrough: for files of at least one byte, since a file without blocks is never delivered.
- PacketChecksum.FieldChangeRejected: says nothing of the two 64-bit fields, whose changes can span more than 32 bits.
