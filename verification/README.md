# updown: verified model of the block-transfer pipeline

updown moves a file as a stream of authenticated, erasure-coded UDP datagrams. This project models that
pipeline in Dafny 4.11 and proves what it promises: from the blocks of the source file, through grouping,
encoding, interleaving, sealing and batching, over a network that loses, reorders, repeats and forges, to the
receive task, the bounded channel, the writer, and the resume file that survives a crash. Beside it stand the
sender's rate controller, the receiver's delay gradient, the timeout predictor, the adaptive repair ratio, the
web API's rate limiter and the STUN parser.

Check everything with `dafny verify dfyconfig.toml`.

## How it is organised

| file | what it models |
|---|---|
| `Prelude.dfy`, `Blocks.dfy` | bytes, ceiling division, cutting a file into blocks, writing at an offset |
| `Wire.dfy`, `Crypto.dfy` | header and framing, associated data, nonce counter, envelope layout over an ideal AEAD |
| `Fec.dfy` | encoder and decoder bookkeeping over an abstract fountain code, adaptive repair ratio |
| `Interleave.dfy`, `Gso.dfy`, `Sender.dfy` | interleaved schedule, super-buffer batching and pacing, the sender object |
| `SendEngine.dfy`, `Delta.dfy` | reading, skipping and grouping blocks; block hashes and the skip set |
| `Receiver.dfy`, `Delivery.dfy` | the receive task; sender, network and receiver together |
| `Resume.dfy`, `Writer.dfy` | resume bitmap and file; the writer task |
| `Transfer.dfy` | the receiving process as a state machine over steps and crashes: safety over all runs |
| `Runs.dfy`, `Stall.dfy`, `Resumption.dfy` | runs composed and constructed; absence and presence of stalls; what failed saves and foreign resume state cost |
| `EndToEnd.dfy` | from the source file to the output file |
| `RateControl.dfy`, `DelayGradient.dfy`, `TimeoutPredictor.dfy` | control arithmetic over whole runs |
| `RateLimiter.dfy`, `Stun.dfy` | fixed-window limiter traces; parse and print of STUN responses |

Objects that the program updates in place are classes whose methods are proved against functions on values;
the theorems are about those functions, over every run.

## Assumptions

- RaptorQ is an abstract code (`Fec.Codec`). `Lawful` says that symbols of one object never decode to anything
  else and that more symbols never hurt; `Ideal` adds that K distinct symbols of every source block suffice.
  `Fec.IdealCodecExists` gives a code that meets both, so nothing is proved from a contradiction. K comes from
  the code, not from the decoder's `source_symbols` field.
- AES-GCM is an ideal AEAD (`Crypto.Lawful`, satisfiable by `Crypto.LawfulAeadExists`). Ciphertext integrity is a
  condition on the datagrams that reach a receiver (`Delivery.Unforged`): what opens has been sealed by the sender
  under the same text. Anything that does not open may be injected freely.
- BLAKE3 is an injective function where a theorem needs it.
- `f32` and `f64` coefficients are exact reals. The delay average with weight 1/8 is integer arithmetic in whole
  microseconds, as the casts of the source make it. Integer widths are explicit where they can matter: the 16-bit
  header length, 32-bit ids and sequence numbers, the 64-bit nonce counter, and the 64-bit cast of the sleep time.
- One clock reading stands for all those made while one datagram is handled. A completed write is durable.

## What the proofs found

- The writer leaves its loop as soon as the bitmap is full and then waits for the receive task, which starts every
  attempt with an empty list of completed blocks. When more than 64 blocks, but not all, were resumed, a run exists
  in which the receive task blocks on the full channel for ever (`Stall.StallIff`). With at most 64, and in
  particular on a fresh transfer, no run does: every run without new datagrams is finite and ends the attempt
  (`Stall.AttemptEnds`).
- The comment at `src/engine/resume.rs:23` says that the stored hashes are for verification on resume; `load`
  never compares them. `Writer.ResumedOverAnotherFile` states exactly when resuming another file's state still
  yields the right output, and `Resumption.AnotherFileGoesWrong` gives a run for any two different files of at
  least two blocks in which it does not, although the transfer counts as complete.
- The result of `save` is discarded and the counter restarts even after a failure
  (`Transfer.FailedSaveIsForgotten`). What a crash loses is what the counter says if and only if the last save
  succeeded, and fewer than eight blocks if and only if, besides, no save is pending (`Transfer.CrashLoses`);
  without a good save it can be everything (`Resumption.FailedSavesLoseEverything`).
- The resume bitmap is never told about blocks skipped by delta sync: the output file is right
  (`EndToEnd.DeltaSourceToOutput`), but the transfer counts as complete exactly when each block was resumed or
  received anyway (`EndToEnd.CompleteIffResumedOrTaken`).
- The data packets the sender builds carry timestamp zero (`Delivery.DataAddsNoDelaySample`), so of its own packets
  only Done can feed the receiver's delay history. But the sample is taken from the header before anything is
  decrypted: a datagram adds one exactly when its header is accepted and its time lies between zero and now
  (`Receiver.SampleIff`), even if it is then refused (`Delivery.RefusedHeaderAddsDelaySample`).
- A target below 8 Mbps lies under the fixed floor of 1 MB/s and breaks the configured bounds
  (`RateControl.EnvelopeIffTargetAboveFloor`). Truncation to microseconds can put the smoothed delay below the
  recorded minimum: in nanoseconds the bound holds exactly when that minimum is a whole number of microseconds
  (`RateControl.NanosecondFloorIff`).
- Every encryption context starts its nonce counter at zero, and one is made per file. Two seals under one key use
  the same nonce exactly when their numbers agree modulo 2^64 and they drew the same four random bytes
  (`Crypto.NoncesCollideIff`), which any two files can run into (`Crypto.ContextsCanCollide`).
- 60 seconds can hold `2 * max - 1` allowed calls of the rate limiter, and never more
  (`RateLimit.SlidingWindowBound`, `RateLimit.SlidingWindowTight`).

## Model

| member | source | states |
|---|---|---|
| `Blocks.LengthsAgree` | src/transport/receiver.rs:257-262 | the receiver's special case for the last block and the sender's minimum give the same non-zero length for every block of every file |
| `Blocks.OffsetInside` | src/engine/send.rs:197-200 | every block starts inside the file, so the subtraction of the offset cannot underflow |
| `Blocks.BlocksDetermineFile` | src/protocol/wire.rs:170-171 | two files of one length with equal blocks are equal: ceiling division leaves no byte outside the blocks |
| `Blocks.WriteBlock` | src/engine/recv.rs:145-146 | writing any prefix of a block at its offset keeps the size and every other block; writing all of it installs it |
| `Blocks.SetLenBytes` | src/engine/recv.rs:89 | setting the length keeps the bytes there are and adds zeros |
| `Blocks.WriteAtBytes` | src/engine/recv.rs:145-146 | a write puts the data where it belongs, zeros into a gap before it, and leaves every other byte |
| `Wire.HeaderRoundTrip` | src/protocol/wire.rs:38-51 | deserializing a serialized header gives it back, whatever follows it |
| `Wire.FrameRoundTrip` | src/transport/sender.rs:153-158 | the receiver's parse of a framed datagram is exactly the header and the payload framed |
| `Wire.OnlyFramesUnframe` | src/transport/receiver.rs:205-214 | conversely, whatever is unframed is a length, a serialized header with a known packet type, and the payload after them |
| `Wire.DataHeaderStarts` | src/protocol/wire.rs:22-51 | a data packet's header starts with the magic bytes and variant zero in four bytes |
| `Wire.LeDigit` | src/transport/receiver.rs:209 | numbers are laid out least significant byte first |
| `Wire.AadInjective` | src/transport/sender.rs:150 | the decimal text of the associated data determines session, block and symbol |
| `Wire.DecimalReads` | src/transport/sender.rs:150 | each number stands in that text in decimal |
| `Crypto.CryptoContext.Encrypt` | src/crypto/mod.rs:86-103 | the result is nonce, ciphertext and tag of the one new log entry; the nonce counter advances with the log |
| `Crypto.CryptoContext.EncryptInto` | src/crypto/mod.rs:107-127 | appends that same envelope and keeps what was in the buffer |
| `Crypto.DecryptInvertsEnvelope` | src/crypto/mod.rs:130-146 | decryption inverts the layout for every nonce |
| `Crypto.OnlyEnvelopesDecrypt` | src/crypto/mod.rs:130-146 | conversely, whatever decrypts is the envelope of what it decrypts to |
| `Crypto.NoncesDistinct` | src/crypto/mod.rs:148-155 | no nonce of one context is used twice while its counter does not wrap, whatever the random bytes are |
| `Crypto.NoncesCollideIff` | src/crypto/mod.rs:74-82 | two seals, of one context or of two made from one key, share a nonce exactly when their numbers agree modulo 2^64 and their random bytes are equal |
| `Crypto.ContextsCanCollide` | src/engine/send.rs:146 | any two sequences of messages can be sealed in two contexts that share the nonce of every pair of the same number |
| `Fec.FecEncoder.Encode` | src/fec/mod.rs:42-69 | the loop yields source then repair symbols of each source block in order, and the statistics count them |
| `Fec.FecEncoder.SetRepairRatio` | src/fec/mod.rs:33-35 | the ratio becomes the larger of the argument and the floor |
| `Fec.FecDecoder.AddPacket` | src/fec/mod.rs:113-136 | feeding refines `Feed`: nothing after completion, and the statistics of the packet that completes |
| `Fec.DecoderAnswersOnce` | src/fec/mod.rs:113-136 | fed symbols of one object in any order and number, a decoder answers once, as soon as they suffice, with the object |
| `Fec.StatsMean` | src/fec/mod.rs:121-131 | source symbols are the 900-byte pieces of the block, excess what was fed beyond them, and the estimated loss their share missing from what was fed |
| `Fec.EncodedAreSymbols` | src/fec/mod.rs:48-59 | everything sent for a block is a symbol of that block |
| `Fec.LossTolerated` | src/fec/mod.rs:48-59 | an ideal code recovers a block whenever each of its source blocks loses at most its own repair symbols, wherever they were |
| `Fec.AdaptiveFec.Update` | src/fec/mod.rs:177-189 | one block moves the estimate as specified, and the ratio returned is within its bounds |
| `Fec.RatioIs` | src/fec/mod.rs:192-195 | the ratio is 1.3 times the estimate, within 0.02 and 0.5 |
| `Fec.EstimateWithinObserved` | src/fec/mod.rs:177-195 | over any run the estimate lies between the smallest and largest loss measured, negative ones counting as zero, and the ratio in [0.02, 0.5] |
| `Fec.SustainedLoss` | src/fec/mod.rs:180-186 | under constant loss the error of the estimate shrinks by 7/10 per block, from any history |
| `Interleave.EverySymbolScheduled` | src/transport/sender.rs:128-162 | every symbol of every block has its place in the schedule, at a position known in advance |
| `Interleave.ScheduleSound` | src/transport/sender.rs:128-162 | every place of the schedule is a symbol of a block, and each only once |
| `Interleave.ScheduleOrdered` | src/transport/sender.rs:128-132 | the schedule is in lexicographic order of symbol, then block, for blocks of any unequal lengths |
| `Interleave.ScheduleLength` | src/transport/sender.rs:114 | its length is the sum of the encoded lengths |
| `Interleave.BurstBound` | src/transport/sender.rs:123-162 | any L consecutive packets hold at most ceil(L / number of blocks at least as long as it) of each block |
| `Interleave.BurstTolerated` | src/transport/sender.rs:123-162 | a burst stays repairable while that share is at most the repair symbols of each source block |
| `Interleave.EqualBlocksBurst` | src/fec/mod.rs:48-59 | n equal blocks survive any burst of n times the repair symbols |
| `Gso.CutInvertsConcatenation` | src/transport/sender.rs:207-212 | cutting a super-buffer at its segment size gives back the packets appended to it |
| `Gso.Batcher.Push` | src/transport/sender.rs:192-228 | one turn of the loop accepts the next packet and keeps batch size, segment size and pacing |
| `Gso.Blast` | src/transport/sender.rs:182-235 | what reaches the wire is exactly the packets of the index in order, or a prefix after a socket error; counters agree |
| `Gso.Pace` | src/transport/sender.rs:217-227 | after the check bytes * 10^9 is less than rate * (elapsed + 10001 ns), and no sleep is asked for beyond the time the bytes are due |
| `Gso.UniformCallCount` | src/transport/sender.rs:184-235 | with one packet size the number of system calls is ceil(packets / 64) |
| `Gso.UniformPacing` | src/transport/sender.rs:210-228 | at every system call the bytes before it keep to the rate in that sense, and the call adds at most 64 packets |
| `Sender.UdpSender.BuildPacket` | src/transport/sender.rs:134-158 | one packet: consecutive wrapping sequence number, header, associated data and envelope of the new log entry |
| `Sender.UdpSender.BuildWire` | src/transport/sender.rs:122-162 | the buffer holds the packets of the whole schedule in order, with the index and the log in step |
| `Sender.LaidPackets` | src/transport/sender.rs:153-160 | the ranges of the index tile the buffer, and each one cuts out its packet |
| `Sender.UdpSender.SendBlocksInterleaved` | src/transport/sender.rs:98-297 | on success the wire carries exactly the schedule, statistics included; on a socket error a prefix of it |
| `Sender.UdpSender.PacingRate` | src/transport/sender.rs:175-176 | the rate used for pacing is the controller's rate in bytes per second, at least one |
| `SendEngine.SendEngine.ReadGroup` | src/engine/send.rs:196-223 | the cursor stays aligned although skipped blocks are read, and every byte is its own block's |
| `SendEngine.SendEngine.ReadFile` | src/engine/send.rs:189-233 | each group is what is kept of one full stretch of `interleave` consecutive blocks, the last cut at the end of the file; together they are the kept blocks in order, a prefix if the channel closes |
| `SendEngine.KeptMeans` | src/engine/send.rs:206-222 | exactly the blocks that are not skipped, each once, ascending, with their own bytes |
| `SendEngine.SendEngine.SendGroups` | src/engine/send.rs:239-258 | whatever fails, everything sealed is a symbol of the block it names; on success every group has been sent |
| `SendEngine.SendEngine.SendFile` | src/engine/send.rs:169-261 | reader and sender together establish all that `FileArrives` and `SentIsUnforged` ask of the sending side |
| `SendEngine.SentIsUnforged` | src/transport/sender.rs:149-158 | the sender's own packets, in any order and number, and anything that does not open satisfy the integrity condition against its log |
| `SendEngine.FileArrives` | src/transport/receiver.rs:204-293 | with at most the repair symbols of each source block lost, every block not skipped comes out of the receiver once with the source bytes |
| `SendEngine.BlockSurvivesFileBurst` | src/transport/sender.rs:123-162 | one burst of consecutive packets anywhere in the whole transmission, across groups or not: a block comes out if its share of it is within its repair symbols |
| `SendEngine.DepthSurvivesBurst` | src/engine/send.rs:190-233 | for a file sent whole that share is one part in the interleave depth, for every block whose group ends before the last block |
| `Receiver.UdpReceiver.ProcessPacket` | src/transport/receiver.rs:204-293 | refines `Process`: same checks in the same order, same state, same result |
| `Receiver.AcceptedIff` | src/transport/receiver.rs:205-221 | a header is accepted exactly when it is framed, carries the magic bytes and names this session |
| `Receiver.RefusalReasons` | src/transport/receiver.rs:205-221 | which error a datagram gets before its payload is looked at, in the order of the checks |
| `Receiver.ForeignIsRefused` | src/transport/receiver.rs:216-221 | a datagram of another session, or with other magic bytes, is an error and changes nothing but the counters of what was read |
| `Receiver.ForeignChangesNothing` | src/transport/receiver.rs:216-221 | such datagrams anywhere in a run change neither the blocks that come out nor the delays |
| `Receiver.ControlTouchesNothing` | src/transport/receiver.rs:230-290 | a packet of another type is answered with nothing and touches no block |
| `Receiver.UdpReceiver.AddSymbol` | src/transport/receiver.rs:245-286 | the state after one decrypted symbol |
| `Receiver.UdpReceiver.CompleteBlock` | src/transport/receiver.rs:152-181 | the bookkeeping of a decoded block |
| `Receiver.UdpReceiver.ReceiveLoop` | src/transport/receiver.rs:113-202 | the loop is the fold of `Receive` over the datagrams read; it reads nothing after the first silence, the first failed send or the last block, and each exit means what it says |
| `Receiver.ReceiveTracks` | src/transport/receiver.rs:230-286 | one datagram yields at most one block, a new one, with exactly the source bytes |
| `Receiver.EmittedExactly` | src/transport/receiver.rs:120-191 | whatever the order and multiplicity, the blocks emitted are exactly those whose delivered symbols decode, each once |
| `Receiver.RunKeepsBooks` | src/transport/receiver.rs:147-171 | after any run, forged datagrams included: all datagrams and bytes are counted, the loss estimate is that of the blocks handed over, expected and pending ids coincide, every pending block has counted each datagram that carries it |
| `Receiver.ReceiveBooks` | src/transport/receiver.rs:253-285 | a decoded block reports exactly the datagrams that carried it so far and the time since the first of them |
| `Receiver.AllCompleteMeansEveryBlock` | src/transport/receiver.rs:121-124 | the exit test holds exactly when every block of the file has been handed over |
| `Receiver.SampleIff` | src/transport/receiver.rs:216-228 | a datagram adds a delay sample exactly when its header is accepted and its time lies between zero and now |
| `Receiver.RunDelays` | src/transport/receiver.rs:223-228 | after any run the delay history is that of exactly those datagrams, in order |
| `Delivery.UnforgedIsAuthentic` | src/transport/receiver.rs:240-246 | a symbol accepted under a header is a symbol of the block that header names |
| `Delivery.PacketOpens` | src/transport/sender.rs:138-158 | the receiver opens the packet of a slot to exactly the symbol the sender put there |
| `Delivery.HeaderOnTheWire` | src/transport/sender.rs:138-147 | the header in packet i names the block and symbol of its slot, timestamp zero, and sequence number (start + i) modulo 2^32 |
| `Delivery.OtherSessionIsForeign` | src/transport/receiver.rs:219-221 | packets of a sender of another session are foreign, under the same key or not |
| `Delivery.DataAddsNoDelaySample` | src/transport/sender.rs:144 | the sender's data packets never add to the receiver's delay history |
| `Delivery.RefusedHeaderAddsDelaySample` | src/transport/receiver.rs:222-243 | a bare header with any time between zero and now is refused as not authentic and still adds a sample |
| `Delivery.SentGroupIsLogged` | src/transport/sender.rs:149-151 | every log entry of a group seals a symbol of the source block it names |
| `Delivery.GroupSurvivesLoss` | src/transport/receiver.rs:230-286 | a block of a sent group comes out whenever each of its source blocks loses at most its own repair symbols |
| `Delivery.GroupSurvivesBurst` | src/transport/sender.rs:123-162 | the same for one burst of consecutive losses anywhere in the schedule |
| `Resume.ResumeState.MarkComplete` | src/engine/resume.rs:41-46 | sets bit and hash of an id in range and ignores any other |
| `Resume.ResumeState.CompletedCount` | src/engine/resume.rs:57-59 | the number of complete ids |
| `Resume.ResumeState.IncompleteBlocks` | src/engine/resume.rs:62-69 | ascending, exactly the ids in range that are not complete |
| `Resume.TransferCompleteIffAllDone` | src/engine/resume.rs:72-74 | the count test holds exactly when every block is marked |
| `Resume.IncompleteIsComplement` | src/engine/resume.rs:62-69 | incomplete list and count add up to the number of blocks |
| `Resume.SaveLoadRoundTrip` | src/engine/resume.rs:89-136 | a good save is loaded back, a failed one leaves the old state, a torn one resumes nothing |
| `Resume.LoadedIff` | src/engine/resume.rs:116-135 | a stored state is resumed exactly when file size, block size and block count all agree; otherwise it is removed |
| `Writer.OutputPath.LoadResume` | src/engine/resume.rs:99-136 | absent, corrupt and mismatched files resume nothing, and the last two are removed |
| `Writer.RecvEngine.StoreBlock` | src/engine/recv.rs:135-161 | write, hash, mark and periodic save of one block refine `Consume` |
| `Writer.RecvEngine.ReceiveFile` | src/engine/recv.rs:59-205 | the whole function refines open, fold over the blocks taken, close; it stops exactly after the first block written that fills the count, or when the channel ends |
| `Writer.WriteAndMarkHolds` | src/engine/recv.rs:145-152 | storing a source block keeps every bit true of the file and adds exactly that block |
| `Writer.HashIsOfWrittenBytes` | src/engine/recv.rs:145-150 | the hash recorded is that of the bytes now in the file, which are a prefix of the decoded data |
| `Writer.BreakMeansComplete` | src/engine/recv.rs:172-174 | the break of the loop means that the bitmap is full |
| `Writer.CompleteFile` | src/engine/recv.rs:200 | with a full bitmap the file is the source exactly if every block wanted is the source's |
| `Writer.PartialWriteHolds` | src/engine/recv.rs:145-146 | a write cut off anywhere leaves the resume file truthful |
| `Writer.ResumedOverAnotherFile` | src/engine/resume.rs:125-135 | over another file's resume state the output is right exactly if each loaded hash is that of the new block |
| `Resumption.AnotherFileGoesWrong` | src/engine/resume.rs:125-135 | for any two files of at least two blocks that differ in some block a run of the first persists that block, after which all blocks of the second, complete and honest, leave a complete transfer and a wrong file |
| `Resumption.OneBlockPersisted` | src/engine/recv.rs:200-205 | any single block of a file of at least two can be what an attempt leaves persisted |
| `Resumption.SingleBlockNeverPersisted` | src/engine/recv.rs:200-205 | and two are needed: in no run is the only block of a file ever persisted |
| `Transfer.StepOk` | src/engine/recv.rs:121-205 | every step of receive task, channel, writer, failed save and crash keeps the invariant |
| `Transfer.CrashSafe` | src/engine/recv.rs:129-161 | at every moment of every run each bit on disk and in memory names a block of the file equal to the source's |
| `Transfer.CompleteMeansIdentical` | src/engine/recv.rs:200 | whenever the transfer is complete the output file is the source file |
| `Transfer.FinishedMeansIdentical` | src/engine/recv.rs:177-205 | if the receive task decoded every block, the attempt ends with the source file and without resume file |
| `Transfer.CrashLoses` | src/engine/recv.rs:155-161 | in every live state a crash loses exactly `blocks_since_save` blocks if and only if the last save succeeded, and fewer than 8 if and only if also no save is pending; the counter is at most 8 |
| `Transfer.FailedSaveIsForgotten` | src/engine/recv.rs:159-160 | in every run, after a save that fails the counter reads zero while a crash would lose at least 8 blocks, all of them after a torn one |
| `Resumption.FailedSavesLoseEverything` | src/engine/recv.rs:159-160 | for every n up to the number of blocks some run has stored n blocks and, its saves having failed, would lose all of them |
| `Transfer.RestartFindsPersisted` | src/engine/resume.rs:99-136 | after a crash at any moment the next attempt resumes exactly what was persisted |
| `Transfer.OtherSizeResumesNothing` | src/engine/resume.rs:126-133 | in any run, an attempt at a file of another size resumes nothing, even with equally many blocks, and leaves no stored state |
| `Transfer.TakeAndSaveIsConsume` | src/engine/recv.rs:129-174 | the machine's steps are one round of the engine's loop: same memory, same disk, a save exactly after every eighth block written, the break exactly after a written block that fills the count |
| `Transfer.SliceInBounds` | src/engine/recv.rs:146 | the slice of the block data never goes out of bounds |
| `Transfer.HandedOverOnce` | src/transport/receiver.rs:181-184 | no block is handed to the writer twice in an attempt, and each carries the source bytes |
| `Stall.StuckIffStalled` | src/engine/recv.rs:172-182 | a live attempt has no step left exactly when the writer waits and the receive task blocks on the full channel |
| `Stall.StallNeedsManyResumed` | src/engine/recv.rs:121-182 | a stall needs more than 64 blocks complete at the start, but not all of them |
| `Stall.AttemptEnds` | src/engine/recv.rs:129-182 | otherwise every run of internal steps, whatever its saves do, is bounded in length and never stuck before the attempt has ended |
| `Stall.StallIff` | src/transport/receiver.rs:181-184 | for every file and code a stall with n blocks resumed is reachable exactly when 64 < n < total |
| `Runs.HonestSenderSupplies` | src/transport/sender.rs:128-162 | the premise of that theorem holds for every file, with an ideal code and ids that fit the header |
| `Runs.EmitBlock` | src/transport/receiver.rs:230-286 | from any reachable state of the loop, a block that has not come out yet can be made to come out, and nothing else moves |
| `EndToEnd.SourceToOutput` | src/engine/recv.rs:177-205 | file to file: in any run, after any crashes and attempts, if the datagrams read deliver the file within its repair symbols, the attempt ends with the source file as output |
| `EndToEnd.DeltaSourceToOutput` | src/main.rs:249-263 | delta sync: over an old file of any size, in any run of an attempt started in any reachable state, sending only the blocks the two do not share, the attempt ends with the source file |
| `EndToEnd.CompleteIffResumedOrTaken` | src/engine/recv.rs:129-205 | in any run the transfer counts as complete exactly when each block was resumed or taken out of the channel |
| `EndToEnd.StepKeepsUntouched` | src/engine/recv.rs:129-146 | every step keeps each block that has not been taken out of the channel as it was when the attempt began |
| `EndToEnd.DeliveredAttemptSucceeds` | src/engine/recv.rs:129-205 | with at most 64 blocks resumed (or all), once delivering datagrams have been read, every maximal run of the process by itself ends with the source file |
| `Delta.ComputeBlockHashes` | src/engine/delta.rs:10-35 | one hash per block, of exactly the bytes of that block |
| `Delta.DiffBlockHashes` | src/engine/delta.rs:39-55 | ascending, exactly the ids whose hash differs or is missing at the destination |
| `Delta.ChangedAndUnchangedPartition` | src/main.rs:249-263 | changed and skipped ids partition the blocks, and the statistics count them without underflow |
| `Delta.SkippedAreShared` | src/main.rs:249-263 | with an injective hash exactly the blocks shared with the destination are skipped |
| `Delta.DeltaPatches` | src/engine/recv.rs:80-146 | for a destination of any size, writing the blocks not skipped yields the source, and when the bitmap notices |
| `RateControl.RateController.UpdateOwdSample` | src/transport/rate_control.rs:89-111 | one sample has the specified effect on all fields |
| `RateControl.RateController.MaybeAdjustRate` | src/transport/rate_control.rs:136-175 | the adjustment of each mode, at most once per interval |
| `RateControl.RateController.ApplyReceiverSuggestion` | src/transport/rate_control.rs:115-134 | the suggestion applied within the policy of each mode |
| `RateControl.EnvelopeIffTargetAboveFloor` | src/transport/rate_control.rs:51-175 | the rate bounds hold in every state of every run exactly when the target is at least 8 Mbps |
| `RateControl.DelayEnvelope` | src/transport/rate_control.rs:89-102 | over every run the smoothed delay is at most the largest sample, and in microseconds at least the recorded minimum |
| `RateControl.NanosecondFloorIff` | src/transport/rate_control.rs:89-102 | in nanoseconds minimum at most smoothed delay holds in every run with a given least sample exactly when the recorded minimum is a whole number of microseconds |
| `RateControl.SubMicrosecondDip` | src/transport/rate_control.rs:98-101 | two samples of any delay that is no whole number of microseconds put the smoothed delay below the minimum |
| `RateControl.DelaySettles` | src/transport/rate_control.rs:94-108 | samples at the minimum leave exactly the iterated seven eighths of the excess, and nothing after six samples per binary digit of it |
| `RateControl.RateRecovers` | src/transport/rate_control.rs:136-182 | from then on the rate is back at its target after 20, 50 or 100 adjustments, by mode |
| `RateControl.AdjustIs` | src/transport/rate_control.rs:136-182 | when each mode backs off and speeds up, in whole microseconds, and to which rate |
| `RateControl.SampleMovesRate` | src/transport/rate_control.rs:89-175 | a sample moves the rate only 50 ms after the last change, and then by exactly that adjustment |
| `RateControl.CongestionReachesFloor` | src/transport/rate_control.rs:136-175 | under sustained congestion every adjustment takes at least 100 kB/s off the rate, in every mode, down to the floor and not below |
| `RateControl.StreakCountsRises` | src/transport/rate_control.rs:104-108 | in Fixed mode the streak is the number of samples that each raised the smoothed delay up to the last |
| `RateControl.SuggestionIs` | src/transport/rate_control.rs:115-134 | to which rate a suggestion leads in each mode |
| `DelayGradient.ReceiverRateCalculator.RecordOwd` | src/transport/rate_control.rs:240-246 | the stored history is the trimmed trace of everything recorded |
| `DelayGradient.ReceiverRateCalculator.OwdGradient` | src/transport/rate_control.rs:305-328 | the gradient of the stored history equals that of the untrimmed trace |
| `DelayGradient.StoredIsSuffix` | src/transport/rate_control.rs:241-245 | the stored history is a bounded suffix that never falls short of the regression window |
| `DelayGradient.TrimmingInvisible` | src/transport/rate_control.rs:241-245 | trimming never changes the gradient |
| `DelayGradient.DenominatorSign` | src/transport/rate_control.rs:321 | the denominator is never negative, and zero exactly when all timestamps coincide |
| `DelayGradient.ThresholdIsZeroTest` | src/transport/rate_control.rs:322-324 | on integer timestamps the tolerance test is an exact test for coinciding timestamps |
| `DelayGradient.SlopeOfLine` | src/transport/rate_control.rs:327 | samples on a line give exactly its slope |
| `DelayGradient.SlopeIgnoresClockOffset` | src/transport/rate_control.rs:327 | a constant clock offset changes nothing |
| `DelayGradient.SlopeIsLeastSquares` | src/transport/rate_control.rs:302-328 | no line fits the window better than the one with the computed slope |
| `DelayGradient.GradientOfTrace` | src/transport/rate_control.rs:305-328 | for every trace of at least ten samples the gradient from the stored history is zero if the last 200 timestamps coincide, otherwise the slope of a best fitting line, exact for samples on a line |
| `DelayGradient.GradientOfSamplesOnLine` | src/transport/rate_control.rs:305-328 | delays that grow by b per unit of time over the last 200 samples give the gradient b, sign and scale included |
| `DelayGradient.TooFewSamples` | src/transport/rate_control.rs:306-308 | fewer than ten samples give no gradient |
| `TimeoutPredictor.TimeoutPredictor.Record` | src/transport/timeout_predictor.rs:49-83 | one arrival has the specified effect, and the verdict compares it with the prediction made before it |
| `TimeoutPredictor.RunStaysBounded` | src/transport/timeout_predictor.rs:49-95 | margin in [1.2, 5], boost in [1, 3], history at most 256 with the newest arrival last, every arrival counted once |
| `TimeoutPredictor.LateIff` | src/transport/timeout_predictor.rs:39-57 | a block is late when more than the margin times its size could have arrived at the estimated rate, or after 30 s without an estimate |
| `TimeoutPredictor.MarginMoves` | src/transport/timeout_predictor.rs:59-67 | an arrival moves the margin by 1.1 or 0.99 within its bounds |
| `TimeoutPredictor.CountersCount` | src/transport/timeout_predictor.rs:59-64 | the late counter is the number of arrivals late when they came |
| `TimeoutPredictor.BoostIs` | src/transport/timeout_predictor.rs:87-95 | the boost is one plus twice the share of late blocks, once four have arrived |
| `TimeoutPredictor.SteadyRate` | src/transport/timeout_predictor.rs:70-75 | blocks that keep arriving at one rate pull the estimate to it by a factor of 0.8 each |
| `TimeoutPredictor.HistoryIsSuffix` | src/transport/timeout_predictor.rs:77-80 | the history is a suffix of all arrivals, at most 256 and never short of the last 129 |
| `TimeoutPredictor.FifteenLateBlocksSaturate` | src/transport/timeout_predictor.rs:59-67 | from any reachable state fifteen late blocks in a row drive the margin to its cap |
| `RateLimit.RateLimiter.CheckCall` | src/web/api.rs:56-74 | one call has the specified effect on the bucket and the answer |
| `RateLimit.RateLimiter.CleanupExpired` | src/web/api.rs:77-82 | exactly the entries younger than two windows are kept |
| `RateLimit.SeenAlone` | src/web/api.rs:56-82 | the limiter simulates one bucket per key that is never cleaned and sees no other key |
| `RateLimit.KeysIndependent` | src/web/api.rs:56-74 | the answers to a key depend on its own calls only |
| `RateLimit.CleanupInvisible` | src/web/api.rs:77-82 | cleanups inserted anywhere change no answer |
| `RateLimit.WindowHoldsMax` | src/web/api.rs:62-73 | the stored count is the number of calls allowed in the window, at most the maximum |
| `RateLimit.AllowedIff` | src/web/api.rs:56-74 | after any trace a call is allowed if and only if fewer than its maximum were allowed since its window began |
| `RateLimit.CleanupKeepsYoung` | src/web/api.rs:77-82 | a cleanup drops exactly the entries whose window began 120 s ago or more |
| `RateLimit.SlidingWindowBound` | src/web/api.rs:56-74 | any half-open 60 seconds of any trace hold at most 2 * max - 1 allowed calls of a key |
| `RateLimit.SlidingWindowTight` | src/web/api.rs:56-74 | for every maximum some trace attains that number |
| `Stun.BuildRequest` | src/transport/stun.rs:74-80 | the request is a 20-byte header with type, zero length, cookie and transaction id |
| `Stun.ParseStunResponse` | src/transport/stun.rs:93-144 | the loop terminates, reads only inside the datagram, and computes `Parse` |
| `Stun.ParseInvertsPrint` | src/transport/stun.rs:93-180 | after any padded non-address attributes and before anything at all, the encoded address and port come back exactly |
| `Stun.NoAddressNoResult` | src/transport/stun.rs:118-143 | well-formed attributes without an address end in the error for a missing one |
| `Stun.FirstAddressDecides` | src/transport/stun.rs:129-180 | the first address attribute decides: eight bytes and family 1 give an address, anything else the matching error, whatever follows |
| `Stun.BeyondLengthIgnored` | src/transport/stun.rs:115-118 | nothing beyond the length in the header is looked at, not even an address |
| `Stun.TruncatedAttributeRefused` | src/transport/stun.rs:123-125 | an attribute that claims more bytes than there are ends the search |
| `Stun.OnlyMatchingResponses` | src/transport/stun.rs:93-112 | an address is only taken from a binding response with the cookie and this transaction id |
| `Stun.HeaderRefusals` | src/transport/stun.rs:94-112 | which error a response gets before its attributes are looked at, in the order of the checks |

## Left out

- Sockets, socket options, sendmsg control messages, QUIC and TLS: the network is any sequence of datagrams, a system call an oracle for its outcome.
- The sender's loop for platforms other than Linux (src/transport/sender.rs:245-278): single datagrams with coarser pacing, no batching.
- The internals of RaptorQ, AES-GCM, HKDF, X25519, BLAKE3 and zstd: abstract functions with the laws listed under Assumptions.
- The compression path (src/engine/send.rs:210-218): the receiver never decompresses, so it has no inverse to prove.
- `compute_rate` (src/transport/rate_control.rs:258-300): its gradient step cannot fire, because the previous rate is overwritten with the current one on exit.
- `set_target_rate_mbps`, `packet_interval`, `batch_interval`: the first does not clamp the current rate again and is excluded from runs; the others only compute durations.
- The boosted repair ratio in the receive loop (src/transport/receiver.rs:153-167): it is only logged.
- The Done packet (src/transport/sender.rs:313-333): the receiver ignores it apart from its timestamp; only its handling on arrival is modelled.
- Receiver.UdpReceiver.AddSymbol: the decoder of a pending block is a value in the map and not a separate object, so aliasing between decoders is not captured.
- Receiver.Process: a decrypted payload stands for its encoding packet; the panic of the library on fewer than four authenticated bytes is not modelled.
- Gso.Flush: the cast of the segment size to 16 bits (src/transport/sender.rs:399) is not modelled; symbols of 900 bytes make packets of about 1,000.
- Gso.Pace: the bound assumes that the required time fits 64 bits of nanoseconds, since the sleep is cast to that width.
- Crypto.NoncesDistinct: is about one encryption context and fewer than 2^64 seals; `Crypto.NoncesCollideIff` states what holds beyond.
- Transfer.Exec: an I/O error that ends the writer early counts as a crash, and a buffered write that is lost later is not modelled.
- Transfer.CrashSafe: assumes one source file across attempts; another file is treated by `Writer.ResumedOverAnotherFile`.
- Progress bars, log lines, throughput figures, the sum of excess symbols, and the final hash of the output file.
- S3, SQLite, HTTP handlers, portal pages, desktop agent, command line parsing, directory walking, file names, logins.
- IPv6 STUN addresses: the parser rejects them, and the model does the same.
