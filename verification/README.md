# A verified model of the OST iSCSI toolkit

OST 2.0.1 is an iSCSI initiator, target and object-storage toolkit in C.  This project
models the parts of it that carry its promises and proves, for all inputs and all runs,
when those promises are kept.

* **Transfers** (`Iov`, `Socket`, `WriteSpec`, `WriteBursts`, `WriteSizes`, `WriteExchange`,
  `WriteInitiator`, `WriteTarget`, `R2tSlot`, `WriteSchedule`, `ReadTransfer`): a write is
  cut into immediate, unsolicited and solicited data under four negotiated limits, sent in
  however many pieces the socket takes, and reassembled by the target of the same
  repository, under any schedule of R2Ts; a read is scattered into a list of buffers.
* **Command life cycle** (`Lifecycle`, `LifecycleProofs`, `LifecycleSafety`,
  `LifecycleRecovery`, `LifecycleTheorems`, `LifecycleRuns`, `LifecycleHistory`, `Completion`,
  `InitiatorSession`): tx queue, tag hash, the two workers, abort and session recovery as a
  step relation, and the same steps as methods of a class; what the check of the byte
  counters can tell.
* **Directories** (`DirectoryPage`, `DirectoryModel`, `DirectoryTheorems`,
  `DirectoryReading`, `DirectorySeries`, `DirectoryRuns`, `Directory`): records packed in
  pages, against a list of entries; resumable reading with deletions in between.
* **Text, negotiation and CHAP** (`KeyText`, `Numbers`, `NumberTexts`, `Negotiation`,
  `NegotiationOutcomes`, `NegotiationEnd`, `Chap`, `ChapTheorems`, `ChapEnd`): two ends
  running one parser agree, and on what.
* **MD5** (`Md5Spec`, `Md5Message`, `Md5Transform`, `Md5Context`, `Md5Vectors`): the
  streaming code against RFC 1321, and its definitions against the digests given there.
* **PDU headers** (`PduHeader`, `PduData`, `PduCommand`, `PduLogin`): which values
  survive encoding and decoding.
* `ByteOrder` and `Sequences` hold what the others share.

Where the source changes objects or buffers in place the model has classes and arrays;
each of their methods is proved equal to a specification function, and the results are
proved about those functions.

## Where code and promise differ

The model follows the code.  Each of these is proved, with the exact condition under
which the promise is kept:

* A second R2T that arrives before the first is answered overwrites it
  (initiator.c:3069 compares with `> 1`), a range is never sent, and the byte counters of
  both ends cannot tell (`R2tSlot`, `WriteSchedule.ScheduleDeliversIff`,
  `Completion.OverlapReportedIff`).
* An R2T for the start of the buffer, answered in one PDU that is not the whole buffer,
  is refused by the socket layer: the list is not narrowed (`WriteExchange.CanAnswer`).
* The target reads immediate data into 65536 bytes without comparing, while negotiation
  allows a megabyte (`WriteExchange.ImmediateOverrun`); without a limit on segments, 2^24
  bytes go into one PDU whose header cannot say so (`WriteExchange.SegmentTooLong`).
* After a transfer in parts the socket layer puts the scatter list back at the place it has
  been narrowed to, not where it was (`Socket.Send`, `Socket.Receive`).
* With FirstBurstLength 0 every unsolicited Data-Out carries the F bit
  (`WriteBursts.FinalMarksLastIff`).
* A read that got too little completes with status 0: the counter only makes a warning
  (`Completion.ShortReadReported`).
* A response that overtakes the answer to an R2T runs the callback twice; recovery queues
  a command twice that is both queued and outstanding, and hands on a queued command's
  stale R2T (`LifecycleTheorems`, `LifecycleRuns.OvertakingResponse`).
* The scan of `initiator_abort` stops when it meets the first command again; when that is
  queued twice, the aborted command stays queued and completes again after a recovery
  (`LifecycleProofs.ScanMissesIff`, `LifecycleRuns.MissedAbort`).
* Deleting the only record of the last of several directory pages leaves a size that is a
  multiple of the page size: the page before is not shown
  (`DirectorySeries.UnderminedReading`), and further operations can lose an addition
  (`DirectoryTheorems.AdditionLost`, `DirectoryRuns.LossReached`).
* `osdfs_readdir` loses "." or ".." when the first call has no room for both, and passes
  over entries when deletions and additions between calls offset each other
  (`DirectorySeries.ReadingResumesIff`, `DirectoryReading.SkipsTheSmaller`).
* An answer that is no binary value is dropped with the rest of its text while the call
  returns success, so the two ends can differ without notice
  (`Negotiation.SilentlyEqualIff`, `SilentDisagreement`).
* An end whose last offer of a key was an inquiry does not commit a later offer by the
  other end; when both ends declare a key, the second commits its previous offer
  (`Negotiation`).
* A token without '=' is taken for the pair before it once more (`KeyText.Items`).
* `HexTextToData` drops the first two characters of every text that starts with '0'
  (`Numbers.HexWithoutPrefix`).
* `MD5Final` clears the size of a pointer, not of the context (`Md5Context`).
* The initiator's ISID check compares 32 bits, and holds for every ISID
  (`PduLogin.IsidEcho`).

## Model

| member | source | states |
|---|---|---|
| `Iov.FindOffset` | ost-2.0.1/src/util.c:673-685 | the first loop, over any window of the list: the piece in which byte `offset` lies and how far into it; fails exactly when the pieces hold no more than `offset` bytes, zero-length pieces included |
| `Iov.FindEnd` | ost-2.0.1/src/util.c:696-711 | the second loop: the piece in which `length` bytes end and by how much it is too long; fails exactly when the pieces are too short |
| `Iov.DropsSlice` | ost-2.0.1/src/util.c:687-692 | leaving out pieces and advancing one drops exactly the front of the addresses visited |
| `Iov.CutBack` | ost-2.0.1/src/util.c:712-713 | shortening a piece keeps exactly the first addresses |
| `Iov.DropBefore` | ost-2.0.1/src/util.c:671-692 | the first loop and store in place: fails exactly when there are no more than `offset` bytes, and then nothing has changed |
| `Iov.KeepUpTo` | ost-2.0.1/src/util.c:694-713 | the second loop and store in place: fails exactly when the pieces are too short; nothing is changed when all is kept |
| `Iov.ModifyIov` | ost-2.0.1/src/util.c:653-727 | in place, on any window: succeeds exactly when offset < total and offset + length <= total, and then the narrowed list visits exactly that slice of addresses; when all behind `offset` is kept only one piece has changed |
| `Socket.SumLengths` | ost-2.0.1/src/util.c:1156-1166 | the loop sums the lengths of the pieces |
| `Socket.Narrow` | ost-2.0.1/src/util.c:1222-1237 | after a partial transfer the list describes exactly what is left |
| `Socket.Send` | ost-2.0.1/src/util.c:1089-1283 | refused exactly when the list is not as long as announced; otherwise, however writes divide it, what goes out is a prefix of what the list describes, and all of it while the connection is up; where the pieces are put back, and when that is where they were |
| `Socket.WrittenMore` | ost-2.0.1/src/util.c:1201-1206 | a further part stored leaves what was stored before |
| `Socket.Receive` | ost-2.0.1/src/util.c:1089-1283 | the same for reading: what has come is stored at the addresses of the list, in order and nowhere else |
| `WriteSpec.CommandChain` | ost-2.0.1/src/initiator.c:2617-2840 | what is sent with the command and after it, unasked, is one stretch of the source buffer from 0 on, without gap or overlap |
| `WriteSpec.SolicitedChain` | ost-2.0.1/src/initiator.c:3105-3246 | what answers an R2T is exactly the stretch it asks for |
| `WriteSpec.WholeBufferIsSent` | ost-2.0.1/src/initiator.c:2547-2857 | for every parameter set and every in-order run of R2Ts covering the rest, immediate, unsolicited and solicited payloads together are the source buffer, and the bytes counted add up to its length, which is what completion checks |
| `WriteBursts.UnsolicitedNumbered` | ost-2.0.1/src/initiator.c:2715-2840 | unsolicited Data-Outs count DataSN 0, 1, 2, ..., are never empty and never larger than a segment |
| `WriteBursts.FinalMarksLastIff` | ost-2.0.1/src/initiator.c:2763-2767 | the F bit marks exactly the last unsolicited Data-Out if and only if there is a FirstBurstLength or at most one PDU (with FirstBurstLength 0 every PDU has it) |
| `WriteBursts.OnePduIff` | ost-2.0.1/src/initiator.c:2715-2840 | when the unsolicited burst is at most one PDU |
| `WriteBursts.CommandFinalIff` | ost-2.0.1/src/initiator.c:2617-2638 | the exact condition under which the command's F bit is clear just when Data-Outs follow; it fails for an empty write without immediate data and for immediate data that reaches the first burst but not the end |
| `WriteBursts.UnsolicitedTotal` | ost-2.0.1/src/initiator.c:2715-2840 | immediate plus unsolicited bytes are min(FirstBurstLength, transfer length) exactly when the immediate data does not exceed the first burst |
| `WriteBursts.SolicitedBurst` | ost-2.0.1/src/initiator.c:3105-3246 | a solicited burst counts DataSN from 0, carries the target's transfer tag, fits the segments and has the F bit on exactly its last PDU |
| `WriteSizes.ImmediateIs` | ost-2.0.1/src/initiator.c:2617-2638 | the immediate data is nothing, the whole buffer, or one full segment of it, and when which |
| `WriteSizes.UnsolicitedFilled` | ost-2.0.1/src/initiator.c:2732-2761 | every unsolicited PDU but the last is a full segment; without a limit there is one |
| `WriteSizes.SolicitedFilled` | ost-2.0.1/src/initiator.c:3150-3156 | the same for the answer to an R2T |
| `WriteSizes.AskForFilled` | ost-2.0.1/src/target.c:2142-2178 | every R2T but the last asks for MaxBurstLength bytes, at its place, under the target's one tag |
| `WriteSizes.AcceptIs` | ost-2.0.1/src/target.c:816-965 | what becomes of a command with any data: the exact conditions of each outcome, the blocks, the count and when the rest is asked for |
| `WriteSizes.PlaceIff` | ost-2.0.1/src/target.c:1706-1845 | a Data-Out is taken exactly when it fits segment, blocks and count and has the F bit if it completes them; then what it changes, and when the rest is asked for |
| `WriteExchange.AskForCovers` | ost-2.0.1/src/target.c:2142-2178 | the target's R2Ts ask for exactly what is left, in order, each at most MaxBurstLength |
| `WriteExchange.FeedChain` | ost-2.0.1/src/target.c:1706-1845 | the target that holds a prefix of the source and receives the next stretch holds the longer prefix, and asks for the rest once, exactly when the first burst is reached |
| `WriteExchange.CommandPhase` | ost-2.0.1/src/target.c:767-965 | the target gets through the command and the unsolicited data exactly when a guard on the parameters holds (first burst, its buffer for immediate data, 24-bit lengths, a MaxBurstLength); then it holds that prefix and its R2Ts cover the rest |
| `WriteExchange.AnswersAllIff` | ost-2.0.1/src/initiator.c:3105-3246 | the only R2T the initiator can be unable to answer is the first |
| `WriteExchange.CommandLengthTravels` | ost-2.0.1/src/iscsi.c:827-903 | the length of immediate data survives the command header exactly when it is below 2^24 |
| `WriteExchange.DataOutLengthTravels` | ost-2.0.1/src/iscsi.c:1070-1131 | a Data-Out header is accepted exactly when its length is below 2^24 |
| `WriteExchange.ExchangeDelivers` | ost-2.0.1/src/initiator.c:2547-2857 | initiator and target together: the target's blocks become the source buffer if and only if a guard on the parameters holds (a MaxBurstLength; immediate data within the first burst and the target's 65536-byte buffer; every PDU below 2^24 bytes; no single-PDU answer to a partial R2T at offset 0); otherwise the write is not carried through |
| `WriteExchange.ImmediateOverrun` | ost-2.0.1/src/target.c:896-905 | with limits that negotiation allows, a megabyte of immediate data goes beyond the target's buffer for it |
| `WriteExchange.SegmentTooLong` | ost-2.0.1/src/iscsi.c:1070-1131 | without limits 2^24 bytes go out as one Data-Out, whose header is refused |
| `WriteExchange.AcceptIff` | ost-2.0.1/src/target.c:816-906 | the target takes the command exactly when its immediate data fits FirstBurstLength and the 65536-byte buffer it is read into, and overruns that buffer exactly when only the second fails |
| `WriteInitiator.WriteCommand.Narrowed` | ost-2.0.1/src/initiator.c:2649-2700 | the copied list, narrowed to a range, visits exactly those bytes of the buffer |
| `WriteInitiator.WriteCommand.SocketSend` | ost-2.0.1/src/util.c:1089-1283 | a list handed to the socket goes out exactly when it is as long as announced, and then, in however many writes, it is the bytes the list describes |
| `WriteInitiator.WriteCommand.SendCommand` | ost-2.0.1/src/initiator.c:2547-2857 | puts exactly the specified PDUs on the wire and counts their bytes |
| `WriteInitiator.WriteCommand.SendCommandPdu` | ost-2.0.1/src/initiator.c:2615-2712 | the command PDU with its F bit and immediate data |
| `WriteInitiator.WriteCommand.SendUnsolicited` | ost-2.0.1/src/initiator.c:2715-2840 | the do-while loop sends exactly the unsolicited PDUs and ends |
| `WriteInitiator.WriteCommand.ChunkLength` | ost-2.0.1/src/initiator.c:2732-2761 | the nested choice of a length is never 0 and never beyond segment, burst or buffer |
| `WriteInitiator.WriteCommand.R2tReceived` | ost-2.0.1/src/initiator.c:3061-3097 | the slot is overwritten, also by a second waiting R2T; refused exactly when two wait already |
| `WriteInitiator.WriteCommand.R2tAnswer` | ost-2.0.1/src/initiator.c:3105-3246 | succeeds exactly when the range lies in the buffer and can be answered, and then sends exactly the specified burst |
| `WriteInitiator.WriteCommand.AnswerOne` | ost-2.0.1/src/initiator.c:3140-3235 | one turn of that loop, with the exact condition under which the socket layer refuses |
| `WriteInitiator.WriteCommand.Write` | ost-2.0.1/src/initiator.c:2547-3246 | a whole write in place, for R2Ts that cover the rest: when each can be answered the wire's payload is the source buffer and bytes_todev equals trans_len; when one cannot, that is noticed and fewer bytes are counted |
| `WriteTarget.TargetCommand.Receive` | ost-2.0.1/src/target.c:767-965 | the command phase in place is the specified one for any data and any announced length: refused, over the buffer, out of step with the header, or started |
| `WriteTarget.TargetCommand.TransferData` | ost-2.0.1/src/target.c:2094-2183 | the loop issues exactly the specified R2Ts |
| `WriteTarget.TargetCommand.ReceiveData` | ost-2.0.1/src/target.c:1706-1845 | a Data-Out in place is the specified step, and refused exactly when that is |
| `R2tSlot.SerialServesAll` | ost-2.0.1/src/initiator.c:3061-3097 | when each R2T is answered before the next arrives, exactly the issued ranges are sent |
| `R2tSlot.OverlapLosesARange` | ost-2.0.1/src/initiator.c:3061-3097 | otherwise some range asked for is never sent, although nothing is reported |
| `R2tSlot.AllServedIffSerial` | ost-2.0.1/src/initiator.c:3061-3097 | for R2Ts covering a range, all are served if and only if the run is serial |
| `R2tSlot.CounterCannotTell` | ost-2.0.1/src/initiator.c:3283-3286 | with two R2Ts of one length the byte counter the response is checked against is the same in the good and the bad run |
| `R2tSlot.OneR2tIff` | ost-2.0.1/src/target.c:2142-2178 | the target issues at most one R2T, so that no overlap is possible, exactly when the rest fits MaxBurstLength |
| `R2tSlot.ServedIff` | ost-2.0.1/src/initiator.c:3061-3097 | a session holds out exactly when never more than two R2Ts of a command wait and none is answered that does not |
| `R2tSlot.ThirdBreaks` | ost-2.0.1/src/initiator.c:3068-3073 | three R2Ts received in a row break the session, whatever follows |
| `WriteSchedule.NotSerialLoses` | ost-2.0.1/src/initiator.c:3061-3246 | after a schedule that is not serial some byte of the blocks is not what it was to be |
| `WriteSchedule.SerialIsExchange` | ost-2.0.1/src/initiator.c:3061-3246 | a serial schedule is the exchange in which each R2T is answered before the next |
| `WriteSchedule.ScheduleDeliversIff` | ost-2.0.1/src/initiator.c:3061-3246 | under any schedule of receiving and answering the target's R2Ts, the blocks become the source, whatever they held, if and only if the parameters pass the guard and the schedule is serial |
| `WriteSchedule.OverlapUnnoticed` | ost-2.0.1/src/initiator.c:3283-3286 | two R2Ts of one length that overlap: both ends count the whole transfer, and the blocks are wrong |
| `Completion.WriteReportedIff` | ost-2.0.1/src/initiator.c:1525-1548 | a write completes with status 0 exactly when the ranges served are together as long as those asked for, whichever they are |
| `Completion.SerialReported` | ost-2.0.1/src/initiator.c:1525-1548 | a write whose R2Ts are answered one by one completes with status 0 |
| `Completion.OverlapReportedIff` | ost-2.0.1/src/initiator.c:1525-1548 | of two R2Ts that overlap, only lengths that differ are found out |
| `Completion.CheckedIff` | ost-2.0.1/src/initiator.c:1520-1543 | a SCSI command with status 0 keeps it exactly when the counters are what was asked for in each direction: none, write, both; a command that only reads keeps any status |
| `Completion.NotChecked` | ost-2.0.1/src/initiator.c:1520-1521 | commands of other kinds, and aborted ones, keep their status |
| `ReadTransfer.StoreIsSplice` | ost-2.0.1/src/initiator.c:3415-3424 | storing a PDU's data at a slice of the list's addresses splices it into the received data and touches nothing else |
| `ReadTransfer.ReadCommand.Trim` | ost-2.0.1/src/initiator.c:3363-3402 | the two-loop trim yields exactly the slice [offset, offset + length) of the flattened list, and runs off the list exactly when that slice is not in it |
| `ReadTransfer.ReadCommand.ReadData` | ost-2.0.1/src/initiator.c:3325-3463 | for any PDU and however reads divide it: exactly when it is refused, out of the list, or stored; stored, the received data becomes the old data with the PDU's at its offset (at 0 when it is as long as the transfer) and the counter grows by its length; when the connection ends, the part that came is stored |
| `ReadTransfer.AppliedByte` | ost-2.0.1/src/initiator.c:3358-3424 | after any PDUs a byte is the sent one if some PDU carried it, and otherwise what it was |
| `ReadTransfer.BytesByPosition` | ost-2.0.1/src/initiator.c:3423-3423 | the byte counter is the sum over all positions of how often each was carried |
| `ReadTransfer.ReadDelivers` | ost-2.0.1/src/initiator.c:3325-3463 | in any order: the buffer ends as the data sent exactly when every byte was carried or already right; when all were carried, the counter equals the transfer length exactly when none was carried twice |
| `ReadTransfer.ReadCommand.ReadAll` | ost-2.0.1/src/initiator.c:3325-3463 | a run of Data-Ins in place: exactly when all are taken; the buffer is then the fold of the PDUs, and, when they carry what was sent in any order, ends as sent exactly when every byte was carried or already right, with the counter telling repetitions |
| `LifecycleProofs.ScannedMultiset` | ost-2.0.1/src/initiator.c:1060-1072 | for any queue, repeated entries included, the scan of `initiator_abort` takes one entry of the command if it finds it and nothing otherwise |
| `LifecycleProofs.ScanMissesIff` | ost-2.0.1/src/initiator.c:1060-1072 | it leaves the command queued exactly when the command is queued twice or the first entry is queued again before it |
| `LifecycleProofs.ScannedMembers` | ost-2.0.1/src/initiator.c:1060-1072 | no other command enters or leaves the queue, for any queue |
| `LifecycleProofs.R2tKeepsIff` | ost-2.0.1/src/initiator.c:3061-3097 | an R2T keeps the stricter invariant `Inv` exactly when no other waits and the queue has room |
| `LifecycleProofs.ResponseKeepsIff` | ost-2.0.1/src/initiator.c:1505-1557 | a response keeps `Inv` exactly when no R2T of the command waits |
| `LifecycleProofs.AbortKeepsIff` | ost-2.0.1/src/initiator.c:1054-1083 | an abort keeps `Inv` exactly when the command is incomplete and not a no-ping NOP-Out being sent |
| `LifecycleProofs.TakeKeeps` | ost-2.0.1/src/initiator.c:1617-1640 | the tx worker's atomic dequeue and hash insert keep it |
| `LifecycleProofs.SentKeeps` | ost-2.0.1/src/initiator.c:1719-1732 | finishing a transmission keeps it |
| `LifecycleRecovery.DrainResult` | ost-2.0.1/src/initiator.c:543-557 | the first loops of recovery, with commands queued twice or not, keep exactly the other commands of the queue and complete its session commands as aborted |
| `LifecycleRecovery.RequeueResult` | ost-2.0.1/src/initiator.c:559-582 | the third loop requeues every other outstanding command once, reset, or fails exactly when they do not fit |
| `LifecycleSafety.StepSafeIff` | ost-2.0.1/src/initiator.c:1505-1857 | `Safe` (callbacks at most once and not early, a completed command neither queued nor outstanding; commands may be queued twice and the session may have failed) is kept by each step if and only if it is careful: a response does not overtake the answer to an R2T, and an abort is of an incomplete command that its scan finds |
| `LifecycleSafety.ResponseSafeIff` | ost-2.0.1/src/initiator.c:1505-1557 | a response keeps `Safe` exactly when its command is not queued |
| `LifecycleSafety.AbortSafeIff` | ost-2.0.1/src/initiator.c:1054-1083 | an abort keeps `Safe` exactly when it is careful |
| `LifecycleSafety.RecoverSafe` | ost-2.0.1/src/initiator.c:498-613 | recovery keeps `Safe` always, from failed states and with commands queued twice |
| `LifecycleSafety.InvIsSafe` | ost-2.0.1/src/initiator.c:1505-1857 | the stricter invariant implies it |
| `LifecycleTheorems.RecoveryConserves` | ost-2.0.1/src/initiator.c:543-606 | recovery from any safe state, failed or with commands queued twice: fails exactly when the survivors exceed the queue; otherwise the queue holds exactly the survivors of queue and hash, once for each time held, the hash is empty and session commands are completed as aborted |
| `LifecycleTheorems.OverlapDuplicates` | ost-2.0.1/src/initiator.c:543-606 | a command both queued and outstanding is queued twice by recovery |
| `LifecycleTheorems.StepKeepsInvIff` | ost-2.0.1/src/initiator.c:1505-1857 | the stricter invariant `Inv` (no command queued twice, at most one R2T waiting, nothing lost) is kept by each step if and only if it is orderly |
| `LifecycleTheorems.RunKeepsInv` | ost-2.0.1/src/initiator.c:1505-1857 | every orderly run keeps it, from any state that has it |
| `LifecycleTheorems.RunKeepsSafe` | ost-2.0.1/src/initiator.c:1505-1857 | every careful run keeps `Safe`, from any state that has it |
| `LifecycleTheorems.AtMostOnce` | ost-2.0.1/src/initiator.c:1505-1557 | over every careful run, with two R2Ts of a command waiting, session errors and recoveries: each command's callback runs at most once, never before tx_done unless it was aborted or is a no-ping NOP-Out, and a completed command is neither queued nor outstanding |
| `LifecycleTheorems.NothingLost` | ost-2.0.1/src/initiator.c:1505-1557 | over every orderly run a command whose callback has not run is still in the session's hands, queued at most once |
| `LifecycleTheorems.FreshStart` | ost-2.0.1/src/initiator.c:2558-2561 | a command taken up afresh has moved no bytes, so the check at the head of `scsi_command_i` cannot fail |
| `LifecycleTheorems.FreshAfterRecoveryIff` | ost-2.0.1/src/initiator.c:559-582 | recovery hands on only fresh commands exactly when no queued command was waiting to answer an R2T |
| `LifecycleTheorems.ScanIsRotation` | ost-2.0.1/src/initiator.c:1060-1072 | the scan drops one entry of the command if it finds it and leaves the rest in the same cyclic order, for any queue |
| `LifecycleTheorems.ResponseBeforeAnswerCompletesTwice` | ost-2.0.1/src/initiator.c:1780-1792 | a response that overtakes the answer to an R2T makes the callback run twice |
| `LifecycleRuns.OvertakingResponse` | ost-2.0.1/src/initiator.c:1780-1792 | a run from the first state of a session that reaches such a response, and two callbacks |
| `LifecycleRuns.MissedAbort` | ost-2.0.1/src/initiator.c:1060-1072 | a run from the first state in which the scan of an abort stops at a command queued twice: the aborted command completes, stays queued, and after a recovery completes again |
| `LifecycleHistory.TakeWaits` | ost-2.0.1/src/initiator.c:1622-1630 | until login is through a SCSI command or a NOP-Out at the head of the queue goes back to its end, and nothing of it is hashed or sent |
| `LifecycleHistory.RunsLoginFirst` | ost-2.0.1/src/initiator.c:1617-1660 | over every run, from any state: a step taken outside the full-feature phase sends login, text and logout commands only |
| `LifecycleHistory.TakeSends` | ost-2.0.1/src/initiator.c:1631-1660 | what goes out is hashed and out of the queue; an aborted command is hashed only |
| `LifecycleHistory.R2tCounted` | ost-2.0.1/src/initiator.c:3061-3097 | an R2T is counted; a third waiting one or a full queue breaks the session; after the last one the command is not in the hash |
| `LifecycleHistory.DataInCounted` | ost-2.0.1/src/initiator.c:3423-3423 | data that arrives is counted and nothing else changes |
| `LifecycleHistory.EnqueuedFresh` | ost-2.0.1/src/initiator.c:1164-1259 | a new command is queued with nothing done, unless 64 are queued |
| `LifecycleHistory.SentReported` | ost-2.0.1/src/initiator.c:1719-1732 | after a transmission one R2T less waits, the bytes are counted and tx_done is set; a NOP-Out without ping is complete instead |
| `LifecycleHistory.AbortCompletes` | ost-2.0.1/src/initiator.c:1054-1083 | an abort marks the command, runs its callback, takes it out of the hash and touches no other |
| `LifecycleHistory.RecoveredAfresh` | ost-2.0.1/src/initiator.c:498-613 | after a recovery: what was outstanding is queued and starts over, field by field; session commands are aborted and complete; what was only queued is as it was |
| `LifecycleHistory.CallbacksCounted` | ost-2.0.1/src/initiator.c:1505-1557 | over every run, careful or not, the callback of a SCSI command or a ping has run exactly as often as a response to it or an abort of it was dealt with; recoveries run none |
| `InitiatorSession.Session.EnqueueCmd` | ost-2.0.1/src/initiator.c:1164-1259 | the command is queued, fresh, unless the queue is full |
| `InitiatorSession.Session.DoneCmd` | ost-2.0.1/src/initiator.c:1505-1557 | leaves the hash and runs the callback; refused exactly when neither outstanding nor aborted; with given status 0 the callback sees 0 exactly when both counters are 0 (no data), both are as asked (bidirectional) or bytes_todev is (write); a read alone, an abort and other kinds keep the given status |
| `InitiatorSession.Session.AbortCmd` | ost-2.0.1/src/initiator.c:1054-1083 | the abort step, with status -1, in at most one dequeue more than the queue is long |
| `InitiatorSession.Session.ScanQueue` | ost-2.0.1/src/initiator.c:1060-1072 | the rotating loop ends and leaves exactly the specified queue |
| `InitiatorSession.Session.DrainQueue` | ost-2.0.1/src/initiator.c:543-557 | the first two loops of recovery in place, for queues with repetitions |
| `InitiatorSession.Session.RequeueHash` | ost-2.0.1/src/initiator.c:559-582 | the third loop in place, for any bucket order |
| `InitiatorSession.Session.Destroy` | ost-2.0.1/src/initiator.c:498-613 | recovery in place, from any safe state: conserves the commands, keeps `Safe`, and keeps `Inv` exactly when it was orderly |
| `InitiatorSession.Session.TakeCmd` | ost-2.0.1/src/initiator.c:1617-1660 | the tx worker's take in place; outside the full-feature phase a SCSI command or NOP-Out moves from head to tail and nothing else changes |
| `InitiatorSession.Session.R2tArrives` | ost-2.0.1/src/initiator.c:3061-3097 | receiving an R2T, with the last one leaving the hash |
| `Md5Transform.OptimisedForms` | ost-2.0.1/src/md5.c:182-186 | F1 to F4 are the RFC 1321 functions F, G, H and I for all words |
| `Md5Transform.SameSum` | ost-2.0.1/src/md5.c:189-190 | the order in which the step adds makes no difference |
| `Md5Transform.Next1` | ost-2.0.1/src/md5.c:189-190 | a step of round 1 written out is the RFC's operation |
| `Md5Transform.Next2` | ost-2.0.1/src/md5.c:189-190 | a step of round 2 likewise |
| `Md5Transform.Next3` | ost-2.0.1/src/md5.c:189-190 | a step of round 3 likewise |
| `Md5Transform.Next4` | ost-2.0.1/src/md5.c:189-190 | a step of round 4 likewise |
| `Md5Transform.Round1` | ost-2.0.1/src/md5.c:207-222 | the 16 lines of round 1, with their words, constants and shifts, are operations 0 to 15 |
| `Md5Transform.Round2` | ost-2.0.1/src/md5.c:224-239 | round 2 is operations 16 to 31 |
| `Md5Transform.Round3` | ost-2.0.1/src/md5.c:241-256 | round 3 is operations 32 to 47 |
| `Md5Transform.Round4` | ost-2.0.1/src/md5.c:258-273 | round 4 is operations 48 to 63 |
| `Md5Transform.Transform` | ost-2.0.1/src/md5.c:197-279 | in place: the RFC's compression of the block |
| `Md5Message.PaddingLosesNothing` | ost-2.0.1/src/md5.c:149-171 | different messages are padded differently |
| `Md5Context.Carry` | ost-2.0.1/src/md5.c:113-115 | the carry between the two counter words is right for every length |
| `Md5Context.BitCount` | ost-2.0.1/src/md5.c:168-170 | the two words stored at the end are the 64-bit count of bits, low word first |
| `Md5Context.Grown` | ost-2.0.1/src/md5.c:117-121 | data that does not fill the block is held, and digests nothing |
| `Md5Context.Filled` | ost-2.0.1/src/md5.c:122-127 | data that fills the block digests it |
| `Md5Context.PadOne` | ost-2.0.1/src/md5.c:149-171 | at most 55 bytes held: one last block ends the digest of the padded message |
| `Md5Context.PadTwo` | ost-2.0.1/src/md5.c:149-171 | more than 55 bytes held: two blocks do |
| `Md5Context.Context.Init` | ost-2.0.1/src/md5.c:90-100 | the context of the empty message |
| `Md5Context.Context.Update` | ost-2.0.1/src/md5.c:106-140 | any data, in any chunks: the context becomes that of the message with the data appended (complete blocks digested, rest held, counter the length modulo 2^64) |
| `Md5Context.Context.DigestBlocks` | ost-2.0.1/src/md5.c:129-136 | the loop over complete blocks |
| `Md5Context.Context.Final` | ost-2.0.1/src/md5.c:146-176 | the digest of the whole message as RFC 1321 defines it; of the context only the first two words are cleared |
| `Md5Vectors.EmptyDigest` | ost-2.0.1/src/md5.c:146-279 | the digest of the empty message is the one RFC 1321 gives in A.5, as 16 literal bytes |
| `Md5Vectors.AbcDigest` | ost-2.0.1/src/md5.c:146-279 | the digest of "abc" is the one given there |
| `Md5Vectors.DigitsDigest` | ost-2.0.1/src/md5.c:146-279 | the digest of the 80-digit message, which takes two blocks, is the one given there |
| `DirectoryPage.ScanAt` | ost-2.0.1/src/osdfs.c:402-411 | on a page that holds a list of entries, a scan that passed k records finds the next one's name and number, or the closing zero |
| `DirectoryPage.RecordBytes` | ost-2.0.1/src/osdfs.c:293-297 | a record byte by byte: name, zero, inode number from its low byte up, zero |
| `DirectoryPage.AppendsRecord` | ost-2.0.1/src/osdfs.c:293-297 | a record written behind the last one appends its entry |
| `DirectoryPage.HidesRecord` | ost-2.0.1/src/osdfs.c:293-297 | a record written further on is met by no scan |
| `DirectoryPage.RemovesRecord` | ost-2.0.1/src/osdfs.c:344-345 | cutting a record out removes its entry and no other, in order |
| `DirectoryPage.Strlen` | ost-2.0.1/src/osdfs.c:381-382 | the length of a C string on the page |
| `DirectoryPage.Strcmp` | ost-2.0.1/src/osdfs.c:340-340 | equality of a C string on the page with a name |
| `DirectoryPage.StoreRecord` | ost-2.0.1/src/osdfs.c:293-297 | the stores of `entry_add` write exactly one record |
| `DirectoryPage.CutRecord` | ost-2.0.1/src/osdfs.c:344-345 | memcpy and memset shift the rest down and zero the end |
| `DirectoryModel.AddLandsIff` | ost-2.0.1/src/osdfs.c:257-322 | `entry_add` appends the entry if and only if the size ends where the last page's records end, or a page is begun; otherwise the list is unchanged, and the size stays wrong |
| `DirectoryModel.AddGrows` | ost-2.0.1/src/osdfs.c:257-322 | the size grows by the record in every state, from the end of the pages when one is begun |
| `DirectoryModel.RemovesFirst` | ost-2.0.1/src/osdfs.c:333-346 | what is cut is the first entry of that name in the directory |
| `DirectoryModel.DeleteRemoves` | ost-2.0.1/src/osdfs.c:324-392 | `entry_del` removes the first entry of the name and nothing else, in every state; the size stays right exactly unless the last of several pages becomes empty |
| `DirectoryTheorems.RunRefinesList` | ost-2.0.1/src/osdfs.c:257-392 | any run of additions and deletions is the same run on a list, as long as every addition lands |
| `DirectoryTheorems.RunStaysTight` | ost-2.0.1/src/osdfs.c:257-392 | from a right size, a run that never empties the last of several pages keeps it right, so every addition lands |
| `DirectoryTheorems.AdditionsNeverUndermine` | ost-2.0.1/src/osdfs.c:257-322 | additions alone never empty a page |
| `DirectoryTheorems.RunsFromEmpty` | ost-2.0.1/src/osdfs.c:257-392 | the same from the empty directory |
| `DirectoryTheorems.AdditionLost` | ost-2.0.1/src/osdfs.c:350-354 | how an entry is lost: the sole record of the last page is deleted, then one of the page before, then one is added that fits there |
| `DirectoryRuns.LossReached` | ost-2.0.1/src/osdfs.c:257-392 | six operations from the empty directory, for any four entries of suitable lengths, after which the last addition is not there although the list has it |
| `DirectoryRuns.LossExample` | ost-2.0.1/src/osdfs.c:257-392 | such entries exist |
| `DirectoryTheorems.LookupFinds` | ost-2.0.1/src/osdfs.c:638-690 | with unique names a look-up gives the entry of the name if there is one, on whatever page, and nothing otherwise |
| `DirectoryTheorems.UniqueKept` | ost-2.0.1/src/osdfs.c:257-392 | names stay unique under addition of a new name and any deletion |
| `DirectoryReading.AllVisibleIff` | ost-2.0.1/src/osdfs.c:1010-1014 | `osdfs_readdir` shows the last page unless the size is a multiple of the page size; so everything is visible whenever the size is right |
| `DirectoryReading.FillShows` | ost-2.0.1/src/osdfs.c:1015-1046 | the loops skip and then give out exactly what there is room for |
| `DirectoryReading.FillStops` | ost-2.0.1/src/osdfs.c:1015-1046 | at the first inode number outside 0xabc123 to 0xfff123, if there is room to get there, reading stops with an error |
| `DirectoryReading.HeadCut` | ost-2.0.1/src/osdfs.c:984-1002 | a buffer too small for "." or ".." fails the call, which has moved past one more than it showed |
| `DirectoryReading.CallFromPos` | ost-2.0.1/src/osdfs.c:960-1064 | a call past the first two positions gives the entries from the resumed position on, as many as there is room for, and moves by as many |
| `DirectoryReading.DropKeeps` | ost-2.0.1/src/osdfs.c:975-982 | deleting an entry already shown moves the place to resume and leaves what comes there |
| `DirectorySeries.ReadingSurvives` | ost-2.0.1/src/osdfs.c:960-1064 | on a directory of pages that hides nothing: wherever calls are cut and whatever entries already shown are deleted by name in between, on any page, the last one's only entry included, the calls together show what is left, each entry once, in order |
| `DirectorySeries.ReadingFromStart` | ost-2.0.1/src/osdfs.c:960-1064 | the same from the beginning, with "." and ".." first, whenever the size is right |
| `DirectorySeries.StaysVisible` | ost-2.0.1/src/osdfs.c:324-392 | a deletion that does not empty the last of several pages hides nothing |
| `DirectorySeries.LooksShowVisible` | ost-2.0.1/src/osdfs.c:1005-1049 | in every state, calls from a position show exactly what is visible behind it |
| `DirectorySeries.UnderminedReading` | ost-2.0.1/src/osdfs.c:1010-1014 | after a deletion that empties the last of several pages: the entries are all there, the page before is hidden, and a reading misses something exactly unless that page is empty, was shown already, or is beyond the room |
| `DirectorySeries.ReadingResumesIff` | ost-2.0.1/src/osdfs.c:984-1002 | in every state, reading an unchanged directory shows the listing of what is visible if and only if the first call has room for "." and ".." or nothing is read after it |
| `DirectoryReading.SkipsTheSmaller` | ost-2.0.1/src/osdfs.c:975-982 | deletions made up for by additions between two calls make the next call pass over exactly the smaller number of entries not yet shown |
| `Directory.Directory.EntryNum` | ost-2.0.1/src/osdfs.c:394-416 | the length of the list |
| `Directory.Directory.LookupName` | ost-2.0.1/src/osdfs.c:638-690 | the look-up in place, pages last to first |
| `Directory.Directory.EntryAdd` | ost-2.0.1/src/osdfs.c:257-322 | the page bytes and the size become those of the specified addition; the entry is appended exactly under the stated condition |
| `Directory.Directory.EntryDel` | ost-2.0.1/src/osdfs.c:324-392 | the page bytes and the size become those of the specified deletion; true exactly when the name was there |
| `Directory.Directory.Readdir` | ost-2.0.1/src/osdfs.c:960-1064 | one call in place: what is shown, the return value and the new position are the specified ones |
| `Directory.Directory.ReadAndDelete` | ost-2.0.1/src/osdfs.c:960-1064 | calls and deletions in turn, in place, show what the specified series shows |
| `Directory.Directory.ReadPages` | ost-2.0.1/src/osdfs.c:1005-1049 | the loops over pages and records |
| `Directory.PageAdded` | ost-2.0.1/src/osdfs.c:287-306 | the written page holds what the addition says and is zero behind the size |
| `Directory.DeletedPage` | ost-2.0.1/src/osdfs.c:339-358 | the same for the deletion, for every page |
| `KeyText.RoundTripIff` | ost-2.0.1/src/parameters.c:724-751 | the tokens read back are the pairs written, with any NUL padding, if and only if no key holds '=' or NUL and no value holds NUL |
| `KeyText.HandedOnIff` | ost-2.0.1/src/parameters.c:724-768 | exactly the pairs written are handed on, in order, if and only if they are plain and their keys are shorter than 63 characters; a token without '=', taken for the last pair again, never makes up for it |
| `KeyText.Repeats` | ost-2.0.1/src/parameters.c:724-751 | a token without '=' repeats the pair before it, passing over a key of 63 characters or more |
| `KeyText.TextAdd` | ost-2.0.1/src/parameters.c:350-360 | a pair is appended to the text, or refused without trace exactly when it does not fit 4096 bytes |
| `KeyText.TextAddAll` | ost-2.0.1/src/parameters.c:350-360 | successive additions write the text of the pairs, all of them when they fit; the length never exceeds the bound |
| `KeyText.Parse` | ost-2.0.1/src/parameters.c:724-768 | the scanning loop yields exactly the specified items: pairs, repeated pairs for tokens without '=', keys too long |
| `Numbers.AtoiDecimal` | ost-2.0.1/src/parameters.c:362-370 | a number printed and parsed is the same number |
| `NumberTexts.DecimalIsValue` | ost-2.0.1/src/parameters.c:1022-1022 | a number is printed as the digits of its positional value, without a leading zero |
| `NumberTexts.AtoiIsValue` | ost-2.0.1/src/parameters.c:362-370 | a text is read as the positional value of the digits it starts with, whatever follows |
| `Numbers.DriverAtoi` | ost-2.0.1/src/parameters.c:362-370 | the loop computes the value of the leading digits |
| `Numbers.HexRoundTrip` | ost-2.0.1/src/util.c:1502-1618 | hexadecimal text of data reads back as the data exactly when there is some and it fits the buffer |
| `Numbers.HexWithoutPrefix` | ost-2.0.1/src/util.c:1559-1563 | digits without the 0x prefix read back exactly when they do not start with '0', because the test of the prefix is always true |
| `NumberTexts.HexTextIs` | ost-2.0.1/src/util.c:1502-1546 | the text of data is 0x and two lower-case digits a byte, the high one first |
| `NumberTexts.UpperRoundTrip` | ost-2.0.1/src/util.c:1480-1618 | upper-case text of data is read as the data too |
| `NumberTexts.HexDataFailsIff` | ost-2.0.1/src/util.c:1549-1618 | text is read exactly when there are digits, all are hexadecimal and there is room; an odd first digit is a byte of its own |
| `Numbers.HexDataToText` | ost-2.0.1/src/util.c:1502-1546 | fails exactly when there is no data or the text does not fit the buffer; otherwise the loop writes exactly the specified text |
| `Numbers.HexTextToData` | ost-2.0.1/src/util.c:1549-1618 | the loop yields exactly the specified data or failure |
| `Numbers.AllWritten` | ost-2.0.1/src/util.c:1564-1618 | when the conversion succeeds, what was stored is the result |
| `Negotiation.NumberIsMeet` | ost-2.0.1/src/parameters.c:997-1022 | a numerical answer is the largest value within both limits (0 meaning none for NUMERICAL_Z), and both ends commit it |
| `Negotiation.FirstInMember` | ost-2.0.1/src/parameters.c:956-995 | a list answer is the first offered value that is supported, or there is none |
| `Negotiation.RoundAgreesIff` | ost-2.0.1/src/parameters.c:769-1181 | in one round every call returns 0 and nothing is dropped if and only if the offer is agreeable to the two ends, and then both commit the agreed value; an end with an answered inquiry on record does not |
| `Negotiation.SilentlyEqualIff` | ost-2.0.1/src/parameters.c:769-1181 | without old inquiries, after a round in which every call returns 0 the two ends are equal if and only if the offer was not nonsense for a binary key, or the offerer had the No the responder commits |
| `Negotiation.SilentDisagreement` | ost-2.0.1/src/parameters.c:1060-1097 | InitialR2T offered as "maybe": every call returns 0, the offerer keeps Yes, the responder commits No |
| `NegotiationOutcomes.BinarySettles` | ost-2.0.1/src/parameters.c:902-919 | a binary value offered is settled as Yes or No at both ends: as offered if the responder supports both values, else by the or, or the and, of the offer and the one value supported |
| `NegotiationOutcomes.IrrelevantIsNo` | ost-2.0.1/src/parameters.c:1060-1097 | an answer Irrelevant counts as a no |
| `NegotiationOutcomes.ListSettles` | ost-2.0.1/src/parameters.c:956-995 | a list is settled on the first offered value among the responder's, or Reject; the round succeeds exactly when the offerer supports that too or it is one of four words |
| `NegotiationOutcomes.SplitIs` | ost-2.0.1/src/parameters.c:956-995 | the values of a list are what stands between its commas |
| `NegotiationOutcomes.NumberSettles` | ost-2.0.1/src/parameters.c:997-1022 | both ends commit the smaller of offer and limit, a 0 standing for no limit where the type says so |
| `NegotiationOutcomes.DeclarationSettles` | ost-2.0.1/src/parameters.c:1038-1060 | a declared value is what both ends have |
| `NegotiationOutcomes.InquiryTells` | ost-2.0.1/src/parameters.c:877-895 | an inquiry is answered with the responder's value |
| `Negotiation.OwnOffersAgree` | ost-2.0.1/src/parameters.c:956-995 | offers drawn from the offerer's own list are always agreeable; the answer is offered and supported, or Reject |
| `Negotiation.InquiryChangesNothing` | ost-2.0.1/src/parameters.c:1186-1208 | an inquiry changes no value at either end |
| `Negotiation.RolesKept` | ost-2.0.1/src/parameters.c:770-875 | who offers and who answers stays the same over a round, however it went |
| `Negotiation.OutgoingKeeps` | ost-2.0.1/src/parameters.c:769-790 | what sending a value puts on record, as an answer or an offer |
| `Negotiation.IncomingKeeps` | ost-2.0.1/src/parameters.c:791-875 | what receiving a value puts on record, as an answer or an offer, and the answer to it |
| `Negotiation.LastOfferAgreed` | ost-2.0.1/src/parameters.c:769-1181 | after any rounds with the same offerer an agreeable offer is agreed on |
| `Negotiation.SecondDeclarationIff` | ost-2.0.1/src/parameters.c:1046-1059 | when both ends declare a key, the second commits its own previous offer; the two agree exactly when that is what it sent |
| `NegotiationEnd.AmongValid` | ost-2.0.1/src/parameters.c:965-977 | the loop over the valid values |
| `NegotiationEnd.FindAnswer` | ost-2.0.1/src/parameters.c:956-994 | the two loops find the specified answer |
| `NegotiationEnd.Key.MakeAnswer` | ost-2.0.1/src/parameters.c:877-1034 | the answer to an offer, by type |
| `NegotiationEnd.Key.Settle` | ost-2.0.1/src/parameters.c:1038-1181 | the value negotiated, or the failure, by type |
| `NegotiationEnd.Key.Negotiate` | ost-2.0.1/src/parameters.c:1038-1257 | commits the value unless an inquiry is on record |
| `NegotiationEnd.Key.Send` | ost-2.0.1/src/parameters.c:770-790 | a token sent, in place |
| `NegotiationEnd.Key.Receive` | ost-2.0.1/src/parameters.c:791-875 | a token received, in place, with the answer to it |
| `NegotiationEnd.ExchangeOnce` | ost-2.0.1/src/parameters.c:651-1272 | a whole round between two ends in place is the specified one, with what the calls return and whether the rest of a text was dropped |
| `ChapTheorems.Turn3` | ost-2.0.1/src/parameters.c:446-475 | the target echoes the algorithm and sends its challenge; its cookie holds that challenge |
| `ChapTheorems.ChallengeResets` | ost-2.0.1/src/parameters.c:446-475 | whatever was offered before, identifier and challenge are new, and count as neither offered nor received |
| `ChapTheorems.TakeResponse` | ost-2.0.1/src/parameters.c:588-625 | a response is checked against the digest of the cookie's identifier, the secret and its first 16 bytes of challenge; the cookie's buffers then hold the two digests |
| `ChapTheorems.Turn4` | ost-2.0.1/src/parameters.c:492-572 | the initiator answers exactly when the answer fits a text; it emits name, response, identifier and challenge in that order, the response being the MD5 digest of identifier, secret and the target's challenge; its cookie holds its own |
| `ChapTheorems.Turn5` | ost-2.0.1/src/parameters.c:574-639 | the target marks the session authenticated exactly for the expected name and the digest of its own identifier, the secret and its own challenge, and only then takes the initiator's challenge and answers it, if the answer fits |
| `ChapTheorems.Turn6` | ost-2.0.1/src/parameters.c:574-639 | the initiator accepts exactly the expected name and the response to its own challenge |
| `ChapTheorems.ParseReply` | ost-2.0.1/src/parameters.c:574-639 | name and response are taken exactly when both are what the end expects |
| `ChapTheorems.ExchangeSucceedsIff` | ost-2.0.1/src/parameters.c:389-639 | the whole exchange between two ends succeeds, for all names, secrets, identifiers and challenges, if and only if the replies fit a text, the users match and the written-out MD5 digests of identifier, each end's secret and challenge are equal; with and without mutual authentication |
| `ChapTheorems.DifferentSecretsCollide` | ost-2.0.1/src/parameters.c:389-639 | with different secrets it succeeds only at a collision of the digest |
| `ChapTheorems.NoneSettles` | ost-2.0.1/src/parameters.c:421-433 | an offer of None is taken by the target, which marks the session authenticated, and the answer by the initiator |
| `ChapTheorems.WireLength` | ost-2.0.1/src/parameters.c:350-360 | the size a reply is checked against is that of the text of its pairs, under their names |
| `ChapTheorems.OtherMethodFails` | ost-2.0.1/src/parameters.c:1122-1166 | an answer to AuthMethod that is not among the end's own ends the negotiation |
| `ChapTheorems.OtherAlgorithmFails` | ost-2.0.1/src/parameters.c:1122-1166 | so does an algorithm the target echoes and does not have |
| `ChapTheorems.SameSecretsSucceed` | ost-2.0.1/src/parameters.c:389-639 | with the same users and secrets, and names that fit, it always succeeds |
| `ChapEnd.Respond` | ost-2.0.1/src/parameters.c:533-542 | three updates of one MD5 context give the digest of identifier, secret and challenge, written out |
| `ChapEnd.Cookie.ParseSecurity` | ost-2.0.1/src/parameters.c:389-639 | the arms in place, on the cookie's buffers, are the specified ones, also when a name or a response is wrong |
| `ChapEnd.Cookie.ParseChallenge` | ost-2.0.1/src/parameters.c:492-572 | the arm for CHAP_C in place |
| `PduHeader.PutWord` | ost-2.0.1/src/iscsi.c:1015-1024 | a number stored in network byte order reads back and changes no other byte |
| `PduData.R2tEncap` | ost-2.0.1/src/iscsi.c:999-1028 | every byte of the header |
| `PduData.R2tRoundTripIff` | ost-2.0.1/src/iscsi.c:999-1064 | accepted exactly when the low AHS length bytes and the low LUN byte are 0; returned exactly when AHS length and LUN are 0 |
| `PduData.DataOutEncap` | ost-2.0.1/src/iscsi.c:1070-1093 | every byte of the header |
| `PduData.DataOutRoundTripIff` | ost-2.0.1/src/iscsi.c:1070-1131 | accepted exactly for 24-bit lengths; returned exactly when also the LUN is below 256 |
| `PduData.DataInEncap` | ost-2.0.1/src/iscsi.c:1137-1180 | every byte of the header |
| `PduData.DataInRoundTripIff` | ost-2.0.1/src/iscsi.c:1137-1230 | accepted exactly for 24-bit lengths and a LUN that is 0 modulo 256; returned exactly when the LUN is 0 and, without the S bit, status, StatSN and residual count are 0 |
| `PduCommand.ScsiEncap` | ost-2.0.1/src/iscsi.c:827-862 | every byte of the header, the AHS length overwriting the first byte of the length |
| `PduCommand.ScsiRoundTripIff` | ost-2.0.1/src/iscsi.c:827-903 | always accepted; returned exactly for 3-bit attributes, 24-bit lengths and a LUN below 256 |
| `PduCommand.NopOutEncap` | ost-2.0.1/src/iscsi.c:186-209 | every byte of the header |
| `PduCommand.NopOutRoundTripIff` | ost-2.0.1/src/iscsi.c:186-247 | always accepted; returned exactly for 24-bit lengths and a LUN below 256 |
| `PduCommand.NopInEncap` | ost-2.0.1/src/iscsi.c:253-276 | every byte of the header |
| `PduCommand.NopInRoundTripIff` | ost-2.0.1/src/iscsi.c:253-314 | always accepted; returned exactly for 24-bit lengths and a LUN below 256 |
| `PduCommand.TextCmdEncap` | ost-2.0.1/src/iscsi.c:320-346 | every byte of the header |
| `PduCommand.TextCmdRoundTripIff` | ost-2.0.1/src/iscsi.c:320-390 | accepted exactly when the low LUN byte is 0; returned exactly for 24-bit lengths and LUN 0 |
| `PduCommand.TextRspEncap` | ost-2.0.1/src/iscsi.c:396-421 | every byte of the header |
| `PduCommand.TextRspRoundTripIff` | ost-2.0.1/src/iscsi.c:396-463 | accepted exactly when the low LUN byte is 0; returned exactly for 24-bit lengths and LUN 0 |
| `PduLogin.LoginCmdEncap` | ost-2.0.1/src/iscsi.c:469-509 | every byte of the header |
| `PduLogin.PutIsid` | ost-2.0.1/src/iscsi.c:498-500 | the three overlapping stores leave the length's low three bytes, the AHS length and 48 bits of the ISID |
| `PduLogin.LoginCmdArrives` | ost-2.0.1/src/iscsi.c:469-564 | when a login command is accepted, and what of it arrives |
| `PduLogin.LoginRspEncap` | ost-2.0.1/src/iscsi.c:570-623 | every byte of the header |
| `PduLogin.LoginRspArrives` | ost-2.0.1/src/iscsi.c:570-677 | a login response is always accepted, and what of it arrives |
| `PduLogin.IsidEcho` | ost-2.0.1/src/initiator.c:2297-2300 | the echoed ISID comes back exactly when its successor fits 48 bits (or it is all ones), whatever TSIH the target assigns, which is returned undisturbed; the initiator's comparison of the low 32 bits always holds |

## Left out

- Sockets, threads, locks, wait queues, timers and memory allocation: each critical section is one atomic step, and allocation succeeds.
- Lengths are natural numbers: sums of transfer lengths or scatter lists of 2^31 bytes and more, where the source's `int` and `unsigned` counters wrap, are not modelled; nor is the padding of data segments on the wire.
- WriteInitiator.WriteCommand.SocketSend: is on a connection that stays up; after a failed send the session is given up, and padding is left out. The caller's own list is handed over only for a PDU that carries the whole buffer; that it may come back moved, and the command be sent again after a recovery, is not modelled.
- ReadTransfer.ReadCommand.ReadData: models reads with a receive list, and ends where the source runs off the copied list (`OutOfList`); the loop for a plain buffer relies on full reads, and `iscsi_done_i` at the end is part of the life cycle instead.
- ReadTransfer.ReadCommand.ReadAll: goes up to a PDU as long as the whole transfer, since receiving that one in parts can leave the receive list moved.
- LifecycleTheorems.AtMostOnce: command tags are never reused within a run, and a completed command's memory is not freed.
- LifecycleTheorems.NothingLost: is about orderly runs; a session error half-way through a step can lose a command, which careful runs allow.
- Lifecycle.QUEUE_DEPTH: is the depth of initiator.h; the buckets of the hash are represented by an arbitrary order.
- Directory.Directory.EntryDel: link counts, times and write-back of pages are left out, and `memcpy` on overlapping ranges is taken to copy upwards.
- Directory.Directory.LookupName: ends at the inode number; `iget` is left out.
- Names longer than a page and inode numbers of other widths than eight bytes.
- Numbers.DriverAtoi: numbers beyond `int`, signs and leading blanks are not modelled.
- Values of keys that may have several (DECLARE_MULTI), and offers of a key by the end that answered it before.
- ChapTheorems.ExchangeSucceedsIff: is about the lists of methods and algorithms that initiator.c and target.c configure.
- ChapEnd.Cookie.ParseSecurity: says nothing about the buffers and flags left by a malformed challenge or a reply that does not fit a text, where the exchange is given up half-way.
- WriteTarget.TargetCommand.Receive: stops at immediate data that goes beyond a buffer; what the bytes behind the buffer then are is not modelled. The limits CONFIG_INITIATOR_MAX_SG and CONFIG_TARGET_MAX_IOV_LEN on the pieces of a list are left out.
- Md5Context.Context.Update: takes less than 2^32 bytes a call, as its `unsigned` parameter does; `byteSwap` on big-endian hosts is the identity on bytes that the model has anyway.
- Task management, logout, SCSI response, reject and asynchronous message headers.
- The target's sessions and device layer beyond the data of a write; OSD objects, the kernel file-system glue other than directory pages, command-line tools and scripts.
