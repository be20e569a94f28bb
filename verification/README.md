# netANALYZER driver: a model of its capture path, and what holds of it

The driver moves captured data from a card to user space and to files. Host and firmware share a
dual-ported memory and synchronise through toggle bits only: a channel is a bit that both sides own one
half of, and equal or unequal halves say whose turn it is. The model covers

* the capture session (`Handshake`, `Capture`, `CaptureInvariant`, `CaptureTheorems`, `CaptureDriver`): firmware,
  interrupt handler, DSR thread, the user-space reader, API callers and the stop thread as a transition
  system in which every access to shared memory is a step and steps interleave freely; the handlers once
  more as programs over the device instance, with any number of foreign steps between their statements;
* capture files (`CaptureFiles`, `CaptureFilesTheorems`, `CaptureFilesOnDisk`, `CaptureFilesOrder`,
  `CaptureFilesAccounting`, `CaptureFileWriter`, `CaptureToFile`): bytes on disk, headers, rotation, ring
  mode, reading back, the reported totals, and a whole session recorded to files;
* the mailbox and its mutex (`Mutex`, `CachedBit`, `LockedCall`, `SendMailbox`, `ReceiveMailbox`), for any
  number of threads;
* firmware download with its running CRC-32 (`DownloadCursor`, `Download`, `Crc32`), for every file and
  device, and exactly when it ends;
* the layout of the dual-ported memory, filters, GPIOs and opening (`DpmLayout`, `DpmConfig`, `DpmSession`,
  `DpmDevice`).

`Words` has bytes and word sizes.

The firmware is not part of the repository. Its rules are stated as the enabling conditions of its steps
(`Capture.FirmwareEnabled`, and the device actions in `SendMailbox.Enabled` and `ReceiveMailbox.Enabled`): it
fills a buffer only while both its flag bits agree and publishes the size before flipping; it raises an
indication only while the halves are equal and acknowledges a command only while they are unequal; it
publishes a capture state only once the previous one is acknowledged, and nothing after OFF; it posts no
packet larger than the mailbox. The interrupt handler may run before any DSR statement; there is one reader,
with a buffer of at least the block length. Clocks are not modelled: a wait may give up at any time its
condition does not hold.

Where the code and its documentation disagree, the model follows the code:

* PWM periods: the comments say "Min 1" (`netanalyzer_kernel_mod/toolkit/netana_dpmlayout.h:237-238`), the code demands 10;
* the size check of a packet adds the header size in 32 bits and lets lengths near 2^32 pass;
* the download cursor adds in 32 bits: a file near 4 GiB is sent wrong unless it fits as
  `DownloadCursor.Fits` says, and is sent for ever unless `DownloadCursor.Ends` holds;
* `netana_file_info` multiplies in 64 bits, so the reported maximum wraps for very large lists;
* the generation number in the file header has 32 bits and restarts;
* files are opened without truncation, so the data of an older capture with the same start time passes for
  new;
* opening a device while capture runs resets its GPIOs but not its filters;
* stop resets hStopComplete before it sends its command: a completion signalled before that, because the
  firmware went OFF on its own, is lost, and stop ends only by its 5 s fallback;
* the DSR cannot wait for a handshake bit in its own thread: a driver error is signalled only if the cached
  bit already allows it.

To verify: `dafny verify dfyconfig.toml`.

## Model

| member | source | states |
|---|---|---|
| Handshake.FirmwareToggleLeads | netanalyzer_kernel_mod/toolkit/netana_functions.c:192-217 | a copy of the netX flags that grants the host a channel stays safe when the firmware toggles, as long as the firmware toggles only when the channel is not the host's |
| Handshake.HostToggleLeads | netanalyzer_kernel_mod/toolkit/netana_functions.c:276-286 | after the host toggles on its turn, no older copy of the netX flags grants it the channel again |
| CaptureInvariant.StepKeeps | netanalyzer_kernel_mod/toolkit/netana_capture.c:68-222 | every step of firmware, interrupt handler, DSR, reader, API callers and stop thread, in any interleaving, keeps the whole session invariant |
| CaptureInvariant.RunKeeps | netanalyzer_kernel_mod/toolkit/netana_capture.c:68-222 | so does every run |
| CaptureInvariant.InitEstablishes | netanalyzer_kernel_mod/toolkit/netana_functions.c:878-935 | the state that starting a capture leaves behind satisfies the invariant |
| CaptureInvariant.WindowAdvances | netanalyzer_kernel_mod/toolkit/netana_capture.c:191-199 | giving the current buffer back takes exactly it off the front of the cyclic window |
| CaptureInvariant.FreeFilling | netanalyzer_kernel_mod/toolkit/netana_capture.c:191-199 | after a buffer is given back and the cursor has wrapped, the unequal flags are again exactly the window of undrained blocks, with their contents |
| CaptureTheorems.ConsumedIsPrefix | netanalyzer_kernel_mod/toolkit/netana_capture.c:73-200 | blocks consumed are a prefix of the blocks filled, same order, none lost or repeated, oversized ones consumed as rejected |
| CaptureTheorems.ConsumedInNumbers | netanalyzer_kernel_mod/toolkit/netana_capture.c:85-110 | buffer by buffer: rejected if its published size exceeds the buffer size, else consumed as exactly the first bytes of what the firmware filled |
| CaptureTheorems.UnequalFlagsAreTheWindow | netanalyzer_kernel_mod/toolkit/netana_capture.c:82-86 | the unequal buffer flags are exactly the cyclic window that starts at ulCurrentBuffer and holds the blocks filled and not yet consumed |
| CaptureTheorems.SnapshotShrinks | netanalyzer_kernel_mod/toolkit/netana_capture.c:85-200 | each turn of the drain loop takes one set bit out of the snapshot, other steps none and nothing puts one in: every pass ends |
| CaptureTheorems.NoLostData | netanalyzer_kernel_mod/toolkit/netana_capture.c:79-85 | NEWDATA equal in the real cell, no firmware step half done and no pass running: every filled buffer has been drained |
| CaptureTheorems.NoLostWakeup | netanalyzer_kernel_mod/toolkit/netana_interrupt.c:43-108 | a sleeping DSR with no interrupt pending has up-to-date flags, no open indication and an empty ring |
| CaptureTheorems.CachedFlagsAreSafe | netanalyzer_kernel_mod/toolkit/netana_interrupt.c:84-85 | cached EQUAL on a command bit means really EQUAL, cached UNEQUAL on an indication bit means really UNEQUAL |
| CaptureTheorems.NeverBothOwn | netanalyzer_kernel_mod/toolkit/netana_functions.c:219-286 | a channel granted to a host thread, or being acknowledged by the DSR, cannot be acted on by the firmware |
| CaptureTheorems.DsrSlotIsStable | netanalyzer_kernel_mod/toolkit/netana_interrupt.c:59-85 | the half of the double buffer the DSR reads is never the one the interrupt handler writes |
| CaptureTheorems.SamplesInOrder | netanalyzer_kernel_mod/toolkit/netana_interrupt.c:9-85 | samples consumed are an in-order subsequence of those taken; with no valid half left the last one taken has been consumed |
| CaptureTheorems.CopiedToUser | netanalyzer_kernel_mod/netana.c:89-111 | each deliverable block reaches user space exactly once, in order and unchanged; the event counter leads by 0 or 1; -EAGAIN is unreachable |
| CaptureTheorems.CopiedInNumbers | netanalyzer_kernel_mod/netana.c:89-111 | byte by byte: the i-th block in user space is the i-th the firmware filled, cut to its published size, and user space is at most one block ahead of what is given back |
| CaptureTheorems.RejectIsSignalled | netanalyzer_kernel_mod/toolkit/netana_capture.c:95-96 | a rejected buffer turns the error channel, equal until then, to the firmware if the cached bit allows it, and changes no handshake bit otherwise |
| CaptureTheorems.RequestReachesFirmware | netanalyzer_kernel_mod/toolkit/netana_functions.c:276-286 | a caller that passed its wait, and likewise stop, toggles on the host's turn; afterwards it is the firmware's turn and no other channel has changed |
| CaptureTheorems.BufferHeldWhileInUse | netanalyzer_kernel_mod/toolkit/netana_capture.c:187-196 | from the size check to the end of the copy the buffer stays out of the firmware's hands and its content cannot change |
| CaptureTheorems.StopLosesNothing | netanalyzer_kernel_mod/toolkit/netana_functions.c:987-1031 | when hStopComplete is set, hence before stop clears callbacks and closes files, every filled buffer has been processed and copied, and the firmware can fill no more |
| CaptureTheorems.StopCompletes | netanalyzer_kernel_mod/toolkit/netana_capture.c:206-221 | once the firmware has reported OFF and the DSR has come to rest, hStopComplete is set or stop has seen it, unless stop has reset it after it was set |
| CaptureTheorems.CompletionLostIff | netanalyzer_kernel_mod/toolkit/netana_functions.c:987-990 | that happens exactly at the reset before the stop command, if the DSR has seen OFF already; nothing filled is undrained then |
| CaptureDriver.ReaderApproaches | netanalyzer_kernel_mod/netana.c:583-610 | while the notifier waits the reader always has a step to take and each one brings the signal closer |
| CaptureDriver.OthersDoNotDelay | netanalyzer_kernel_mod/netana.c:106-109 | no step of anybody else moves that signal further away |
| CaptureDriver.Driver.IsrHandler | netanalyzer_kernel_mod/toolkit/netana_interrupt.c:5-41 | on its own interrupt the handler stores a valid sample in the current half and requests the DSR; on a foreign one it changes nothing |
| CaptureDriver.Driver.DsrHandler | netanalyzer_kernel_mod/toolkit/netana_interrupt.c:43-108 | processing is requested exactly if NEWDATA or NEWSTATUS differ between old and new cached flags, whatever interrupts come in between |
| CaptureDriver.Driver.NotifyData | netanalyzer_kernel_mod/netana.c:89-111 | returns only after the reader has signalled: what user space has is then longer by exactly the announced content of the current buffer, and nothing was consumed meanwhile |
| CaptureDriver.Driver.DrainRing | netanalyzer_kernel_mod/toolkit/netana_capture.c:73-200 | with everybody else running in between, the loop ends and has consumed everything that was filled when it began |
| CaptureDriver.Driver.Process | netanalyzer_kernel_mod/toolkit/netana_capture.c:68-222 | a pass leaves no indication unacknowledged and drains everything that was filled when it began |
| CaptureDriver.Driver.DsrThread | netanalyzer_kernel_mod/netana.c:180-202 | one turn of the DSR thread ends asleep with both indications acknowledged |
| CaptureDriver.Driver.WaitForBitState | netanalyzer_kernel_mod/toolkit/netana_functions.c:219-274 | succeeds exactly if the cached bit has the awaited state, and then, for a state that is the host's turn, the real cell has it too |
| Crc32.LookupIsDivision | netanalyzer_kernel_mod/toolkit/netana_toolkit.c:273-345 | the table entry for the low byte, xor the upper bytes, is eight steps of polynomial division, for every register value |
| Crc32.StepIsDivision | netanalyzer_kernel_mod/toolkit/netana_toolkit.c:342 | one turn of the loop is the bitwise division of one byte (section 8 of RFC 1952) |
| Crc32.CreateCRC32 | netanalyzer_kernel_mod/toolkit/netana_toolkit.c:336-345 | the table-driven loop computes the bit-serial CRC-32 of section 8 of RFC 1952 for every byte sequence and start value |
| Crc32.ChecksumAppend | netanalyzer_kernel_mod/toolkit/netana_toolkit.c:499-501 | continuing a checksum over a split input equals one pass over the whole, for every split |
| Crc32.BurstsDiffer | netanalyzer_kernel_mod/toolkit/netana_toolkit.c:336-345 | from one register, two different bursts of up to four bytes never lead to the same register |
| Crc32.DivideIsInjective | netanalyzer_kernel_mod/toolkit/netana_toolkit.c:336-345 | different registers stay different under the same bytes |
| Crc32.BurstIsDetected | netanalyzer_kernel_mod/toolkit/netana_toolkit.c:499-501 | two equally long files that differ only inside four consecutive bytes never get the same checksum, for any length |
| Crc32.Residue | netanalyzer_kernel_mod/toolkit/netana_toolkit.c:336-345 | data followed by its own checksum, low byte first, always has the checksum 0x2144df1c, whatever data and start value |
| DownloadCursor.CursorIsExact | netanalyzer_kernel_mod/toolkit/netana_toolkit.c:460-475 | while the rounded-up length fits 32 bits, block i starts at i times the block size and has the mark its place calls for |
| DownloadCursor.CoversIffFits | netanalyzer_kernel_mod/toolkit/netana_toolkit.c:521-549 | the 32-bit cursor covers the file block by block from start to end if and only if the file fits one block or its length rounded up to whole blocks is below 2^32 |
| DownloadCursor.FitsWithRoom | netanalyzer_kernel_mod/toolkit/netana_toolkit.c:535-545 | that holds for every block size the device may choose if the file leaves room for one block below 4 GiB |
| DownloadCursor.EndsIff | netanalyzer_kernel_mod/toolkit/netana_toolkit.c:521-549 | the cursor comes to a last block, of any file, if and only if the file fits one block or its length is at most 2^32 less the largest power of two in the block size |
| DownloadCursor.EndlessWalk | netanalyzer_kernel_mod/toolkit/netana_toolkit.c:521-549 | with 2^32 - 1 bytes in blocks of 1536 no block is ever the last |
| Download.PacketAnswered | netanalyzer_kernel_mod/toolkit/netana_toolkit.c:480-551 | one data packet of any file: an error answer leads to abort, the acceptance of the last block to success, any other acceptance to the next block |
| Download.StopsIff | netanalyzer_kernel_mod/toolkit/netana_toolkit.c:389-611 | for any device and file: the loop stops if and only if the device refuses a packet, asks for empty blocks, or the length meets the condition of EndsIff |
| Download.EndlessDownload | netanalyzer_kernel_mod/toolkit/netana_toolkit.c:460-549 | an accepting device that asks for 1536 bytes keeps the loop running for ever on a file of 2^32 - 1 bytes |
| Download.DownloadFile | netanalyzer_kernel_mod/toolkit/netana_toolkit.c:389-611 | every download that stops, of any file: zero means the device accepted the request and all data packets up to the last; otherwise the result is the error of the packet refused, no packet follows it but exactly one abort |
| Download.ChecksumCoversSent | netanalyzer_kernel_mod/toolkit/netana_toolkit.c:499-503 | the checksum of a packet is that of everything sent up to its end, for every file |
| Download.PacketsRejoin | netanalyzer_kernel_mod/toolkit/netana_toolkit.c:492-503 | of a file that fits, the blocks of the first n packets concatenate to the file up to where the n-th ends, and its checksum is that of exactly this part |
| Download.SuccessDelivers | netanalyzer_kernel_mod/toolkit/netana_toolkit.c:389-611 | on success the blocks sent concatenate to the file if and only if it fits the 32-bit cursor, in as many packets as it has blocks |
| Download.SuccessIsWellFormed | netanalyzer_kernel_mod/toolkit/netana_toolkit.c:460-549 | on success, whether the file fits or not, the marks are NONE alone or FIRST MIDDLE* LAST, no block exceeds the negotiated size, none is empty unless the file is |
| Download.SuccessInNumbers | netanalyzer_kernel_mod/toolkit/netana_toolkit.c:389-549 | on success: request and data packets with their ids, file length, block sizes and block numbers; no block exceeds the mailbox size or the size the device asked for, and all but the last are as large as one of these |
| Download.RefusalInNumbers | netanalyzer_kernel_mod/toolkit/netana_toolkit.c:389-611 | on refusal: which packets went out under which ids, that all answers but the last were good, and which error comes back |
| CaptureFiles.HeaderRoundTrip | netanalyzer_kernel_mod/toolkit/Include/netana_user.h:61-70 | decoding the 32 header bytes at the start of a file gives the header back |
| CaptureFiles.HeaderLayout | netanalyzer_kernel_mod/toolkit/Include/netana_user.h:61-70 | at which offset each header field lies, in which byte order |
| CaptureFilesTheorems.PackKeepsStream | libnetana/netana_capture.c:34-99 | the greedy packing that the files are compared with loses and reorders no block and splits none |
| CaptureFilesTheorems.PackIsGreedy | libnetana/netana_capture.c:43 | every packed file fits ullFileSize with its 32 header bytes, and none begins before a block that the one before had no room for |
| CaptureFilesTheorems.CloseFile | libnetana/netana_capture.c:16-30 | rewriting the header on close puts the exact payload length in and leaves the payload alone |
| CaptureFilesTheorems.OpenFile | libnetana/netana_capture.c:16-30 | a file opened anew, whatever it held, has an empty payload behind the invalid-size mark |
| CaptureFilesTheorems.FinishKeeps | libnetana/netana_functions.c:1264-1272 | finalising the current file, on stop as on rotation, makes its header say exactly its payload length, and every file keeps its payload |
| CaptureFilesTheorems.WriteKeeps | libnetana/netana_capture.c:34-99 | one block: the files represent the packing of the stream extended by it, or writing ends because the last file is full |
| CaptureFilesTheorems.StartKeeps | libnetana/netana_functions.c:1176-1190 | starting a capture represents the empty stream |
| CaptureFilesTheorems.FeedPacks | libnetana/netana_capture.c:34-99 | after any blocks the files represent the greedy packing of the stream, every file under its generation number |
| CaptureFilesTheorems.RingKeepsSuffix | libnetana/netana_capture.c:49-64 | ring mode: oldest to newest, the payloads are exactly a block-aligned suffix of everything written, the newest files' worth |
| CaptureFilesTheorems.PlainKeepsPrefix | libnetana/netana_capture.c:66-75 | otherwise they are exactly the prefix up to the first block that no longer fits the last file, and writing has ended exactly if there was one |
| CaptureFilesOnDisk.DiskGivesBackStream | libnetana/netana_capture.c:16-89 | the bytes on disk alone, read in ulIdx order, give back the retained stream despite stale bytes of earlier rounds; if the 32-bit ulIdx restarts among the retained files, the part behind the restart comes first |
| CaptureFilesOnDisk.OpenFileIsSkipped | libnetana/netana_capture.c:56-85 | while the capture runs the open file carries the invalid-size mark: the disk lacks exactly the newest generation |
| CaptureFilesOnDisk.FinishedFile | libnetana/netana_capture.c:16-30 | each finished file: cookie, generation number, start time, payload size and timezone in its header, and exactly that payload behind it |
| CaptureFilesOnDisk.ReadBackIs | libnetana/netana_capture.c:43-47 | what a reader gets from finished files, exactly |
| CaptureFilesOnDisk.StaleIsRead | libnetana/netana_functions.c:136-152 | files are not truncated: data left by a capture with the same start time is read as part of an empty one |
| CaptureFilesOnDisk.ReadBackIff | libnetana/netana_functions.c:136-152 | reading back works after every run whose ulIdx does not restart among the files it keeps, if and only if no file but the first was left with data under this start time |
| CaptureFilesOrder.RestartIsRead | libnetana/netana_capture.c:43-47 | if ulIdx does restart among the retained files, a stream with a telltale last byte is read back wrong |
| CaptureFilesOrder.OrderIff | libnetana/netana_capture.c:43-47 | in ring mode every stream that has taken n files is read back right if and only if ulIdx never restarted (n up to 2^32) or has since numbered all the files of the list anew |
| CaptureFilesAccounting.Accounts | libnetana/netana_functions.c:1585-1594 | between any two writes: the file number is in 1..count, the total is the retained length modulo 2^64, offset is header size plus ullDataWritten while writing, every file is within ullFileSize |
| CaptureFilesAccounting.InfoInNumbers | libnetana/netana_functions.c:1585-1594 | the report names the file that the generations, counted round and round the list, have come to, the number of files, and the mode the capture was started in |
| CaptureFilesAccounting.ReportIsRightIff | libnetana/netana_functions.c:1588-1592 | the total is the number of bytes retained and at most the reported maximum in every run if and only if file size times file count is below 2^64 |
| CaptureFilesAccounting.CaptureStaysInside | libnetana/netana_capture.c:43-96 | no write makes a file longer than ullFileSize, or than it was |
| CaptureFilesAccounting.GuardIsExactIff | libnetana/netana_capture.c:43 | for blocks below 2^32 bytes the 64-bit guard is exact if and only if ullFileSize leaves that much room below 2^64 |
| CaptureFileWriter.Instance.SetFilelist | libnetana/netana_functions.c:1091-1124 | refused while capture runs, for more than 256 files and for files smaller than a DMA buffer and a header; else every file is opened and preallocated, or the list is given up |
| CaptureFileWriter.Instance.WriteFileHeader | libnetana/netana_capture.c:9-32 | in place, exactly the header step the results are about |
| CaptureFileWriter.Instance.WriteToFile | libnetana/netana_capture.c:34-99 | in place, exactly the block step the results are about, and FILE_FULL exactly when the last file cannot take the block outside ring mode |
| CaptureFileWriter.Instance.OnBlock | libnetana/netana_functions.c:208-213 | a block is written exactly while fWriteToFile is set; FILE_FULL clears it |
| CaptureFileWriter.Instance.StartFiles | libnetana/netana_functions.c:1173-1194 | in place, the file part of starting a capture |
| CaptureFileWriter.Instance.RejectBuffer | netanalyzer_kernel_mod/toolkit/netana_capture.c:98-107 | an illegal buffer size finalises the header and ends writing |
| CaptureFileWriter.Instance.StopFiles | libnetana/netana_functions.c:1264-1282 | stop finalises the header unless writing had ended already |
| CaptureFileWriter.Instance.GetInfo | libnetana/netana_functions.c:1569-1597 | the summing loop reports what the accounting results are about, and refuses without capture or file list |
| CaptureFileWriter.ListIsOpened | libnetana/netana_functions.c:136-152 | an accepted list satisfies the start condition of the results, and no capture changes the length of its files |
| CaptureToFile.RecordIsFeed | netanalyzer_kernel_mod/toolkit/netana_capture.c:93-178 | for the files, a rejected buffer is an early stop: what follows it leaves no trace |
| CaptureToFile.AcceptedAre | netanalyzer_kernel_mod/toolkit/netana_capture.c:93-107 | the blocks accepted for the files are those before the first whose published size exceeds the buffers, unchanged |
| CaptureToFile.SameFiles | netanalyzer_kernel_mod/toolkit/netana_capture.c:98-107 | a session that ended with a rejected buffer, a full list or a stop leaves the very files of the accepted blocks, finalised |
| CaptureToFile.SessionIsOnDisk | netanalyzer_kernel_mod/toolkit/netana_capture.c:93-178 | end to end with the toolkit's own file code: once a stopped session has signalled completion, the disk gives back every block the firmware filled up to the first rejected one, as far as the files hold it |
| CaptureToFile.UserSessionIsOnDisk | libnetana/netana_functions.c:208-213 | end to end with the user-space writer: the disk gives back every block copied to user space, which are all the firmware filled but the rejected ones, as far as the files hold them |
| Mutex.StepKeeps | netanalyzer_kernel_mod/OS_Linux.c:666-715 | every step of any thread in OS_WaitMutex or OS_ReleaseMutex keeps the invariant |
| Mutex.MutualExclusion | netanalyzer_kernel_mod/OS_Linux.c:666-715 | in every run at most one thread has been granted the mutex and not released it, flag is set exactly then, and at most one holds the kernel lock |
| Mutex.OwnershipAlternates | netanalyzer_kernel_mod/OS_Linux.c:696-715 | takings and releases alternate in matching pairs over every run |
| Mutex.NoDeadlock | netanalyzer_kernel_mod/OS_Linux.c:666-715 | while some thread is inside one of the functions, some thread can move |
| Mutex.RefusalHasCause | netanalyzer_kernel_mod/OS_Linux.c:666-701 | in any interleaving 0 is returned only while the mutex is taken or another thread has the kernel lock |
| Mutex.FreeIsGranted | netanalyzer_kernel_mod/OS_Linux.c:666-701 | from a free mutex, every run of the caller's own steps has at most six and can only end with 1 and the flag set, whatever the timeout |
| Mutex.FreeReturns | netanalyzer_kernel_mod/OS_Linux.c:666-701 | and such a run to the end exists |
| Mutex.PrivMutex.WaitMutex | netanalyzer_kernel_mod/OS_Linux.c:666-701 | statement by statement with all others interfering: 1 is returned exactly to a thread that then owns the mutex, 0 only while something is in its way, and only a call with a timeout can fail to return in time |
| Mutex.PrivMutex.ReleaseMutex | netanalyzer_kernel_mod/OS_Linux.c:707-715 | ends ownership as soon as it gets the kernel lock, and not before |
| CachedBit.HostToggleSafe | netanalyzer_kernel_mod/toolkit/netana_functions.c:276-286 | acting on a cached grant turns every copy of the bit against the host |
| CachedBit.FirmwareToggleSafe | netanalyzer_kernel_mod/toolkit/netana_functions.c:192-217 | a firmware that toggles only on its turn overtakes no copy |
| LockedCall.ResultKeepsOrder | netanalyzer_kernel_mod/toolkit/netana_functions.c:1886-1901 | whoever gets a result under the mutex is the one who took it last |
| LockedCall.OneInside | netanalyzer_kernel_mod/toolkit/netana_functions.c:1886-1901 | at most one call is between OS_WaitMutex and OS_ReleaseMutex |
| SendMailbox.StepKeeps | netanalyzer_kernel_mod/toolkit/netana_functions.c:1788-1812 | every step of any caller, the interrupt, the DSR or the device keeps the mailbox invariant |
| SendMailbox.ExactlyOnce | netanalyzer_kernel_mod/toolkit/netana_functions.c:1886-1901 | the device takes the packets of exactly the successful calls, in the order of their results, each once; the last may still be in the slot |
| SendMailbox.ResultsInLockOrder | netanalyzer_kernel_mod/toolkit/netana_functions.c:1886-1901 | calls get their results in the order in which they took the mutex, so packets are posted in lock order |
| SendMailbox.SlotHasOneUser | netanalyzer_kernel_mod/toolkit/netana_functions.c:1797-1808 | while a thread copies into the slot it is the only one and the device has no turn |
| SendMailbox.CheckIsRightIff | netanalyzer_kernel_mod/toolkit/netana_functions.c:1794-1795 | the size check rejects exactly the packets that do not fit if and only if ulLen + 40 does not wrap |
| SendMailbox.WholeIff | netanalyzer_kernel_mod/toolkit/netana_functions.c:1801-1803 | a posted packet is whole if and only if ulLen + 40 does not wrap |
| SendMailbox.WrappedPacketPasses | netanalyzer_kernel_mod/toolkit/netana_functions.c:1794-1795 | a length of 2^32 - 40 passes the check as an empty packet |
| SendMailbox.TooLongIff | netanalyzer_kernel_mod/toolkit/netana_functions.c:1794-1795 | in every run: a call that got the mutex returns TOO_SHORT if and only if the length in its header plus 40, in 32 bits, exceeds 1596 |
| SendMailbox.ResultHasCause | netanalyzer_kernel_mod/toolkit/netana_functions.c:1788-1812 | in any interleaving, each result comes at a step whose condition it names: posted on the host's turn of the slot, too long, slot not free in the cached flags, mutex in the way |
| SendMailbox.FreeSlotTakesPacket | netanalyzer_kernel_mod/toolkit/netana_functions.c:1886-1901 | from a free mutex and slot, every run of the caller's own steps can only end with the packet posted and success, or TOO_SHORT exactly for one too long, whatever the timeout |
| SendMailbox.FreeSlotReturns | netanalyzer_kernel_mod/toolkit/netana_functions.c:1886-1901 | and such a run to the end exists |
| SendMailbox.Device.PutPacket | netanalyzer_kernel_mod/toolkit/netana_functions.c:1886-1901 | every returned call has exactly one result, TOO_SHORT exactly for a packet too long unless the mutex was refused, and its packet was posted exactly if that is success |
| SendMailbox.Device.CopyPacket | netanalyzer_kernel_mod/toolkit/netana_functions.c:1801-1803 | the slot holds the packet at the end, whatever ran between any two bytes |
| ReceiveMailbox.ExactlyOnce | netanalyzer_kernel_mod/toolkit/netana_functions.c:1911-1926 | every posted packet goes to exactly one call, in firmware order, whole or cut to the caller's room, BUFFER_TOO_SHORT exactly if cut |
| ReceiveMailbox.ResultsInLockOrder | netanalyzer_kernel_mod/toolkit/netana_functions.c:1911-1926 | calls get their results, and so their packets, in the order in which they took the mutex |
| ReceiveMailbox.AlwaysReleased | netanalyzer_kernel_mod/toolkit/netana_functions.c:1834-1845 | the slot goes back to the device with every packet taken, cut or not, and never otherwise |
| ReceiveMailbox.ResultHasCause | netanalyzer_kernel_mod/toolkit/netana_functions.c:1824-1846 | in any interleaving, each result comes at a step whose condition it names: a packet in the slot and now given back, none in the cached flags, mutex in the way |
| ReceiveMailbox.PacketIsTaken | netanalyzer_kernel_mod/toolkit/netana_functions.c:1911-1926 | with a packet in the slot and the mutex free, every run of the caller's own steps can only end with that packet, or with what there is room for and BUFFER_TOO_SHORT |
| ReceiveMailbox.PacketReturns | netanalyzer_kernel_mod/toolkit/netana_functions.c:1911-1926 | and such a run to the end exists |
| ReceiveMailbox.Device.GetPacket | netanalyzer_kernel_mod/toolkit/netana_functions.c:1911-1926 | every returned call has exactly one result and no data unless it took a packet |
| ReceiveMailbox.Device.CopyOut | netanalyzer_kernel_mod/toolkit/netana_functions.c:1834-1842 | the caller gets the mailbox bytes up to packet size or room, unchanged by anything that runs in between |
| DpmLayout.Place | netanalyzer_kernel_mod/toolkit/netana_toolkit.c:1313-1386 | the layout loops place GPIO, filter, counter and ident blocks of the right sizes, each where the one before ends |
| DpmLayout.InOrder | netanalyzer_kernel_mod/toolkit/netana_toolkit.c:1313-1386 | blocks placed that way are in order and pairwise disjoint |
| DpmLayout.GpioAddress | netanalyzer_kernel_mod/toolkit/netana_toolkit.c:1334-1338 | GPIO block i lies at 0x600 + 20 i |
| DpmLayout.FilterAddresses | netanalyzer_kernel_mod/toolkit/netana_toolkit.c:1348-1361 | the addresses of a port's filter base, and of mask and value of filters A and B, in that order, as numbers computed from the system information block |
| DpmLayout.CounterAddress | netanalyzer_kernel_mod/toolkit/netana_toolkit.c:1377-1385 | the addresses of the counters of all ports, and of the identification block behind them |
| DpmLayout.ExactlyOneBlock | netanalyzer_kernel_mod/toolkit/netana_toolkit.c:1313-1386 | every byte from the base to the end is in exactly one block |
| DpmLayout.WriteStaysInBlock | netanalyzer_kernel_mod/toolkit/netana_functions.c:724-735 | a write into one block changes that block only, no other and nothing outside the blocks |
| DpmConfig.FilterIsSet | netanalyzer_kernel_mod/toolkit/netana_functions.c:717-738 | setting a filter puts relation and zero-padded masks and values into the port's five blocks and changes no other block |
| DpmConfig.FilterRoundTrip | netanalyzer_kernel_mod/toolkit/netana_functions.c:644-744 | get after set returns the relation and the zero-padded masks and values, as far as asked for |
| DpmConfig.GetAfterSet | netanalyzer_kernel_mod/toolkit/netana_functions.c:644-744 | the same for every request: one or both filters or none, half-given buffers, short ones |
| DpmConfig.FilterBytes | netanalyzer_kernel_mod/toolkit/netana_functions.c:717-738 | byte by byte: the given mask and value bytes of each filter in its own block, zeros behind them |
| DpmConfig.OtherPortUnaffected | netanalyzer_kernel_mod/toolkit/netana_functions.c:696-744 | another port's filter reads the same before and after |
| DpmSession.OpenRestores | netanalyzer_kernel_mod/toolkit/netana_functions.c:571-593 | a successful open with capture off restores every filter, under relation 0, and every GPIO to boot content, and no counter changes |
| DpmSession.OpenWhileRunning | netanalyzer_kernel_mod/toolkit/netana_functions.c:571-593 | while capture runs it restores the GPIOs all the same and leaves every filter as it is |
| DpmSession.PwmInvariant | netanalyzer_kernel_mod/toolkit/netana_functions.c:1222-1258 | over every series of calls at most one GPIO is in PWM mode, with both periods in 10..100000000, if the boot content satisfies this |
| DpmSession.ModeReadsBack | netanalyzer_kernel_mod/toolkit/netana_functions.c:1179-1274 | a GPIO mode is accepted if and only if capture is off, the GPIO exists and a PWM mode has good periods and no rival; then mode and parameters are read back, and nothing else changed |
| DpmSession.LevelReadsBack | netanalyzer_kernel_mod/toolkit/netana_functions.c:1282-1315 | a level is accepted if and only if it is 0 or 1 and the GPIO is an output; then it is read back, and nothing else changed |
| DpmSession.VoltageReadsBack | netanalyzer_kernel_mod/toolkit/netana_functions.c:1707-1756 | a voltage is accepted if and only if all selected GPIOs exist and support it, and NANL devices get all four at once; then exactly the selected ones have it, and nothing else changed |
| DpmSession.FilterAccepted | netanalyzer_kernel_mod/toolkit/netana_functions.c:696-716 | filters are accepted if and only if capture is off, the port exists and no non-empty filter is half given or too long |
| DpmSession.OpenAndClose | netanalyzer_kernel_mod/toolkit/netana_functions.c:555-633 | opening succeeds exactly if allowed and not open, with the error of the source otherwise, and again after closing |
| DpmSession.EverySessionStartsFresh | netanalyzer_kernel_mod/toolkit/netana_functions.c:508-633 | whatever earlier sessions did, a session opened with capture off starts from the boot configuration, and a device is open at most once |
| DpmDevice.Device.SetFilter | netanalyzer_kernel_mod/toolkit/netana_functions.c:696-744 | in memory, in place: error cases in the source's order, a rejected call changes no byte, an accepted one does what the results say |
| DpmDevice.Device.ReadFilter | netanalyzer_kernel_mod/toolkit/netana_functions.c:644-684 | in memory: what get returns, including the refusals of half-given buffers |
| DpmDevice.Device.SetGpioMode | netanalyzer_kernel_mod/toolkit/netana_functions.c:1179-1274 | in memory: the mode switch and the search for another PWM; an accepted mode and its parameters are in the block afterwards |
| DpmDevice.Device.SetGpioOutput | netanalyzer_kernel_mod/toolkit/netana_functions.c:1282-1315 | in memory: only a GPIO in output mode takes a level, 0 or 1, and has it afterwards |
| DpmDevice.Device.SetGpioVoltage | netanalyzer_kernel_mod/toolkit/netana_functions.c:1707-1756 | in memory: the selected GPIOs and no others get the voltage, if device and class support all of them |
| DpmDevice.Device.OpenDevice | netanalyzer_kernel_mod/toolkit/netana_functions.c:555-600 | in memory: refused by class filter or when open, else the reset the results are about |
| DpmDevice.Device.CloseDevice | netanalyzer_kernel_mod/toolkit/netana_functions.c:616-633 | closes an open device and changes no memory |

## Left out

- Download.DownloadFile: a method has to end, so it requires `Download.Stops`; what happens otherwise, and that this is exactly when the loop does not end, is stated by `Download.StopsIff` and `Download.EndlessDownload`.
- Download.DownloadFile: packet headers other than id, mark, block number and checksum are not modelled, and transferring one packet is one step with an arbitrary answer. A cursor that has wrapped reads memory behind the file, which is a parameter.
- CaptureFilesTheorems.RingKeepsSuffix: requires blocks below 2^32 bytes and ullFileSize at least that far below 2^64, where the 64-bit guard is exact (`CaptureFilesAccounting.GuardIsExactIff`); the same holds for the other results on captures.
- CaptureFilesOnDisk.ReadBackIff: for runs whose ulIdx does not restart among the files kept; `CaptureFilesOrder.OrderIff` shows that the others fail, and `CaptureFilesOnDisk.DiskGivesBackStream` how.
- CaptureDriver.Driver.WaitForBitState: the number of wake-ups before the timeout is a parameter, clocks are not modelled.
- CaptureDriver.Driver.DsrThread: stopping the thread and re-enabling interrupts are not modelled.
- CaptureTheorems.CopiedToUser: storing the three fields of cur_dma_buf is one step; interrupted waits, which the source says lose data, do not happen; one reader that reads whole blocks.
- CaptureTheorems.StopLosesNothing: the 5 s fallback of stop, after which it closes without having seen hStopComplete, is not modelled.
- CaptureToFile.SessionIsOnDisk: uses the order of the toolkit's stop; the kernel's OS_FileWrite is a stub, so this is what the toolkit is written for rather than what the Linux kernel module does.
- CaptureToFile.UserSessionIsOnDisk: the user-space library closes its files before its event thread has ended; its writes and its stop are treated as sequential.
- Mutex.PrivMutex.WaitMutex: the retry loop need not end; the method says what holds if it returns within some number of turns. wake_up_interruptible does not wake the uninterruptible waiters of this mutex, so that they notice a release only at a timeout; no bound is claimed.
- SendMailbox.Device.PutPacket: returns nothing about calls that are still waiting for the mutex.
- ReceiveMailbox.ExactlyOnce: the firmware posts no packet larger than the mailbox; the copy does not check this.
- DpmLayout.Place: the fixed arrays of four GPIOs and four ports limit the counts in the source, which it does not check.
- DpmDevice.Device.OpenDevice: finding the device by name and null pointers are not modelled, the device class filter is a parameter; failing allocation of the boot filters is not modelled.
- The user's status callback is taken to return at once; in the kernel module it blocks until the state has been read.
- One capture session from a successful start; handshake cells 1 to 7, which nothing reads; BLINK and CLKOFF may toggle at any time.
- The data callback of kernel clients other than the character device.
- Handshake events and their reset: a waiting thread is modelled as looking at the cached bit any number of times.
- Mailbox counters and netana_get_mbx_state; the bootloader's polling packet transfer.
- Write and seek errors of files, partial writes, file names, closing of handles.
- MDIO, counters update, clock resynchronisation and licence commands, which have no lock.
- sysfs, poll, PCI and OF probing, chip reset and bootloader start, power management, tracing, error texts, alias names, the demo program.
