# Debug probe firmware: a verified model

The firmware turns an ESP8266 into a debug probe: a GDB server over TCP, a
firmware updater over TFTP, a debug log over a web socket, and a bundled
terminal. This project models its protocols, data structures and decoders and
proves what they are for. `dafny verify dfyconfig.toml` checks all of it.

- `OtaTftp.dfy` is the TFTP receiver: requests, the receive loop, the segment
  loop. `TftpTransfer.dfy` puts it together with a sender following sections 2,
  4, 5 and 6 of RFC 1350 and a network that loses, duplicates and delays.
- `GdbLock.dfy` is the breakable recursive lock, with any number of tasks
  interleaved at the level of single reads, takes and writes.
- `GdbPacket.dfy` is the packet layer of the GDB remote serial protocol
  ("Overview" in the appendix of *Debugging with GDB*) over the buffered
  transport; `GdbSession.dfy` is the run/stop accounting of one client and the
  transfer of strings in pieces.
- `Exceptions.dfy` runs programs on the setjmp handler chain and compares them
  with structured exceptions.
- `CircularBuffer.dfy` is the ring buffer, `RingProtocol.dfy` one producer and
  one consumer on it without a lock, and `DebugPipeline.dfy` its user: the debug
  log from `putc_remote` to the broadcast frames.
- From the terminal: `LruMap.dfy` and `CharAtlas.dfy` (glyph cache),
  `CircularList.dfy` (scrollback), `EscapeParser.dfy` (the parser of escape
  sequences), `EscapeSequences.dfy` (what whole sequences do to it),
  `StringToUtf32.dfy` and `TerminalInput.dfy` (from strings to parser events),
  `Reflow.dfy`, `ReflowCopy.dfy` and `ReflowMarks.dfy` (narrowing the terminal),
  `MergeRanges.dfy` (joined characters). The bundle is minified, all of it on one
  line; its parts are named in the table.
- `Common.dfy` holds shared types and sequence functions.

Where the source works in place (fields, arrays, linked nodes, loops) the model
is a class or a method proved against a function on values; what the source
promises is then proved about that function. Concurrency is a state machine
over single steps, and a result over all schedules. Names of local variables
and branches follow the source.

What the proofs found out about the code:

- A file can be transferred exactly if it is shorter than 65535 blocks of 512
  bytes (`TransferableExactly`).
- The ring buffer is safe exactly for sizes below the index range (`SizeRule`).
  The header demands even half of it; the debug queue has 256 entries and 8-bit
  indices, so its 256th unread byte makes it look empty
  (`ConservationExactly`, `LongLineIsLost`).
- The batched parser takes a DEL that follows a DCS payload code as payload; the
  transition table ignores it (`BatchedIsStepwiseExactly`, `SplitInvariance`).
- A C1 introducer inside an OSC or DCS string leaves the string without its end
  (`HighControl`).
- `CircularList.splice` is wrong when the insertion index is below the overflow
  and not the end (`InsertionFails`), a positive `shiftElements` when
  (offset mod maxLength) + count exceeds maxLength (`ShiftUpFails`), and the
  maxLength setter leaves an unusable list when it shrinks below the length
  (`List.SetMaxLength`).
- Two high surrogates before a low one are not paired as RFC 2781 pairs them
  (`StandardExactly`), and a decoded chunk can be one code point too long for
  its buffer (`TooLongExactly`, `Input.Parse`, `LetterIsLost`).
- A character printed over half of a wide one leaves the other half. Row lengths
  then still add up, but a row can end behind the first half of a wide character
  (`RowEndsOnWideExactly`, `HalfIsTorn`).
- A blank cell at the end of a full row before a wide character is lost when the
  text is read again after narrowing (`NarrowingKeepsTheCells`,
  `BlankIsMisread`). So can combined characters be: copyCellsFrom overwrites
  entries of its own table before it reads them (`MarksKeptCellByCell`,
  `MarksKeptExactly`, `NeighboursClash`), and brings entries along of which it
  copies no cell (`SecondCopy`, `LeftoverSpills`).
- `strtol` accepts checksums that are no hex digits (`StrtolIsLenient`), and
  `gdb_putpacket2` waits for an answer in no-ack mode too (`SilenceCostsFour`).
- A GDB frame cut off after a lone escape or inside its checksum takes the next
  frame along (`CutFrameExactly`).
- An exception that leaves a lock scope keeps the mutex with its task whenever
  that is not waiting for input (`AllClosedMeansFreeExactly`, `LostMeansHeld`).
- A step refused for want of a target turns the next continue into a step
  (`RefusedStepSticks`), and a vCont without a `c` before its first NUL
  resumes nothing (`VContResumesExactly`).
- The result of esp_ota_begin is ignored; the receiver goes on as after a success
  (`HandleRequest`, `FailedBegin`).

Where code and documentation disagree the model follows the code: a comment in
main/ota-tftp.c calls the mode case-insensitive and the code compares it with
`strcmp`; the header of main/CBUF.h asks for a buffer smaller than the index
range and main/platform.c uses one as large.

Assumptions, all of them about callers or the platform: the first segment of a
received TFTP packet holds its 4-byte header (main/ota-tftp.c:392 says so); send
succeeds as a whole; the flash driver, after an esp_ota_begin that failed, appends
to the image written before; cells of the terminal have width 0, 1 or 2 and become
wide only by a character written in them, and every combined cell has its entry;
ranges given to `_mergeRanges` are not empty; glyph colours are palette indices, at
most 257. Sockets, timers, flash, the target library and other clients appear as
parameters or as events that may come in any order.

## Model

| member | source | states |
|---|---|---|
| OtaTftp.ChunksAreThePayload | main/ota-tftp.c:384-402 | for any segmentation of a packet whose first segment has at least 4 bytes, the chunks handed to the flash driver are together the packet without its first 4 bytes |
| OtaTftp.Receiver.WriteSegments | main/ota-tftp.c:382-402 | the segment loop adds to flash exactly what the segments hold behind the header, or, when the n-th write fails, what the first n - 1 hold |
| OtaTftp.Receiver.ReceiveData | main/ota-tftp.c:308-438 | the receive loop on an established connection leaves flash, replies, length and status as the event-by-event machine `Run` does, about which the results below are proved |
| OtaTftp.Receiver.HandleRequest | main/ota-tftp.c:191-268 | the answer to every request: silence, the error for the file name or the mode, or ACK 0 and a transfer, whether or not esp_ota_begin succeeded, whose result the source ignores; the boot partition is set exactly after a successful transfer, unless setting it fails |
| OtaTftp.FailedBegin | main/ota-tftp.c:248-268 | a transfer after a failed esp_ota_begin has the same replies and status, and its bytes go to the flash driver after those of the transfer before; if the driver appends them, as assumed above, the image is the one sent if and only if nothing was there |
| OtaTftp.GetField | main/ota-tftp.c:280-304 | the scan with its two counters returns field k of the packet with its NUL, and nothing if there are not that many terminated fields |
| OtaTftp.FieldIsNth | main/ota-tftp.c:280-304 | a field is found exactly when the packet holds that many NUL-terminated strings, and is that string |
| OtaTftp.RequestRoundTrip | main/ota-tftp.c:464-471 | `tftp_get_field` reads from a request built by `tftp_send_rrq` the file name and the mode that were put in, and the request fills the buffer allocated for it exactly |
| OtaTftp.FirmwareRequestAccepted | main/ota-tftp.c:201-233 | a write request that spells `firmware.bin` and `octet` in ASCII passes all checks |
| OtaTftp.AckAccounting | main/ota-tftp.c:339-377 | ACKs of the data phase are exactly as many as accepted blocks, duplicates and timeout retransmissions together |
| OtaTftp.RunSane | main/ota-tftp.c:312-315 | in every run the retries are at most 10, and not negative while the loop runs, and the block counter stays between 1 and 65536, below 65536 on success |
| OtaTftp.RetryBudget | main/ota-tftp.c:339-349 | in any stretch of a run without an accepted block at most 10 ACKs are retransmitted because of a timeout |
| OtaTftp.TimeoutExactly | main/ota-tftp.c:339-349 | for a timeout in any run, from the history alone: after a first block and fewer than ten answered timeouts since the last one, the ACK of that block is sent again, and otherwise the transfer ends with an error |
| OtaTftp.PacketExactly | main/ota-tftp.c:355-437 | for a packet in any run, read off its bytes: the block numbered one more than the blocks accepted is written and acknowledged, or written in part without a reply if a write fails; the last block accepted is acknowledged again and not written; anything else ends the transfer with an error |
| OtaTftp.FailureExactly | main/ota-tftp.c:350-353 | any other failure to receive ends the transfer with an error |
| OtaTftp.RepliesNameTheBlocks | main/ota-tftp.c:339-421 | in every run, the reply to an accepted or repeated block and to an answered timeout is the ACK of the number of blocks accepted so far, that one included, modulo 2^16 |
| OtaTftp.CountersAreHistory | main/ota-tftp.c:312-315 | while the loop runs, block and retries are what the events before say: one more than the blocks accepted, and ten less the timeouts answered since |
| OtaTftp.StepProgress | main/ota-tftp.c:339-377 | the pair (blocks left, retries) decreases at every event that the receiver survives and that is no duplicate |
| OtaTftp.BoundedWork | main/ota-tftp.c:317-437 | a receiver still running has handled, duplicates apart, at most eleven events for each of 65535 blocks and ten more |
| OtaTftp.SuccessIsWithinTheWireNumbers | main/ota-tftp.c:362-363 | no transfer succeeds past block 65535, and the length reported is the number of bytes written, modulo the 32 bits of size_t |
| TftpTransfer.BlocksArePrefixes | main/ota-tftp.c:432-436 | blocks 1..n of a file are together its first 512 n bytes, or all of it |
| TftpTransfer.ReadsTheMessage | main/ota-tftp.c:355-363 | a message of an RFC 1350 sender, however it is split into segments, is read as data exactly if it is data, with its block number modulo 2^16 and its payload |
| TftpTransfer.WireNumberIsExact | main/ota-tftp.c:362-363 | although the wire number has 16 bits and the counter is wider, in every reachable state a matching number can only be the block expected |
| TftpTransfer.AcceptWrites | main/ota-tftp.c:376-436 | accepting a block extends flash from blocks 1..b-1 to blocks 1..b, or, if writing fails, leaves a prefix of the file |
| TftpTransfer.NextKeepsInv | main/ota-tftp.c:308-438 | the invariant of sender, network and receiver is kept by every step: sending, losing, duplicating and delaying messages, timeouts, failures |
| TftpTransfer.ExecKeepsInv | main/ota-tftp.c:308-438 | every run of sender, network and receiver keeps it, from any state that has it |
| TftpTransfer.FlashIsCorrect | main/ota-tftp.c:308-438 | for every file and every run over a network that loses, duplicates and delays: while the receiver runs flash is blocks 1..block-1, each written once; success means that flash is the file and the length its size; any other exit leaves a prefix; the boot partition is set only after success |
| TftpTransfer.AckMeansWritten | main/ota-tftp.c:396-425 | an ACK of block n is sent only when blocks 1..n are in flash |
| TftpTransfer.SenderDoneMeansFileWritten | main/ota-tftp.c:421-436 | a sender that has seen its last block acknowledged can rely on the whole file being in flash, for every file shorter than 65535 blocks of 512 bytes |
| TftpTransfer.StopAndWait | main/ota-tftp.c:355-437 | in every reachable state in which block b below 2^16 is expected, the sender is sending b, or b - 1 with the ACK of b - 1 already sent |
| TftpTransfer.RepeatIsAnswered | main/ota-tftp.c:339-369 | whenever the sender still waits for the ACK of the block the receiver has, a repeat of that block, however it is split, or a timeout with retries left adds exactly that ACK, and nothing to flash, and with it the sender goes on |
| TftpTransfer.RunningCanSucceed | main/ota-tftp.c:308-438 | from every reachable state in which the receiver runs, whatever was lost before, the transfer of a file within the limit can still succeed at both ends |
| TftpTransfer.LosslessRunAdvances | main/ota-tftp.c:317-437 | the loss-free run reaches the acceptance of every block whose number fits 16 bits |
| TftpTransfer.TransferableExactly | main/ota-tftp.c:308-438 | some run succeeds if and only if the file has fewer than 65535 * 512 bytes |
| GdbLock.GdbMutex.Lock | main/gdb_if.cpp:52-59 | takes or re-enters the mutex and counts one more |
| GdbLock.GdbMutex.Unlock | main/gdb_if.cpp:60-68 | counts one less and gives the mutex back at 0; nothing if the caller is not the holder |
| GdbLock.GdbMutex.BreakLock | main/gdb_if.cpp:69-79 | gives the mutex back whatever the depth, and returns the depth |
| GdbLock.GdbMutex.RestoreLock | main/gdb_if.cpp:80-87 | takes the mutex again with the depth given, unless it is 0 |
| GdbLock.LockAlone | main/gdb_if.cpp:52-59 | the single reads, takes and writes of `gdb_lock`, run without interruption, do to mutex, counter and scopes exactly what the function does |
| GdbLock.UnlockAlone | main/gdb_if.cpp:60-68 | the single reads, takes and writes of `gdb_unlock`, run without interruption, do to mutex, counter and scopes exactly what the function does |
| GdbLock.BreakAlone | main/gdb_if.cpp:69-79 | the single reads, takes and writes of `gdb_breaklock`, run without interruption, do to mutex, counter and scopes exactly what the function does |
| GdbLock.RestoreAlone | main/gdb_if.cpp:80-87 | the single reads, takes and writes of `gdb_restorelock`, run without interruption, do to mutex, counter and scopes exactly what the function does |
| GdbLock.DestroyAlone | main/gdb_if.cpp:159-171 | so does destroy(): the mutex is free if the task held it, and the task is dead, with its scopes not closed |
| GdbLock.DeadStaysDead | main/gdb_if.cpp:159-171 | under every schedule a destroyed task takes no further step |
| GdbLock.AloneIsARun | main/gdb_if.cpp:52-87 | such an uninterrupted call is a run of the interleaved machine |
| GdbLock.OthersAreStable | main/gdb_if.cpp:53 | the test "am I the holder", and the counter while it holds, are stable under every single step of the other tasks |
| GdbLock.NextKeepsInv | main/gdb_if.cpp:52-87 | every step of any task keeps the invariant of mutex, unprotected counter, scopes and half-finished calls |
| GdbLock.ExecKeepsInv | main/gdb_if.cpp:52-87 | every schedule of any length keeps it, and no task is lost |
| GdbLock.MutualExclusion | main/gdb_if.hpp:16-32 | for any number of tasks, nesting and schedule, at most one task is inside a lock scope that is not broken |
| GdbLock.CounterIsDepth | main/gdb_if.cpp:50-68 | between calls a task holds the mutex exactly when it is inside a lock scope opened since its innermost break, and the counter is then the number of these scopes |
| GdbLock.WaitingOrDeadNeverHolds | main/gdb_if.cpp:159-195 | a task waiting in select under a break, or destroyed, never holds the mutex |
| GdbLock.RestoreGivesBackTheDepth | main/gdb_if.cpp:69-87 | closing a break scope gives back exactly the depth that opening it took, whatever the other tasks did meanwhile |
| GdbLock.AllClosedMeansFree | main/gdb_if.hpp:16-32 | when all tasks have closed their scopes or are destroyed the mutex is free and the counter 0 |
| GdbLock.AllClosedMeansFreeExactly | main/gdb_if.cpp:133-149 | with exceptions that jump out of any number of lock scopes, whose destructors are skipped: when all tasks have closed what they still can, the mutex is free if and only if no live task has jumped out of a lock scope; otherwise one such task has it, with the lost depth as count, and no scope left to give it back |
| GdbLock.LostMeansHeld | main/gdb_if.cpp:133-149 | a task that lost a lock scope holds the mutex whenever it is not waiting for input |
| GdbLock.NextJumpKeepsInv | main/gdb_if.cpp:133-149 | every step and every jump of any task keeps the invariant |
| GdbLock.NoDeadlock | main/gdb_if.cpp:52-87 | in every reachable state with a task alive some task can take a step |
| GdbPacket.RoundTrip | main/gdb_packet.cpp:45-136 | any list of payloads of any bytes, each at most `size` long, framed and concatenated, is read back by repeated calls as exactly that list, empty payloads reading like silence |
| GdbPacket.FrameIsTaken | main/gdb_packet.cpp:103-128 | a frame yields its payload, accepted, and leaves what follows it unread |
| GdbPacket.NoiseIsSkipped | main/gdb_packet.cpp:51-57 | noise free of `$`, `!`, 0x03, 0x04 and 0xFF before a frame changes nothing |
| GdbPacket.TruncatedFrameIsDropped | main/gdb_packet.cpp:105-113 | a frame cut off between two characters, shorter than `size`, is dropped when the next `$` comes, and the session goes on with the next frame |
| GdbPacket.CutFrameExactly | main/gdb_packet.cpp:103-128 | for every cut of every frame: the frame that follows is read as it was written if and only if the cut is in the body, between two characters, with fewer than `size` of them before it; after a lone escape or inside the checksum it is not |
| GdbPacket.ChecksumGate | main/gdb_packet.cpp:103-128 | whatever the stream, a framed payload is accepted exactly when its two checksum characters read as the modulo-256 sum of the raw bytes since the last `$`, and it is those bytes unescaped |
| GdbPacket.EscapedOnTheWire | main/gdb_packet.cpp:187-197 | for all payloads, in 8-bit bytes: `$`, `#`, `}` and `*`, and no others, go out as `}` and the character xor 0x20 |
| GdbPacket.UnescapedFromTheWire | main/gdb_packet.cpp:114-121 | what comes after a `}` is stored xor 0x20, and both count for the checksum as they came |
| GdbPacket.DollarFramed | main/gdb_packet.cpp:185-202 | the frame of the payload `$`, byte by byte |
| GdbPacket.ChecksumIsTheSum | main/gdb_packet.cpp:199-202 | a frame ends in `#` and two digits or capital letters that stand for the modulo-256 sum of the bytes between `$` and `#` |
| GdbPacket.RemoteExactly | main/gdb_packet.cpp:64-92 | for all contents of a remote packet: `!` starts it again, `#` and `$` end it, and so does the character behind `size` others |
| GdbPacket.RemoteIsSkipped | main/gdb_packet.cpp:59-101 | it yields no packet and no acknowledgement, and a `$` that ends it starts no frame |
| GdbPacket.BareByte | main/gdb_packet.cpp:55-56 | a bare 0x03 or 0x04 between frames is a packet of its own, without acknowledgement |
| GdbPacket.EveryFrameIsAnswered | main/gdb_packet.cpp:127-135 | every frame read to its end is owed `+` if accepted and `-` if not |
| GdbPacket.TransmissionsExactly | main/gdb_packet.cpp:204 | a frame is sent once more than there are answers before the first `+`, and at most four times |
| GdbPacket.StrtolIsTheStandard | main/gdb_packet.cpp:128 | strtol on two characters, as the C standard describes it for strings of any length |
| GdbPacket.StrtolReadsHex | main/gdb_packet.cpp:123-128 | the two digits of every byte are read back as that byte |
| GdbPacket.StrtolIsLenient | main/gdb_packet.cpp:128 | any two hex digits are read as their value, but `zz` is read as 0, so that it passes for the checksum 0 |
| GdbPacket.FramesAreAcknowledged | main/gdb_packet.cpp:127-135 | frames that arrive whole are owed one `+` each and no `-` |
| GdbPacket.AtMostFour | main/gdb_packet.cpp:204 | a frame is sent at most four times, and once if the first answer is `+` |
| GdbPacket.SilenceCostsFour | main/gdb_packet.cpp:300 | an unanswered frame is sent four times; this is what `gdb_putpacket2` does in no-ack mode too, where it still waits for an answer |
| GdbPacket.OneExchange | main/gdb_packet.cpp:178-204 | in ack mode a frame that meets a receiver of this module is sent once and read once |
| GdbPacket.ChunksAreInvisible | main/gdb_if.cpp:197-217 | the bytes read do not depend on how `recv` cuts them into chunks or on timeouts in between |
| GdbPacket.EndToEnd | main/gdb_packet.cpp:38-205 | frames of any payloads, cut into any chunks and delayed by any silences, are read by successive calls as exactly these payloads |
| GdbPacket.Transfer | main/gdb_packet.cpp:38-205 | the code of both ends: any list of non-empty payloads put by `gdb_putpacket`, in either mode, and delivered in any chunks with any silences, is what the calls of `gdb_getpacket` return |
| GdbPacket.SendAll | main/gdb_packet.cpp:170-205 | the calls of `gdb_putpacket`, each acknowledged, put the frames on the wire one after the other |
| GdbPacket.ReceiveAll | main/gdb_packet.cpp:38-150 | the calls of `gdb_getpacket` until the connection closes return the packets of the byte stream |
| GdbPacket.GdbClient.GetChar | main/gdb_if.cpp:197-217 | the next character of the stream, refilling the 256-byte buffer only when it is used up |
| GdbPacket.GdbClient.GetCharTo | main/gdb_if.cpp:173-195 | the next character, or 0xFF and nothing consumed on a timeout |
| GdbPacket.GdbClient.PutChar | main/gdb_if.cpp:218-231 | output grows by the character; a full or flushed buffer is sent and empty |
| GdbPacket.GdbClient.NextChar | main/gdb_packet.cpp:152-168 | one character is written escaped and added to the checksum as written |
| GdbPacket.GdbClient.PutFrame | main/gdb_packet.cpp:280-299 | one transmission writes exactly the frame of the two parts joined, and leaves the transmit buffer empty |
| GdbPacket.GdbClient.PutUntilAcknowledged | main/gdb_packet.cpp:178-204 | the frame is written as often as the answers demand and nothing else is written |
| GdbPacket.GdbClient.PutPacket | main/gdb_packet.cpp:170-205 | writes the frame once in no-ack mode and otherwise until `+`, four times at most, with the transmit buffer empty afterwards |
| GdbPacket.GdbClient.PutPacket2 | main/gdb_packet.cpp:280-300 | emits the frame `gdb_putpacket` emits for both parts joined, waiting for an answer in either mode |
| GdbPacket.GdbClient.PutNotification | main/gdb_packet.cpp:243-257 | writes the notification frame once |
| GdbPacket.GdbClient.CaptureBody | main/gdb_packet.cpp:103-122 | the capture loop reads what the specification reads; every store is within `size` |
| GdbPacket.GdbClient.ReadFrame | main/gdb_packet.cpp:103-128 | from `$` to the checksum: the payload, its length and the verdict of the specification |
| GdbPacket.GdbClient.AwaitStart | main/gdb_packet.cpp:47-101 | the wait for a packet consumes silence, noise, remote packets, and says what came |
| GdbPacket.GdbClient.SkipRemotePacket | main/gdb_packet.cpp:59-99 | the `!` branch stores at most `size` characters and ends where the specification ends it; a `$` inside does not start a packet |
| GdbPacket.GdbClient.GetPacket | main/gdb_packet.cpp:38-150 | a call that does not return 0 returns the next packet of the byte stream whatever chunks and timeouts it came in, and in ack mode one `-` is written per rejected frame, then one `+` |
| Exceptions.Thread.RaiseException | components/blackmagic/exception.c:8-29 | the walk stops at the innermost frame whose mask meets the type, fills in that frame only and makes its outer frame the head; with no such frame the program is aborted |
| Exceptions.Thread.Run | components/blackmagic/exception.h:66-72 | any program of nested blocks, sequences and raises ends as structured exceptions say, with the same events in the same order; the chain is afterwards what it was, less the blocks a jump leaves, and no frame but the catcher has changed |
| Exceptions.Thread.RunTry | components/blackmagic/exception.h:66-72 | one block with the code behind it does, as a whole, what the structured `Try` does |
| Exceptions.Thread.RunGuarded | components/blackmagic/exception.h:66-72 | the block is entered once, its frame is unlinked on leaving normally or as catcher, and its type says which it was |
| Exceptions.Thread.RunBody | components/blackmagic/exception.h:71-72 | the one-shot loop runs the body once and unlinks the frame |
| Exceptions.Unwound | components/blackmagic/exception.c:12-25 | how the chain and the frames stand after the body, from how they stood inside it |
| Exceptions.Masks | components/blackmagic/exception.h:48-50 | EXCEPTION_ALL takes every kind but 0, the two single kinds do not take each other, and a mask of several kinds takes what one of them takes |
| Exceptions.InnermostTakes | components/blackmagic/exception.c:12-25 | for any nesting of blocks around a raise: the innermost block that meets the kind takes it, no code behind the raise or behind the blocks inside runs, and the handler runs and then the code behind its block and those around |
| Exceptions.NobodyTakes | components/blackmagic/exception.c:12-28 | if no block meets the kind the exception leaves them all |
| Exceptions.HandlerRaises | components/blackmagic/exception.c:16-18 | an exception raised in a handler is not taken by the block of the handler |
| Exceptions.CatcherIs | components/blackmagic/exception.c:12-24 | the catcher is the first frame of the chain whose mask meets the type |
| CircularBuffer.MaskIsRemainder | main/CBUF.h:98 | for every power of two that 8 bits can hold, `& Mask` is the remainder |
| CircularBuffer.WrappedComparesLaps | main/CBUF.h:103 | for every power of two that 8 bits can hold, `Wrapped` says that the two indices are on different laps |
| CircularBuffer.CBuf.Len | main/CBUF.h:81 | the unsigned difference of the indices is the number of entries held, across index overflow |
| CircularBuffer.CBuf.Push | main/CBUF.h:123-126 | with room it appends; without, it also replaces the entries in its slot, a multiple of the size away from the end; the entry that makes the difference overflow makes the buffer look empty |
| CircularBuffer.CBuf.Pop | main/CBUF.h:132-135 | takes the oldest entry off |
| CircularBuffer.CBuf.Get | main/CBUF.h:177 | the idx-th entry from the beginning |
| CircularBuffer.CBuf.GetEnd | main/CBUF.h:184 | the idx-th entry from the end |
| CircularBuffer.WrappedMeans | main/CBUF.h:103 | for indices of at least twice the buffer size, `Wrapped` holds exactly when the contents reach the end of the array |
| CircularBuffer.CBuf.ContiguousMeans | main/CBUF.h:92-115 | `ContigLen` and `ContigSpace` are the contents, and the free entries, up to the end of the array, across index overflow |
| RingProtocol.StepKeepsInv | main/CBUF.h:123-135 | every single store, load, check and index bump of either side keeps the ring invariant |
| RingProtocol.RunKeepsInv | main/CBUF.h:11-25 | every interleaving of any length keeps it, with guards on a size below the index range, or without as long as the bound is respected |
| RingProtocol.GuardedRunsConserve | main/CBUF.h:11-25 | with push guarded by not-full, pop by not-empty and a size below the index range, in every interleaving of one producer and one consumer what was popped followed by what is queued is what was pushed |
| RingProtocol.SizeRule | main/CBUF.h:18-22 | with both guards, a size is safe in all runs if and only if it is smaller than the number of index values |
| RingProtocol.FullSizeLoses | main/CBUF.h:18-22 | a run with both guards that loses what was pushed, for every size as large as the index range |
| RingProtocol.UnguardedRunConservesExactly | main/platform.c:101-107 | without the guard, on a buffer as large as the index range, the first state with that many outstanding is exactly where conservation ends |
| DebugPipeline.ConservationExactly | main/platform.c:326-346 | for every log and every interleaving of `putc_remote` and `dbg_task`: broadcast, held back, in hand and queued bytes are together the log with each newline expanded, if and only if fewer than 256 bytes are outstanding |
| DebugPipeline.LinesGetCrLf | main/platform.c:524-530 | for every log, as lines and the rest of the last one: each LF becomes CR LF, and nothing else changes |
| DebugPipeline.EndedLinesAreBroadcast | main/platform.c:328-346 | no wake-up is lost: when `dbg_task` waits for a semaphore that nobody gave and the producer is not about to give it, every line the log has ended is broadcast |
| DebugPipeline.LongLineIsLost | main/platform.c:101-107 | 256 bytes without a newline reach the limit, and are all lost |
| DebugPipeline.CollectKeeps | main/http.c:301-311 | every frame broadcast ends a line or is 256 bytes long, has no newline before its end, and nothing is dropped |
| DebugPipeline.CollectAllKeeps | main/http.c:301-311 | over any number of bytes the frames and what is held back are together exactly the bytes given, every frame a line end or 256 bytes |
| DebugPipeline.GoesKeepsGood | main/platform.c:326-346 | every step of either task within the limit keeps the invariant |
| DebugPipeline.HttpDebug.PutC | main/http.c:301-311 | the static buffer and its size follow the specification, and the store is within the buffer |
| DebugPipeline.DebugPort.DebugPutC | main/platform.c:341-346 | appends below 255 entries; at 255 the queue looks empty |
| DebugPipeline.DebugPort.PutcRemote | main/platform.c:524-530 | queues the byte, a newline as CR LF, and gives the semaphore on a newline |
| DebugPipeline.DebugPort.Drain | main/platform.c:331-337 | one round empties the queue into the HTTP buffer in order |
| LruMap.LruMap.Get | html/xterm.js:1 | LRUMap.get: the value of the key, whose node moves to the recent end of the doubly linked list; nothing changes on a miss |
| LruMap.LruMap.Set | html/xterm.js:1 | LRUMap.set: the list, the key map and the node pool hold afterwards what the recency sequence holds with the key put last |
| LruMap.LruMap.Peek | html/xterm.js:1 | LRUMap.peek: the value of the least recent entry |
| LruMap.LruMap.PeekValue | html/xterm.js:1 | LRUMap.peekValue: the value of the key, with the order unchanged |
| LruMap.LruMap.Prealloc | html/xterm.js:1 | LRUMap.prealloc adds distinct unused nodes to the pool and changes nothing else |
| LruMap.LruMap.UnlinkNode | html/xterm.js:1 | LRUMap._unlinkNode takes the node at any position out of the list |
| LruMap.LruMap.AppendNode | html/xterm.js:1 | LRUMap._appendNode puts a node at the recent end |
| LruMap.PutIsDistinctAndBounded | html/xterm.js:1 | keys stay distinct and at most `capacity` |
| LruMap.PutMeaning | html/xterm.js:1 | set makes its key the most recent, changes no other value, and drops an entry only when a new key arrives at capacity: the least recent one |
| LruMap.LruHoldsTheLastUses | html/xterm.js:1 | after any trace of uses the map holds exactly the `capacity` keys used last, in the order of their last use |
| LruMap.UseOnEntries | html/xterm.js:1 | the keys of the map follow that trace semantics under a get and, on a miss, a set |
| CharAtlas.KeyIsInjective | html/xterm.js:1 | getGlyphCacheKey, in 32-bit arithmetic, is injective for codes below 256 and colours below 512 |
| CharAtlas.KeyFields | html/xterm.js:1 | its bits: code, background, foreground, and a flag each that is set when the glyph is not bold, not dim, not italic |
| CharAtlas.KeyCollidesOutOfRange | html/xterm.js:1 | out of that range it is not: two glyphs, with a foreground past 511 that the terminal never uses, share a key |
| CharAtlas.MissKeepsSlots | html/xterm.js:1 | drawing a new glyph keeps the slots of the live entries a permutation of 0..size-1, each showing its own glyph |
| CharAtlas.HitKeepsSlots | html/xterm.js:1 | after a hit the slots are still a permutation of 0..size-1, each showing its own glyph, in the new order |
| CharAtlas.HitShowsTheGlyph | html/xterm.js:1 | a hit copies the glyph asked for, whatever was evicted before |
| CharAtlas.DynamicCharAtlas.Draw | html/xterm.js:1 | DynamicCharAtlas.draw: when it draws, what it copies to the screen is the glyph asked for; a new glyph is drawn only below code 256 and as one of the first 100 of its frame, and counted; slots stay a permutation; the cache holds the glyphs used last |
| CharAtlas.DynamicCharAtlas.PickSlot | html/xterm.js:1 | the slot of a new glyph: the next unused one, or that of the entry about to be evicted |
| EscapeParser.BatchedIsStepwiseExactly | html/xterm.js:1 | EscapeSequenceParser.parse ends in the same state as stepping the transition table code by code, for all input, and emits the same events if and only if no DEL directly follows a DCS payload code of its chunk |
| EscapeParser.SplitInvariance | html/xterm.js:1 | cutting a chunk in two changes nothing if and only if the cut is not inside a DCS payload with DEL as the next code |
| EscapeParser.AnyChunkingIsStepwise | html/xterm.js:1 | input without DEL inside DCS payloads parses the same however it is cut up: always as one code at a time |
| EscapeParser.BatchedAgainstFeed | html/xterm.js:1 | the batched machine reaches the stepwise configuration and emits more events exactly when it swallows a DEL |
| EscapeParser.ParamIsItsDecimal | html/xterm.js:1 | a numeric parameter is min(decimal value, 2^31 - 1), through the 32-bit arithmetic of addDigit |
| EscapeParser.SubParamIsItsDecimal | html/xterm.js:1 | so is a sub-parameter, which is -1 before its first digit |
| EscapeParser.ControlSequence | html/xterm.js:1 | `CSI n1;n2;...;nk final`, for all parameters, calls the handler of `final` once with the first 32 saturated decimals, whatever parameters and collected characters came before, and leaves the parser in its ground state |
| EscapeParser.ControlSequenceInChunks | html/xterm.js:1 | however that sequence is cut into chunks |
| EscapeParser.ParamsAreTheList | html/xterm.js:1 | the codes of a parameter string add up to the list of the first 32 values, and to rejected digits after them |
| EscapeParser.DelIsTaken | html/xterm.js:1 | `ESC P q x DEL`, on which the batched and the stepwise machine differ |
| EscapeParser.FeedAppend | html/xterm.js:1 | the stepwise machine can be stopped and resumed anywhere |
| EscapeParser.PrintBatch | html/xterm.js:1 | the unrolled print loop emits, for the whole run it takes, what the single steps emit, and ends where they end |
| EscapeParser.OscBatch | html/xterm.js:1 | the OSC payload loop emits, for the whole run it takes, what the single steps emit, and ends where they end |
| EscapeParser.DcsBatch | html/xterm.js:1 | the DCS payload loop emits, for the whole run it takes, what the single steps emit, and ends where they end |
| EscapeParser.ParamBatch | html/xterm.js:1 | the parameter loop emits, for the whole run it takes, what the single steps emit, and ends where they end |
| EscapeParser.Params.AddParam | html/xterm.js:1 | Params.addParam, within its limit of 32, past which digits are rejected |
| EscapeParser.Params.AddSubParam | html/xterm.js:1 | Params.addSubParam, with the packed index ranges |
| EscapeParser.Params.AddDigit | html/xterm.js:1 | Params.addDigit on the parameter or sub-parameter it belongs to, saturating |
| EscapeParser.Params.Reset | html/xterm.js:1 | Params.reset leaves no parameter, no sub-parameter and no rejection behind |
| EscapeParser.EscapeSequenceParser.ScanPrint | html/xterm.js:1 | the loop unrolled four times stops at the first code that is not printable, or at the end of the data, and never looks past it |
| EscapeParser.EscapeSequenceParser.ScanOsc | html/xterm.js:1 | the OSC scan stops at the first terminator |
| EscapeParser.EscapeSequenceParser.ScanDcs | html/xterm.js:1 | the DCS scan stops at the first terminator, which DEL is not |
| EscapeParser.EscapeSequenceParser.RunParams | html/xterm.js:1 | the parameter loop consumes exactly the run of parameter codes |
| EscapeParser.EscapeSequenceParser.Single | html/xterm.js:1 | the actions that take one code do what the table step does |
| EscapeParser.EscapeSequenceParser.Advance | html/xterm.js:1 | one round of the main loop, batch or single code, is a resumable part of the batched machine |
| EscapeParser.EscapeSequenceParser.Parse | html/xterm.js:1 | parse over one chunk is the batched machine |
| EscapeSequences.ControlCode | html/xterm.js:1 | the codes below 32 other than CAN, SUB and ESC, in every state: run at once in the ground state and in the middle of a sequence, which goes on; skipped in strings and DCS heads; payload in a DCS string; BEL ends an OSC string |
| EscapeSequences.Cancelled | html/xterm.js:1 | CAN and SUB, in every state: back to the ground state, an OSC or DCS string ended without success |
| EscapeSequences.Escaped | html/xterm.js:1 | ESC, in every state: a fresh sequence, an OSC or DCS string ended with success |
| EscapeSequences.HighControl | html/xterm.js:1 | the codes 128 to 159, in every state: introducers, ST and controls; an introducer inside a string leaves it without an end |
| EscapeSequences.BeyondAscii | html/xterm.js:1 | DEL and the codes from 160 on, in every state |
| EscapeSequences.PrintedCode | html/xterm.js:1 | the printable codes in the ground state |
| EscapeSequences.OscString | html/xterm.js:1 | from any state, for all contents: OSC start, one put for each code that is no control, and the end by BEL, ST, ESC, CAN or SUB, the last two without success, with fresh parameters and in the ground state, or after ESC in the escape state |
| EscapeSequences.OscStringInChunks | html/xterm.js:1 | however that string is cut into chunks |
| EscapeSequences.EscSequence | html/xterm.js:1 | from any state: ESC, intermediates and a final code call one handler, with the intermediates in its identifier |
| EscapeSequences.CsiSequence | html/xterm.js:1 | from any state, for every prefix, parameters with sub-parameters, intermediates and final code: the handler of the final code is called once, with all of them |
| EscapeSequences.CsiSequenceInChunks | html/xterm.js:1 | however that sequence is cut into chunks |
| EscapeSequences.ListIsTheArgs | html/xterm.js:1 | the parameters its handler reads through Params.toArray are the first 32, saturated, each with its own sub-parameters, of which the first 32 in all are kept, -1 for an empty one |
| EscapeSequences.ItemsAdded | html/xterm.js:1 | the same behind any number of parameters and sub-parameters |
| EscapeSequences.IdMeans | html/xterm.js:1 | the identifier of a handler is the number its codes make in base 256, in 32 bits |
| EscapeSequences.DcsString | html/xterm.js:1 | from any state, for all parameters and contents without DEL: one hook with them, one put for each code, controls too, and one unhook by ST, ESC, CAN or SUB, by the last two without success |
| EscapeSequences.DcsStringInChunks | html/xterm.js:1 | however that string is cut into chunks |
| EscapeSequences.SkippedString | html/xterm.js:1 | SOS, PM and APC strings of ASCII reach no handler |
| EscapeSequences.MalformedSequence | html/xterm.js:1 | a code out of place in a CSI or DCS sequence: the rest is skipped, to its final code or ST, and nothing is dispatched |
| CircularList.NumbersStay | html/xterm.js:1 | under push, recycle, pop, trimStart and splice the list is the history of all lines without as many at its front as trim events have reported: a line keeps its absolute number |
| CircularList.ListIsTheHistory | html/xterm.js:1 | over any run of push, recycle, pop, trimStart and splice, each splice with its insertion index clear of the overflow, the list is the history of the lines without as many at its front as trim events have reported, and is never longer than its bound |
| CircularList.TrimmedIsTheSum | html/xterm.js:1 | in any such run trim events report exactly the sum, over its edits, of what trimStart takes and of what exceeds the bound, computed from the numbers of lines alone |
| CircularList.NothingGoesEarly | html/xterm.js:1 | and nothing while what was there and all that is added fits the bound |
| CircularList.SpliceIsApply | html/xterm.js:1 | splice, where its insertion is clear, is the splice of these runs |
| CircularList.NewestLines | html/xterm.js:1 | so over any run of push and trimStart the list is the newest of all the lines pushed, and trim events add up to the lines gone |
| CircularList.CopyUpSafe | html/xterm.js:1 | the loop that copies towards the end, last element first, is faithful when (offset mod maxLength) + count is at most maxLength |
| CircularList.CopyUpUnsafe | html/xterm.js:1 | otherwise the first of several different elements is overwritten before it is read |
| CircularList.CopyDownSafe | html/xterm.js:1 | the loop that copies towards the front is faithful, and touches nothing else |
| CircularList.WriteAllLands | html/xterm.js:1 | of the elements inserted the last maxLength stay |
| CircularList.InsertionMeans | html/xterm.js:1 | inserting and dropping from the front is right whenever the insertion index is at least the overflow, or the end of the list |
| CircularList.InsertionFails | html/xterm.js:1 | in all other cases the list does not hold that, for elements all different |
| CircularList.ShiftUpMeans | html/xterm.js:1 | shifting towards the end within that bound gives the shifted lines with the oldest trimmed |
| CircularList.ShiftUpFails | html/xterm.js:1 | beyond that bound the list does not hold the shifted lines, for elements all different |
| CircularList.ShiftDownMeans | html/xterm.js:1 | shifting towards the front always gives the shifted lines |
| CircularList.List.Get | html/xterm.js:1 | CircularList.get is the i-th line wherever the ring starts |
| CircularList.List.Set | html/xterm.js:1 | CircularList.set changes one line |
| CircularList.List.Push | html/xterm.js:1 | CircularList.push: the lines and the new one, without the oldest and with one trim event exactly at maxLength |
| CircularList.List.Recycle | html/xterm.js:1 | CircularList.recycle: refused unless full; otherwise the oldest line becomes the newest and is returned |
| CircularList.List.Pop | html/xterm.js:1 | CircularList.pop takes the newest line off and returns it, with no trim event |
| CircularList.List.TrimStart | html/xterm.js:1 | CircularList.trimStart: the lines without the first `count` of them, or none, and that many reported by one trim event |
| CircularList.List.SetMaxLength | html/xterm.js:1 | the maxLength setter keeps the lines; the list is usable afterwards if and only if the new bound is at least its length, which the setter does not look at |
| CircularList.List.Splice | html/xterm.js:1 | CircularList.splice is delete, then insert, then drop from the front, for elements all different if and only if the insertion index is at least the overflow or the end; after a deletion past the end it is too short by as much, and a list at all if and only if its length is not negative |
| CircularList.List.Delete | html/xterm.js:1 | the deleting loop of splice closes the gap and changes no other line, and does nothing for a deletion past the end |
| CircularList.List.ShiftElements | html/xterm.js:1 | CircularList.shiftElements: its errors, its trim events, and for every range the cells it leaves, those it copies from behind the end of the list included; for ranges within the list these are the shifted lines, towards the end if and only if (offset mod maxLength) + count is at most maxLength |
| CircularList.CutShortOutcome | html/xterm.js:1 | what a deletion past the end leaves of the lines: those before the insertion and the first of those inserted, if they fit |
| StringToUtf32.ChunksDoNotMatter | html/xterm.js:1 | StringToUtf32.decode gives the same code points and holds back the same unit however any sequence of UTF-16 units, malformed ones included, is cut into chunks |
| StringToUtf32.RoundTrip | html/xterm.js:1 | utf32ToString of the output, followed by the unit held back, is the unit held before followed by the input |
| StringToUtf32.CombinedRoundTrip | html/xterm.js:1 | the pair arithmetic inverts section 2.1 of RFC 2781 |
| StringToUtf32.PairsInOrder | html/xterm.js:1 | the pairs in order stand for the code points from 0x10000 to 0x10FFFF in order |
| StringToUtf32.OutputLength | html/xterm.js:1 | the output is at most one longer than the chunk, and is so exactly when a held unit comes out alone, the chunk has no pair and nothing is held at its end |
| StringToUtf32.HeldExactly | html/xterm.js:1 | a unit is held if and only if the input ends in an odd run of high surrogates, the unit held before counting with a run that is all of the input |
| StringToUtf32.PairsExactly | html/xterm.js:1 | nothing is paired if and only if no low surrogate comes while one is held, read off the input in the same way |
| StringToUtf32.TooLongExactly | html/xterm.js:1 | so the output is one longer than the chunk if and only if a unit is held before it, nothing is paired in it and nothing held after it |
| StringToUtf32.LostUnit | html/xterm.js:1 | chunks of every length that exceed by one a buffer of their own length |
| StringToUtf32.TextOverruns | html/xterm.js:1 | text without surrogates, as long as the buffer, after a high surrogate meets the condition for a lost code point |
| StringToUtf32.LetterIsLost | html/xterm.js:1 | a run of the code on it: a high surrogate, then 4096 letters, of which the last never reaches the parser |
| StringToUtf32.StandardExactly | html/xterm.js:1 | for all input the decoder pairs surrogates as section 2.2 of RFC 2781 does if and only if every run of high surrogates before a low one has odd length |
| StringToUtf32.TwoHighsDiffer | html/xterm.js:1 | two high surrogates before a low one, on which they differ |
| StringToUtf32.Decoder.DecodeChunk | html/xterm.js:1 | the loop with its look-ahead, its typed-array writes and `_interim` is the unit-by-unit decoder; writes past the end are dropped but counted |
| StringToUtf32.Input.Parse | html/xterm.js:1 | the string branch of InputHandler.parse, with its buffer and its pieces of 131072 units, grows its buffer as the source does, holds back the right unit, and loses a code point if and only if one of its pieces is as long as the buffer, entered with a unit held, pairs nothing and leaves nothing held, all read off the input |
| TerminalInput.Terminal.Write | html/xterm.js:1 | InputHandler.parse of one string: what the parser does is what its table does code by code with the code points the string decodes to, if no code point is lost, which is said of the input, and no DEL comes inside a DCS payload |
| TerminalInput.Terminal.WriteAll | html/xterm.js:1 | however a text is cut into strings, under the same two conditions: state and events are those of the table on the code points of the whole text, and a code point is lost if and only if one of the writes, with the buffer and the held unit it finds, loses one |
| TerminalInput.Terminal.ParseAll | html/xterm.js:1 | the parser calls of one string, one for each piece |
| TerminalInput.WrittenSnoc | html/xterm.js:1 | the text so far and the next string decode to what they decode to together, and a DEL in a payload is in one of the two |
| Reflow.NewLineLengths | html/xterm.js:1 | reflowSmallerGetNewLineLengths ends, stays within the lines, and for all lines its result is the greedy rows of their text; if no wide character of the lines has lost its second cell, it is the layout of the text: rows of 1 to the new width, no wide character torn, every row as full as that allows |
| Reflow.RowsAddUp | html/xterm.js:1 | for all texts the rows add up to the number of cells, each from 1 to the new width |
| Reflow.RowIsFirst | html/xterm.js:1 | each row is the first row of what is left of the text |
| Reflow.RowEndsOnWideExactly | html/xterm.js:1 | for all texts: a row that had room to be full ends on a wide cell if and only if the last two cells that would fill it are both wide, and a shorter one if and only if the text ends on a wide cell |
| Reflow.HalfIsTorn | html/xterm.js:1 | the reachable case: a wide character printed over the second cell of another, narrowed from 4 to 3 columns, gives a row that ends right behind the first of the two |
| Reflow.LengthFits | html/xterm.js:1 | for all lines getWrappedLineTrimmedLength is at most one more than the width, and for all lines but the last the width or one less |
| Reflow.LengthIsUntorn | html/xterm.js:1 | without lost second cells it is at most the width and never ends in half a wide character |
| Reflow.FlatIsUntorn | html/xterm.js:1 | the lines of such a group, read one after the other, tear no wide character |
| Reflow.RowsAreTheLayout | html/xterm.js:1 | for such texts a list of row lengths is a layout, full rows with no wide character torn, if and only if it is the one computed greedily: the layout exists and is unique |
| Reflow.LayoutMeans | html/xterm.js:1 | a layout has lengths between 1 and the width that add up to the number of cells |
| Reflow.NoBoundaryInside | html/xterm.js:1 | no boundary of a layout falls inside a wide character |
| ReflowCopy.NoFewerRows | html/xterm.js:1 | narrowing never needs fewer rows than there were lines |
| ReflowCopy.RowsComeFirst | html/xterm.js:1 | no row starts later in the text than the old line of the same number |
| ReflowCopy.NoneOvertaken | html/xterm.js:1 | the backward in-place copy of _reflowSmaller never writes to a cell it has still to read |
| ReflowCopy.MovedKeeps | html/xterm.js:1 | each call of copyCellsFrom keeps the invariant of cells moved and cells still in place |
| ReflowCopy.NextLine | html/xterm.js:1 | the length of the line before can still be read off the half-moved lines |
| ReflowCopy.NarrowingKeepsTheCells | html/xterm.js:1 | for all lines, the new lines are sound, and read again they hold the same cells if and only if the last row ends where its last character ends and no row full with a blank at its end stands before a wide character; if no wide character had lost its second cell, none has afterwards |
| ReflowCopy.BlankIsMisread | html/xterm.js:1 | four cells, narrowed to two, on which such a blank is lost |
| ReflowMarks.CopyCellsFrom | html/xterm.js:1 | BufferLine.copyCellsFrom, both parts: the cells, last to first, arrive faithfully also within one line; the entries of the table of combined characters, in ascending order and without upper bound, arrive as `Carried` says, which in a line copied onto itself is the entry found by stepping back by the shift |
| ReflowMarks.CopyCombined | html/xterm.js:1 | the loop over the keys of `_combined`, which are those from before the loop while the values are read when their turn comes |
| ReflowMarks.SecondCopy | html/xterm.js:1 | what the missing upper bound does: the copy that fills a row brings the entries behind its line over those of the cells already there |
| ReflowMarks.MarksMoved | html/xterm.js:1 | each call of copyCellsFrom keeps the invariant of tables: rows done have their final entries, lines not yet read have their own |
| ReflowMarks.MoveCells | html/xterm.js:1 | the copying loop: in the end every row shows its part of the text, and every combined cell has the entry `FinalMark` computes from the old lines |
| ReflowMarks.NarrowGroup | html/xterm.js:1 | the narrowing of one group of wrapped lines with their tables, whatever is written in them: lines of the old width are added, cells moved, the cell behind each row cleared, and cells and entries behind the new width cut off |
| ReflowMarks.NarrowingKeepsTheText | html/xterm.js:1 | for all lines and tables, the new lines, read again, hold the same cells and the same combined characters if and only if the last row ends where its last character ends, no row full with a blank at its end stands before a wide character, and every combined cell keeps its entry |
| ReflowMarks.NewLinesAreMarked | html/xterm.js:1 | every combined cell of the new lines has an entry, so that they can be narrowed again |
| ReflowMarks.MarksKeptCellByCell | html/xterm.js:1 | for all lines and tables, entries left over included: every combined cell keeps its entry if and only if, read off the old tables, the entry spilled over it is its own, or none is and the last entry found by stepping back from it by the shift is its own |
| ReflowMarks.MarksKeptExactly | html/xterm.js:1 | the special case without entries left over from characters overwritten: every combined cell keeps its entry if and only if no line has two different entries as far apart as it moves against its own row, the second of a cell that stays in that row |
| ReflowMarks.NeighboursClash | html/xterm.js:1 | two lines, narrowed from 4 to 3 columns, on which the first of two combined characters is read twice and the second is lost |
| ReflowMarks.LeftoverSpills | html/xterm.js:1 | two lines, narrowed from 5 to 3 columns, on which an entry left over behind the text of one replaces that of the first character of the next |
| MergeRanges.RangeList.Merge | html/xterm.js:1 | _mergeRanges changes a sorted list of ranges, in place, into the ranges before the new one, one range for all it overlaps, and the ranges behind |
| MergeRanges.MergedMeans | html/xterm.js:1 | the merged list is sorted and disjoint, covers exactly the cells covered before or by the new range, and joins exactly the neighbours joined before or by the new range |
| MergeRanges.OnlyOneList | html/xterm.js:1 | a sorted list is determined by the cells it covers and joins |
| MergeRanges.MergeAllMeans | html/xterm.js:1 | any number of ranges merged one after the other give a sorted list that covers and joins exactly what they do together |
| MergeRanges.OrderDoesNotMatter | html/xterm.js:1 | the list depends only on which ranges were merged, not on their order or repetition |
| GdbSession.StopsAreAnswers | main/gdb_main.cpp:207-270 | in every session, in both modes, between two stop replies of the poll branch, and before the first, a resume, an interrupt or a vCont action of this client was accepted |
| GdbSession.NoMoreStopsThanRequests | main/gdb_main.cpp:207-270 | stop replies never outnumber what was accepted, counting what is still owed |
| GdbSession.HaltIsReportedOnce | main/gdb_main.cpp:211-266 | polling a halted target reports it once if a stop is owed and never otherwise; whenever it does, run_state and single_step are false afterwards |
| GdbSession.OwedMeans | main/gdb_main.cpp:332-358 | a stop is owed exactly if something was accepted since the last one |
| GdbSession.RunKeepsInv | main/gdb_main.cpp:203-545 | over every session the two flags say nothing else than the history of actions does |
| GdbSession.ResumeSteps | main/gdb_main.cpp:332-346 | a resume steps exactly when an `s` came since the last stop and the last accepted vCont, refused or not |
| GdbSession.RefusedStepSticks | main/gdb_main.cpp:335-346 | a step refused for want of a target makes the next continue step |
| GdbSession.VContResumesExactly | main/gdb_main.cpp:799-828 | for every text, of which only what comes before its first NUL counts, an accepted vCont resumes the target if and only if a `c` occurs in it, and its first resume steps if and only if an `s` comes before |
| GdbSession.VContExactly | main/gdb_main.cpp:799-828 | in every session an accepted vCont does what each of its letters says, in order, asks for one halt for each `t`, and leaves a stop owed if it holds a `c`, `t` or `s` or one was owed before |
| GdbSession.InterruptIsAnswered | main/gdb_main.cpp:350-358 | in every session the byte 0x03 asks for one halt and does nothing else, a stop is owed then, and with a target the next poll that finds it halted sends exactly one |
| GdbSession.ModeAndTarget | main/gdb_main.cpp:465-543 | in every session the mode is that of the last QNonStop packet, and the target is gone after a detach |
| GdbSession.LoneStepResumesNothing | main/gdb_main.cpp:799-828 | the shortest instance: a vCont with only a step sets both flags and resumes nothing |
| GdbSession.Session.Poll | main/gdb_main.cpp:211-266 | the poll branch sends one stop, in the form of the mode and with the signal of the halt reason, exactly when run_state is set, there is a target and it has halted, and clears both flags |
| GdbSession.Session.StepOrContinue | main/gdb_main.cpp:332-348 | `s` and `S` set single_step before it is known whether there is a target, then resume like `c` and `C`; without a target they are refused and run_state stays |
| GdbSession.Session.Interrupt | main/gdb_main.cpp:350-358 | the byte 0x03 asks the target to halt and leaves a stop owed, in either mode |
| GdbSession.Session.HandleVCont | main/gdb_main.cpp:799-828 | the loop over a vCont packet acts on every letter up to the first NUL, also inside thread numbers, after clearing single_step; without a target it only refuses |
| GdbSession.Session.Letters | main/gdb_main.cpp:809-826 | the while loop itself, which stops at the NUL, has the effect of the letters before it, one after the other |
| GdbSession.StringReply | main/gdb_main.cpp:552-572 | the piece of a string at an offset, its end mark, or the error past the end |
| GdbSession.FetchGetsTheString | main/gdb_main.cpp:552-572 | a client that asks for any positive lengths and advances by what it gets sees no error, always has a prefix, has the whole string when told so, and is told so after at most one request more than there are characters |

## Left out

- Wi-Fi, sockets, lwIP, FreeRTOS, the flash driver, UART, GPIO and the HTTP library: present only as events, an append-only flash and an abstract mutex.
- The Black Magic target library (attach, halt poll, memory access, `hexify`, remote packet processing): its results are parameters.
- What a remote packet (`!` to `#`) makes the probe do; only where the packet ends and that it stays within the buffer.
- GdbPacket.GdbClient.PutChar: does not model partial or failed sends, because the source takes any positive result for a full send and destroys the client otherwise.
- GdbPacket.GdbClient.GetCharTo: does not model the lock break around the read, which is the subject of GdbLock.
- The destruction of a client whose connection closes, beyond the fact that it reads and returns no more.
- GdbLock.AllClosedMeansFreeExactly: does not model exceptions raised while a break scope is open, since nothing is raised while a client waits for input.
- The client side of the TFTP transfer (`ota_tftp_download` with a peer address): only the server's established connection.
- OtaTftp.Receiver.ReceiveData: does not model a packet whose first segment is shorter than the header, where the source reads out of bounds.
- DebugPipeline.ConservationExactly: does not model several producers, although any task may log; the source has no lock there.
- The macros of main/CBUF.h that hand out entry pointers or advance by several entries.
- The atlas with a bitmap generation in flight, the canvas itself, and the colours it paints with.
- The `length` setter of CircularList, which writes raw array cells.
- TerminalInput.Terminal.Write: does not say what the parser does once a code point is lost, as it then reads an undefined code.
- StringToUtf32.Input.Parse: does not model the branch for byte arrays.
- EscapeParser.EscapeSequenceParser.Single: does not model an error handler that aborts or changes the state, which the default one does not, nor precedingCodepoint, which the handlers of printed text set and the parser only clears.
- EscapeParser.EscapeSequenceParser.Parse: does not model the dispatch of events to registered handlers, nor handlers that change the parser, nor the inner parsers of OSC and DCS payloads.
- `Utf8ToUtf32`, whose held-back bytes make it depend on how input is cut.
- ReflowMarks.NarrowGroup: does not model an empty wrapped line that is first in the scrollback; cells are moved in a sequence of lines, so that two groups never share a line object.
- The rest of `_reflowSmaller` (cursor and viewport, moving whole lines in the scrollback) and all of `_reflowLarger`.
- Which cells the joined characters of a line occupy (`_stringRangesToCellRanges`), and the joiners themselves.
- GdbSession.StringReply: does not model the parsing of offset and length, nor the variable-length array that a large length makes.
- GdbSession.Session.Interrupt: models an interrupt without a target as accepted, as the source sets run_state before it passes the null target on.
- The other packets of the GDB main loop (memory, registers, breakpoints, flash), `vRun` and semihosting, which pass their arguments on to the target library.
- Stop notifications sent when a target is destroyed, and the reply to `?`, which do not touch run_state.
