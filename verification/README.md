# Verified models of the board management firmware

Dafny models of the state-carrying parts of a board management controller's firmware,
and proofs about them. Each C file with state is a module: its object or static
variables are a class whose methods follow the C functions statement by statement, a
specification function or relation says what each method does, and lemmas prove what
that means over whole runs. Whatever is outside (bus, clock, peer, scheduler, keyboard)
is a parameter about which nothing is assumed unless the "states" column says so.

| module | models |
|---|---|
| `History`, `CommandLine`, `EditorProperties` | the microrl line editor: its history, a 64-byte ring of wrapping records, refines a queue of lines; its buffer refines a text with a cursor |
| `Crc16`, `Wswap`, `SpiCounters`, `SpiTransport`, `FpgaIo` | register access to the FPGA over CRC-protected SPI frames with an arbitrary peer, up to 32-bit, 64-bit and block access |
| `VxsSlave`, `VxsMaster` | the I2C register protocol between crate master and payload boards (transfers in the combined format of section 3.1.10 of NXP UM10204), from interrupt events up to whole transfers |
| `ClockShift` | the clock-shift handshake of two concurrent activities as interleaved statements, and the phase ramp |
| `Rounding`, `Quantize`, `Fraction` | PLL coefficient quantizers and best-fraction search, over exact reals |
| `Recovery`, `PllStates`, `Ad9548Fsm`, `Ad9545Fsm`, `AuxPllFsm` | the PLL state machines; their common retry discipline is proved once, for any machine that keeps it |
| `Thset`, `DeviceTree` | the thermal shutdown; the device registry as linked heap objects |

Main results: `History.HistoryIsLongestFit`, `EditorProperties.HistoryAfterAnyKeys`,
`EditorProperties.BrowsingShowsHistory`, `EditorProperties.CursorKeysWalk`,
`EditorProperties.UnterminatedExactly`, `Crc16.BurstErrorDetected`,
`Crc16.GeneratorBurstMissed`, `SpiTransport.SpiMaster.ReadReg`, `SpiTransport.TotalsAreTrue`,
`VxsSlave.TransfersAreAtomic`, `VxsSlave.SensorMapServed`, `ClockShift.NoRequestLostOrTorn`,
`ClockShift.QuietPhase`, `ClockShift.EveryRequestTakesEffect`, `Quantize.AlphaError`,
`Fraction.DpllProfile.SetFeedback`, `Recovery.Machine.CountIsRetries`, `Ad9548Fsm.StepLeads`,
`Ad9548Fsm.RunWasBroughtUp`, `Ad9545Fsm.StoredWordIsFresh`, `Thset.ShutdownExactly`,
`DeviceTree.VisitsSubtreeOnce`.

## Where the code falls short of what one would expect

- After `^K` the byte behind the text is not cleared (other/microrl/microrl.c:623-626), so
  a command can receive a longer last token than was on the line.
  `EditorProperties.KillLeavesStaleBytes` is an input; `EditorProperties.UnterminatedExactly`
  and `EditorProperties.CommandReceivesTokens` say exactly when.
- `escape_seq` is never reset (other/microrl/microrl.c:377-426): after an arrow key, ESC and a
  letter without `[` act as an arrow key (`EditorProperties.LeftoverBracket`).
- `fpga_spi_v3_txn` tests the CRC a second time and the poll loops retry on that flag
  (drivers/common/fpga_spi_v3.c:217-226, 297, 344), but a frame with a bad CRC has already
  made the exchange fail: neither is ever reached (`SpiTransport.SpiMaster.CheckReply`).
- `fpga_read` and `fpga_write` test `size % 1`, which is always 0 (dev/fpga/fpga_io.c:98, 112):
  an odd last byte is silently left out (`FpgaIo.BlockRoundTrip`).
- The accumulated SPI error totals are exact only for certain intervals between polls
  (drivers/common/fpga_spi_v3.c:260-263); `SpiCounters.PollExact` says which
  and `SpiCounters.TotalIsTrueCount` that over whole runs no others do.
- A failed system-clock read falls through to a test of the stored word
  (dev/ad9548/dev_ad9548_fsm.c:100-105). It would advance on a stale lock
  (`Ad9548Fsm.FallThroughTrustsStoredWord`); no run stores one
  (`Ad9548Fsm.LockOnlyFromFreshRead`).
- The AD9548 and AD9545 machines zero `recoveryCount` in RUN before the closing reads that
  can send the same step to ERROR (dev/ad9548/dev_ad9548_fsm.c:118-169,
  dev/ad9545/dev_ad9545_fsm.c:148-196). A chip that fails every running step this way is
  retried for ever (`Ad9548Fsm.FailingForever`, `Ad9545Fsm.FailingForever`);
  `Recovery.Machine.CountIsRetries` says exactly when the count is right.
- `ad9548_check_id` reports through an out-parameter whether the identity matches; its
  callers look only at whether the read succeeded (dev/ad9548/dev_ad9548_fsm.c:155-159), so
  RUN survives any identity (`Ad9548Fsm.RunSurvivesAnyIdentity`).
- The I2C slave stores what it has at any STOP (drivers/bus/i2c_slave_driver.c:67-75,
  111-121). A transfer given up after the register number zeroes a scratch register, even on
  the way to reading it (`VxsSlave.AbortedSelectZeroes`).
- Once paused, the auxiliary PLL's machine never looks at its chip again until disabled
  (dev/ad9516/app_task_auxpll_impl.c:95-101): `AuxPllFsm.PausedUntilDisabled`.
- In dev/ad9545/ad9545_commands.c:81-83 the indentation suggests otherwise, but `ack` is
  written whether or not a request was waiting. The model follows the code.

## Model

| member | source | states |
|---|---|---|
| `History.RingHistory.EraseOlder` | other/microrl/microrl.c:54-61 | Drops exactly the oldest line of the queue; the ring stays well formed across the wrap |
| `History.RingHistory.IsSpaceForNew` | other/microrl/microrl.c:65-77 | True exactly when the queue is empty or the bytes taken plus len + 1 are at most 63, whichever of begin and end comes first |
| `History.RingHistory.SaveLine` | other/microrl/microrl.c:81-109 | The queue becomes the oldest lines evicted until there is room, then the new line; a line over 62 bytes changes nothing; the eviction loop ends |
| `History.RingHistory.Append` | other/microrl/microrl.c:88-105 | Given room, the queue gains the line and the browse cursor returns to 0, also when the ring was empty |
| `History.RingHistory.PutRecord` | other/microrl/microrl.c:92-104 | Read circularly from the old end, the ring holds length byte, data and end marker; only those bytes changed |
| `History.RingHistory.RestoreLine` | other/microrl/microrl.c:113-177 | Up at the oldest line returns -1 and changes nothing; otherwise cur moves by one within 0..count and the line copied is the cur-th most recent, empty at 0 |
| `History.RingHistory.CountRecords` | other/microrl/microrl.c:115-123 | The header walk counts the lines of the queue, whatever zero bytes their data holds |
| `History.RingHistory.Seek` | other/microrl/microrl.c:127-135 | The header walk stops at the record the given number back from the newest, or at the end marker if there is none |
| `History.RingHistory.CopyRecord` | other/microrl/microrl.c:138-147 | The record at a header is copied out byte for byte, wrapped or not, and nothing beyond it is written |
| `History.HeaderAt` | other/microrl/microrl.c:117-123 | Stepping over j records lands on the length byte of record j, or on the zero marker after the last |
| `History.LayoutUnique` | other/microrl/microrl.c:117-123 | The ring's bytes determine the queue: zero data bytes cause no ambiguity |
| `History.EvictedIsMaximal` | other/microrl/microrl.c:85-87 | Eviction leaves the longest suffix that has room: every longer one has none |
| `History.FitsMeans` | other/microrl/microrl.c:65-77 | Lines fit exactly if their lengths plus one each total at most 63 |
| `History.StorableMeans` | other/microrl/microrl.c:81-87 | A line is accepted exactly if it has 1 to 62 bytes |
| `History.SaveKeepsLongestFit` | other/microrl/microrl.c:81-109 | If the queue is the longest fitting suffix of the accepted lines, it still is after one more save |
| `History.HistoryIsLongestFit` | other/microrl/microrl.c:81-109 | After any saves the ring holds exactly the longest suffix of the accepted lines (1 to 62 bytes) whose lengths plus one each total at most 63 |
| `CommandLine.Microrl.InsertText` | other/microrl/microrl.c:431-450 | Refines insertion at the cursor of a text with a cursor, spaces becoming zero bytes; refused exactly when the line would exceed 100 bytes |
| `CommandLine.Microrl.BackspaceChar` | other/microrl/microrl.c:454-465 | Refines removal of the character left of the cursor, and leaves a zero behind the text |
| `CommandLine.Microrl.SearchHistory` | other/microrl/microrl.c:362-371 | Refines one history step: the recalled line becomes the text, cursor at its end, or nothing changes |
| `CommandLine.Microrl.ProcessEscape` | other/microrl/microrl.c:377-426 | Refines the escape-sequence step of the text with a cursor; what its keys do is `EditorProperties.CursorKeysWalk`, `EditorProperties.HomeAndEndKeys`, `EditorProperties.UpAndDownKeys` and `EditorProperties.SequenceEnds` |
| `CommandLine.Microrl.EraseToStart` | other/microrl/microrl.c:616-619 | The backspace loop ends and refines removing everything left of the cursor |
| `CommandLine.Microrl.CutAtCursor` | other/microrl/microrl.c:623-626 | Refines dropping the text right of the cursor, whose bytes stay in the buffer |
| `CommandLine.Microrl.StepRight` | other/microrl/microrl.c:638-643 | Refines moving the cursor right, a no-op at the end |
| `CommandLine.Microrl.StepLeft` | other/microrl/microrl.c:645-650 | Refines moving the cursor left, a no-op at the start |
| `CommandLine.Microrl.GoToEnd` | other/microrl/microrl.c:628-631 | Refines moving the cursor behind the text |
| `CommandLine.Microrl.GoToStart` | other/microrl/microrl.c:633-636 | Refines moving the cursor before the text |
| `CommandLine.Microrl.HandleNewLine` | other/microrl/microrl.c:536-560 | Saves a nonempty line, reports the token starts of the old text (or -1 for eight or more) and leaves an empty line with cur 0 |
| `CommandLine.Microrl.InsertChar` | other/microrl/microrl.c:564-695 | Every character keeps 0 <= cursor <= cmdlen <= 100 and refines one key of the text with a cursor |
| `CommandLine.Press` | other/microrl/microrl.c:564-695 | Every key keeps the text within 100 bytes, a zero in the last buffer byte, the history within the ring and cur within the history |
| `CommandLine.Split` | other/microrl/microrl.c:189-210 | Returns -1 exactly when there are eight or more tokens, else their starts; ends and stays in bounds for every limit up to 100 |
| `CommandLine.StartsExact` | other/microrl/microrl.c:189-210 | The starts are exactly those of the maximal nonzero runs, in increasing order |
| `EditorProperties.LinesChangeOnEnterOnly` | other/microrl/microrl.c:542-543 | The history changes on Enter with a nonempty line outside an escape sequence, and on no other key |
| `EditorProperties.HistoryAfterAnyKeys` | other/microrl/microrl.c:564-695 | After any key sequence the history is the longest fitting suffix of the storable lines entered |
| `EditorProperties.BrowsingShowsHistory` | other/microrl/microrl.c:362-371 | After any mix of arrow keys and ^P/^N, from any state outside an escape sequence: cur is a walk clamped to 0..count, the history is unchanged, and the text is the cur-th most recent line (empty at 0), unless every key was an up at the oldest line, and then nothing changed |
| `EditorProperties.KeysBrowse` | other/microrl/microrl.c:383-392 | Such keys amount to their ups and downs as history steps, one for each key |
| `EditorProperties.UpAndDownKeys` | other/microrl/microrl.c:383-392 | ESC [ A and ^P, and ESC [ B and ^N, have the same effect: one history step |
| `EditorProperties.CursorKeysWalk` | other/microrl/microrl.c:393-404 | After any mix of ESC [ C, ESC [ D, ^F and ^B, from any state outside an escape sequence, text, history and cur are unchanged and the cursor has walked right and left, clamped to 0..length |
| `EditorProperties.HomeAndEndKeys` | other/microrl/microrl.c:405-422 | ^A and ESC [ 7 ~ put the cursor before the text, ^E and ESC [ 8 ~ behind it; text, history and cur are unchanged |
| `EditorProperties.ErasingKeys` | other/microrl/microrl.c:616-669 | ^U empties what is left of the cursor and keeps what is right of it, ^K the other way round; backspace and DEL both remove the one byte left of the cursor, if any |
| `EditorProperties.EnterClears` | other/microrl/microrl.c:536-560 | Enter leaves an empty line and ends browsing |
| `EditorProperties.IgnoredKeys` | other/microrl/microrl.c:564-695 | Every other control character, and every printable one at a full line, changes nothing |
| `EditorProperties.SequenceEnds` | other/microrl/microrl.c:377-426 | Within a sequence only [, and 7 or 8 after it, go on; every other character ends it; except for A to D after [, and ~ after 7 or 8, none changes text, cursor or history |
| `EditorProperties.LeftoverBracket` | other/microrl/microrl.c:377-426 | The sequence state outlives its sequence: after an arrow key, ESC and a letter without [ act as an arrow key |
| `EditorProperties.SpacesSeparate` | other/microrl/microrl.c:438-442 | In a stored line the token starts are exactly the characters other than spaces that follow a space or the start |
| `EditorProperties.TextIgnoresTail` | other/microrl/microrl.c:564-695 | No key's effect on text, cursor and history depends on the bytes left behind the text |
| `EditorProperties.TypingInserts` | other/microrl/microrl.c:685-688 | Printable keys typed anywhere in a line go in at the cursor in order while the line stays within 100 bytes |
| `EditorProperties.BackspaceUndoesKey` | other/microrl/microrl.c:454-465 | Backspace after an accepted printable key restores text, cursor and history |
| `EditorProperties.CommandReceivesTokens` | other/microrl/microrl.c:545-552 | The command receives its tokens (every C string handed over equals its token, or nothing is handed over) if and only if there are eight or more of them, or the text is empty, ends in a separator, or is followed by a zero byte |
| `EditorProperties.KeyTerminator` | other/microrl/microrl.c:564-695 | For every key: whether a zero byte follows the text afterwards, from the key, the byte at the cursor and whether one did before |
| `EditorProperties.UnterminatedExactly` | other/microrl/microrl.c:623-626 | After any keys the text lacks its zero byte if and only if some ^K cut before a character and no later key showed a line, was inserted, entered the line or cut before a separator |
| `EditorProperties.TokensWithoutKill` | other/microrl/microrl.c:545-552 | Without ^K the command always receives its tokens |
| `EditorProperties.KillLeavesStaleBytes` | other/microrl/microrl.c:623-626 | Typing "ab", one step left and ^K leaves the text "a" with the command's argument reading "ab" |
| `Crc16.MixByte` | drivers/common/crc16.c:27-29 | The inner loop is eight steps of the serial shift register on the byte mixed into the top |
| `Crc16.Crc16D8` | drivers/common/crc16.c:23-32 | Equals feeding the bytes' bits, most significant first, into the serial register from 0xFFFF |
| `Crc16.Crc16Be16` | drivers/common/crc16.c:34-50 | Equals the serial register on the words' bits, and crc16_d8's value on their big-endian bytes |
| `Crc16.BigEndianSameBits` | drivers/common/crc16.c:38-47 | A word buffer and its big-endian bytes are the same bit stream |
| `Crc16.FeedTopBits` | drivers/common/crc16.c:40-42 | Mixing a word in at once and shifting n times equals feeding its n top bits one at a time |
| `Crc16.ShiftLinear` | drivers/common/crc16.c:29-29 | One shift step distributes over exclusive or |
| `Crc16.FeedAllLinear` | drivers/common/crc16.c:34-50 | So does feeding any two bit streams of equal length |
| `Crc16.ResidueZero` | drivers/common/fpga_spi_v3.c:194-195 | A frame is CRC-valid exactly when the register over the whole frame, CRC word included, ends at zero |
| `Crc16.DifferenceDecides` | drivers/common/fpga_spi_v3.c:194-195 | Whether a frame passes beside a valid one depends only on the bits in which they differ, not on the start value |
| `Crc16.ShortPatternSeen` | drivers/common/crc16.c:29-29 | A nonzero pattern of 16 bits never takes the zero register to zero |
| `Crc16.WordsBitsInjective` | drivers/common/crc16.c:34-50 | Different word buffers of equal length are different bit streams |
| `Crc16.BurstErrorDetected` | drivers/common/fpga_spi_v3.c:194-205 | A frame of any length that differs from a CRC-valid one, only within 16 consecutive bits (CRC bits included), fails the check |
| `Crc16.GeneratorBurstMissed` | drivers/common/crc16.c:20-50 | The 16 bits are sharp: a valid frame hit by the 17 bits of the generator 0x18BB7, at any position, passes the check |
| `Crc16.EmptyCrc` | drivers/common/crc16.c:20-21 | The CRC of the empty buffer is 0xFFFF |
| `Crc16.ZerosInvalid` | drivers/common/crc16.c:20-50 | No frame of zero words is valid, whatever its length |
| `Wswap.WswapTwice` | drivers/common/wswap.h:23-35 | Both swaps undo themselves |
| `Wswap.Wswap32Stored` | drivers/common/wswap.h:23-26 | Stored on a little-endian target, the swapped value puts the most significant word first |
| `Wswap.Wswap64Stored` | drivers/common/wswap.h:28-35 | The same for four words |
| `Wswap.LowWordFirst32` | drivers/common/wswap.h:23-26 | The first word in memory is the least significant half |
| `Wswap.LowWordFirst64` | drivers/common/wswap.h:28-35 | The four words in memory are the value's 16-bit digits, least significant first |
| `SpiCounters.PollExact` | drivers/common/fpga_spi_v3.c:260-263 | One poll counts the peer's events exactly if and only if the interval is countable: at most 0x8000 steady events, or the listed restarts |
| `SpiCounters.UsualIntervalsCountable` | drivers/common/fpga_spi_v3.c:260-263 | At most 0x8000 events, or a restart seen as a smaller sample with the previous one below 0x8000, is countable |
| `SpiCounters.TotalIsTrueCount` | drivers/common/fpga_spi_v3.c:249-278 | Over any run of polls, failed ones included, the total is at all times the true event count up to the last successful poll if and only if every interval between successful polls is countable |
| `SpiCounters.MergeCounts` | drivers/common/fpga_spi_v3.c:249-278 | What happens over a failed poll counts as one interval with what follows: same next sample, same events |
| `SpiTransport.RequestReadsBack` | drivers/common/fpga_spi_v3.c:44-62 | A request frame is CRC-valid and its opcode, address and data fields read back as what was requested |
| `SpiTransport.RequestsOnWire` | drivers/common/fpga_spi_v3.c:33-66 | A request word by word: opcode in the top two bits over the length 5, address and data most significant word first, CRC last |
| `SpiTransport.RepliesOnWire` | drivers/common/fpga_spi_v3.c:194-243 | Which received words answer a read or a status request, and which are an address mismatch, in terms of the opcode bits and the words 0xDEAD, 0xCA5E, 0x57A7, 0x14F0 |
| `SpiTransport.SpiMaster.TxRx` | drivers/common/fpga_spi_v3.c:163-206 | Sends the words sealed with their CRC; succeeds exactly for a CRC-valid reply neither all zeros nor all ones; counts the exchange in the counters of its outcome only |
| `SpiTransport.SpiMaster.Judge` | drivers/common/fpga_spi_v3.c:183-205 | The word-sum test and the CRC test sort every reply into no response, CRC error or received |
| `SpiTransport.SumBounds` | drivers/common/fpga_spi_v3.c:184-187 | The sum of the words is 0, or 0xFFFF times their number, exactly for all-zero and all-one frames |
| `SpiTransport.SpiMaster.Txn` | drivers/common/fpga_spi_v3.c:208-247 | From the unswapped fields it sends the request frame, and on success leaves the reply's unswapped fields and the address-mismatch flag |
| `SpiTransport.SpiMaster.CheckReply` | drivers/common/fpga_spi_v3.c:217-243 | The second CRC test never fires; a NULL or STATUS reply without its constant address is counted once and flagged |
| `SpiTransport.SpiMaster.PollRead` | drivers/common/fpga_spi_v3.c:340-379 | One poll sends one NULL frame and ends the read exactly for an RD reply carrying the address; mismatches are counted |
| `SpiTransport.SpiMaster.ReadReg` | drivers/common/fpga_spi_v3.c:328-386 | Against any peer: succeeds exactly if the request is received and one of at most two poll replies answers it, with that reply's data; on failure the output is untouched; at most three frames, each with a correct CRC |
| `SpiTransport.SpiMaster.WriteReg` | drivers/common/fpga_spi_v3.c:394-407 | Sends exactly the write request's frame, built by hand, and succeeds exactly when a valid frame comes back |
| `SpiTransport.SpiMaster.PollStatus` | drivers/common/fpga_spi_v3.c:293-312 | One poll ends the status read exactly for a STATUS reply with the status address |
| `SpiTransport.SpiMaster.ReadStatus` | drivers/common/fpga_spi_v3.c:282-320 | Succeeds exactly if a poll is answered; then the previous timeouts, CRC errors and register errors are words 3, 4 and 5 of the answering frame, else they and the totals are unchanged; frames sent and counters are exact |
| `SpiTransport.SpiMaster.AddSpiStat` | drivers/common/fpga_spi_v3.c:249-278 | Each total grows by the increase of its own counter modulo 2^16: timeouts from the top word of the data, CRC errors from the next, register errors from the third; they become the previous samples |
| `SpiTransport.CountersOnWire` | drivers/common/fpga_spi_v3.c:256-258 | The three counters of a status reply are words 3, 4 and 5 of the frame as received |
| `SpiTransport.SpiMaster.Operate` | drivers/common/fpga_spi_v3.c:282-407 | Over any run of register reads, writes and status polls against any peer, the three totals and previous samples are those that words 3, 4 and 5 of the answering status frames give, in order |
| `SpiTransport.TotalsAreTrue` | drivers/common/fpga_spi_v3.c:249-278 | If the peer reports its counters truthfully and every interval between successful polls is countable, all three totals have grown by the true events up to the last successful poll |
| `SpiTransport.FailureCountedOnce` | drivers/common/fpga_spi_v3.c:282-407 | A failed register read or status poll adds one to the sum of driver faults, silent peers, CRC errors and poll timeouts, a successful one nothing |
| `SpiTransport.ReadErrors` | drivers/common/fpga_spi_v3.c:328-386 | Over a register read: one address error for each received frame with a wrong address, one opcode error for each stray one, a timeout exactly if two polls were received without an answer, all in terms of the received words |
| `SpiTransport.StatusErrors` | drivers/common/fpga_spi_v3.c:282-320 | The same over a status poll |
| `SpiTransport.PollReplySorted` | drivers/common/fpga_spi_v3.c:228-243 | A received poll reply is exactly one of: the answer, a proper NULL frame, an address error, an unexpected opcode |
| `SpiTransport.TxIsRxPlusNoResponse` | drivers/common/fpga_spi_v3.c:183-193 | Whenever the counters account for the exchanges so far, tx_count = rx_count + no_response_errors |
| `SpiTransport.FaithfulReplyAccepted` | drivers/common/fpga_spi_v3.c:346-371 | A reply built like a request for the address is accepted as the answer, with its data |
| `SpiTransport.CorruptedReplyRejected` | drivers/common/fpga_spi_v3.c:194-205 | A valid reply hit by a burst of up to 16 bits is never received |
| `FpgaIo.Fpga.R32` | dev/fpga/fpga_io.c:44-57 | Succeeds exactly if both accesses do, makes no access after a failing one, and joins the two registers at the even address, low word first; else the output is untouched |
| `FpgaIo.Fpga.W32` | dev/fpga/fpga_io.c:59-65 | Succeeds exactly if both accesses do; exactly the words before the first failing access are written, and none is tried after it |
| `FpgaIo.Fpga.R64` | dev/fpga/fpga_io.c:67-84 | Succeeds exactly if all four accesses do, makes none after a failing one, and joins the four registers at the address rounded down to a multiple of four; else the output is untouched |
| `FpgaIo.Fpga.W64` | dev/fpga/fpga_io.c:86-94 | Succeeds exactly if all four accesses do; exactly the words before the first failing access are written, and none is tried after it |
| `FpgaIo.AlignedAddress` | dev/fpga/fpga_io.c:44-46 | 32-bit accesses of 2k and 2k + 1 use the pair 2k, 2k + 1; 64-bit ones of 4k to 4k + 3 the four from 4k |
| `FpgaIo.LowByteFirst` | dev/fpga/fpga_io.c:93-117 | In block transfers the byte at the lower address is the low half of its register |
| `FpgaIo.Fpga.Read` | dev/fpga/fpga_io.c:96-108 | Succeeds exactly if all size / 2 accesses do; the buffer's bytes are those of the registers read before the first failing access, the rest unchanged |
| `FpgaIo.Fpga.Write` | dev/fpga/fpga_io.c:110-121 | Succeeds exactly if all size / 2 accesses do; exactly the words before the first failing access are stored |
| `FpgaIo.StoredReadsBack` | dev/fpga/fpga_io.c:96-121 | After a block write every word reads back from its address, addresses wrapping at 2^32 |
| `FpgaIo.StoredKeepsOthers` | dev/fpga/fpga_io.c:110-121 | A block write changes no register outside its addresses |
| `FpgaIo.WideRoundTrip` | dev/fpga/fpga_io.c:44-94 | A 32- or 64-bit value stored as words joins back to itself |
| `FpgaIo.WriteThenRead32` | dev/fpga/fpga_io.c:44-65 | Writing and then reading 32 bits at any address succeeds exactly if the four accesses do, and then gives the value back |
| `FpgaIo.WriteThenRead64` | dev/fpga/fpga_io.c:67-94 | The same for 64 bits and eight accesses |
| `FpgaIo.BlockRoundTrip` | dev/fpga/fpga_io.c:96-121 | A block written and read back over the same number of bytes returns, whatever the buffer held, if and only if that number is even |
| `VxsSlave.SlaveDriver.WriteCallback` | dev/vxsiics/dev_vxsiics.c:36-42 | Only scratch word reg changes, for reg in 0x100..0x107, and nothing otherwise |
| `VxsSlave.ScratchReadsBack` | dev/vxsiics/dev_vxsiics.c:36-89 | A scratch register written reads back, and no write changes what any other register reads |
| `VxsSlave.RegisterRoundTrip` | drivers/bus/i2c_slave_driver.c:77-165 | Event by event over the bus: a scratch register written and then read returns the four bytes written |
| `VxsSlave.PollSeesRegisters` | dev/vxsiics/dev_vxsiics.c:99-103 | What the slave's own poll finds is what bus reads of registers 0x100 to 0x104 return |
| `VxsSlave.SlaveDriver.HandleEvent` | drivers/bus/i2c_slave_driver.c:77-165 | One interrupt has the effect and sends the byte of one event of the abstract slave |
| `VxsSlave.SlaveDriver.ReadyToTransmit` | drivers/bus/i2c_slave_driver.c:57-65 | The register is sampled once, at the first data byte; byte k of that sample is sent for the first four, anything after |
| `VxsSlave.SlaveDriver.Complete` | drivers/bus/i2c_slave_driver.c:67-75 | STOP stores the received value if the transfer was a write, counts the operation and returns to idle |
| `VxsSlave.SlaveDriver.Receive` | drivers/bus/i2c_slave_driver.c:129-147 | Bytes 0 and 1 build the register number high byte first, 2 to 5 the value low byte first, later ones are ignored |
| `VxsSlave.PackedBytes` | dev/vxsiicm/vxsiic_hal.c:144-148 | The four bytes the master sends for a value are received as that value |
| `VxsSlave.WriteIsAtomic` | drivers/bus/i2c_slave_driver.c:77-165 | A whole write, event by event from idle, is one register-file write of the packed bytes and ends idle |
| `VxsSlave.ReadIsAtomic` | drivers/bus/i2c_slave_driver.c:77-165 | A whole write-then-read sends the register's bytes as sampled, changes only the operation count and ends idle; a prefetched fifth byte is unspecified. What the registers hold: `VxsSlave.SensorMapServed`, `VxsSlave.InfoServed`, `VxsSlave.ScratchRange` |
| `VxsSlave.TransfersAreAtomic` | drivers/bus/i2c_slave_driver.c:77-165 | Any sequence of complete transfers has the effect and the replies of atomic operations on a register file, idle after each |
| `VxsSlave.SensorMapServed` | dev/vxsiics/dev_vxsiics.c:44-51 | Event by event over the bus, whatever transfers come before, a read of register 0x1000 + k replies with word k of the sensor map of that moment, low byte first, and with 0 beyond the map |
| `VxsSlave.InfoServed` | dev/vxsiics/dev_vxsiics.c:55-86 | The value of every register below 0x100, by number; 0 for the unused ones |
| `VxsSlave.ScratchRange` | dev/vxsiics/dev_vxsiics.c:52-54 | The scratch registers are 0x100 to 0x107, each its own cell; the ones from there to 0xFFF read 0 |
| `VxsSlave.WriteOnWire` | dev/vxsiicm/vxsiic_hal.c:139-150 | A write's bytes on the bus: register number high byte first, value low byte first |
| `VxsSlave.CountersCount` | drivers/bus/i2c_slave_driver.c:57-165 | After any events at all, in any order, the two counters have grown by the STOPs and by the faults, modulo 2^32 |
| `VxsSlave.AbortedIsExact` | drivers/bus/i2c_slave_driver.c:67-147 | A transfer given up with a STOP after any event leaves the slave idle; exactly what it stores is stated for every such point |
| `VxsSlave.AbortedSelectZeroes` | drivers/bus/i2c_slave_driver.c:67-75 | Giving up after the register number stores zero in that scratch register, even on the way to a read; after its first byte, in the first scratch register |
| `VxsMaster.MasterPort.WriteMcu4` | dev/vxsiicm/vxsiic_hal.c:139-150 | Over the bus events of a successful transfer, the slave's register file gets exactly this register written; a failed one, given up after any number of events, has exactly the stated effect |
| `VxsMaster.MasterPort.ReadMcu4` | dev/vxsiicm/vxsiic_hal.c:131-137 | A successful read returns the value the slave's register file has; a failed one returns what the driver left and does to the file exactly what giving up there does |
| `VxsMaster.MasterPort.WriteMcu` | dev/vxsiicm/dev_vxsiic_pp.c:82-97 | Succeeds exactly if all five transfers do, and then the slave's status poll reads back the five words; otherwise the words before the failing one are written and the failing transfer has exactly the effect of giving up |
| `VxsMaster.FailedReadIsQuiet` | dev/vxsiicm/dev_vxsiic_pp.c:99-119 | A failed read of an information register, wherever it is given up, leaves the scratch memory alone |
| `VxsMaster.MasterPort.ReadMcuInfo` | dev/vxsiicm/dev_vxsiic_pp.c:99-133 | Succeeds exactly if all nine reads do; then every status field is the slave's own value, else only the magic may have changed; the slave's scratch never changes |
| `VxsMaster.MasterPort.ReadRegisters` | dev/vxsiicm/dev_vxsiic_pp.c:114-119 | Each of registers 1 to 8 is stored at its own index, the slave's operation counter running along |
| `ClockShift.ShiftMoves` | dev/ad9545/ad9545_commands.c:40-55 | A request for numer/denom moves the clock by numer/denom of 16 ns in whole picoseconds, rounded down, and not at all if either is 0 |
| `ClockShift.ClockShiftTasks.SetupPhaser` | dev/ad9545/ad9545_commands.c:40-55 | Sets the target to the phase plus s picoseconds, where s * denom <= 16000 * numer < (s + 1) * denom, or s = 0 without both numbers; run without interruption, it is the statement sequence the interleaving model executes |
| `ClockShift.ClockShiftTasks.RunPhaser` | dev/ad9545/ad9545_commands.c:62-76 | Moves the phase one ramp step whether or not the bus write succeeds; reports only the bus |
| `ClockShift.ClockShiftTasks.Poll` | dev/ad9545/ad9545_commands.c:78-101 | Equals finishing the modelled statements from the start; fails exactly when the bus fails in a poll that moves the phase |
| `ClockShift.ClockShiftTasks.FpgaPoll` | dev/fpga/dev_fpga_board_func.c:72-91 | Equals finishing the requesting side's modelled statements |
| `ClockShift.PollIsARun` | dev/ad9545/ad9545_commands.c:78-101 | An uninterrupted poll is one of the interleavings the results cover |
| `ClockShift.FpgaPollIsARun` | dev/fpga/dev_fpga_board_func.c:72-91 | So is an uninterrupted request |
| `ClockShift.FpgaKeepsInv` | dev/fpga/dev_fpga_board_func.c:84-90 | Every requesting statement keeps the handshake invariant, whatever the other side is doing |
| `ClockShift.PllKeepsInv` | dev/ad9545/ad9545_commands.c:40-89 | Every PLL-side statement keeps it |
| `ClockShift.InvAlways` | dev/ad9545/ad9545_commands.c:40-89 | The invariant holds after every interleaving from the zeroed start |
| `ClockShift.NoRequestLostOrTorn` | dev/ad9545/ad9545_commands.c:40-89 | Under every interleaving requests are applied in order, each once and untorn, at most one waiting; phase plus rest of the ramp plus the waiting shift is the initial offset plus all accepted shifts (what a shift is: `ClockShift.ShiftMoves`) |
| `ClockShift.PhaseWhenQuiet` | dev/ad9545/ad9545_commands.c:62-76 | With no ramp underway and nothing waiting, the phase is exactly the initial offset plus all accepted shifts |
| `ClockShift.QuietPhase` | dev/ad9545/ad9545_commands.c:40-76 | Then the phase is below the initial offset plus the exact sum of 16000 * n / d over the requests made, by less than one picosecond a request |
| `ClockShift.RequestMade` | dev/fpga/dev_fpga_board_func.c:75-90 | The requesting side makes a request with what it read exactly when both numbers are nonzero and none is waiting, and otherwise none |
| `ClockShift.PollPicksUp` | dev/ad9545/ad9545_commands.c:78-89 | A poll that finds no ramp underway has afterwards applied and acknowledged every request made; one that finds a ramp picks up nothing |
| `ClockShift.EveryRequestTakesEffect` | dev/ad9545/ad9545_commands.c:57-101 | From every point of every interleaving between two polls, some number of polls completes the ramp with the phase at the initial offset plus the shifts of all requests made |
| `ClockShift.PollEnds` | dev/ad9545/ad9545_commands.c:85-89 | A poll that finds the ramp unfinished advances it exactly once |
| `ClockShift.RampStep` | dev/ad9545/ad9545_commands.c:66-70 | An unfinished ramp strictly approaches its target, by at most 2000 ps, and never overshoots |
| `ClockShift.RampLength` | dev/ad9545/ad9545_commands.c:57-76 | A ramp is complete after exactly the distance over 2000, rounded up, polls and not before, whatever the requesting side does between them, bus failures included |
| `ClockShift.RampAfter` | dev/ad9545/ad9545_commands.c:57-89 | Each poll of an unfinished ramp, with any requesting statements in between, takes one off the polls that are left |
| `Quantize.CeilLog2` | dev/ad9548/ad9548_loop_filter_design.c:39-41 | The exponent k with 2^(k-1) < a <= 2^k |
| `Quantize.MantissaError` | dev/ad9548/ad9548_loop_filter_design.c:45-46 | A value in the top octave of an n-bit field is met to one part in 2^n, also when rounding would carry out of the field |
| `Quantize.ScaledTooLarge` | dev/ad9548/ad9548_loop_filter_design.c:45-46 | Above the field's range that bound fails for every value |
| `Quantize.QuantizeA` | dev/ad9548/ad9548_loop_filter_design.c:37-54 | For every positive alpha the four fields fit their 16, 6, 3 and 4 bits |
| `Quantize.QuantizeBG` | dev/ad9548/ad9548_loop_filter_design.c:56-68 | For every nonzero beta or gamma the fields fit 17 and 5 bits |
| `Quantize.QuantizeD` | dev/ad9548/ad9548_loop_filter_design.c:70-81 | For every positive delta the fields fit 15 and 5 bits |
| `Quantize.AlphaError` | dev/ad9548/ad9548_loop_filter_design.c:37-54 | For alpha above 2^-64, the decoded value is within a relative 2^-16 if and only if alpha <= 2^22 |
| `Quantize.BetaGammaError` | dev/ad9548/ad9548_loop_filter_design.c:56-68 | For a magnitude above 2^-32, within a relative 2^-17 if and only if it is at most 1 |
| `Quantize.DeltaError` | dev/ad9548/ad9548_loop_filter_design.c:70-81 | For delta above 2^-32, within a relative 2^-15 if and only if delta <= 1 |
| `Quantize.Profile.SetIir` | dev/ad9548/ad9548_loop_filter_design.c:83-100 | Each coefficient ends in its own registers, fitting and with its error bound; widths as in dev/ad9548/ad9548_regs_profile.h:41-52 |
| `Fraction.FindFraction` | drivers/ad9545/ad9545_setup.c:94-106 | For 0 <= r < 1, no fraction with denominator 1..99 is nearer to r than a/b, and none with a smaller denominator is as near; it is 1/1 exactly from r = 197/198 on |
| `Fraction.BestIsLowestTerms` | drivers/ad9545/ad9545_setup.c:94-106 | The result is in lowest terms |
| `Fraction.BestIsExact` | drivers/ad9545/ad9545_setup.c:94-106 | A fraction with denominator 1..99 is found exactly |
| `Fraction.BestWithin` | drivers/ad9545/ad9545_setup.c:94-106 | The result is always within 1/198 |
| `Fraction.DpllProfile.SetFeedback` | drivers/ad9545/ad9545_setup.c:123-129 | The divider set equals 2*R*Q/M if and only if M / gcd(2*R*Q, M) is below 100, and is the best approximation otherwise |
| `Fraction.RepresentableIff` | drivers/ad9545/ad9545_setup.c:123-129 | Some denominator below 100 expresses the ratio if and only if the one in lowest terms is below 100 |
| `Fraction.SmallMultiplierIsExact` | drivers/ad9545/ad9545_setup.c:123-129 | Every M in 1..99 meets that condition |
| `Recovery.Machine.CountIsRetries` | dev/ad9548/dev_ad9548_fsm.c:118-144 | In every run of a machine that keeps the discipline, the count is at most 4 and at most the retries since the last recovery (a running step that ends running, or a fresh start), and equals them if and only if no retry since then was followed by a running step that zeroed the count and then failed |
| `Recovery.Machine.CountSinceZeroed` | dev/ad9548/dev_ad9548_fsm.c:118-144 | In every such run the count is the number of retries since it was last zeroed, and 4 in FATAL |
| `Recovery.Machine.FatalAfterFourRetries` | dev/ad9548/dev_ad9548_fsm.c:126-131 | A step into FATAL comes from ERROR, enabled, with the count at four and at least four retries since the last recovery |
| `Recovery.Machine.TimedFromEntry` | dev/ad9548/dev_ad9548_fsm.c:175-178 | Outside INIT the stored tick is the clock at the end of the step that entered the state, although disabling leaves it stale |
| `Recovery.Machine.RestartsWait` | dev/ad9548/dev_ad9548_fsm.c:132-143 | A retry comes more than 1000 ticks after ERROR was entered, a fresh start more than 2000 after FATAL, modulo 2^32 |
| `Recovery.ElapsedIsDuration` | dev/ad9548/dev_ad9548_fsm.c:29-32 | The unsigned difference of two clock readings is the time between them, also across the wrap-around, if that is below 2^32 ms |
| `Ad9548Fsm.Device.Switch` | dev/ad9548/dev_ad9548_fsm.c:55-147 | The switch, with its early breaks and its fall-through, has the effect of the specification's first part |
| `Ad9548Fsm.Device.RunStep` | dev/ad9548/dev_ad9548_fsm.c:41-178 | One call has the effect of one step of the machine the lemmas are about |
| `Ad9548Fsm.Disciplined` | dev/ad9548/dev_ad9548_fsm.c:41-178 | The machine keeps the retry discipline |
| `Ad9548Fsm.StepLeads` | dev/ad9548/dev_ad9548_fsm.c:41-178 | In any run, where an enabled step leads, for all eight states and in both directions; ERROR exactly: from WAITLOCK if the word or the identity cannot be read or it was entered more than 2000 ticks ago, from RESET on the detection timeout or a failed identity read, from SETUP_SYSCLK on a failed call or identity read, from SETUP and RUN also on a failed closing read; ERROR to FATAL exactly with the count above 3 |
| `Ad9548Fsm.LostLockIsNoticed` | dev/ad9548/dev_ad9548_fsm.c:118-169 | In any run RUN goes to WAITLOCK if and only if the last step's status word does not show the lock and the identity can be read |
| `Ad9548Fsm.StatusExactly` | dev/ad9548/dev_ad9548_fsm.c:41-178 | The device status changes in three places only: detection makes it NORMAL or FAIL, FATAL makes it FAIL, disabling makes it UNKNOWN |
| `Ad9548Fsm.LockBits` | dev/ad9548/ad9548_status.c:107-112 | Locked means bits 0 and 4 are set and bit 1 is clear; RUN tests bit 0 only |
| `Ad9548Fsm.CountIsRetries` | dev/ad9548/dev_ad9548_fsm.c:118-144 | In every run recoveryCount is at most 4, and equals the retries since the last recovery if and only if none of them was followed by a running step that zeroed it in vain |
| `Ad9548Fsm.ClearedInVainWhen` | dev/ad9548/dev_ad9548_fsm.c:118-169 | A step zeroes the count in vain exactly if it is an enabled RUN step with the stored lock bit whose identity, interrupt or status read then fails |
| `Ad9548Fsm.FailingForever` | dev/ad9548/dev_ad9548_fsm.c:118-169 | An input: a chip whose identity read fails in every running step is retried any number of times, with the count back at 0 each time, and never reaches FATAL |
| `Ad9548Fsm.RunSurvivesAnyIdentity` | dev/ad9548/dev_ad9548_fsm.c:149-169 | An enabled RUN step stays in RUN if and only if the stored lock bit is set and every read succeeds with a status word other than 0xFF; no identity value matters |
| `Ad9548Fsm.FatalNeedsFourRetries` | dev/ad9548/dev_ad9548_fsm.c:126-131 | FATAL is entered only from ERROR, enabled, with the count at four and at least four retries since the last recovery |
| `Ad9548Fsm.InvAlways` | dev/ad9548/dev_ad9548_fsm.c:149-178 | In every reachable state: detected states have status NORMAL, RESET and SETUP_SYSCLK have a zero system-clock word, WAITLOCK one that is not locked |
| `Ad9548Fsm.DetectedIsNormal` | dev/ad9548/dev_ad9548_fsm.c:77-80 | In every reachable detected state the device status is NORMAL |
| `Ad9548Fsm.LockOnlyFromFreshRead` | dev/ad9548/dev_ad9548_fsm.c:99-110 | From a reachable WAITLOCK, SETUP follows if and only if this step's read succeeded and shows a lock within 2000 ticks and the identity read succeeded |
| `Ad9548Fsm.Stages` | dev/ad9548/dev_ad9548_fsm.c:73-117 | Every detected state was reached through detection, system-clock set-up, lock and set-up as far as it requires, in this order, without leaving the detected states since |
| `Ad9548Fsm.RunWasBroughtUp` | dev/ad9548/dev_ad9548_fsm.c:73-172 | RUN in any run means: a detection, then a set-up and calibration of the system clock, then a fresh read showing its lock, then a set-up, with every step since enabled and its identity read successful |
| `Ad9548Fsm.FallThroughTrustsStoredWord` | dev/ad9548/dev_ad9548_fsm.c:100-105 | From any state whatever, after a failed read the stored word alone decides |
| `Ad9548Fsm.Device.ReadSysclk` | dev/ad9548/ad9548_status.c:97-100 | A failed register read leaves the stored word |
| `Ad9548Fsm.Device.Poll` | dev/ad9548/dev_ad9548_fsm.c:163-169 | In RUN any failed read, or the word 0xFF, ends in ERROR with the word that was read stored |
| `Ad9545Fsm.Device.Switch` | dev/ad9545/dev_ad9545_fsm.c:94-181 | The switch has the effect of the specification's first part |
| `Ad9545Fsm.Device.RunStep` | dev/ad9545/dev_ad9545_fsm.c:80-207 | One call has the effect of one step of the machine the lemmas are about |
| `Ad9545Fsm.Disciplined` | dev/ad9545/dev_ad9545_fsm.c:80-207 | The machine keeps the retry discipline |
| `Ad9545Fsm.StepLeads` | dev/ad9545/dev_ad9545_fsm.c:80-207 | The same for this machine: in any run, where an enabled step leads and so when it ends in ERROR, with the 2000-tick limits counted from the step that entered the state |
| `Ad9545Fsm.StatusExactly` | dev/ad9545/dev_ad9545_fsm.c:80-207 | The device status after any step, in terms of the state before it and the bus |
| `Ad9545Fsm.CountIsRetries` | dev/ad9545/dev_ad9545_fsm.c:148-178 | In every run recoveryCount is at most 4, and equals the retries since the last recovery if and only if none of them was followed by a running step that zeroed it in vain |
| `Ad9545Fsm.ClearedInVainWhen` | dev/ad9545/dev_ad9545_fsm.c:148-196 | A step zeroes the count in vain exactly if it is an enabled RUN step with the stored lock bit and successful commands whose closing reads then fail |
| `Ad9545Fsm.FailingForever` | dev/ad9545/dev_ad9545_fsm.c:148-196 | An input: a chip whose closing read fails in every running step is retried any number of times, with the count back at 0 each time, and never reaches FATAL |
| `Ad9545Fsm.FatalNeedsFourRetries` | dev/ad9545/dev_ad9545_fsm.c:160-165 | FATAL is entered only from ERROR, enabled, with the count at four and at least four retries since the last recovery |
| `Ad9545Fsm.StoredWordIsFresh` | dev/ad9545/dev_ad9545_fsm.c:183-200 | In every reachable detected state the status is NORMAL and the stored system-clock word is the one the last step read successfully |
| `Ad9545Fsm.LockUsesLastRead` | dev/ad9545/dev_ad9545_fsm.c:132-140 | WAITLOCK ends in SETUP if and only if the previous step's word shows a lock, within 2000 ticks, and this step's read succeeds |
| `AuxPllFsm.Device.Switch` | dev/ad9516/app_task_auxpll_impl.c:54-124 | The switch has the effect of the specification's first part |
| `AuxPllFsm.Device.RunStep` | dev/ad9516/app_task_auxpll_impl.c:38-129 | One call has the effect of one step of the machine the lemmas are about |
| `AuxPllFsm.Disciplined` | dev/ad9516/app_task_auxpll_impl.c:38-129 | The machine keeps the retry discipline |
| `AuxPllFsm.StepLeads` | dev/ad9516/app_task_auxpll_impl.c:38-129 | The same for this machine: ERROR exactly on a failed reset, a detection more than 2000 ticks late, a failed set-up or a failed status read |
| `AuxPllFsm.StatusExactly` | dev/ad9516/app_task_auxpll_impl.c:38-129 | The device status after any step, in terms of the state before it and the bus |
| `AuxPllFsm.CountIsRetries` | dev/ad9516/app_task_auxpll_impl.c:83-121 | In every run recoveryCount equals the retries since the last step that ended running, or fresh start, and is at most 4 |
| `AuxPllFsm.NeverInVain` | dev/ad9516/app_task_auxpll_impl.c:83-101 | Here a step that zeroes the count always ends running |
| `AuxPllFsm.FatalNeedsFourRetries` | dev/ad9516/app_task_auxpll_impl.c:102-107 | FATAL is entered only from ERROR, enabled, with exactly four retries behind it |
| `AuxPllFsm.InvAlways` | dev/ad9516/app_task_auxpll_impl.c:60-101 | In every reachable SETUP, RUN or PAUSE the status is NORMAL, and PAUSE has count 0 |
| `AuxPllFsm.PausedUntilDisabled` | dev/ad9516/app_task_auxpll_impl.c:95-101 | Once paused, no enabled run, whatever the bus answers, changes anything |
| `Thset.ThermoSet.CountSensors` | dev/thset/dev_thset.c:111-120 | Counts the sensors that report and those of them above 80 degrees |
| `Thset.ThermoSet.RunStep` | dev/thset/dev_thset.c:108-161 | One call has the effect of one poll event of the machine the lemmas are about |
| `Thset.ThermoSet.ClearShutdown` | dev/thset/dev_thset.c:163-171 | Clearing has the effect of a clear event: the start tick stays |
| `Thset.EventsMean` | dev/thset/dev_thset.c:111-125 | An alarm is two different sensors reporting more than 80 degrees; calm is at least two sensors, all reporting, none above 80, or a clear |
| `Thset.ShutdownExactly` | dev/thset/dev_thset.c:105-171 | After any history the shutdown is in force if and only if the first alarm (two critical sensors) with no calm or clear since was followed, 5000 ticks or more later (modulo 2^32), by a poll with two sensors reporting |
| `Thset.EntersShutdown` | dev/thset/dev_thset.c:134-149 | The step that shuts down comes at least 5000 ticks after an alarm with no recovery and no clear in between |
| `Thset.RunExplained` | dev/thset/dev_thset.c:126-160 | Outside state 0 the start tick is the clock of the present episode's first alarm |
| `DeviceTree.DeviceList.AddChild` | dev/common/devicelist.c:28-39 | The loop ends, and the only pointer changed is the parent's children if it had none, else the last child's next |
| `DeviceTree.DeviceList.CreateDevice` | dev/common/devicelist.c:41-58 | The registry gains the device with its parent; the pointers still describe an acyclic forest whose parents are older, and no other device's class changes |
| `DeviceTree.ChainIsChildren` | dev/common/devicelist.c:28-39 | Following next from a device's children meets exactly its children, in the order of creation |
| `DeviceTree.DeviceList.FindDevice` | dev/common/devicelist.c:60-68 | The earliest device of the class, null exactly when there is none |
| `DeviceTree.DeviceList.PrintTree` | dev/common/devicelist_print.c:39-72 | The recursive walk over pointers ends and prints the pre-order of the subtree, with its depths |
| `DeviceTree.VisitsSubtreeOnce` | dev/common/devicelist_print.c:67-71 | That pre-order has the device and each descendant exactly once and nothing else |
| `DeviceTree.VisitsAtLevels` | dev/common/devicelist_print.c:69-69 | The depth printed is the distance from where the walk began |

## Left out

- Tab completion in the line editor (other/microrl/microrl.c:470-533) indexes before the start of its buffers for some inputs and calls back into the application; a tab changes nothing in the model. Terminal output, the interrupt-key callback and the command callback itself are left out; what the latter is handed is modelled.
- HAL, GPIO, RTC, UART, SDRAM and exception code, logging and display: input and output only. Bus calls are a success flag and arbitrary data.
- SpiTransport.SpiMaster.ReadReg: the 32-bit wrap-around of the error counters is not modelled; they are integers. Delays between polls are left out.
- FpgaIo.Fpga.Read: 16-bit accesses go to an abstract register file that may refuse any of them, not through the SPI classes, whose earlier protocol version is not part of this model.
- VxsSlave.SlaveDriver.HandleEvent: one pending flag per interrupt, in bus order. The handler tests STOP before a received byte, so coincident flags are outside the claim, as is the debug copy of received bytes that nothing reads (drivers/bus/i2c_slave_driver.c:136-140).
- VxsMaster.MasterPort.WriteMcu4: a transfer that fails ends with a STOP after some event, or never reaches the slave; a bus left without a STOP is not modelled. The source of the words (versions, serial number, uptime) is a parameter.
- VxsMaster.MasterPort.ReadMcuInfo: the payload board runs this firmware, so its magic always matches; the branch for a foreign magic is in the method but is not reached in this setting.
- ClockShift.NoRequestLostOrTorn: statements are the unit of interleaving. Reordering within a statement, and overflow of the int request counter, are not modelled. The lock checks that precede a request (dev/fpga/dev_fpga_board_func.c:58-70) only suppress requests and are part of the arbitrary schedule.
- Quantize.AlphaError: floating-point rounding, and the conversion to int beyond its range (alpha from 2^37 on, beta and gamma from 2^14, delta from 2^16), are not modelled: numbers are exact reals. At or below the lower limits no bound is stated. The filter design that computes the coefficients is transcendental and left out.
- Fraction.FindFraction: over exact reals, as above.
- Ad9548Fsm.Device.RunStep: the status fields other than the system-clock word, the unlock counter, the reset pin and the sensor status are left out; so is the endless wait of one board variant (dev/ad9548/dev_ad9548_fsm.c:188-193).
- Ad9545Fsm.Device.RunStep: likewise; the sensor status always ends as NORMAL there and nothing is claimed about it. The clock-shift poll it makes is one answer here and modelled in ClockShift.
- Thset.ThermoSet.RunStep: temperatures are reals. Adding sensors and the display classification of temperatures are left out.
- DeviceTree.DeviceList.CreateDevice: the parent is absent or already registered, and the device is a zeroed one not yet registered, as in all callers; capacity 40 (10 on the smallest target) is demanded as the source's assertion does. Names, bus descriptors and private data are left out.
- Clock-mux programming, register tables of the AD95xx chips, SFP and SDB parsing, sensor drivers and power monitoring: straight-line code, tables or files that are not part of this model.
