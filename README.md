# esp-flasher-stub, modelled in Dafny

The ESP flasher stub is a small program loaded into the RAM of an Espressif
chip. It takes commands from the host flashing tool over a serial link.
This project models the parts of the stub and of its tooling whose
behaviour can be stated exactly:

- **Framing and transport.** SLIP framing (`src/slip.c`): the byte-escaping
  encoder and the three-state receiver. The USB-serial transmit flush
  counter and the two receive interrupt handlers (`src/transport.c`).
- **Byte helpers and protocol.** The little/big-endian byte helpers
  (`src/endian_utils.h`). The protocol constants and the two-byte response
  (`src/commands.h`). One iteration of the command loop: the length check,
  dispatch, and error responses (`src/command_handler.c`).
- **NAND flash.** The driver for the W25N01GV SPI NAND chip (`src/nand.c`):
  the ready wait, attach, and the spare-area read and write. The SPI2
  controller transaction underneath it (`src/spi2_nand.c`): user-register
  flags, the address fold, and byte↔word packing.
- **Build tooling.** The build step that turns the stub ELF into its JSON
  record (`tools/elf2json.py`).
- **Test tooling.** The host-side log mock of the unit tests
  (`unittests/support/LogMock.h`). The on-target test loader
  (`unittests/target/load-test.py`): its serial monitor cuts decoded text
  into lines, classifies each line, keeps Unity pass/fail statistics,
  decides completion, and renders the report and verdict.

One Dafny module per source file:

- `slip.dfy`, `transport.dfy`, `endian_utils.dfy`, `commands.dfy`,
  `command_handler.dfy`, `nand.dfy`, `spi2_nand.dfy`, `elf2json.dfy`,
  `log_mock.dfy`.
- The test loader is split in three: `unity_line.dfy` (the Unity result-line
  parser), `test_summary.dfy` (the report) and `load_test.dfy` (the monitor
  and the verdict).
- Two support modules: `common.dfy` (byte types, `Option`, counting) and
  `pystr.dfy` (the Python string builtins the loader relies on).

Three patterns recur across the modules:

- **Stateful code is a class.** This covers the serial monitor, the SLIP
  transmitter and receiver, the USB transmit counter, the command loop, the
  NAND driver, the SPI2 controller and the log mock. Each method's
  `ensures` ties its new state to a specification function of the old
  state. Lemmas about those functions state what the source promises.
- **Hardware is recorded, not driven.** Bytes sent on a wire, SPI
  transactions issued and handler calls are appended to a trace.
- **Inputs from outside are parameters.** Replies from the SPI bus come
  from an oracle function indexed by transaction number. The serial port
  is a sequence of events.

## Model

| member | source | states |
|---|---|---|
| Slip.EscapeByte | src/slip.c:28-43 | the escape of one byte; its properties are `EscapeByteShape` |
| Slip.Escape | src/slip.c:45-55 | the escape of a buffer, byte after byte; its properties are `EscapeAppend`, `EscapeHasNoEnd` and `EscapeLength` |
| Slip.Frame | src/slip.c:57-66 | a frame is the escaped payload between two 0xC0 bytes; `FrameDelimiters` and `FrameRoundTrip` state what it guarantees |
| Slip.EscapeByteShape | src/slip.c:28-43 | an escaped byte never contains END; it is two bytes exactly for END and ESC and one byte otherwise, and it starts with ESC exactly for those two |
| Slip.EscapeAppend | src/slip.c:45-55 | escaping a concatenation is escaping each part in buffer order |
| Slip.EscapeHasNoEnd | src/slip.c:28-55 | an escaped payload never contains the frame delimiter 0xC0 |
| Slip.EscapeLength | src/slip.c:30-42 | escaped length = payload length + number of 0xC0 bytes + number of 0xDB bytes |
| Slip.FrameDelimiters | src/slip.c:57-66 | in a frame, 0xC0 occurs at the first and last positions and nowhere else |
| Slip.SlipTx.constructor | src/slip.c:23-26 | nothing sent yet |
| Slip.SlipTx.TxOneChar | src/slip.c:25 | the transmit function sends exactly the one byte |
| Slip.SlipTx.SendFrameDelimiter | src/slip.c:23-26 | sends exactly the single byte 0xC0 |
| Slip.SlipTx.SendFrameData | src/slip.c:28-43 | sends 0xC0 as [0xDB,0xDC], 0xDB as [0xDB,0xDD], any other byte as itself |
| Slip.SlipTx.SendFrameDataBuf | src/slip.c:45-55 | sends the escapes of the buffer bytes in order; nothing for a NULL buffer |
| Slip.SlipTx.SendFrame | src/slip.c:57-66 | sends 0xC0, the escaped payload, 0xC0; nothing for NULL data |
| Slip.RecvStep | src/slip.c:72-102 | one step of the receiver; `RecvEscapeByte`, `RecvEscaped` and `FrameRoundTrip` state what it decodes |
| Slip.RecvAllAppend | src/slip.c:68-104 | feeding two byte sequences one after the other is feeding their concatenation |
| Slip.RecvEscapeByte | src/slip.c:28-102 | inside a frame, the escape of a byte decodes to exactly that byte |
| Slip.RecvEscaped | src/slip.c:45-102 | inside a frame, an escaped payload decodes to the payload |
| Slip.FrameRoundTrip | src/slip.c:57-104 | feeding a whole frame to a receiver outside any frame ends outside a frame with exactly the payload collected |
| Slip.SlipRx.constructor | src/slip.c:70 | the receiver starts in NO_FRAME with nothing collected |
| Slip.SlipRx.RecvByte | src/slip.c:68-104 | one byte moves the receiver as the transition function says |
| Transport.UsbSerialTx.constructor | src/transport.c:47 | the counter starts at 0 with nothing sent |
| Transport.UsbSerialTx.TxOneChar | src/transport.c:42-55 | sends `c` exactly once, flushes right after exactly when `c` is 0xC0 or the counter reaches 63, resets the counter on a flush, returns 0, and keeps the counter equal to the unflushed byte count and below 63 |
| Transport.Pending | src/transport.c:42-55 | the bytes sent since the last flush; `PendingAfterSend` and `AtMost63Unflushed` bound it |
| Transport.PendingAfterSend | src/transport.c:48-53 | one byte sent adds one unflushed byte, and a flush brings the count to zero |
| Transport.AtMost63Unflushed | src/transport.c:44-53 | between calls, at most 62 bytes are pending, so at most 63 bytes ever go out without a flush |
| Transport.UartRxHandler | src/transport.c:13-31 | reads nothing unless RXFIFO_FULL or RXFIFO_TOUT is set; feeds at most `count` bytes to the receiver in FIFO order; stops right after the first byte that leaves a complete or erroneous frame, and never earlier |
| Transport.UsbJtagRxHandler | src/transport.c:33-40 | every available byte reaches the receiver, in order, until none is left |
| EndianUtils.SetU16ToLe | src/endian_utils.h:21-25 | `buf[0]` is the low byte, `buf[1]` the high byte, and the rest of the buffer is untouched |
| EndianUtils.SetU16ToBe | src/endian_utils.h:33-37 | the two bytes of the little-endian form in reverse order, and nothing else touched |
| EndianUtils.SetU32ToLe | src/endian_utils.h:45-51 | bytes 0..3 least significant first, and nothing past index 3 touched |
| EndianUtils.GetLeToU16 | src/endian_utils.h:59-62 | the value is `buf[0] + 256*buf[1]` |
| EndianUtils.GetLeToU32 | src/endian_utils.h:70-73 | the value is `buf[0] + 2^8*buf[1] + 2^16*buf[2] + 2^24*buf[3]` |
| EndianUtils.U16RoundTrip | src/endian_utils.h:21-62 | reading back what `set_u16_to_le` wrote gives the value |
| EndianUtils.U16BytesRoundTrip | src/endian_utils.h:21-62 | writing back what `get_le_to_u16` read gives the two bytes |
| EndianUtils.U32RoundTrip | src/endian_utils.h:45-73 | reading back what `set_u32_to_le` wrote gives the value |
| EndianUtils.U32BytesRoundTrip | src/endian_utils.h:45-73 | writing back what `get_le_to_u32` read gives the four bytes |
| Commands.CommandIdsDistinct | src/commands.h:15-39 | the 21 command identifiers are bytes and pairwise distinct |
| Commands.StatusAndErrorCodes | src/commands.h:41-66 | SUCCESS and FAIL differ; the error codes are bytes, pairwise distinct, and none equals NO_ERROR |
| Commands.ResponseBytes | src/commands.h:96-99 | the response on the wire is two bytes |
| Commands.ParseResponse | src/commands.h:96-99 | a response is read back exactly when there are at least two bytes |
| Commands.ResponseRoundTrip | src/commands.h:96-99 | parsing the bytes of a response gives it back: status first, then error |
| Commands.ResponseBytesRoundTrip | src/commands.h:96-99 | any two bytes are the encoding of the response parsed from them |
| CommandHandler.HandlerFor | src/command_handler.c:108-196 | a command reaches only the handler that serves it |
| CommandHandler.HandledCommands | src/command_handler.c:108-196 | exactly the known commands other than ESP_RUN_USER_CODE have a handler |
| CommandHandler.DispatchIsOneToOne | src/command_handler.c:108-187 | each of the 20 handlers is reached by its own command and by no other |
| CommandHandler.PayloadHasAnnouncedSize | src/command_handler.c:101-106 | after the length check, the payload after the header is exactly as long as the header announces |
| CommandHandler.FrameResponses | src/command_handler.c:101-196 | a frame gets at most one response from the loop itself, a FAIL response with value 0, no data, and the frame's command |
| CommandHandler.FrameCalls | src/command_handler.c:101-187 | a frame makes at most one handler call, only when its length matches, and to the handler of its command |
| CommandHandler.FrameOutcomes | src/command_handler.c:95-196 | an empty frame produces nothing; a length other than header + announced size one BAD_DATA_LEN error and no call; a known command one call of its handler with the bytes after the header (`s_sync` without arguments); ESP_RUN_USER_CODE nothing; any other command one INVALID_COMMAND error |
| CommandHandler.FrameAnswered | src/command_handler.c:95-196 | every frame but an empty one or the one leaving the loop gets exactly one response or one handler call |
| CommandHandler.LoopResponses | src/command_handler.c:90-198 | the responses of a run of frames: those of each frame, in order |
| CommandHandler.LoopCalls | src/command_handler.c:90-198 | the handler calls of a run of frames: those of each frame, in order |
| CommandHandler.LoopAnswersEveryFrame | src/command_handler.c:90-198 | before the loop is left, the number of responses plus handler calls equals the number of non-empty frames |
| CommandHandler.CommandLoop.constructor | src/command_handler.c:90-94 | no response sent, no handler called |
| CommandHandler.CommandLoop.SendResponsePacket | src/command_handler.c:67-68 | one more response packet, with the given fields |
| CommandHandler.CommandLoop.SendErrorResponse | src/command_handler.c:70-73 | an error response carries status FAIL, value 0 and no data |
| CommandHandler.CommandLoop.SendSuccessResponse | src/command_handler.c:75-78 | a success response carries status SUCCESS and NO_ERROR |
| CommandHandler.CommandLoop.Dispatch | src/command_handler.c:109-187 | records one handler call with its payload |
| CommandHandler.CommandLoop.HandleFrame | src/command_handler.c:95-196 | sends exactly the responses and makes exactly the handler calls the frame produces, and leaves the loop exactly for a well-formed ESP_RUN_USER_CODE frame |
| CommandHandler.CommandLoop.HandleNext | src/command_handler.c:90-196 | handling one more frame adds its responses and calls after those of the earlier frames, unless it is the frame that leaves the loop, which adds nothing |
| CommandHandler.CommandLoop.Loop | src/command_handler.c:90-198 | frames are handled in order until the first well-formed ESP_RUN_USER_CODE frame, whose index is returned; the responses sent and the handler calls made are those of the handled frames, frame after frame |
| Nand.RxData | src/nand.c:13-19 | a transaction stores `ceil(rxBits/8)` received bytes, in order |
| Nand.Marker | src/nand.c:189-197 | the bad-block marker is [0x00,0x00] when `is_bad` ≠ 0 and [0xFF,0xFF] otherwise |
| Nand.PageAddressValue | src/nand.c:150-153 | the three page-address bytes are the page number big-endian, with bits above 23 dropped |
| Nand.ColumnAddressValue | src/nand.c:168-171 | the column address is the page size cast to 16 bits, big-endian |
| Nand.PageAddress | src/nand.c:150-153 | three address bytes; `PageAddressValue` gives their value |
| Nand.ColumnAddress | src/nand.c:168-172 | two address bytes; `ColumnAddressValue` gives their value |
| Nand.WaitReadySpec | src/nand.c:35-64 | the outcome of `nand_wait_ready` over a poll budget; `WaitReadyAfterBusy`, `WaitReadyTimeout`, `WaitReadyShape` and `WaitReadyNonPositive` state its codes and transactions |
| Nand.AttachSpec | src/nand.c:100-140 | the outcome of `nand_attach`; `AttachCodes` states it |
| Nand.ReadSpareSpec | src/nand.c:142-181 | the outcome of `nand_read_spare`; `ReadSpareSequence` states it |
| Nand.WriteSpareSpec | src/nand.c:183-234 | the outcome of `nand_write_spare`; `WriteSpareSequence` states it |
| Nand.WaitReadyAfterBusy | src/nand.c:39-61 | `n` busy polls are `n` status reads, after which the wait goes on with `n` fewer polls left |
| Nand.WaitReadyTimeout | src/nand.c:37-63 | when every poll succeeds and reads BUSY, the wait returns -5 after exactly as many status reads as the budget |
| Nand.WaitReadyShape | src/nand.c:35-64 | the wait issues only status reads, at least one and at most the budget |
| Nand.AttachCodes | src/nand.c:100-140 | attach returns the `spi2_init` error, -100 on reset failure, -101 on status-read failure, -4 if busy, else 0; it succeeds exactly when all of them succeed and the chip is idle |
| Nand.WaitReadyNonPositive | src/nand.c:35-64 | with failures reported as negative codes, the wait ends in 0 or a negative code |
| Nand.ReadSpareSequence | src/nand.c:142-181 | a failed PAGE READ gives -10 after that one transaction; a failed wait gives -20 + its code after the PAGE READ and the status reads; otherwise READ FROM CACHE follows, giving -30 on failure, else 0, and its two bytes reach the buffer; the wait issues between 1 and the budget status reads; with failures reported as negative codes it succeeds exactly when every step succeeds |
| Nand.WriteSpareSequence | src/nand.c:183-234 | WRITE ENABLE, PROGRAM LOAD, PROGRAM EXECUTE, wait, in that order; the first failure stops it with the write-enable code, -20, -30, or -40 + the wait's code; it succeeds exactly when every step succeeds |
| Nand.NandFlash.constructor | src/nand.c:24-29 | 2048-byte pages, 64 pages per block, 128 KiB blocks, not initialised, poll budget 100000 |
| Nand.NandFlash.Transaction | src/nand.c:13-19 | one more transaction on the trace, and the bus's reply to it |
| Nand.NandFlash.Poll | src/nand.c:40-60 | one status read: either the wait ends here with the code the specification gives, or the chip read BUSY |
| Nand.NandFlash.WaitReady | src/nand.c:35-64 | the returned code and the transactions issued are those of the wait specification for the poll budget |
| Nand.NandFlash.Attach | src/nand.c:100-140 | code and transactions as specified; only success sets `initialized` and a 2048-byte page size |
| Nand.NandFlash.LoadPage | src/nand.c:148-164 | PAGE READ then the wait; a failure ends the read as specified |
| Nand.NandFlash.ReadCache | src/nand.c:166-178 | READ FROM CACHE at the spare column with one zero dummy byte; its 16 bits land in the first two bytes of `spare_data`, the rest untouched |
| Nand.NandFlash.ReadSpare | src/nand.c:142-181 | code, transactions and `spare_data` as the read specification gives |
| Nand.NandFlash.IssueWrite | src/nand.c:189-225 | the three write steps in order, stopping at the first failure with its code |
| Nand.NandFlash.WaitProgram | src/nand.c:227-233 | a failed wait is reported as -40 + its code, a successful one as 0 |
| Nand.NandFlash.WriteSpare | src/nand.c:183-234 | code and transactions as the write specification gives |
| Spi2Nand.UserValue | src/spi2_nand.c:184-205 | USER always has CS_SETUP, CS_HOLD and USR_COMMAND; USR_ADDR iff `addr_bits` > 0, USR_MOSI iff `tx_bits` > 0, USR_MISO iff `rx_bits` > 0; no other bit |
| Spi2Nand.User2Value | src/spi2_nand.c:207-209 | USER2 is the command in the low byte and 7 in bits 28 and up, zero between |
| Spi2Nand.FoldBE | src/spi2_nand.c:212-216 | the address register after shifting the address bytes in; the FoldBE lemmas give its value |
| Spi2Nand.FoldBEAppend | src/spi2_nand.c:214-216 | shifting one more address byte in drops the top byte and brings the new byte in at the bottom |
| Spi2Nand.FoldBEWord | src/spi2_nand.c:212-217 | the fold of up to four address bytes is those bytes big-endian, zero above |
| Spi2Nand.FoldBEBytes | src/spi2_nand.c:212-217 | byte `j` of the address register is the address byte `j` from the end |
| Spi2Nand.FoldBEKeepsLastFour | src/spi2_nand.c:212-217 | a longer address keeps only its last four bytes |
| Spi2Nand.AddrBitLen | src/spi2_nand.c:219-222 | USER1's low five bits become `addr_bits` - 1, and its other bits are kept |
| Spi2Nand.Pack | src/spi2_nand.c:226-234 | `ceil(bytes/4)` words are written |
| Spi2Nand.PackedByte | src/spi2_nand.c:228-233 | byte `j` of word `i` is data byte `4i + j`, or zero past the end of the data |
| Spi2Nand.PackedWord | src/spi2_nand.c:229-232 | a packed word holds data bytes 4i..4i+3, the first least significant |
| Spi2Nand.WordPrefix | src/spi2_nand.c:228-232 | a data word after its first `j` bytes are ORed in; `PackedByte` and `PackedWord` give its value |
| Spi2Nand.WordPrefixPastEnd | src/spi2_nand.c:230 | bytes past the end of the data add nothing to a word |
| Spi2Nand.Unpack | src/spi2_nand.c:257-265 | exactly `n` bytes are read out of the words |
| Spi2Nand.UnpackPack | src/spi2_nand.c:226-265 | unpacking the packed words gives the data back, and padding bytes are zero |
| Spi2Nand.WriteWords | src/spi2_nand.c:233 | writing the data buffer removes no register |
| Spi2Nand.WriteWordsEffect | src/spi2_nand.c:228-234 | word `i` goes to W0 + 4i, and no register below W0 changes |
| Spi2Nand.Configure | src/spi2_nand.c:184-241 | the configuration phase removes no register |
| Spi2Nand.ConfigureUser | src/spi2_nand.c:184-209 | after configuration USER and USER2 hold their computed values and the command register is untouched |
| Spi2Nand.ConfigureAddress | src/spi2_nand.c:211-223 | with an address, ADDR holds the fold of its first `ceil(addr_bits/8)` bytes and USER1 its bit length; without one, both are untouched |
| Spi2Nand.ConfigureData | src/spi2_nand.c:225-241 | the TX words are loaded when transmitting; MS_DLEN is `tx_bits` - 1 when transmitting, else `rx_bits` - 1 when only receiving, else untouched |
| Spi2Nand.Spi2.constructor | src/spi2_nand.c:174-178 | the controller's registers as given |
| Spi2Nand.Spi2.SetAddress | src/spi2_nand.c:212-223 | ADDR is the big-endian fold of the address bytes and USER1 gets the bit length; nothing else changes |
| Spi2Nand.Spi2.PackWord | src/spi2_nand.c:229-232 | one word holding bytes 4i..4i+3 of the data, while there are any |
| Spi2Nand.Spi2.LoadTx | src/spi2_nand.c:227-234 | the data buffer words are the packed transmit bytes; every other register is kept |
| Spi2Nand.Spi2.UnloadRx | src/spi2_nand.c:258-264 | the first `n` bytes of `rx_data` are unpacked from the data buffer; the rest is untouched |
| Spi2Nand.Spi2.SetUser | src/spi2_nand.c:185-205 | USER gets its computed value; nothing else changes |
| Spi2Nand.Spi2.Setup | src/spi2_nand.c:184-241 | the registers after configuration are as the configuration function gives |
| Spi2Nand.Spi2.Transaction | src/spi2_nand.c:174-268 | returns 0; the registers are the configured ones with the user command started and the transfer's effect; when receiving into a buffer, its first `ceil(rx_bits/8)` bytes are unpacked from the data buffer and the rest untouched; otherwise the buffer is untouched |
| Elf2Json.GetSection | tools/elf2json.py:31-40 | looking a section up gives the first section of that name, and fails exactly when there is none |
| Elf2Json.PadText | tools/elf2json.py:54-57 | the text length becomes a multiple of 4 by appending fewer than 4 zero bytes; aligned text is unchanged |
| Elf2Json.FindBss | tools/elf2json.py:47-52 | the address of the first no-bits section named `.bss`, present exactly when there is one |
| Elf2Json.GetStubSections | tools/elf2json.py:28-59 | no record without `.text`; otherwise the entry point and `.text` address are passed through; the text is padded to a multiple of 4 with zeros; `data`/`data_start` are present exactly when `.data` exists; `bss_start` comes from the first `.bss`; each missing section is warned about |
| LogMockModel.Added | unittests/support/LogMock.h:166-176 | `name`'s queue, created if absent, gets the value at its back; no other queue changes |
| LogMockModel.Returned | unittests/support/LogMock.h:185-195 | `name`'s queue, created if absent, gets the value at its front; no other queue changes |
| LogMockModel.Popped | unittests/support/LogMock.h:206-219 | nothing is taken exactly when the name is missing or its queue is empty; otherwise the front value is taken and removed |
| LogMockModel.ReturnedIsPoppedNext | unittests/support/LogMock.h:185-219 | the value given back is the next value taken, and taking it restores the queue |
| LogMockModel.AddedIsFifo | unittests/support/LogMock.h:166-219 | queues are first in, first out: adding does not change what is taken next, unless the queue was empty |
| LogMockModel.PoppedOnlyTouchesName | unittests/support/LogMock.h:206-219 | taking from one name leaves every other queue alone |
| LogMockModel.Printed | unittests/support/LogMock.h:226-231 | the text `printAllLogs` writes; `PrintedAppend` and `PrintAllLogs` state it |
| LogMockModel.PrintedAppend | unittests/support/LogMock.h:226-231 | one more record prints as one more line after the others |
| LogMockModel.LogMock.constructor | unittests/support/LogMock.h:76-79 | empty stream, no records, no queues |
| LogMockModel.LogMock.Log | unittests/support/LogMock.h:76-79 | writing to the stream appends to it |
| LogMockModel.LogMock.PopRecord | unittests/support/LogMock.h:87-95 | returns and removes the oldest record; on no records returns "" and changes nothing |
| LogMockModel.LogMock.ClearLogs | unittests/support/LogMock.h:97-101 | no records and an empty stream; the queues are kept |
| LogMockModel.LogMock.SaveLog | unittests/support/LogMock.h:152-156 | the stream's text becomes the newest record and the stream is emptied |
| LogMockModel.LogMock.AddData | unittests/support/LogMock.h:166-176 | the queues become those with the value added at the back of `name`'s |
| LogMockModel.LogMock.ReturnData | unittests/support/LogMock.h:185-195 | the queues become those with the value put at the front of `name`'s |
| LogMockModel.LogMock.PopData | unittests/support/LogMock.h:206-219 | false with the output untouched when the name is missing or its queue empty; else true with the front value, which is removed |
| LogMockModel.LogMock.ClearData | unittests/support/LogMock.h:221-224 | no queue is left |
| LogMockModel.LogMock.PrintAllLogs | unittests/support/LogMock.h:226-231 | writes every record in order, each followed by a newline, and keeps them |
| UnityLine.ParseUnityTestLine | unittests/target/load-test.py:164-191 | the parse of a Unity result line; the Parse lemmas state when it succeeds and what it yields |
| UnityLine.BaseNameIsLastSegment | unittests/target/load-test.py:180 | the file name is the text after the last `/` of the path, or the whole path when there is none |
| UnityLine.ParseSucceedsIff | unittests/target/load-test.py:171-191 | a record is produced exactly when the line has at least four colon fields |
| UnityLine.ParseFields | unittests/target/load-test.py:171-188 | file = base name of field 0, line = field 1, test name = field 2, status = field 3, message = fields 4 on rejoined with `:` and stripped |
| UnityLine.MessageOfRest | unittests/target/load-test.py:177 | the message with exactly four fields is the (empty) join of no fields |
| UnityLine.FieldsRejoin | unittests/target/load-test.py:171-177 | the four fields and the unstripped message, joined back with `:`, are the line |
| UnityLine.ParseJoined | unittests/target/load-test.py:171-188 | a line built by joining colon-free fields parses back to those fields |
| UnityLine.ParseWellFormed | unittests/target/load-test.py:164-188 | `path:line:name:status` parses to its parts with an empty message |
| UnityLine.ParseWellFormedWithMessage | unittests/target/load-test.py:164-188 | `path:line:name:status:message` parses with the message stripped |
| TestSummary.Summary | unittests/target/load-test.py:193-241 | the report text; the Summary lemmas state its parts |
| TestSummary.SummaryIsSentinelIff | unittests/target/load-test.py:195-196 | the report is exactly 'No test results captured' when, and only when, no test was counted |
| TestSummary.SummaryBanner | unittests/target/load-test.py:203-210 | the counts come first, then the banner, which is the all-passed banner exactly when no test failed |
| TestSummary.SummaryListsEveryRecord | unittests/target/load-test.py:217-226 | a report with results contains the PASS line of every passed record and the FAIL line of every failed record |
| TestSummary.EntriesAppend | unittests/target/load-test.py:218-226 | the entries of two lists of records are those of each, in capture order |
| TestSummary.EntriesCons | unittests/target/load-test.py:218-226 | the entries of a list are each record's entry, one after the other |
| TestSummary.FailureDetailsNumbered | unittests/target/load-test.py:232-238 | the numbered failure details are the entries 1..n joined by blank lines, with none after the last |
| TestSummary.SeparatedPrefix | unittests/target/load-test.py:232-238 | after `n` entries, the text is their join plus a separator unless it was the last |
| LoadTest.Classify | unittests/target/load-test.py:120-162 | which rule of `_process_line` a stripped line falls under, the first match winning |
| LoadTest.Process | unittests/target/load-test.py:120-162 | the monitor state after one line; `PassLineCounted`, `FailLineCounted`, `UnityTallyLine`, `TerminalLineCompletes`, `MarkerLineCompletes` and `ProcessKeepsCompletion` state its rules |
| LoadTest.TallyResult | unittests/target/load-test.py:125-136 | the statistics after a result line; `PassLineCounted` and `FailLineCounted` state it |
| LoadTest.TallySummary | unittests/target/load-test.py:139-146 | the statistics after a summary line; `UnityTallyLine` states it |
| LoadTest.Feed | unittests/target/load-test.py:77-88 | the state and line buffer after one chunk of text; `FeedConcat` states chunk independence |
| LoadTest.Drain | unittests/target/load-test.py:95-103 | the state after the grace read; `RunEndsAtCompletion` states when it happens |
| LoadTest.Run | unittests/target/load-test.py:64-105 | the state at the end of monitoring; the Run lemmas state how it stops |
| LoadTest.Verdict | unittests/target/load-test.py:267-277 | the result of `load_and_monitor`; `LoadAndMonitor`, `SilentRunFails` and `TallyDecidesVerdict` state it |
| LoadTest.PassLineCounted | unittests/target/load-test.py:125-136 | a `:PASS` line (whether or not it also has `:FAIL`) adds one run and one pass, and appends its record exactly when it parses |
| LoadTest.FailLineCounted | unittests/target/load-test.py:132-136 | a `:FAIL` line without `:PASS` adds one run and one failure, and appends its record exactly when it parses |
| LoadTest.TerminalLineCompletes | unittests/target/load-test.py:125-154 | a bare `OK` or `FAIL` line is neither a result nor a summary line; it completes the run and leaves the statistics unchanged |
| LoadTest.MarkerLineCompletes | unittests/target/load-test.py:125-162 | a colon-free line without `Tests` that holds a completion marker completes the run and leaves the statistics unchanged |
| LoadTest.UnityPassLineRecorded | unittests/target/load-test.py:125-188 | a well-formed Unity pass line is counted and recorded with its file name and test name |
| LoadTest.UnityTallyLine | unittests/target/load-test.py:139-146 | Unity's closing tally line completes the run with its counts |
| LoadTest.UnityTallyNumbers | unittests/target/load-test.py:140 | the numbers found in the tally line are its three counts, in order |
| LoadTest.ProcessKeepsCompletion | unittests/target/load-test.py:139-162 | once complete, a run stays complete whatever line comes next |
| LoadTest.ProcessPiecesKeepsCompletion | unittests/target/load-test.py:83-88 | processing further lines never clears completion |
| LoadTest.ProcessPiecesAppend | unittests/target/load-test.py:83-88 | processing two lists of lines is processing their concatenation, in arrival order |
| LoadTest.FeedConcat | unittests/target/load-test.py:75-88 | where the text was cut into chunks does not matter: the lines processed and the buffer left are those of the concatenation |
| LoadTest.RunStops | unittests/target/load-test.py:64-71 | once the deadline is reached the monitor stops where it is |
| LoadTest.RunReads | unittests/target/load-test.py:74-103 | a read feeds its text to the buffer; on completion the grace read is drained, else monitoring goes on |
| LoadTest.RunWithoutData | unittests/target/load-test.py:64-105 | when nothing arrives, monitoring ends where it began |
| LoadTest.RunEndsAtCompletion | unittests/target/load-test.py:83-103 | the read that completes the run ends monitoring: the grace read is drained on its own and later events are never looked at |
| LoadTest.ResidueNeverProcessed | unittests/target/load-test.py:83-103 | the unterminated residue of the completing chunk is never processed, whatever it holds |
| LoadTest.LoadAndMonitor | unittests/target/load-test.py:244-277 | a missing binary is an error; otherwise the report is the summary of the final statistics and the verdict is a pass exactly when monitoring completed, no test failed and at least one ran |
| LoadTest.SilentRunFails | unittests/target/load-test.py:267-277 | a run that saw no output is never a pass |
| LoadTest.TallyDecidesVerdict | unittests/target/load-test.py:139-277 | a tally line alone completes the run with its counts, and the verdict is a pass exactly when at least one test ran and none failed |
| LoadTest.FeedUnityTally | unittests/target/load-test.py:83-146 | one tally line fed to a fresh monitor completes it with the tally's counts |
| LoadTest.SerialMonitor.constructor | unittests/target/load-test.py:42-53 | not complete, all counts zero, no records |
| LoadTest.SerialMonitor.ProcessLine | unittests/target/load-test.py:120-162 | the state after the line is the one the rules give, the first matching rule winning |
| LoadTest.SerialMonitor.ProcessResult | unittests/target/load-test.py:125-136 | a result line leaves the state the line rules give for it: the tally, completion untouched |
| LoadTest.SerialMonitor.ProcessSummary | unittests/target/load-test.py:139-146 | a summary line leaves the state the line rules give for it |
| LoadTest.SerialMonitor.ProcessMarker | unittests/target/load-test.py:149-162 | a terminal `OK`/`FAIL` or completion-marker line leaves the state the line rules give for it |
| LoadTest.SerialMonitor.TallyResultLine | unittests/target/load-test.py:126-136 | the statistics after a result line are those the tally gives; the flag is kept |
| LoadTest.SerialMonitor.CountTestResult | unittests/target/load-test.py:126-136 | one more run; one more pass (record appended if parsed) when `:PASS` occurs, else one more failure likewise |
| LoadTest.SerialMonitor.ApplyTally | unittests/target/load-test.py:141-146 | the counts are overwritten from the tally, passed = run - failed (possibly negative), lists kept, run complete |
| LoadTest.SerialMonitor.Monitor | unittests/target/load-test.py:55-118 | with the port closed, false and nothing changes; otherwise the state after the events as the run specification gives, and the result is the completion flag |
| LoadTest.SerialMonitor.HandleData | unittests/target/load-test.py:76-103 | the complete lines of buffer + data are processed in order; on completion the grace read is processed and the residue dropped |
| LoadTest.SerialMonitor.ProcessCompleteLines | unittests/target/load-test.py:83-88 | every newline-terminated piece is processed in order, and the unterminated rest is returned as the new buffer |
| LoadTest.SerialMonitor.ProcessPieceStep | unittests/target/load-test.py:84-88 | a piece is stripped and processed unless empty |
| LoadTest.SerialMonitor.ProcessRemainingLines | unittests/target/load-test.py:99-102 | each piece of the grace read, the unterminated last one included, is processed in order |
| LoadTest.SerialMonitor.GetTestSummary | unittests/target/load-test.py:193-241 | the report is the summary of the statistics |
| LoadTest.RenderPassed | unittests/target/load-test.py:218-219 | one line per passed record, in capture order |
| LoadTest.RenderFailed | unittests/target/load-test.py:222-226 | one line per failed record, with the message inline when present |
| LoadTest.RenderFailureDetails | unittests/target/load-test.py:229-238 | the failure-details section, empty when no test failed |
| LoadTest.RenderNumberedDetails | unittests/target/load-test.py:232-238 | the entries numbered from 1, separated by blank lines |
| LoadTest.RenderDetailEntry | unittests/target/load-test.py:233-236 | the numbered heading, the file line, and the error line only when there is a message |
| PyStr.SplitConcat | unittests/target/load-test.py:83-84 | splitting a concatenation is splitting the first part and continuing from its last piece |
| PyStr.JoinSplit | unittests/target/load-test.py:84 | joining the pieces of a split gives the text back |
| PyStr.SplitLength | unittests/target/load-test.py:171-172 | a split has one more piece than there are separators |
| PyStr.StripIdempotent | unittests/target/load-test.py:85 | stripping the already stripped line changes nothing |
| PyStr.NumbersOfNatToString | unittests/target/load-test.py:140 | the digits of a number are found back as that number |

## Left out

- Serial I/O, the clock and sleeps of the test loader are not modelled. Monitoring consumes a sequence of events: a read with its decoded text, or the deadline. The grace read is a parameter. Chip detection, loading into RAM, argument parsing, console printing and exception plumbing are left out too.
- UTF-8 decoding with ignored errors is not modelled: the events carry decoded text. Chunk independence (`FeedConcat`) is therefore stated over text, not over bytes.
- Python's `str.upper()` is modelled for ASCII letters, and `\d` for ASCII digits. The ANSI colours and emoji of the report are constant strings.
- The SLIP receiver's buffer fill is a TODO in the C code. The model collects decoded bytes in a frame value so that the round trip can be stated. Frame completion and error are predicates passed to the UART handler, since their definitions are not part of this model.
- The interrupt flag reads, FIFO reads and interrupt attachment of the transport are left out; the FIFO is a sequence and the flags are parameters. The handlers run concurrently with the main loop on the chip; only their sequential draining is modelled.
- The command handler bodies (`s_sync` …) and `send_response_packet` are not part of this model: calls and responses are recorded. The packed layout of the command header is replaced by a decoded header and a header-size parameter. Receiving the frame is a TODO in the C loop, so frames are a parameter.
- The bus behind the NAND driver is an oracle from transaction number to reply. `spi2_init` is represented by its return code. Delays are left out.
- Nand.ReadSpareSequence, Nand.WriteSpareSequence: the "succeeds exactly when every step succeeds" direction assumes every failing transaction reports a negative code (`NegativeErrors`), as all stub error codes are. With a positive failure code, -20 + code could be 0.
- The busy-waits on the SPI2 command register are assumed to finish. The data the peripheral writes into the buffer during the transfer is the `transfer` parameter of `Spi2Nand.Spi2.Transaction`. `spi2_init` and pin configuration are left out.
- Spi2Nand.Spi2.SetAddress: requires `addr_bits` ≤ 32. The C code ORs `addr_bits - 1` unmasked into USER1, which spills into other bits above 32; every caller uses at most 24.
- The ELF file parsing, JSON writing and base64 encoding of `elf2json.py` belong to other libraries. The ELF is given parsed, and section lookup is taken to return the first section of the name. A missing `.text` is the uncaught lookup error, modelled as no record.
- The log mock's queues hold values of one type: the type-checked `std::any` casts are left out. So is the number formatting of `logBuffer` and `logBuffer8`.
- Integers in the test loader are unbounded like Python's. Counts in the C code never come near their widths, except where the model writes the truncation out (page and column addresses, register words).
