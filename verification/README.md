# GeorgeOS kernel cores, modelled and verified in Dafny

GeorgeOS is a small operating system for x86 PCs. This project models six cores of its 32-bit kernel, and
the 16-bit kernel and boot-loader code that duplicates parts of them, and proves what those cores keep to:

- **USB storage** (`Uhci`, `TransferRuns`, `BulkRuns`, `PacketStreams`, `UhciDriver`, `ControlPipe`, `UhciControl`, `ControlRuns`, `UsbRequests`, `BulkDevice`, `BulkOnly`,
  `UnreadErrors`, `ShortAnswers`, `EndingRuns`, `Aftermath`, `UsbCommands`, `UsbStorage`, `CalmRuns`, `ToggleSessions`). Three parties share one state: the driver, which
  builds transfer descriptors in place and polls the last one; the host controller, one step per descriptor; and a mass-storage
  device with its two data toggles. A run is any sequence of controller visits, each of which may find the device not ready, lose
  the handshake that ends the transaction, or end in the controller giving up, before, between and after the driver's polls. The
  end-to-end theorem is about every such run. Its key is that a device is a stream of packets: whatever is lost, the status
  transfer takes up the stream where the data transfer's descriptors end.
- **FAT** (`FatTable`, `FatVolume`, `FatReader`, `FatDirectory`): packed tables, layout arithmetic in 32 bits, chains, three readers of
  the same chains, directory listing.
- **Console and line editor** (`Screen`, `Terminal`, `CursorBlink`, `ColourEscapes`, `ScreenConsole`, `LineEditor`): the mutable cell
  buffer refines an unbounded tape of cells; the timer's cursor is interleaved between characters and inside them.
- **Heap and copy** (`Memory`), **numbers as text** (`Numbers`, `Format`), **addresses and names** (`DiskAddress`, `Ata`, `BlockDevices`, `Vfs`).

`Bytes` holds bytes, words and the bitwise operators of C on unsigned values, `Kernel` the constants every file shares. Code that
updates state is a class or a method proved against a specification function; the properties are lemmas about those functions.
`dafny verify dfyconfig.toml` checks everything.

## Where the code does less than it seems to

Where a promise fails, the condition under which it does hold is proved exactly, or the deviation itself is.

- `memcpy` copies dwords first: it equals the bytewise copy unless the destination is one to three bytes above the source and at least
  four bytes are copied.
- `memalign` aligns only to powers of two.
- `wait_for_transfer` never reads error bits, so a USB read can return SUCCESS with the end of the buffer stale; from an obedient
  device this is ruled out, for every packet size, exactly when the last data packet is longer than 13 bytes
  (`UnreadErrors.SuccessIsSoundExactly`).
- For the same reason a failure the device reports can return SUCCESS; this is ruled out exactly when packets have at least 13 bytes,
  so that the status wrapper travels in one (`UnreadErrors.ReportedFailureIsCaughtExactly`). `Robust` asks for both.
- The driver reads neither the residue nor `actual_length`, so an answer shorter than asked for can return SUCCESS without any fault;
  it is noticed exactly when the device neither pads nor ends with its short packet in the last descriptor
  (`ShortAnswers.SuccessMeansAllExactly`). READ (10) of blocks of at least two whole packets is safe from a device that does not pad.
- With the error bits unread, a short answer can lose its end, or have the status wrapper stored behind it; for packets of more
  than 13 bytes `EndingRuns.EarlySuccessIsSoundExactly` says exactly when not.
- After the loss of the very last handshake of a command the device is one packet behind. It refuses the next command, which can
  then only return SUCCESS if two error bits go unread (`Aftermath.TrailingSucceedsExactly`).
- The driver resets nothing after a transfer it gives up on, and all its tags are 0. A later command can so be given the unread
  answer of an earlier one, and return SUCCESS, on a bus without faults (`Aftermath.ForeignData`, and exactly when:
  `Aftermath.UnreadSucceedsExactly`). `fat12_read_file` does go on reading after a failure. As long as every transfer completes,
  every SUCCESS is right (`Aftermath.EverySuccessIsRight`).
- `vsprintf` never resets a precision, and steps over as many bytes as it says, so a string after one with a precision may be cut, and
  a shorter one leaves a NUL in the text (`Format.FormatsPrintWhatTheySayExactly`).
- READ CAPACITY's `number_of_blocks` is the address of the last block; `usb_storage_read` cuts the sector count to 16 bits.
- Control transfers step through the buffer by 8 whatever the packet size: answers of several packets stay whole exactly when these
  have 8 bytes (`ControlRuns.StrideKeepsExactly`). A refused request without data returns SUCCESS (`ControlRuns.RefusalIsNoticedExactly`).
- `first_data_sector` rounds the root directory down.
- `fat12_read_file` never notices a failed read and advances one sector per cluster: its buffer is the file exactly when every cluster
  can be read, and clusters are one sector or there is only one.
- `fat12_list_root` parses every sector to the head of the caller's list: right for up to 16 entries.
- 8.3 names are copied without a length limit.
- The 16-bit loader stops only at 0xFFF: of the chains with an end mark it loads exactly the readable ones that end in that one.
- `console_get_offset` takes its row as a `char`: safe up to 127 rows.
- A cursor update can interrupt a character being written in two harmful places.
- `get_next_index_for_mount_type` compares the new slot with itself; `next_file_handle` returns -1 when full but its caller tests
  for 0; from `/`, relative paths resolve to nothing.

Where a comment promises more than its function does, the model follows the code: `fat12_read_file` (fat12.c:260) is described as
reading an entire file, and `get_next_index_for_block_dev_type` (blockdev.c:59) as counting the devices of one type.

## Assumptions

- The heap does not run past 4 GB (`HasRoom`, `Room`); a bulk transaction has at least one byte and a packet size from 1 to 255, as the
  driver's own `uint8_t` allows.
- The device behind the USB cable follows the Bulk-Only Transport 1.0: it answers a valid wrapper with data and status, may report
  failure or a phase error, or stall, and drops packets with the wrong toggle. If it has less than the host asks for (section 6.7.2) it
  may fill the transfer up, end it with a short packet (an empty one after whole packets: USB 2.0, section 5.8.3), or end it so and
  stall. Filler is zeros. It serves IN commands only, as the driver sends no others.
- Bulk endpoints are not endpoint 0, which is the control pipe (USB 2.0, section 5.5); the data toggles of `ToggleSessions` are theirs.
- The wrapper, buffer and status memory of a command do not overlap (`Apart`).
- Console methods that take whole strings are for screens of at most 127 rows, as beyond that the code writes outside its buffer.
- Memory after the driver's copy of a directory entry is a parameter (`stack`), as the unbounded name copy can read it.

## Model

| member | source | states |
|---|---|---|
| `UsbStorage.UsbStorageDevice.UsbStorageRead` | 32bit/src/kernel/drivers/block/usb_storage.c:479-486 | End-to-end read, for every bus schedule and fault. SUCCESS from a device in step leaves the unit's blocks from `lba + offset` on (32-bit sum, count cut to 16 bits) at the start of the buffer, all of them unless the device is short unnoticed, and all other memory outside the wrappers unchanged, if the unread error bits of this very command are clear where they matter (`BitsClear` of the record `Conducted` ties to it), which sizes and device can guarantee (`Sturdy`). Whatever the result, a read whose transfers have all finished leaves the device in step, or one packet behind if its last handshake was lost; from a device that was behind none finishes unless the driver overlooks an error (`Mistook`). So over any series of reads every SUCCESS up to the first transfer that does not finish is right; after that it need not be (`Aftermath.ForeignData`). Conversely, from a device in step that obeys and holds the blocks, in the block size the driver reckons with, on a bus calm for `blocks * blockSize` bytes, it returns SUCCESS with exactly those blocks in the buffer |
| `UsbStorage.UsbStorageDevice.ScsiRead10` | 32bit/src/kernel/drivers/block/usb_storage.c:418-477 | READ (10): the byte-swapped command block is the one the device decodes. On SUCCESS with the unread bits of this command clear, the blocks asked for are in the buffer, all of them unless the device is short unnoticed; a finished read leaves the device in step or one packet behind whatever the result; from a device in step that obeys and holds the blocks, on a bus calm for `blocks * blockSize` bytes, it succeeds with exactly those blocks in the buffer |
| `UsbStorage.UsbStorageDevice.ScsiReadCapacity10` | 32bit/src/kernel/drivers/block/usb_storage.c:298-358 | READ CAPACITY (10): on SUCCESS with the unread bits clear, on any bus, the two words, swapped in place, are the block size and the address of the last block, one less than the number of blocks the field is named after; once its transfers have finished, the device is ready for REQUEST SENSE even if the command failed |
| `UsbStorage.UsbStorageDevice.TryCapacity` | 32bit/src/kernel/drivers/block/usb_storage.c:142-158 | One attempt of the set-up loop: the block size is taken over on SUCCESS; after a READ CAPACITY that failed by its status alone, REQUEST SENSE finds the device ready, and what it returns is the sense data of the unit |
| `UsbStorage.UsbStorageDevice.ScsiInquiry` | 32bit/src/kernel/drivers/block/usb_storage.c:238-296 | INQUIRY, on any bus: SUCCESS with the unread bits clear means the buffer begins with the unit's identification, cut to 36 bytes; a shorter one is accepted exactly as `FooledBy` says, and then the rest of the buffer is stale, or zero from a device that pads |
| `UsbStorage.UsbStorageDevice.ScsiRequestSense` | 32bit/src/kernel/drivers/block/usb_storage.c:360-416 | REQUEST SENSE, on any bus: SUCCESS with the unread bits clear means the buffer begins with the unit's sense data, cut to 18 bytes; shorter sense data is accepted exactly as `FooledBy` says |
| `UsbStorage.UsbStorageDevice.Command` | 32bit/src/kernel/drivers/block/usb_storage.c:436-476 | Any command, with the record of what it did: SUCCESS from a device in step, with the unread error bits of that record clear, means it was carried out, its answer delivered and, unless short unnoticed, complete, and nothing else written. Whether SUCCESS or FAILURE, once its transfers have finished the device is in step again, or one packet behind if the last handshake was lost; from a device one packet behind no command finishes unless an error on its wrapper is overlooked; in favourable circumstances it does succeed with no error bit set |
| `UsbStorage.UsbStorageDevice.Converse` | 32bit/src/kernel/drivers/block/usb_storage.c:436-476 | Exactly what a command does and what its result depends on (`Conducted`): which of the three lists are built, with toggles running on from one to the next; the state after each, as the run of what the bus did while it was published; that the driver stops at the first transfer it does not see finish; and that SUCCESS is all three finished with a good signature and status |
| `UsbStorage.UsbStorageDevice.SendAndReceive` | 32bit/src/kernel/drivers/block/usb_storage.c:438-454 | Wrapper and data phases: which lists are built, with which toggles, what state and toggles a failure in either leaves, and that in favourable circumstances both succeed |
| `UsbStorage.UsbStorageDevice.SendWrapper` | 32bit/src/kernel/drivers/block/usb_storage.c:438-445 | The wrapper is put into memory and sent; success exactly if the driver sees the transfer finish; a device in step acts on it if the bus is calm |
| `UsbStorage.UsbStorageDevice.Receive` | 32bit/src/kernel/drivers/block/usb_storage.c:447-454 | One IN transaction, successful exactly if the driver sees it finish; from a device in step that sends just as many bytes it succeeds on a calm bus and stores exactly them |
| `UsbStorage.UsbStorageDevice.Read10Command` | 32bit/src/kernel/drivers/block/usb_storage.c:430-434 | The stores into the zeroed command block give the READ (10) block |
| `UsbStorage.UsbStorageDevice.ReceiveStatus` | 32bit/src/kernel/drivers/block/usb_storage.c:456-474 | Status phase: the status wrapper's memory is cleared first, and SUCCESS is exactly a finished transfer with the signature and status 0 in that memory, which a device about to send a good status gives on a calm bus |
| `UsbCommands.Read10Answered` | 32bit/src/kernel/drivers/block/usb_storage.c:422-434 | A READ (10) that is answered at all is answered with the blocks of the named unit |
| `UsbCommands.CapacityDecodes` | 32bit/src/kernel/drivers/block/usb_storage.c:353-355 | Swapping the two big-endian words recovers last block address and block size |
| `UsbCommands.SuccessCarriesOut` | 32bit/src/kernel/drivers/block/usb_storage.c:436-476 | The three lists a command builds, against a device in step, make a planned conversation, so success means it was carried out; with every status handshake heard the device is in step |
| `UsbCommands.WiredIsPlanned` | 32bit/src/kernel/drivers/block/usb_storage.c:436-476 | The driver's three lists tile wrapper, buffer and status memory and begin in step with the device |
| `UsbCommands.WholeBlocksAreNoticed` | 32bit/src/kernel/drivers/block/usb_storage.c:423-451 | A READ (10) from a device that does not pad is never short unnoticed if both block sizes, the driver's and the unit's, are multiples of a unit of at least two whole packets |
| `BulkOnly.SuccessIsSound` | 32bit/src/kernel/drivers/block/usb_storage.c:436-476 | Every run of a conversation that returns SUCCESS, under any loss of handshakes, has delivered the device's answer and nothing else, provided the two descriptor error bits the driver never reads are clear where they matter; the answer is complete or short unnoticed; the device is in step again exactly when it heard the last handshake, and one packet behind otherwise |
| `UnreadErrors.SuccessIsSoundExactly` | 32bit/src/kernel/drivers/bus/usb/uhci.c:837-857 | With the error bits unread, an obedient device and a buffer whose tail is not already right, SUCCESS implies delivery in every run exactly when the last data packet is longer than the 13-byte status wrapper, for every packet size |
| `UnreadErrors.StaleTail` | 32bit/src/kernel/drivers/bus/usb/uhci.c:809-822 | The concrete run the driver cannot tell from success: the controller gives up on the last data packet, the status phase still passes, and the tail of the buffer is never written |
| `UnreadErrors.ReportedFailureIsCaughtExactly` | 32bit/src/kernel/drivers/block/usb_storage.c:456-474 | A failure the device reports never returns SUCCESS, in any run, exactly when packets have at least 13 bytes (or the device fills no data phase and the driver notices that) |
| `UnreadErrors.HiddenFailure` | 32bit/src/kernel/drivers/block/usb_storage.c:457-474 | The run in which a reported failure returns SUCCESS: with packets under 13 bytes the controller gives up on the last status packet, and the status byte keeps the zero of the `memset` |
| `BulkOnly.CompletedIsAtRest` | 32bit/src/kernel/drivers/block/usb_storage.c:456-474 | A command whose three transfers complete without an error bit fails exactly when the device reports so, and either way leaves the device in step, or one packet behind if its last handshake was lost |
| `UsbCommands.SettledIsReady` | 32bit/src/kernel/drivers/block/usb_storage.c:143-150 | The same for the lists the driver builds, whatever the result |
| `UsbCommands.BehindMistakes` | 32bit/src/kernel/drivers/block/usb_storage.c:436-476 | A device one packet behind lets no command of the driver finish unless the wrapper was given up on and its error bit overlooked |
| `Aftermath.WrapperPassesExactly` | 32bit/src/kernel/drivers/bus/usb/uhci.c:837-851 | A device that still has something to send is left as it is by any wrapper; in some run the wrapper passes the driver's checks exactly when it has at most one packet more than the device drops as a repeat, and without an error bit exactly when it is a single packet with the wrong toggle |
| `Aftermath.LeftoverSucceedsExactly` | 32bit/src/kernel/drivers/block/usb_storage.c:436-476 | Exactly when the next command can succeed without an error bit while the device still has something to send, in whatever phase: the wrapper is one packet taken for a repeat, every descriptor gets a fitting packet of the leftover, and what reaches the status memory passes; the memory it leaves is stated, and the command itself plays no part |
| `Aftermath.UnreadSucceedsExactly` | 32bit/src/kernel/drivers/block/usb_storage.c:436-476 | With an unread answer, or the end of one, and its status left over: SUCCESS without an error bit exactly when the wrapper is one packet with the wrong toggle, the data toggle is right, the unread answer has as many packets as the one asked for, and its status is good; the buffer then holds the other answer |
| `Aftermath.ForeignData` | 32bit/src/kernel/drivers/fs/fat12.c:271-274 | The reads the file system goes on with after a failure: read A's data comes too late, read B's wrapper is refused, and read C returns SUCCESS with A's data, without any fault of the bus |
| `Aftermath.ForeignDataExactly` | 32bit/src/kernel/drivers/fs/fat12.c:271-274 | C is so answered exactly when wrappers travel in one packet and the data in an even number of packets; A and B always fail |
| `Aftermath.SilentNeverSucceeds` | 32bit/src/kernel/drivers/block/usb_storage.c:436-476 | A device that has halted, or that takes a one-packet wrapper for a repeat while it waits for a command, lets no command succeed, in any run |
| `Aftermath.TrailingSucceedsExactly` | 32bit/src/kernel/drivers/bus/usb/uhci.c:837-857 | After a lost last handshake: exactly when the next command can return SUCCESS, in any run and with the error bits unread, namely if wrapper and data are single packets, both given up on, and the repeated status packet passes for the new status; its data buffer is never written |
| `Aftermath.EverySuccessIsRight` | 32bit/src/kernel/drivers/block/usb_storage.c:436-476 | Over any number of commands to a device that was ready for the first, as long as all transfers complete and no error bit that matters is set, every command begins in step, every SUCCESS has delivered that command's own answer, and every FAILURE is one the device reports |
| `ShortAnswers.SuccessMeansAllExactly` | 32bit/src/kernel/drivers/block/usb_storage.c:456-474 | For every device, SUCCESS without error bits means that all that was asked for is in the buffer, in every run, exactly when the answer is not short unnoticed: padded, or ended by a short packet in the last descriptor |
| `ShortAnswers.ShortAnswerAccepted` | 32bit/src/kernel/drivers/block/usb_storage.c:389-415 | The fault-free run in which a short answer returns SUCCESS and the rest of the buffer is not the answer, as neither the residue nor the packet lengths are read |
| `ShortAnswers.WholeUnitsAreNoticed` | 32bit/src/kernel/drivers/bus/usb/uhci.c:773-774 | An answer short by whole units of at least two packets is noticed, if the device does not pad |
| `EndingRuns.EarlySuccessIsSoundExactly` | 32bit/src/kernel/drivers/bus/usb/uhci.c:837-857 | Short answers with the error bits unread, for packets of more than 13 bytes: SUCCESS means that the answer and nothing else has arrived, in every run, exactly when the short packet does not end the list with 1 to 13 bytes, nor the answer end two descriptors early, or the device stalls after it |
| `EndingRuns.LosesLastPiece` | 32bit/src/kernel/drivers/bus/usb/uhci.c:837-857 | The run in which the end of a short answer is lost: given up on by the controller, and thrown away by the status transfer |
| `EndingRuns.TakesStatusTwice` | 32bit/src/kernel/drivers/bus/usb/uhci.c:837-857 | The run in which the data transfer takes the status wrapper into the buffer, and the status transfer takes it again |
| `BulkOnly.ClearRunsSucceed` | 32bit/src/kernel/drivers/block/usb_storage.c:436-476 | Without faults and with enough controller visits, a full-length data phase succeeds exactly when the device passes the command, and no error bit is set |
| `CalmRuns.CalmReading` | 32bit/src/kernel/drivers/bus/usb/uhci.c:837-857 | On a calm bus an IN transfer from a device with just the right number of bytes is seen to finish before the timeout |
| `CalmRuns.TimeoutExactly` | 32bit/src/kernel/drivers/bus/usb/uhci.c:809 | With one visit a poll an IN transfer is seen to finish exactly if it has fewer packets than the driver's thousand polls |
| `CalmRuns.CalmWriting` | 32bit/src/kernel/drivers/bus/usb/uhci.c:837-857 | On a calm bus an OUT transfer of a wrapper to an idle device is seen to finish before the timeout |
| `BulkOnly.SuccessNeedsAction` | 32bit/src/kernel/drivers/block/usb_storage.c:436-474 | Success needs the whole wrapper delivered and acted on: a halted or refused command never ends in SUCCESS |
| `BulkOnly.DataCompletes` | 32bit/src/kernel/drivers/block/usb_storage.c:447-454 | In a conversation that succeeds every data descriptor has taken a packet, the first one not an empty one |
| `BulkOnly.StatusCompletes` | 32bit/src/kernel/drivers/block/usb_storage.c:456-474 | A status phase that passes the driver's checks has filled every status descriptor from the device's stream, and the device knows so exactly when the last handshake was heard |
| `BulkOnly.Read10Decodes` | 32bit/src/kernel/drivers/block/usb_storage.c:422-434 | The 31-byte wrapper, stored byte-swapped, decodes at the device to the unit, address and count put in |
| `BulkOnly.SmallCommandsDecode` | 32bit/src/kernel/drivers/block/usb_storage.c:242-254 | INQUIRY, READ CAPACITY and REQUEST SENSE wrappers reach the device as those commands with those lengths |
| `BulkOnly.CbwFields` | 32bit/src/kernel/drivers/block/usb_storage.c:422-429 | Signature, length, flags, unit and command of the wrapper, read back at their offsets |
| `UhciDriver.UhciController.ExecuteBulk` | 32bit/src/kernel/drivers/bus/usb/uhci.c:750-835 | Any bulk transaction is: publish the tiled list, run whatever the schedule brings, unpublish; it succeeds exactly when a poll before the timeout saw the last descriptor inactive and the first one reports data; the endpoint toggle has flipped once per packet whatever happened |
| `UhciDriver.UhciController.WaitForTransfer` | 32bit/src/kernel/drivers/bus/usb/uhci.c:837-857 | Polling succeeds exactly when some poll before the timeout finds the descriptor inactive, and with either result the queue head is terminated and further running of the controller has changed nothing; what happened on the bus is the polls up to then and the pause |
| `UhciDriver.UhciController.BuildBulkList` | 32bit/src/kernel/drivers/bus/usb/uhci.c:779-803 | The packet loop installs exactly the specified descriptors and flips the toggle once per packet |
| `UhciDriver.UhciController.SumLengths` | 32bit/src/kernel/drivers/bus/usb/uhci.c:826-829 | `actual_length` is the sum over the descriptors of their length fields plus one |
| `UhciDriver.FullTransferReportsLength` | 32bit/src/kernel/drivers/bus/usb/uhci.c:826-829 | When every packet arrives in full, `actual_length` equals the length asked for |
| `UhciDriver.InactiveStays` | 32bit/src/kernel/drivers/bus/usb/uhci.c:837-845 | A descriptor seen inactive is never touched again by the controller |
| `Uhci.PacketsTile` | 32bit/src/kernel/drivers/bus/usb/uhci.c:773-800 | Packets are disjoint, in order, non-empty, no larger than the packet size, and cover exactly `[0, length)` |
| `Uhci.BulkFields` | 32bit/src/kernel/drivers/bus/usb/uhci.c:779-800 | What every bulk descriptor carries: three attempts, depth first, pid, address, endpoint and speed, the start and length of its own part of the buffer, the paragraph of the next one, and the terminate bit in the last alone |
| `Uhci.TerminatedIsStill` | 32bit/src/kernel/drivers/bus/usb/uhci.c:848-855 | With the queue head terminated the controller changes nothing, however long it runs |
| `TransferRuns.RetiredIsPrefix` | 32bit/src/kernel/drivers/bus/usb/uhci.c:807-814 | In every interleaving the retired descriptors are a prefix of the list, nothing behind a failed descriptor is touched, and no memory outside the published buffers changes |
| `BulkRuns.OnlyBufferChanges` | 32bit/src/kernel/drivers/bus/usb/uhci.c:807-857 | Whatever the device, schedule and faults, a transaction writes only to its own buffer, and once it is unpublished, with either result, nothing changes any more |
| `TransferRuns.LastInactive` | 32bit/src/kernel/drivers/bus/usb/uhci.c:840 | Seeing the last descriptor inactive means all were carried out, or the controller gave up on the last one; its error bit tells which |
| `TransferRuns.LinkSurvives` | 32bit/src/kernel/drivers/bus/usb/uhci.c:776-790 | A 16-aligned descriptor address survives being shifted into the 28-bit link field and back |
| `TransferRuns.LinksVisitEachOnce` | 32bit/src/kernel/drivers/bus/usb/uhci.c:776-807 | Following links from the queue head visits descriptors 0 to n-1 once each, in order, and stops at the terminate bit |
| `BulkRuns.BulkIsTiled` | 32bit/src/kernel/drivers/bus/usb/uhci.c:773-803 | The descriptors of a bulk transaction are well linked and tile exactly the buffer, full packets first, toggles alternating |
| `BulkRuns.TogglesFollow` | 32bit/src/kernel/drivers/bus/usb/uhci.c:798-802 | A transfer begun in step flips the device's toggle once per packet, whatever the device, schedule and faults; the device's count differs from the driver's by at most one, and not at all once the last handshake is heard |
| `PacketStreams.DeliveredExactlyOnce` | 32bit/src/kernel/drivers/bus/usb/uhci.c:779-814 | Every run of an IN transfer, from any point of the device's packet stream and with any number of lost handshakes, stores exactly the packets of the retired descriptors, once each and in order; the device is at most one packet behind, and in step after a completed transfer exactly when it heard the last handshake |
| `BulkRuns.WriteRun` | 32bit/src/kernel/drivers/bus/usb/uhci.c:779-814 | Every run of an OUT transfer of a wrapper, with any number of lost handshakes, brings the device each packet exactly once, and makes it act on the wrapper, once, when it is complete |
| `PacketStreams.RefusedRun` | 32bit/src/kernel/drivers/bus/usb/uhci.c:779-814 | An IN transfer whose first packet cannot go through changes neither device nor memory |
| `ToggleSessions.TogglesAlternate` | 32bit/src/kernel/drivers/bus/usb/uhci.c:781-803 | The toggles of all descriptors ever built for an endpoint strictly alternate, across transaction boundaries |
| `ToggleSessions.CompleteRunsStayInStep` | 32bit/src/kernel/drivers/bus/usb/uhci.c:781-803 | Over any run in which every transfer completes and its last handshake is heard, host and device toggles agree at every boundary |
| `ToggleSessions.DisagreeWhenOdd` | 32bit/src/kernel/drivers/bus/usb/uhci.c:837-851 | After a transfer of n descriptors of which the device counts d packets, host and device disagree exactly when n - d is odd, and the other endpoint is unaffected; with every handshake heard d is the number of descriptors carried out |
| `ToggleSessions.CompleteTurnStaysInStep` | 32bit/src/kernel/drivers/bus/usb/uhci.c:781-803 | After a completed transfer host and device agree exactly when the device knows of its end |
| `PacketStreams.CompletedTransferIsExact` | 32bit/src/kernel/drivers/bus/usb/uhci.c:781-829 | An IN transfer the controller finishes has put exactly the device's data into the buffer; driver and device are then in step exactly when the last handshake was heard |
| `PacketStreams.NextTransferRecoversExactly` | 32bit/src/kernel/drivers/bus/usb/uhci.c:781-803 | A device one packet behind is put back in step by the next transfer exactly when the packet it repeats fits the first descriptor; otherwise that transfer fails |
| `PacketStreams.SendingAlong` | 32bit/src/kernel/drivers/bus/usb/uhci.c:779-803 | From a device with exactly the bytes asked for, descriptor i takes the part of the data its buffer is for |
| `PacketStreams.EndingAlong` | 32bit/src/kernel/drivers/bus/usb/uhci.c:779-803 | From a device with fewer bytes that ends with a short packet, all packets fit their descriptors and the rest of the buffer is not written |
| `UhciDriver.UhciController.BuildControl` | 32bit/src/kernel/drivers/bus/usb/uhci.c:669-726 | `uhci_execute_transaction` installs exactly the SETUP, data and status descriptors |
| `UhciDriver.UhciController.BuildDescriptorFetch` | 32bit/src/kernel/drivers/bus/usb/uhci.c:449-500 | The second phase of the device-descriptor fetch installs the same list, with a status packet that is always OUT |
| `UhciDriver.UhciController.ExecuteControl` | 32bit/src/kernel/drivers/bus/usb/uhci.c:669-748 | Any control transfer is: publish the list the request asks for, run whatever the schedule brings, unpublish; it succeeds exactly when a poll before the timeout saw the status descriptor inactive; the length reported is the sum over the data descriptors |
| `UhciControl.ControlStages` | 32bit/src/kernel/drivers/bus/usb/uhci.c:669-726 | SETUP with toggle 0 and 8 bytes, just enough data packets with toggles 1, 0, 1, ..., then a zero-length toggle-1 status packet that is OUT exactly when there was data |
| `UhciControl.ControlIsLinked` | 32bit/src/kernel/drivers/bus/usb/uhci.c:682-726 | The list is well linked and ends at its terminate bit, so `RetiredIsPrefix` applies to it |
| `UhciControl.ControlPlaces` | 32bit/src/kernel/drivers/bus/usb/uhci.c:682-710 | The request goes out of its own memory, data packet i begins at `buffer + 8 * (i - 1)`, the first at `buffer` itself, and every descriptor is for endpoint 0 of the device |
| `ControlRuns.StrideKeepsExactly` | 32bit/src/kernel/drivers/bus/usb/uhci.c:709-710 | The fixed stride of 8 leaves every answer in the buffer in one piece, from its first byte on and whatever memory held, exactly when packets have 8 bytes or there is at most one |
| `ControlRuns.AnswerArrives` | 32bit/src/kernel/drivers/bus/usb/uhci.c:698-747 | A request for data that returns SUCCESS has put the device's whole answer into memory, packet by packet at that stride; in packets of 8 bytes, or in one, it is in the buffer as it is and nothing else has changed |
| `ControlRuns.CallRun` | 32bit/src/kernel/drivers/bus/usb/uhci.c:679-737 | Every run of a control transfer against a device with a control pipe, with any faults and lost handshakes, brings the device its request and stores the packets of the answer in order, each once |
| `ControlRuns.ControlSuccessIsSound` | 32bit/src/kernel/drivers/bus/usb/uhci.c:732-737 | Although error bits go unread here too, a status descriptor seen inactive means that every data packet was stored, because it comes last |
| `ControlRuns.RefusalIsNoticedExactly` | 32bit/src/kernel/drivers/bus/usb/uhci.c:732-737 | A request the device refuses fails in every run exactly when it asks for data: one without, such as SET CONFIGURATION, returns SUCCESS though its status packet was stalled |
| `ControlRuns.RefusalUnnoticed` | 32bit/src/kernel/drivers/block/usb_storage.c:182-204 | That run |
| `ControlRuns.WillingExactly` | 32bit/src/kernel/drivers/bus/usb/uhci.c:671-674 | The device has a packet for every data descriptor exactly when its answer is as long as asked for, or ends with a short packet in the last one |
| `ControlRuns.ClearCallSucceeds` | 32bit/src/kernel/drivers/bus/usb/uhci.c:730-737 | Then, without faults, the transfer succeeds as soon as every descriptor has been visited |
| `UhciDriver.ControlReportsExactly` | 32bit/src/kernel/drivers/bus/usb/uhci.c:741-745 | A control transfer that returns SUCCESS reports the length of the answer, and 0x800 more if that ends with an empty packet |
| `CalmRuns.ControlTimeoutExactly` | 32bit/src/kernel/drivers/bus/usb/uhci.c:732 | With one visit a poll it succeeds exactly if it has fewer than 500 packets |
| `CalmRuns.CalmControl` | 32bit/src/kernel/drivers/bus/usb/uhci.c:730-737 | On a calm bus that is before the timeout |
| `UsbRequests.GetMaxLun` | 32bit/src/kernel/drivers/block/usb_storage.c:209-236 | GET MAX LUN: the request is the class request of the interface, and the result is the byte the device answers with, or what memory held if the answer is empty; on a calm bus a device that knows the request is heard |
| `Memory.BlocksAreDisjointAndAligned` | 32bit/src/kernel/core/memory.c:7-23 | Over any run of requests without address overflow all blocks are pairwise disjoint, in order, and aligned as asked |
| `Memory.MemalignAlignsExactly` | 32bit/src/kernel/core/memory.c:13-23 | Blocks come out aligned, wherever the watermark is, exactly when the alignment is a power of two |
| `Memory.Heap.Malloc` | 32bit/src/kernel/core/memory.c:7-11 | Returns the watermark and advances it, modulo 2^32 |
| `Memory.Heap.Memalign` | 32bit/src/kernel/core/memory.c:13-23 | Returns the specified block inside the span it claims, aligned and less than one alignment above the watermark when the alignment is a power of two |
| `Memory.Memcpy` | 32bit/src/kernel/core/memory.c:36-53 | The dword-then-byte loops compute the specified copy |
| `Memory.MemcpyBytewise` | 32bit/src/userland/lib/system.c:94-98 | The userland loop computes the bytewise copy |
| `Memory.MemcpyAgreesExactly` | 32bit/src/kernel/core/memory.c:36-53 | The two copies agree on every memory exactly when the destination is not one to three bytes above the source, or fewer than four bytes are copied |
| `Memory.MemcpyMovesExactly` | 32bit/src/kernel/core/memory.c:36-53 | The kernel's copy is a true move, for every memory, exactly when the regions do not overlap upwards or exactly four bytes are copied; in particular whenever the destination is not above the source |
| `FatTable.DecodersAgree` | 16bit/src/kernel/components/filesystem.c:89-107 | The byte-pair decoder of both kernels, the boot loader's load-word decoder and the format's definition agree on every table and cluster |
| `FatTable.BytesDecode` | 32bit/src/kernel/drivers/fs/fat12.c:311-328 | Masks, shifts and ors of the byte pair give the 12-bit entry |
| `FatTable.WordDecodes` | 32bit/src/boot/floppy/load_kernel.asm:43-70 | Loading the word at 3n/2 and shifting or masking gives the 12-bit entry |
| `FatTable.DecodePacked` | 32bit/src/kernel/drivers/fs/fat12.c:311-328 | Decoding entry i of the packed form of any sequence of 12-bit entries returns entry i |
| `FatTable.PackDecoded` | 32bit/src/kernel/drivers/fs/fat12.c:311-328 | Decoding all entries of a table of whole triples and packing them again returns the table |
| `FatVolume.RootEndsAtData` | 32bit/src/kernel/drivers/fs/fat12.c:123-135 | On FAT12 and FAT16 no layout arithmetic wraps and the scanned root region ends exactly at `first_data_sector` |
| `FatVolume.DataRegionFoundExactly` | 32bit/src/kernel/drivers/fs/fat12.c:335-339 | `first_data_sector` is where the specification puts the data region exactly when the root entries fill whole sectors |
| `FatVolume.ClustersAreDisjoint` | 32bit/src/kernel/drivers/fs/fat12.c:271 | Distinct clusters occupy disjoint sector ranges that never meet the reserved, table or root regions |
| `FatVolume.NextIsEntry` | 32bit/src/kernel/drivers/fs/fat12.c:299-328 | On FAT12, FAT16 and FAT32 the entry read for a cluster is the one the table was packed from |
| `FatVolume.EndMarksAreHighest` | 32bit/src/kernel/drivers/fs/fat12.c:341-350 | End marks are the eight highest values of 12, 16 or 28 bits |
| `FatVolume.StopsBeforeData` | 32bit/src/kernel/drivers/fs/fat12.c:275-280 | Apart from end marks the reader stops exactly at values whose sectors would begin before the data region |
| `FatVolume.ChainIsUnique` | 32bit/src/kernel/drivers/fs/fat12.c:268-284 | The table and the first cluster determine the chain |
| `FatVolume.ChainNeverRepeats` | 32bit/src/kernel/drivers/fs/fat12.c:268-284 | A chain at which the reader stops never visits a cluster twice |
| `FatVolume.ChainFitsTable` | 32bit/src/kernel/drivers/fs/fat12.c:268-284 | Such a chain is no longer than the table has entries |
| `FatVolume.StopsWithinTable` | 32bit/src/kernel/drivers/fs/fat12.c:268-284 | The reader stops at all exactly when it stops within as many clusters as the table has entries |
| `FatReader.ReadSectorsLba` | 32bit/src/kernel/drivers/fs/fs.c:90-103 | Sector by sector on a floppy or in one call on a disk: the same outcome; the buffer gets exactly the sectors before the first unreadable one on a floppy, and all or none on a disk |
| `FatReader.ReadChain` | 32bit/src/kernel/drivers/fs/fat12.c:261-288 | The cluster loop along its chain: success exactly when the chain ends properly, `clusters_read` is its length, and the buffer is exactly what the reads that worked have stored |
| `FatReader.ReadFile` | 32bit/src/kernel/drivers/fs/fat12.c:261-288 | `fat12_read_file` on any table at which it stops: success depends only on how the chain ends, because its read-failure test never fires; the buffer is exactly what the reads that worked have stored |
| `FatReader.OneSectorClustersConcatenate` | 32bit/src/kernel/drivers/fs/fat12.c:271 | With one sector per cluster the buffer is the concatenation of the chain's clusters and nothing past it changes |
| `FatReader.FileIsWholeExactly` | 32bit/src/kernel/drivers/fs/fat12.c:261-288 | Every buffer of the file's size ends up holding the file exactly when all clusters can be read, and clusters are one sector or there is only one |
| `FatReader.LoaderSectors` | 16bit/src/kernel/components/filesystem.c:51 | `cluster + 31` and `cluster + 33` are the driver's sector numbers on disks with one and with three reserved sectors |
| `FatReader.UnreadableStaysStale` | 32bit/src/kernel/drivers/fs/fat12.c:271-274 | A one-sector cluster that cannot be read leaves its bytes of the buffer as they were |
| `FatReader.LoaderFinishesExactly` | 16bit/src/kernel/components/filesystem.c:53-62 | Of the chains with an end mark on a floppy, the 16-bit loader loads exactly those that are readable and end in 0xFFF: at a lesser mark it reads a sector the disk does not have, and fails |
| `FatReader.LoaderStops` | 16bit/src/kernel/components/filesystem.c:53-62 | On every such chain the loader does stop |
| `FatReader.LesserMarkIsRefused` | 16bit/src/kernel/components/filesystem.c:56-59 | A readable file whose chain ends in 0xFF8, which the driver reads and the loader refuses |
| `FatReader.GetFatEntry` | 16bit/src/kernel/components/filesystem.c:89-107 | The 16-bit decoder returns the volume's next cluster |
| `FatReader.LoadFile16` | 16bit/src/kernel/components/filesystem.c:40-65 | `loadFile` from the first cluster on, along whatever entries it visits until it stops: 0 exactly when the last sector it asked for could be read, and then the same bytes as the driver's for those entries |
| `FatReader.BootNextCluster` | 32bit/src/boot/floppy/load_kernel.asm:43-73 | Multiply, divide, load, shift or mask: the volume's next cluster |
| `FatReader.BootReadCluster` | 32bit/src/boot/floppy/load_kernel.asm:19-37 | Sector number and segment in 16-bit registers address the right sector and the i-th place |
| `FatReader.BootTurn` | 32bit/src/boot/floppy/load_kernel.asm:19-76 | One turn of the loop either fails on an unreadable cluster, or reads it and moves on along the chain, or has finished the file |
| `FatReader.BootLoad` | 32bit/src/boot/floppy/load_kernel.asm:10-83 | The boot loader's jump loop loads the chain, one sector after the other, exactly when all of it is readable |
| `FatReader.LoadersAgree` | 16bit/src/kernel/components/filesystem.c:40-65 | Driver, 16-bit kernel and boot loader leave the same bytes, namely the concatenation of the clusters, each at its own place |
| `FatDirectory.NameCopiedExactly` | 32bit/src/kernel/drivers/fs/fat12.c:221-240 | The unbounded name copy gives the 8.3 name exactly when pad bytes bound both fields: one in the first 9 bytes and, for a file, one in bytes 8 to 11 |
| `FatDirectory.CopyFileName` | 32bit/src/kernel/drivers/fs/fat12.c:221-240 | The copy loops store the specified name and its NUL |
| `FatDirectory.ParseDirEntries` | 32bit/src/kernel/drivers/fs/fat12.c:205-258 | Parses the entries before the first empty one into the head of the list and leaves the rest of the list alone |
| `FatDirectory.ParsesWhatIsOnDisk` | 32bit/src/kernel/drivers/fs/fat12.c:242-253 | Parsing the 32 bytes of any entry returns the fields they were laid out from: first cluster, with its high half on FAT32 alone, size, five flags, and the 8.3 name where the copy is bounded |
| `FatDirectory.LiveUpToFirstEmpty` | 32bit/src/kernel/drivers/fs/fat12.c:215-219 | The count over all sectors is the index of the first empty entry of the directory |
| `FatDirectory.ScanRoot` | 32bit/src/kernel/drivers/fs/fat12.c:174-187 | The sector loop meets the outcome specified for its region |
| `FatDirectory.ListRoot` | 32bit/src/kernel/drivers/fs/fat12.c:168-188 | On FAT12 and FAT16: fails exactly when a sector up to the first empty entry is unreadable; the total is the number of live entries; the list is what parsing every sector to its beginning leaves. On FAT32: the root directory is listed as a file of one cluster |
| `FatDirectory.ListDir` | 32bit/src/kernel/drivers/fs/fat12.c:190-199 | A directory read as a file of one cluster: fails exactly when its chain does not end properly, and otherwise lists the entries before the first empty one of whatever the read has left in the buffer |
| `FatDirectory.ReadableDirectory` | 32bit/src/kernel/drivers/fs/fat12.c:194-196 | If the cluster can be read, that is the cluster |
| `FatDirectory.RootListedExactly` | 32bit/src/kernel/drivers/fs/fat12.c:176-185 | The listing is right, whatever the list held before, exactly when the directory has at most 16 live entries |
| `Screen.SafeExactly` | 32bit/src/kernel/core/screen_console.c:78-127 | The cursor stays inside the buffer for every character stream exactly on screens of at most 127 rows |
| `Screen.StaysInRange` | 32bit/src/kernel/core/screen_console.c:78-104 | On at most 127 rows every character keeps the cursor in `[0, rows*cols)` |
| `Terminal.WriteRefines` | 32bit/src/kernel/core/screen_console.c:78-104 | One character on the console is one character on a terminal that never scrolls |
| `Terminal.GrowIsScroll` | 32bit/src/kernel/core/screen_console.c:61-76 | Scrolling the buffer is adding a row to the terminal |
| `Terminal.ConsoleRefinesTerminal` | 32bit/src/kernel/core/screen_console.c:61-127 | For every stream the cell buffer and cursor are the last `rows` rows of that terminal |
| `Terminal.ScrollbackIsKept` | 32bit/src/kernel/core/screen_console.c:61-104 | What has scrolled off never changes |
| `Terminal.OrdinaryTextIsAppended` | 32bit/src/kernel/core/screen_console.c:97-103 | Ordinary text lands cell by cell from the cursor on, through any wrapping and scrolling, and nothing before it changes |
| `CursorBlink.BlinksDoNotInterfere` | 32bit/src/kernel/core/screen_console.c:147-155 | Any number of cursor updates anywhere between characters change at most the cell under the cursor and never its position |
| `CursorBlink.InterruptHarmlessExactly` | 32bit/src/kernel/core/screen_console.c:71-104 | A cursor update inside `console_write_char` is harmless exactly outside two windows: after the put and before the cursor moves (with another glyph that stays visible), and after the test for a full buffer until the scroll is done |
| `CursorBlink.ProgramWrites` | 32bit/src/kernel/core/screen_console.c:71-104 | The assignments, run without an interrupt, are `console_write_char` |
| `CursorBlink.FullHarmlessExactly` | 32bit/src/kernel/core/screen_console.c:71-103 | The same exact statement for any put-move-check write |
| `ColourEscapes.MessagesRoundTripExactly` | 32bit/src/kernel/core/screen_console.c:129-146 | A NUL-terminated message of text and colour escapes is read as what it was written from exactly when every escape is followed by a character, since the byte after an escape is shown unread |
| `ColourEscapes.DigitsAreAnsi` | 32bit/src/kernel/core/screen_console.c:27-36 | The colours follow the ANSI numbering by red, green and blue |
| `Terminal.FreshTerminal` | 32bit/src/kernel/core/screen_console.c:44-59 | A fresh console is the view of a fresh terminal |
| `ScreenConsole.Console.constructor` | 32bit/src/kernel/core/screen_console.c:44-59 | `console_init` gives the specified initial screen |
| `ScreenConsole.Console.Scroll` | 32bit/src/kernel/core/screen_console.c:61-69 | The buffer moves up one row and the last row is cleared |
| `ScreenConsole.Console.CheckScroll` | 32bit/src/kernel/core/screen_console.c:71-76 | Scrolls and moves the cursor up exactly when it is one past the buffer |
| `ScreenConsole.Console.PutCharFixed` | 32bit/src/kernel/core/screen_console.c:115-123 | Writes one cell inside the buffer; past it, resets the cursor and dies |
| `ScreenConsole.Console.WriteChar` | 32bit/src/kernel/core/screen_console.c:78-104 | In place, exactly the specified step; from a cursor inside the buffer the "Invalid cursor position" stop is never reached |
| `ScreenConsole.Console.UpdateCursor` | 32bit/src/kernel/core/screen_console.c:147-155 | In place, exactly the specified cursor update, without dying |
| `ScreenConsole.Console.Write` | 32bit/src/kernel/core/screen_console.c:129-146 | Carries out exactly the colour changes and characters its bytes parse to |
| `ScreenConsole.ScrollIsMemcpy` | 32bit/src/kernel/core/screen_console.c:63-64 | On the bytes of the cells, the kernel's dword `memcpy` downwards and `memset` are the roll of the cells |
| `LineEditor.SeenIsTypedExactly` | 32bit/src/kernel/core/console.c:33-55 | The cells before the cursor show the line after every key and blink exactly when start column plus the longest the line gets stays below rows*cols |
| `LineEditor.GetString` | 32bit/src/kernel/core/console.c:33-55 | The buffer receives the fold of "push printable if there is room, pop on backspace" and a NUL, nothing past the limit is written, and the screen is the echo's |
| `LineEditor.TakeInput` | 32bit/src/kernel/core/console.c:36-52 | One turn of the loop, on buffer and screen |
| `LineEditor.TakesGraphicCharacters` | 32bit/src/kernel/core/console.c:45 | The keys taken are the letters, digits, signs and the space of ASCII |
| `LineEditor.LineFits` | 32bit/src/kernel/core/console.c:45 | The line always stays below `limit` and printable |
| `LineEditor.BackspaceUndoes` | 32bit/src/kernel/core/console.c:37-48 | A backspace undoes an accepted key |
| `Numbers.DigitsDenote` | 32bit/src/kernel/core/stream.c:66-70 | The digits evaluate back to the value, in every base |
| `Numbers.NoLeadingZero` | 32bit/src/kernel/core/stream.c:66-70 | No leading zero for a value above zero |
| `Numbers.DigitsAreUnique` | 32bit/src/kernel/core/stream.c:66-70 | Digits without a leading zero are the only ones for their value |
| `Numbers.DigitCountExactly` | 32bit/src/kernel/core/stream.c:66-70 | At most k digits exactly below base^k |
| `Numbers.FitsScratch` | 32bit/src/kernel/core/stream.c:55 | A 32-bit value never needs more than the 32 scratch digits |
| `Numbers.TextReadsBack` | 32bit/src/kernel/core/stream.c:53-70 | In every base from 2 to 16 the text printed for a 32-bit number, read with the values of 0 to 9 and A to F, is that number |
| `Format.PaddedReadsBack` | 32bit/src/kernel/core/stream.c:202-216 | So is the zero-padded one |
| `Numbers.FillScratch` | 32bit/src/kernel/core/stream.c:66-70 | The scratch buffer, reversed, is the digits |
| `Numbers.IntToString` | 32bit/src/kernel/core/stream.c:54-76 | Writes exactly the canonical text and its NUL; an unsupported base prints 0 |
| `Numbers.UserIntToString` | 32bit/src/userland/lib/system.c:13-31 | The userland loop writes its text and a NUL within its 16-byte buffer |
| `Numbers.UserTextReadsBackExactly` | 32bit/src/userland/lib/system.c:13-31 | The userland text, read as a decimal, is the number exactly if that is not negative; below zero it is one character from before the digits |
| `Numbers.PrintersAgreeExactly` | 32bit/src/userland/lib/system.c:13-31 | The userland and the kernel decimal printers agree exactly on numbers that are not negative |
| `Numbers.StringToInt` | 32bit/src/kernel/core/stream.c:78-89 | Every string evaluates to its positional value, wrapped to a signed 32-bit number |
| `Format.PaddedNumberParses` | 32bit/src/kernel/core/stream.c:202-216 | A zero-padded decimal parses back to its number, below 2^31 exactly and above as two's complement |
| `Format.NumbersReadBack` | 32bit/src/kernel/core/stream.c:202-216 | `%x` prints the hexadecimal digits of a number, and `%d` its decimal ones |
| `Format.FieldIsRead` | 32bit/src/kernel/core/stream.c:167-176 | A width or precision is the number its digits stand for, cut to a byte |
| `Format.PrintNumber` | 32bit/src/kernel/core/stream.c:202-216 | Appends the zero-padded number; the field is as long as the larger of width and digits |
| `Format.FormatsPrintWhatTheySayExactly` | 32bit/src/kernel/core/stream.c:159-224 | A format of literals, percent signs, numbers and strings prints exactly those, in order, whatever the buffer held, exactly when no string is shorter than the precision in force, nor longer than one left by an earlier string: the precision is never reset, and the buffer moves on by all of it |
| `Format.FormatsPrintPieces` | 32bit/src/kernel/core/stream.c:159-224 | What is printed in any case, given room for it: the pieces in order, with a NUL and stale bytes where a string is shorter than the precision |
| `Format.PrintString` | 32bit/src/kernel/core/stream.c:197-201 | `strncpy` up to the precision, and the step past it: the specified bytes, and nothing behind them |
| `Format.Vsprintf` | 32bit/src/kernel/core/stream.c:159-224 | The loop writes exactly the specified output and its NUL, for numbers, strings and percent signs, widths and precisions |
| `Format.CollectDigits` | 32bit/src/kernel/core/stream.c:167-174 | The digits of a width or precision, within their 8-byte buffer |
| `DiskAddress.FormsAgree` | 32bit/src/kernel/drivers/block/floppy.c:60-65 | `lba_2_chs`, `readSectorsLBA` and `l2hts` are the same mapping for every sectors-per-track |
| `DiskAddress.ChsIsBijective` | 32bit/src/kernel/drivers/block/floppy.c:60-65 | The triple recomposes to its address with head and sector in range, and no other triple does |
| `DiskAddress.CutCylinderExactly` | 16bit/src/kernel/bios/disk.c:12-14 | A cylinder cut to fewer values still addresses the sector exactly when it was below that many |
| `DiskAddress.FloppyIsAddressed` | 16bit/src/kernel/bios/disk.c:12-14 | All 2880 sectors of a 1.44 MB floppy are addressed through byte-wide values |
| `DiskAddress.L2hts` | 32bit/src/boot/floppy_read.asm:10-27 | The divide-twice routine, register by register |
| `DiskAddress.BiosAddress` | 16bit/src/kernel/bios/disk.c:9-17 | The three `char`s handed to the BIOS |
| `DiskAddress.Lba2Chs` | 32bit/src/kernel/drivers/block/floppy.c:60-65 | The three 16-bit results |
| `Ata.ProgramRead` | 32bit/src/kernel/drivers/block/ata.c:281-356 | Whatever the drive's registers held, after the writes it reads the absolute sector asked for exactly when the mode can reach it (CHS below 65536 cylinders, LBA28 below 2^28, LBA48 always), with the count cut to a byte and the right unit selected |
| `Ata.AddressBytes` | 32bit/src/kernel/drivers/block/ata.c:293-325 | The six address bytes and the head in each mode |
| `Ata.ProgramAccepted` | 32bit/src/kernel/drivers/block/ata.c:330-348 | Two-deep registers: the high halves written first end up in the previous slots |
| `Ata.SelectBits` | 32bit/src/kernel/drivers/block/ata.c:331-335 | The or of mode bits, drive bit and head is their sum |
| `BlockDevices.NamesAreDistinct` | 32bit/src/kernel/drivers/block/blockdev.c:15-25 | Over any run of at most 16 registrations all device names differ |
| `BlockDevices.SuffixIsDigitExactly` | 32bit/src/kernel/drivers/block/blockdev.c:15-25 | A device name ends in its index as a digit exactly for the first ten of a type |
| `BlockDevices.CountedExactly` | 32bit/src/kernel/drivers/block/blockdev.c:59-72 | A name counts for a type exactly if its own type begins with it, or it is that type itself |
| `BlockDevices.SuffixesIncrease` | 32bit/src/kernel/drivers/block/blockdev.c:59-72 | Per type, suffixes strictly increase |
| `BlockDevices.NumberedConsecutivelyExactly` | 32bit/src/kernel/drivers/block/blockdev.c:59-72 | A device is numbered by the earlier devices of its type exactly when no other device's name begins with the type |
| `BlockDevices.DeviceTable.NextIndexFor` | 32bit/src/kernel/drivers/block/blockdev.c:63-72 | The counting loop counts the names that begin with the type |
| `BlockDevices.DeviceTable.Register` | 32bit/src/kernel/drivers/block/blockdev.c:15-25 | Appends the device under its specified name and keeps the others; its own index test never fires while there is room |
| `BlockDevices.DeviceTable.Find` | 32bit/src/kernel/drivers/fs/fs.c:118-123 | The search finds the device of a name, and it is the only one |
| `Vfs.MountsAreDistinct` | 32bit/src/kernel/drivers/fs/fs.c:19-40 | Mount points never share a name |
| `Vfs.MountTable.NextIndexFor` | 32bit/src/kernel/drivers/fs/fs.c:31-40 | The loop compares the type with the new slot every time, so it counts all mounts or none |
| `Vfs.MountTable.Mount` | 32bit/src/kernel/drivers/fs/fs.c:19-29 | The index a mount gets is the number of mounts so far |
| `Vfs.ResolvesExactly` | 32bit/src/kernel/drivers/fs/fs.c:42-70 | A path leads to a mount with a rest exactly when it is `/`, the mount's name, `/` and the rest |
| `Vfs.NormalisedIsAbsolute` | 32bit/src/kernel/drivers/fs/fs.c:72-88 | From an absolute directory every path becomes absolute, and normalising again changes nothing |
| `Vfs.RelativePathsResolve` | 32bit/src/kernel/drivers/fs/fs.c:72-88 | From `/mount` a relative path leads to that mount |
| `Vfs.NoRelativePathFromRoot` | 32bit/src/kernel/drivers/fs/fs.c:72-88 | From `/` no relative path leads anywhere: the slash is doubled |
| `Vfs.ChooseHandle` | 32bit/src/kernel/drivers/fs/fs.c:105-107 | A handle is used exactly when slot 0 is taken and some slot is free; a full table is indexed before its start, because the caller tests for 0 |
| `Vfs.NextFileHandle` | 32bit/src/kernel/drivers/fs/fs.c:166-171 | The smallest free handle, or -1 exactly when none is free |

## Left out

- UsbStorage.UsbStorageDevice.Command: controller visits are atomic per descriptor; a device that stalls stays halted, because the driver never clears a halt.
- ShortAnswers.SuccessMeansAllExactly: is about runs that set no error bit on the last data and status descriptors; what those bits can hide is in `UnreadErrors`, for answers of full length and for failures, and in `EndingRuns` for short ones.
- EndingRuns.EarlySuccessIsSoundExactly: packets of at most 13 bytes are left out, as then any part of an answer that looks like a status wrapper can pass for one.
- Aftermath.LeftoverSucceedsExactly: is about runs without error bits; with them, `Aftermath.WrapperPassesExactly` bounds the wrapper. A device left with part of a wrapper that travels in several packets is not covered.
- UsbStorage.UsbStorageDevice.UsbStorageRead: the transfer length and the heap are required to be positive and large enough, because a block size of 0 makes the driver index before its descriptor list.
- UsbStorage.UsbStorageDevice.ScsiReadCapacity10: the caller in `usb_storage_setup_device` keeps one block size for all units of a device; only the command itself is modelled.
- UhciDriver.UhciController.ExecuteControl: a transaction type other than CONTROL, which would omit the SETUP packet, is not modelled; nor are requests that send data to the device, which its data descriptors, always IN, cannot carry.
- FatDirectory.CopyFileName: past 255 bytes the copy's 8-bit indices wrap; here a copy runs on to the end of the memory given, or has no result.
- FatReader.ReadFile: requires a table at which the reader stops; where it does not, the source loops forever or reads outside the table.
- FatReader.LoadFile16: `findFile` and the file-size result are left out; the method begins at the first cluster, takes the BIOS status of a failed read as a parameter, and requires entries at which the loader stops (`Walk16`); buffer offsets past 64 KB, which wrap in 16 bits, are not modelled.
- FatDirectory.ListDir: requires a directory of one cluster, as a longer one runs past the source's stack buffer; deleted entries and volume labels are listed like any other, as in the source.
- CursorBlink.InterruptHarmlessExactly: one interrupt per character, between whole C assignments; the compiler's reordering is not modelled.
- ScreenConsole.Console.Write: colour digits outside 0 to 7 and escapes that run past the string's memory are excluded, as the source reads outside its tables.
- LineEditor.GetString: the single-slot key buffer is not modelled, so keys pressed faster than they are read are not lost here.
- Numbers.IntToString: bases 0 and 1, on which the source divides by zero or does not stop, are excluded.
- Numbers.StringToInt: signed overflow, undefined in C, is taken to wrap.
- Format.Vsprintf: directives whose argument is missing or of the other kind, and outputs longer than the buffer, are excluded.
- BlockDevices.DeviceTable.Register: requires room in the table; the 17th registration writes past it before its test. Name buffers of 64 bytes are unbounded here.
- Vfs.MountTable.Mount: requires room in the table; the mount point's 64-byte buffer is unbounded here.
- Ata.ProgramRead: polling and the data loop, which passes the whole count to every sector's transfer, are not modelled.
- DiskAddress.BiosAddress: the BIOS call itself and the sectors-per-track constant chosen at build time are parameters.
- Pixels, fonts, ports, interrupts, DMA, delays, PCI and CMOS probing, keyboard tables, log text, `dump_mem*`, system calls, `exec`, the shell and the remaining boot stages have no state of interest here.
- USB enumeration, hub ports, device addresses, string and configuration descriptors are straight-line field access.
- String helpers are sequences here; proving `strlen` or `strcpy` would add only easy members.
