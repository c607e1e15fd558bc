/** The mass-storage driver: SCSI commands as Bulk-Only conversations over a UHCI controller. */
module UsbStorage {
  import opened Bytes
  import opened BulkDevice
  import opened Uhci
  import opened BulkRuns
  import opened BulkOnly
  import opened UhciDriver
  import opened CalmRuns
  import opened UsbCommands
  import opened Aftermath

  /** A registered drive: which unit of the device it is, and where its partition starts. */
  datatype DiskDevice = DiskDevice(deviceNum: byte, offset: uint32)

  class UsbStorageDevice {
    const controller: UhciController
    const usbAddress: nat
    const lowSpeed: bool
    const bulkIn: UsbEndpoint
    const bulkOut: UsbEndpoint
    var blockSize: uint32

    constructor (controller: UhciController, usbAddress: nat, lowSpeed: bool, bulkIn: UsbEndpoint, bulkOut: UsbEndpoint)
      requires controller.Valid() && bulkIn != bulkOut && bulkIn.toggle < 2 && bulkOut.toggle < 2
      requires ByteSize(bulkIn.maxPacketSize) != 0 && ByteSize(bulkOut.maxPacketSize) != 0
      ensures Valid() && this.controller == controller && this.bulkIn == bulkIn && this.bulkOut == bulkOut
      ensures this.usbAddress == usbAddress
    {
      this.controller, this.usbAddress, this.lowSpeed := controller, usbAddress, lowSpeed;
      this.bulkIn, this.bulkOut, blockSize := bulkIn, bulkOut, 0;
    }

    ghost predicate Valid()
      reads this, controller, controller.heap, bulkIn, bulkOut
    {
      && controller.Valid() && bulkIn != bulkOut
      && bulkIn.toggle < 2 && bulkOut.toggle < 2
      && ByteSize(bulkIn.maxPacketSize) != 0 && ByteSize(bulkOut.maxPacketSize) != 0
    }

    function View(): Host
      reads this, bulkIn, bulkOut
    {
      Host(usbAddress, bulkIn.address, ByteSize(bulkIn.maxPacketSize), bulkIn.toggle,
           bulkOut.address, ByteSize(bulkOut.maxPacketSize), bulkOut.toggle)
    }

    ghost predicate Ready()
      reads this, controller, bulkIn, bulkOut
    {
      InStep(View(), controller.device)
    }

    /** What a command takes from the heap: the descriptors of its three transfers. */
    ghost function Need(length: nat): nat
      requires ByteSize(bulkIn.maxPacketSize) != 0 && ByteSize(bulkOut.maxPacketSize) != 0
    {
      var inMps, outMps := ByteSize(bulkIn.maxPacketSize), ByteSize(bulkOut.maxPacketSize);
      48 + TD_SIZE * (Count(CBW_LENGTH, outMps) + Count(length, inMps) + Count(CSW_LENGTH, inMps))
    }

    ghost predicate HasRoom(length: nat)
      requires ByteSize(bulkIn.maxPacketSize) != 0 && ByteSize(bulkOut.maxPacketSize) != 0
      reads controller, controller.heap
    {
      controller.heap.freeMemoryStart + Need(length) < WORD_SPAN
    }

    /** The first phase: the wrapper goes out. */
    method SendWrapper(cbw: seq<byte>, at: nat, sch: Schedule)
        returns (ok: bool, ghost out: Bulk, ghost trace: seq<Fault>)
      requires Valid() && |cbw| == CBW_LENGTH && at + CBW_LENGTH <= |controller.ram|
      requires Room(controller.heap.freeMemoryStart, Count(CBW_LENGTH, ByteSize(bulkOut.maxPacketSize)))
      modifies controller, controller.heap, bulkOut
      ensures Valid() && |controller.ram| == |old(controller.ram)|
      ensures Spent(old(controller.heap.freeMemoryStart), controller.heap.freeMemoryStart,
                    Count(CBW_LENGTH, View().outMps))
      ensures WellFormed(out)
      ensures out == Bulk(out.base, at, CBW_LENGTH, View().outMps, OutPid, usbAddress, bulkOut.address, lowSpeed,
                          old(bulkOut.toggle))
        && bulkOut.toggle == ToggleAt(out.toggle, Count(CBW_LENGTH, out.mps))
      ensures controller.View() == Perform(WithWrapper(old(controller.View()), at, cbw), BulkTransfer(out), trace)
      ensures var s0 := WithWrapper(old(controller.View()), at, cbw);
        Lasts(s0, out, sch, trace) && (ok <==> Finishes(s0, out, sch, trace))
      ensures InStep(old(View()), old(controller.device)) && Calm(sch, Count(CBW_LENGTH, View().outMps)) ==>
        && ok && AllClear(trace) && |trace| >= Count(CBW_LENGTH, View().outMps)
        && controller.device == old(controller.device).(outToggle := bulkOut.toggle,
             phase := Reaction(old(controller.device), cbw))
    {
      ghost var h, dev := View(), controller.device;
      ghost var calm := InStep(h, dev) && Calm(sch, Count(CBW_LENGTH, h.outMps));
      var actual;
      SpliceHolds(controller.ram, at, cbw);
      controller.ram := Splice(controller.ram, at, cbw);
      ghost var s0 := controller.View();
      hide Perform, Splice, Lasts, Finishes, BulkTransfer, BulkList, Execute, Calm, Accepted, ToggleAt, Count, Publish,
        Reported;
      ok, actual, out, trace := controller.ExecuteBulk(USB_TXNTYPE_BULK_OUT, bulkOut, usbAddress, lowSpeed, at,
        CBW_LENGTH, sch);
      if calm {
        WrapperSucceeds(h, s0, at, cbw, out, sch, trace);
      }
    }

    /** A transfer from the device. `answer` and `next` are what a device in step would send and go on to. */
    method Receive(at: nat, length: uint32, sch: Schedule, ghost answer: seq<byte>, ghost next: Phase)
        returns (ok: bool, ghost b: Bulk, ghost trace: seq<Fault>)
      requires Valid() && length > 0 && at + length <= |controller.ram|
      requires Room(controller.heap.freeMemoryStart, Count(length, ByteSize(bulkIn.maxPacketSize)))
      modifies controller, controller.heap, bulkIn
      ensures Valid() && |controller.ram| == |old(controller.ram)|
      ensures Spent(old(controller.heap.freeMemoryStart), controller.heap.freeMemoryStart, Count(length, View().inMps))
      ensures WellFormed(b)
      ensures b ==
          Bulk(b.base, at, length, View().inMps, InPid, usbAddress, bulkIn.address, lowSpeed, old(bulkIn.toggle))
        && bulkIn.toggle == ToggleAt(b.toggle, Count(length, b.mps))
      ensures controller.View() == Perform(old(controller.View()), BulkTransfer(b), trace)
      ensures Lasts(old(controller.View()), b, sch, trace) && (ok <==> Finishes(old(controller.View()), b, sch, trace))
      ensures Answering(old(View()), old(controller.device), answer, next) && |answer| == length
              && Calm(sch, Count(length, View().inMps)) ==>
        && ok && AllClear(trace) && |trace| >= Count(length, View().inMps)
        && controller.ram == Splice(old(controller.ram), at, answer)
        && controller.device == old(controller.device).(inToggle := bulkIn.toggle, phase := next)
    {
      ghost var h, dev, s := View(), controller.device, controller.View();
      ghost var calm := Answering(h, dev, answer, next) && |answer| == length && Calm(sch, Count(length, h.inMps));
      var actual;
      hide Perform, Splice, Lasts, Finishes, BulkTransfer, BulkList, Calm, Accepted, ToggleAt, Count, Publish, Reported;
      ok, actual, b, trace := controller.ExecuteBulk(USB_TXNTYPE_BULK_IN, bulkIn, usbAddress, lowSpeed, at, length,
        sch);
      if calm {
        ReadingSucceeds(h, s, b, answer, next, sch, trace);
      }
    }

    /** The last phase: the status wrapper's memory is cleared, read, and its signature and status checked. */
    method ReceiveStatus(at: nat, sch: Schedule, ghost tag: seq<byte>)
        returns (ok: bool, ghost done: bool, ghost status: Bulk, ghost trace: seq<Fault>)
      requires Valid() && at + CSW_LENGTH <= |controller.ram| && |tag| == 4
      requires Room(controller.heap.freeMemoryStart, Count(CSW_LENGTH, ByteSize(bulkIn.maxPacketSize)))
      modifies controller, controller.heap, bulkIn
      ensures Valid() && |controller.ram| == |old(controller.ram)|
      ensures Spent(old(controller.heap.freeMemoryStart), controller.heap.freeMemoryStart,
                    Count(CSW_LENGTH, View().inMps))
      ensures WellFormed(status)
      ensures status == Bulk(status.base, at, CSW_LENGTH, View().inMps, InPid, usbAddress, bulkIn.address, lowSpeed,
                             old(bulkIn.toggle))
        && bulkIn.toggle == ToggleAt(status.toggle, Count(CSW_LENGTH, status.mps))
      ensures controller.View() == Perform(Cleared(old(controller.View()), at), BulkTransfer(status), trace)
      ensures var s3 := Cleared(old(controller.View()), at);
        Lasts(s3, status, sch, trace) && (done <==> Finishes(s3, status, sch, trace))
      ensures ok <==> done && Vouches(controller.ram, at)
      ensures Answering(old(View()), old(controller.device), Csw(tag, 0, PASSED), Idle([]))
              && Calm(sch, Count(CSW_LENGTH, View().inMps)) ==>
        ok && AllClear(trace) && |trace| >= Count(CSW_LENGTH, View().inMps)
    {
      hide Perform, Splice, Calm, BulkTransfer, Lasts, Finishes;
      ghost var csw := Csw(tag, 0, PASSED);
      controller.ram := Splice(controller.ram, at, Zeros(CSW_LENGTH));
      CswVouches(controller.ram, at, tag);
      ok, status, trace := Receive(at, CSW_LENGTH, sch, csw, Idle([]));
      done := ok;
      if !ok { return; }
      if LE32(controller.ram[at..at + 4]) != CSW_SIGNATURE { ok := false; return; }
      if controller.ram[at + 12] != 0 { ok := false; return; }
    }

    /** The first two phases: the wrapper goes out, the data comes in. */
    method SendAndReceive(cbw: seq<byte>, at: Places, length: uint32, sch: Schedules)
        returns (ok: bool, ghost r: Record)
      requires Valid() && |cbw| == CBW_LENGTH && length > 0 && HasRoom(length)
      requires Apart(at, length, |controller.ram|)
      modifies controller, controller.heap, bulkIn, bulkOut
      ensures Valid() && |controller.ram| == |old(controller.ram)|
      ensures r.start == WithWrapper(old(controller.View()), at.cbw, cbw) && r.cbw == cbw && !r.done
      ensures r.end == controller.View() && Room(controller.heap.freeMemoryStart, Count(CSW_LENGTH, View().inMps))
      ensures controller.heap.freeMemoryStart + 16 + TD_SIZE * Count(CSW_LENGTH, View().inMps)
           <= old(controller.heap.freeMemoryStart) + Need(length)
      ensures !ok ==> Broken(r, old(View()), at, length, sch, View())
      ensures ok ==>
        && Launched(old(View()), at, length, r.out, r.data, View()) && Opened(r, sch)
        && r.end == Perform(Perform(r.start, BulkTransfer(r.out), r.weather.out), BulkTransfer(r.data), r.weather.data)
      ensures Favourable(old(View()), old(controller.device), cbw, length, sch) ==>
        ok && Halfway(r, View(), controller.device, length)
    {
      hide Perform, Splice, Count, ToggleAt, Calm, Execute, Obedient, BulkTransfer, Csw, Answer, WithWrapper,
        WellFormed, LE32, Lasts, Finishes, Opened, Broken, Launched, Halfway, Favourable;
      ghost var h, dev, s0 := View(), controller.device, WithWrapper(controller.View(), at.cbw, cbw);
      ghost var calm := Favourable(h, dev, cbw, length, sch);
      if calm {
        FavourableStart(h, dev, cbw, length, sch);
      }
      ghost var out, data, trace, trace2;
      ok, out, trace := SendWrapper(cbw, at.cbw, sch.out);
      r := Record(s0, cbw, out, out, out, Weather(trace, [], []), controller.View(), false);
      ghost var h1 := View();
      if !ok {
        StopsAtWrapper(r, h, at, length, sch, h1);
        return;
      }
      ok, data, trace2 := Receive(at.buffer, length, sch.data, Answer(dev.units, cbw),
                                  Sending(Csw(cbw[4..8], 0, PASSED), Idle([])));
      r := Record(s0, cbw, out, data, data, Weather(trace, trace2, []), controller.View(), false);
      GoesOn(r, h, at, length, sch, h1, View(), ok);
      if calm {
        GetsHalfway(r, View(), controller.device, length);
      }
    }

    /** The conversation behind every command. */
    method Converse(cbw: seq<byte>, at: Places, length: uint32, sch: Schedules) returns (ok: bool, ghost r: Record)
      requires Valid() && |cbw| == CBW_LENGTH && length > 0 && HasRoom(length)
      requires Apart(at, length, |controller.ram|)
      modifies controller, controller.heap, bulkIn, bulkOut
      ensures Valid() && |controller.ram| == |old(controller.ram)|
      ensures Conducted(r, old(View()), old(controller.View()), at, length, sch, ok, View())
      ensures r.cbw == cbw && r.end == controller.View()
      ensures controller.heap.freeMemoryStart <= old(controller.heap.freeMemoryStart) + Need(length)
      ensures Favourable(old(View()), old(controller.device), cbw, length, sch) ==>
        ok && Calmly(r)
    {
      hide Perform, Splice, Count, ToggleAt, Vouches, Calm, Obedient, BulkTransfer, Csw, WithWrapper, LE32, Answering,
        InStep, Lasts, Finishes, Broken, Cleared;
      ok, r := SendAndReceive(cbw, at, length, sch);
      if !ok { return; }
      ghost var s2, done, status, trace := controller.View(), false, r.out, [];
      ok, done, status, trace := ReceiveStatus(at.csw, sch.status, cbw[4..8]);
      r := r.(status := status, weather := r.weather.(status := trace), end := controller.View(), done := done);
      StatusPlace(r);
    }

    /** One SCSI command. If the device was ready, SUCCESS means it was carried out, for every schedule and every fault,
        when the error bits the driver does not read are clear where they matter, which sizes and device can guarantee
        (`Sturdy`). Whether or not it was SUCCESS, once its transfers have finished the device is ready again, or one
        packet behind if the last handshake was lost. If it was behind before, the driver has overlooked an error. */
    method Command(cbw: seq<byte>, at: Places, length: uint32, sch: Schedules) returns (ok: bool, ghost r: Record)
      requires Valid() && |cbw| == CBW_LENGTH && length > 0 && LE32(cbw[8..12]) == length && HasRoom(length)
      requires Apart(at, length, |controller.ram|)
      modifies controller, controller.heap, bulkIn, bulkOut
      ensures Valid() && |controller.ram| == |old(controller.ram)| && r.cbw == cbw && r.end == controller.View()
      ensures controller.heap.freeMemoryStart <= old(controller.heap.freeMemoryStart) + Need(length)
      ensures Conducted(r, old(View()), old(controller.View()), at, length, sch, ok, View())
      ensures ok && old(Ready()) && BitsClear(r) ==>
        CarriedOut(old(controller.View()), cbw, at, length, controller.View(), View())
      ensures old(Ready()) && Settled(r, ok) ==>
        (Ready() || Behind(View(), controller.device)) && (Audible(sch.status) ==> Ready())
      ensures old(Behind(View(), controller.device)) && r.done ==> Mistook(r)
      ensures old(Ready()) && r.done && Sturdy(old(controller.device), cbw, length, View().inMps) ==> BitsClear(r)
      ensures Favourable(old(View()), old(controller.device), cbw, length, sch) ==> ok && BitsClear(r)
    {
      hide Conducted, CarriedOut, InStep, Behind, Settled, BitsClear, Mistook, Sturdy, Favourable, Audible, LE32, Apart,
        Calmly, Obedient;
      ghost var h, before := View(), controller.View();
      ok, r := Converse(cbw, at, length, sch);
      ghost var h' := View();
      CommandTells(r, h, before, at, length, sch, ok, h');
    }

    /** The command block of READ (10), stored field by field into zeroed memory. */
    method Read10Command(lba: uint32, blocks: uint16) returns (command: seq<byte>)
      ensures command == Read10Block(lba, blocks)
    {
      command := Zeros(16);
      command := command[0 := READ_10];
      var lbaBytes, countBytes := ToLE32(BSwap32(lba)), ToLE16(BSwap16(blocks));
      command := command[2 := lbaBytes[0]][3 := lbaBytes[1]][4 := lbaBytes[2]][5 := lbaBytes[3]];
      command := command[7 := countBytes[0]][8 := countBytes[1]];
    }

    /** READ (10). The count and the address are stored byte-swapped into the zeroed command block. */
    method ScsiRead10(lun: byte, lba: uint32, blocks: uint16, at: Places, sch: Schedules)
        returns (ok: bool, ghost r: Record)
      requires Valid() && TransferLength(blocks, blockSize) > 0 && HasRoom(TransferLength(blocks, blockSize))
      requires Apart(at, TransferLength(blocks, blockSize), |controller.ram|)
      modifies controller, controller.heap, bulkIn, bulkOut
      ensures Valid() && r.end == controller.View()
      ensures r.cbw == ReadCbw(TransferLength(blocks, blockSize), lun, lba, blocks)
      ensures Conducted(r, old(View()), old(controller.View()), at, TransferLength(blocks, blockSize), sch, ok, View())
      ensures ok && old(Ready()) && BitsClear(r) ==>
        var length := TransferLength(blocks, blockSize);
        && BlocksArrived(old(controller.View()), controller.View(), lun, lba, blocks, at, length)
        && (blocks * old(controller.device).units[lun].blockSize == length
            || FooledBy(old(controller.device), r.cbw, length))
      ensures old(Ready()) && Settled(r, ok) ==>
        (Ready() || Behind(View(), controller.device)) && (Audible(sch.status) ==> Ready())
      ensures old(Behind(View(), controller.device)) && r.done ==> Mistook(r)
      ensures var length := TransferLength(blocks, blockSize);
        old(Ready()) && r.done && Sturdy(old(controller.device), r.cbw, length, View().inMps) ==> BitsClear(r)
      ensures ReadGranted(old(View()), old(controller.device), lun, lba, blocks, TransferLength(blocks, blockSize), sch)
              ==> ok && BitsClear(r)
      ensures OnMedium(old(View()), old(controller.device), lun, lba, blocks, blockSize, sch) ==>
        ok && HoldsBlocks(controller.ram, at.buffer, old(controller.device.units)[lun], lba, blocks)
    {
      hide Obedient, ReadBlocks, CalmThroughout, WillRead, Robust, Cbw, Read10Block, Answer, BSwap32, BSwap16, LE32,
        ToLE32, CarriedOut, BlocksArrived, FooledBy, Reaction, Audible, Behind, Sturdy, Conducted, BitsClear, Settled,
        Mistook, InStep, OnMedium, HoldsBlocks, TransferLength;
      var command := Read10Command(lba, blocks);
      var length := TransferLength(blocks, blockSize);
      var cbw := Cbw(length, lun, 10, command);
      CbwFields(length, lun, 10, command);
      ghost var before := controller.View();
      if OnMedium(View(), controller.device, lun, lba, blocks, blockSize, sch) {
        OnMediumIsGranted(View(), controller.device, lun, lba, blocks, blockSize, sch);
        NoOverflow(blocks, blockSize);
      }
      if WillRead(controller.device, lun, lba, blocks, length) {
        ReadIsObeyed(controller.device, lun, lba, blocks, length);
      }
      ok, r := Command(cbw, at, length, sch);
      if ok && BitsClear(r) && old(Ready()) {
        ReadCarriedOut(before, lun, lba, blocks, at, length, controller.View(), View());
        ArrivedIsHeld(before, controller.View(), lun, lba, blocks, at, length);
      }
    }

    /** READ CAPACITY (10): both words of the reply are swapped in place. What the driver calls the number of blocks is
        the address of the last one. */
    method ScsiReadCapacity10(lun: byte, at: Places, sch: Schedules)
        returns (ok: bool, numberOfBlocks: uint32, size: uint32, ghost r: Record)
      requires Valid() && HasRoom(CAPACITY_LENGTH) && Apart(at, CAPACITY_LENGTH, |controller.ram|)
      modifies controller, controller.heap, bulkIn, bulkOut
      ensures Valid() && |controller.ram| == |old(controller.ram)| && r.cbw == CapacityCbw(lun)
      ensures controller.heap.freeMemoryStart <= old(controller.heap.freeMemoryStart) + Need(CAPACITY_LENGTH)
      ensures Conducted(r, old(View()), old(controller.View()), at, CAPACITY_LENGTH, sch, ok, View())
      ensures SameOutside(r.end.ram, controller.ram, at.buffer, at.buffer + CAPACITY_LENGTH)
      ensures controller.View() == r.end.(ram := controller.ram) && (!ok ==> controller.ram == r.end.ram)
      ensures ok ==> controller.ram[at.buffer..at.buffer + 4] == ToLE32(numberOfBlocks)
                     && controller.ram[at.buffer + 4..at.buffer + 8] == ToLE32(size)
      ensures ok && old(Ready()) && BitsClear(r) ==>
        && lun < |old(controller.device.units)| && controller.device.units == old(controller.device.units)
        && var unit := old(controller.device.units)[lun];
        && unit.blockSize > 0 && size == unit.blockSize && numberOfBlocks + 1 == |unit.content| / unit.blockSize
      ensures old(Ready()) && Settled(r, ok) ==>
        (Ready() || Behind(View(), controller.device)) && (Audible(sch.status) ==> Ready())
      ensures old(Behind(View(), controller.device)) && r.done ==> Mistook(r)
      ensures Favourable(old(View()), old(controller.device), CapacityCbw(lun), CAPACITY_LENGTH, sch) ==>
        ok && BitsClear(r)
      ensures lun < |old(controller.device.units)| ==>
        var unit := old(controller.device.units)[lun];
        Answers(old(View()), old(controller.device), lun, Capacity(unit), 8, sch) ==>
          ok && size == unit.blockSize && numberOfBlocks == |unit.content| / unit.blockSize - 1
    {
      hide Cbw, CommandBlock, Answer, Splice, Audible, Favourable, LE32, BSwap32, CarriedOut, Behind, InStep, Conducted,
        BitsClear, Settled, Mistook, Sturdy, Answers, Capacity;
      var cbw := Cbw(CAPACITY_LENGTH, lun, 12, CommandBlock([READ_CAPACITY_10]));
      CbwFields(CAPACITY_LENGTH, lun, 12, CommandBlock([READ_CAPACITY_10]));
      ghost var before := controller.View();
      if lun < |controller.device.units|
         && Answers(View(), controller.device, lun, Capacity(controller.device.units[lun]), 8, sch) {
        CapacityIsFavourable(View(), controller.device, lun, sch);
      }
      ok, r := Command(cbw, at, CAPACITY_LENGTH, sch);
      numberOfBlocks, size := 0, 0;
      if !ok { return; }
      if BitsClear(r) && old(Ready()) {
        CapacityArrives(before, lun, at, controller.View(), View());
      }
      numberOfBlocks, size := SwapReply(at.buffer);
    }

    /** Both words of a reply are swapped where they are. */
    method SwapReply(at: nat) returns (first: uint32, second: uint32)
      requires at + 8 <= |controller.ram|
      modifies controller`ram
      ensures SameOutside(old(controller.ram), controller.ram, at, at + 8)
      ensures |controller.ram| == |old(controller.ram)|
      ensures controller.ram[at..at + 4] == ToLE32(first) && controller.ram[at + 4..at + 8] == ToLE32(second)
      ensures first == BSwap32(LE32(old(controller.ram)[at..at + 4]))
      ensures second == BSwap32(LE32(old(controller.ram)[at + 4..at + 8]))
    {
      hide LE32, BSwap32, Splice, SameOutside, ToLE32;
      first := BSwap32(LE32(controller.ram[at..at + 4]));
      second := BSwap32(LE32(controller.ram[at + 4..at + 8]));
      SwapsInPlace(controller.ram, at, ToLE32(second), ToLE32(first));
      controller.ram := Splice(controller.ram, at + 4, ToLE32(second));
      controller.ram := Splice(controller.ram, at, ToLE32(first));
    }

    /** INQUIRY: 36 bytes of identification, or fewer from a unit that has no more. */
    method ScsiInquiry(lun: byte, at: Places, sch: Schedules) returns (ok: bool, ghost r: Record)
      requires Valid() && HasRoom(INQUIRY_LENGTH) && Apart(at, INQUIRY_LENGTH, |controller.ram|)
      modifies controller, controller.heap, bulkIn, bulkOut
      ensures Valid() && r.end == controller.View() && r.cbw == InquiryCbw(lun)
      ensures Conducted(r, old(View()), old(controller.View()), at, INQUIRY_LENGTH, sch, ok, View())
      ensures ok && old(Ready()) && BitsClear(r) ==>
        && lun < |old(controller.device.units)|
        && var answer := UpTo(old(controller.device.units)[lun].inquiry, INQUIRY_LENGTH);
        && Answered(old(controller.View()), controller.View(), answer, at, INQUIRY_LENGTH)
        && (|answer| == INQUIRY_LENGTH || FooledBy(old(controller.device), r.cbw, INQUIRY_LENGTH))
      ensures old(Ready()) && Settled(r, ok) ==>
        (Ready() || Behind(View(), controller.device)) && (Audible(sch.status) ==> Ready())
      ensures old(Behind(View(), controller.device)) && r.done ==> Mistook(r)
      ensures Favourable(old(View()), old(controller.device), InquiryCbw(lun), INQUIRY_LENGTH, sch) ==>
        ok && BitsClear(r)
      ensures lun < |old(controller.device.units)| ==>
        var answer := UpTo(old(controller.device.units)[lun].inquiry, 36);
        Answers(old(View()), old(controller.device), lun, answer, 36, sch) ==>
          ok && Holds(controller.ram, at.buffer, answer)
    {
      hide Cbw, CommandBlock, Answer, Answered, FooledBy, Audible, Behind, InStep, Favourable, Conducted, BitsClear,
        Settled, Mistook, Sturdy;
      var cbw := Cbw(INQUIRY_LENGTH, lun, 6, CommandBlock([INQUIRY, 0, 0, 0, 0x24]));
      CbwFields(INQUIRY_LENGTH, lun, 6, CommandBlock([INQUIRY, 0, 0, 0, 0x24]));
      if lun < |controller.device.units|
         && Answers(View(), controller.device, lun, UpTo(controller.device.units[lun].inquiry, 36), 36, sch) {
        InquiryIsFavourable(View(), controller.device, lun, sch);
      }
      ok, r := Command(cbw, at, INQUIRY_LENGTH, sch);
      if ok && BitsClear(r) && old(Ready()) {
        ghost var units := old(controller.device.units);
        AnsweredIsSome(old(controller.View()), controller.View(), Answer(units, cbw), at, INQUIRY_LENGTH);
        AnsweredIsHeld(old(controller.View()), controller.View(), Answer(units, cbw), at, INQUIRY_LENGTH);
        SmallCommandAnswered(units, INQUIRY_LENGTH, lun, 6, CommandBlock([INQUIRY, 0, 0, 0, 0x24]));
        SmallCommandsDecode(units, lun, INQUIRY_LENGTH);
      }
    }

    /** REQUEST SENSE: 18 bytes on what went wrong, or fewer from a unit that has no more. */
    method ScsiRequestSense(lun: byte, at: Places, sch: Schedules) returns (ok: bool, ghost r: Record)
      requires Valid() && HasRoom(SENSE_LENGTH) && Apart(at, SENSE_LENGTH, |controller.ram|)
      modifies controller, controller.heap, bulkIn, bulkOut
      ensures Valid() && r.end == controller.View() && r.cbw == SenseCbw(lun)
      ensures Conducted(r, old(View()), old(controller.View()), at, SENSE_LENGTH, sch, ok, View())
      ensures ok && old(Ready()) && BitsClear(r) ==>
        && lun < |old(controller.device.units)|
        && var answer := UpTo(old(controller.device.units)[lun].sense, SENSE_LENGTH);
        && Answered(old(controller.View()), controller.View(), answer, at, SENSE_LENGTH)
        && (|answer| == SENSE_LENGTH || FooledBy(old(controller.device), r.cbw, SENSE_LENGTH))
      ensures old(Ready()) && Settled(r, ok) ==>
        (Ready() || Behind(View(), controller.device)) && (Audible(sch.status) ==> Ready())
      ensures old(Behind(View(), controller.device)) && r.done ==> Mistook(r)
      ensures Favourable(old(View()), old(controller.device), SenseCbw(lun), SENSE_LENGTH, sch) ==> ok && BitsClear(r)
      ensures lun < |old(controller.device.units)| ==>
        var answer := UpTo(old(controller.device.units)[lun].sense, 18);
        Answers(old(View()), old(controller.device), lun, answer, 18, sch) ==>
          ok && Holds(controller.ram, at.buffer, answer)
    {
      hide Cbw, CommandBlock, Answer, Answered, FooledBy, Audible, Behind, InStep, Favourable, Conducted, BitsClear,
        Settled, Mistook, Sturdy;
      var cbw := Cbw(SENSE_LENGTH, lun, 6, CommandBlock([REQUEST_SENSE, 0, 0, 0, 18]));
      CbwFields(SENSE_LENGTH, lun, 6, CommandBlock([REQUEST_SENSE, 0, 0, 0, 18]));
      if lun < |controller.device.units|
         && Answers(View(), controller.device, lun, UpTo(controller.device.units[lun].sense, 18), 18, sch) {
        SenseIsFavourable(View(), controller.device, lun, sch);
      }
      ok, r := Command(cbw, at, SENSE_LENGTH, sch);
      if ok && BitsClear(r) && old(Ready()) {
        ghost var units := old(controller.device.units);
        AnsweredIsSome(old(controller.View()), controller.View(), Answer(units, cbw), at, SENSE_LENGTH);
        AnsweredIsHeld(old(controller.View()), controller.View(), Answer(units, cbw), at, SENSE_LENGTH);
        SmallCommandAnswered(units, SENSE_LENGTH, lun, 6, CommandBlock([REQUEST_SENSE, 0, 0, 0, 18]));
        SmallCommandsDecode(units, lun, SENSE_LENGTH);
      }
    }

    /** One attempt to learn a unit's capacity. If it fails, the driver asks for the sense data: the device is ready for
        that if READ CAPACITY failed by its status alone. */
    method TryCapacity(lun: byte, at: Places, sense: Places, sch: Schedules, senseSch: Schedules)
        returns (ok: bool, numberOfBlocks: uint32, sensed: bool, ghost r: Record, ghost h1: Host, ghost q: Record)
      requires Valid() && controller.heap.freeMemoryStart + Need(CAPACITY_LENGTH) + Need(SENSE_LENGTH) < WORD_SPAN
      requires Apart(at, CAPACITY_LENGTH, |controller.ram|) && Apart(sense, SENSE_LENGTH, |controller.ram|)
      modifies this`blockSize, controller, controller.heap, bulkIn, bulkOut
      ensures Valid() && r.cbw == CapacityCbw(lun)
      ensures Conducted(r, old(View()), old(controller.View()), at, CAPACITY_LENGTH, sch, ok, h1)
      ensures !ok ==> q.cbw == SenseCbw(lun) && q.end == controller.View() && blockSize == old(blockSize)
                      && Conducted(q, h1, r.end, sense, SENSE_LENGTH, senseSch, sensed, View())
      ensures ok && old(Ready()) && BitsClear(r) ==>
        && lun < |old(controller.device.units)|
        && var unit := old(controller.device.units)[lun];
        && unit.blockSize > 0 && blockSize == unit.blockSize && numberOfBlocks + 1 == |unit.content| / unit.blockSize
      ensures !ok && old(Ready()) && Settled(r, ok) && sensed && BitsClear(q) && !Mistook(q) ==>
        && lun < |old(controller.device.units)|
        && var answer := UpTo(old(controller.device.units)[lun].sense, SENSE_LENGTH);
        && Answered(r.end, controller.View(), answer, sense, SENSE_LENGTH)
    {
      hide Conducted, BitsClear, Settled, Mistook, Answered, FooledBy, Audible, InStep, Behind, Favourable, Apart,
        Count;
      ghost var before := controller.View();
      var size;
      ok, numberOfBlocks, size, r := ScsiReadCapacity10(lun, at, sch);
      h1 := View();
      sensed := false;
      q := r;
      if ok {
        blockSize := size;
      } else {
        ConductedKeepsUnits(r, old(View()), before, at, CAPACITY_LENGTH, sch, ok, h1);
        sensed, q := ScsiRequestSense(lun, sense, senseSch);
        if sensed {
          SucceededIsDone(q, h1, r.end, sense, SENSE_LENGTH, senseSch, View());
        }
      }
    }

    /** The block driver's entry point: the partition offset is added and the count is cut to 16 bits. When it returns
        SUCCESS from a ready device, the buffer holds the disk's blocks from `lba + offset` on, whatever the bus did
        meanwhile, and all of them unless the device is short unnoticed. */
    method UsbStorageRead(disk: DiskDevice, lba: uint32, numSectors: uint32, at: Places, sch: Schedules)
        returns (ok: bool, ghost r: Record)
      requires var length := TransferLength(numSectors % 0x1_0000, blockSize);
        Valid() && length > 0 && HasRoom(length) && Apart(at, length, |controller.ram|)
      modifies controller, controller.heap, bulkIn, bulkOut
      ensures Valid() && r.end == controller.View()
      ensures var length, blocks := TransferLength(numSectors % 0x1_0000, blockSize), numSectors % 0x1_0000;
        && r.cbw == ReadCbw(length, disk.deviceNum, (lba + disk.offset) % WORD_SPAN, blocks)
        && Conducted(r, old(View()), old(controller.View()), at, length, sch, ok, View())
        && (old(Ready()) && r.done && Sturdy(old(controller.device), r.cbw, length, View().inMps) ==> BitsClear(r))
      ensures ok && old(Ready()) && BitsClear(r) ==>
        var length, blocks := TransferLength(numSectors % 0x1_0000, blockSize), numSectors % 0x1_0000;
        var driveLba, lun := (lba + disk.offset) % WORD_SPAN, disk.deviceNum;
        && BlocksArrived(old(controller.View()), controller.View(), lun, driveLba, blocks, at, length)
        && (blocks * old(controller.device).units[lun].blockSize == length
            || FooledBy(old(controller.device), r.cbw, length))
      ensures old(Ready()) && Settled(r, ok) ==>
        (Ready() || Behind(View(), controller.device)) && (Audible(sch.status) ==> Ready())
      ensures old(Behind(View(), controller.device)) && r.done ==> Mistook(r)
      ensures var length, blocks := TransferLength(numSectors % 0x1_0000, blockSize), numSectors % 0x1_0000;
        var driveLba := (lba + disk.offset) % WORD_SPAN;
        ReadGranted(old(View()), old(controller.device), disk.deviceNum, driveLba, blocks, length, sch) ==>
          ok && BitsClear(r)
      ensures var blocks, driveLba := numSectors % 0x1_0000, (lba + disk.offset) % WORD_SPAN;
        OnMedium(old(View()), old(controller.device), disk.deviceNum, driveLba, blocks, blockSize, sch) ==>
          ok && HoldsBlocks(controller.ram, at.buffer, old(controller.device.units)[disk.deviceNum], driveLba, blocks)
    {
      hide BlocksArrived, FooledBy, Reaction, Audible, Behind, Sturdy, Robust, InStep, ReadGranted, Cbw, Read10Block,
        Conducted, BitsClear, Settled, Mistook, HoldsBlocks;
      var driveLba := (lba + disk.offset) % WORD_SPAN;
      ok, r := ScsiRead10(disk.deviceNum, driveLba, numSectors % 0x1_0000, at, sch);
    }
  }

  /** Swapping the two words of a reply writes nowhere else. */
  lemma SwapsInPlace(ram: seq<byte>, at: nat, high: seq<byte>, low: seq<byte>)
    requires at + 8 <= |ram| && |high| == 4 == |low|
    ensures var after := Splice(Splice(ram, at + 4, high), at, low);
      && SameOutside(ram, after, at, at + 8) && |after| == |ram|
      && after[at..at + 4] == low && after[at + 4..at + 8] == high
  {
  }

  /** `blocks * block_size` as the driver computes it, in 32 bits. */
  function TransferLength(blocks: uint16, blockSize: uint32): uint32 {
    var b: int := blocks;
    b * blockSize % WORD_SPAN
  }

  lemma NoOverflow(blocks: uint16, blockSize: uint32)
    requires var b: int, s: int := blocks, blockSize; b * s < WORD_SPAN
    ensures var b: int, s: int := blocks, blockSize; TransferLength(blocks, blockSize) == b * s
  {
  }
}
