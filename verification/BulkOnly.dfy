/** The three-phase conversation behind every SCSI command: wrapper out, data in, status in. */
module BulkOnly {
  import opened Bytes
  import opened BulkDevice
  import opened Uhci
  import opened TransferRuns
  import opened BulkRuns
  import opened PacketStreams

  // ---------------------------------------------------------------------------
  // Command wrappers
  // ---------------------------------------------------------------------------

  /** The packed 31-byte wrapper with the tag and flags every command of this driver uses. */
  function Cbw(transferLength: uint32, lun: byte, commandLength: byte, command: seq<byte>): (cbw: seq<byte>)
    requires |command| == 16
    ensures |cbw| == CBW_LENGTH
  {
    ToLE32(CBW_SIGNATURE) + ToLE32(0) + ToLE32(transferLength) + [DIRECTION_IN, lun, commandLength] + command
  }

  /** The command block of READ (10): the address and the count are byte-swapped before they are stored. */
  function Read10Block(lba: uint32, blocks: uint16): (command: seq<byte>)
    ensures |command| == 16
  {
    [READ_10, 0] + ToLE32(BSwap32(lba)) + [0] + ToLE16(BSwap16(blocks)) + Zeros(7)
  }

  /** The two signatures spell USBC and USBS (sections 5.1 and 5.2). */
  lemma SignatureBytes()
    ensures ToLE32(CBW_SIGNATURE) == ['U' as int, 'S' as int, 'B' as int, 'C' as int]
    ensures ToLE32(CSW_SIGNATURE) == ['U' as int, 'S' as int, 'B' as int, 'S' as int]
  {
  }

  lemma CbwFields(transferLength: uint32, lun: byte, commandLength: byte, command: seq<byte>)
    requires |command| == 16
    ensures var cbw := Cbw(transferLength, lun, commandLength, command);
      && cbw[..4] == ['U' as int, 'S' as int, 'B' as int, 'C' as int] && cbw[12] == 0x80
      && cbw[4..8] == Zeros(4)
      && LE32(cbw[..4]) == CBW_SIGNATURE && LE32(cbw[8..12]) == transferLength
      && cbw[12] == DIRECTION_IN && cbw[13] == lun && cbw[14] == commandLength && cbw[15..] == command
  {
    var cbw := Cbw(transferLength, lun, commandLength, command);
    assert cbw[..4] == ToLE32(CBW_SIGNATURE);
    SignatureBytes();
    assert cbw[8..12] == ToLE32(transferLength);
    LoadStore32(CBW_SIGNATURE);
    LoadStore32(transferLength);
  }

  lemma Read10BlockFields(lba: uint32, blocks: uint16)
    ensures var command := Read10Block(lba, blocks);
      && command[0] == READ_10 && command[2..6] == ToBE32(lba) && BE16(command[7..9]) == blocks
      && command[1] == 0 && command[6] == 0 && command[9..] == Zeros(7)
  {
    var command, a, n := Read10Block(lba, blocks), ToLE32(BSwap32(lba)), ToLE16(BSwap16(blocks));
    SwappedStoreIsBigEndian(lba, blocks);
    assert command[2..6] == a;
    assert command[7..9] == n;
  }

  /** The device decodes a READ (10) wrapper back to the unit, the address and the count the driver put in. */
  lemma Read10Decodes(units: seq<LogicalUnit>, transferLength: uint32, lun: byte, lba: uint32, blocks: uint16)
    requires lun < |units|
    ensures Answer(units, Cbw(transferLength, lun, 10, Read10Block(lba, blocks))) == ReadBlocks(units[lun], lba, blocks)
  {
    var command := Read10Block(lba, blocks);
    var cbw := Cbw(transferLength, lun, 10, command);
    CbwFields(transferLength, lun, 10, command);
    Read10BlockFields(lba, blocks);
    SwappedStoreIsBigEndian(lba, blocks);
    assert cbw[17..21] == cbw[15..][2..6];
    assert cbw[22..24] == cbw[15..][7..9];
    assert cbw[15] == cbw[15..][0];
  }

  function CommandBlock(bytes: seq<byte>): (command: seq<byte>)
    requires |bytes| <= 16
    ensures |command| == 16
  {
    bytes + Zeros(16 - |bytes|)
  }

  /** The operation codes of the four commands (SCSI Primary Commands and Block Commands). */
  lemma OperationCodes(lba: uint32, blocks: uint16)
    ensures Read10Block(lba, blocks)[0] == 0x28
    ensures CommandBlock([INQUIRY, 0, 0, 0, 0x24])[0] == 0x12
    ensures CommandBlock([READ_CAPACITY_10])[0] == 0x25
    ensures CommandBlock([REQUEST_SENSE, 0, 0, 0, 18])[0] == 0x03
  {
  }

  /** INQUIRY, READ CAPACITY and REQUEST SENSE reach the device as the commands they are meant to be. */
  lemma SmallCommandsDecode(units: seq<LogicalUnit>, lun: byte, length: uint32)
    requires lun < |units|
    ensures Answer(units, Cbw(length, lun, 6, CommandBlock([INQUIRY, 0, 0, 0, 0x24]))) ==
        UpTo(units[lun].inquiry, 0x24)
    ensures Answer(units, Cbw(length, lun, 12, CommandBlock([READ_CAPACITY_10]))) == Capacity(units[lun])
    ensures Answer(units, Cbw(length, lun, 6, CommandBlock([REQUEST_SENSE, 0, 0, 0, 18]))) ==
        UpTo(units[lun].sense, 18)
  {
    CommandByte(length, lun, 6, CommandBlock([INQUIRY, 0, 0, 0, 0x24]));
    CommandByte(length, lun, 12, CommandBlock([READ_CAPACITY_10]));
    CommandByte(length, lun, 6, CommandBlock([REQUEST_SENSE, 0, 0, 0, 18]));
  }

  lemma CommandByte(length: uint32, lun: byte, commandLength: byte, command: seq<byte>)
    requires |command| == 16
    ensures var cbw := Cbw(length, lun, commandLength, command);
      && cbw[13] == lun && cbw[15] == command[0] && cbw[19] == command[4]
      && BE16(cbw[18..20]) == BE16(command[3..5])
  {
    var cbw := Cbw(length, lun, commandLength, command);
    CbwFields(length, lun, commandLength, command);
    assert cbw[15] == cbw[15..][0] && cbw[19] == cbw[15..][4] && cbw[18] == cbw[15..][3];
  }

  // ---------------------------------------------------------------------------
  // One conversation
  // ---------------------------------------------------------------------------

  /** The three transfers of a command. */
  datatype Plan = Plan(out: Transfer, data: Transfer, status: Transfer)

  /** What the bus does during each of them. */
  datatype Weather = Weather(out: seq<Fault>, data: seq<Fault>, status: seq<Fault>)

  function AfterCommand(s: Sys, p: Plan, w: Weather): Sys {
    Perform(s, p.out, w.out)
  }

  function AfterData(s: Sys, p: Plan, w: Weather): Sys {
    Perform(AfterCommand(s, p, w), p.data, w.data)
  }

  /** The status wrapper's memory is cleared before the device is asked for it. */
  function Cleared(s: Sys, at: nat): Sys {
    if at + CSW_LENGTH <= |s.ram| then s.(ram := Splice(s.ram, at, Zeros(CSW_LENGTH))) else s
  }

  function BeforeStatus(s: Sys, p: Plan, w: Weather): Sys {
    Cleared(AfterData(s, p, w), p.status.buffer)
  }

  function AfterStatus(s: Sys, p: Plan, w: Weather): Sys {
    Perform(BeforeStatus(s, p, w), p.status, w.status)
  }

  ghost predicate Planned(s: Sys, p: Plan, outMps: nat, cbw: seq<byte>) {
    && s.dev.phase == Idle([])
    && CanWrite(p.out, outMps, Writing(s.dev, s.ram, cbw))
    && ReadsInto(p.data, s.dev, s.ram) && p.data.toggle == s.dev.inToggle
    && ReadsInto(p.status, s.dev, s.ram) && p.status.toggle == ToggleAt(p.data.toggle, |p.data.list|)
    && Length(p.data) == LE32(cbw[8..12]) && Length(p.status) == CSW_LENGTH
    && (p.status.buffer + CSW_LENGTH <= p.data.buffer || p.data.buffer + Length(p.data) <= p.status.buffer)
  }

  ghost predicate ReadsInto(t: Transfer, dev: Device, ram: seq<byte>) {
    && Tiled(t, dev.packetSize) && t.pid == InPid && t.toggle < 2
    && t.address == dev.address && t.endpoint == dev.inEndpoint
    && t.buffer + Length(t) <= |ram|
  }

  /** The status wrapper in memory carries the right signature and reports success. */
  predicate Vouches(ram: seq<byte>, at: nat) {
    at + CSW_LENGTH <= |ram| && LE32(ram[at..at + 4]) == CSW_SIGNATURE && ram[at + 12] == 0
  }

  /** The conversation as a whole returns SUCCESS. */
  ghost predicate Succeeds(s: Sys, p: Plan, w: Weather) {
    && Accepted(AfterCommand(s, p, w), p.out)
    && Accepted(AfterData(s, p, w), p.data)
    && Accepted(AfterStatus(s, p, w), p.status)
    && Vouches(AfterStatus(s, p, w).ram, p.status.buffer)
  }

  /** What a device makes of a whole wrapper. */
  function Reaction(dev: Device, cbw: seq<byte>): Phase {
    Execute(dev.units, dev.verdict, cbw)
  }

  // ---------------------------------------------------------------------------
  // The three phases
  // ---------------------------------------------------------------------------

  lemma CarriedDone(t: Transfer, mps: nat, w: Writing, s: Sys, k: nat, d: nat, failed: bool)
    requires Progress(t.base, t.list, s, k, failed) && Carried(t, mps, w, s, k, d)
    ensures LastDone(Unpublish(s), t) <==> k == |t.list| || (failed && k == |t.list| - 1)
    ensures k == |t.list| ==> Accepted(Unpublish(s), t)
  {
    hide Progress, Execute;
    LastSeen(t, mps, s, k, failed);
    if k == |t.list| {
      FirstSize(t, mps, k);
      assert s.tds[Addr(t.base, 0)].actualLength == LengthField(Sizes(t, mps, k)[0]);
    }
  }

  lemma {:induction false} FirstSize(t: Transfer, mps: nat, k: nat)
    requires Tiled(t, mps) && 0 < k <= |t.list|
    ensures 0 < Sizes(t, mps, k)[0] < 0x800
  {
    assert Tile(t, mps, 0);
    if k > 1 {
      FirstSize(t, mps, k - 1);
    }
  }

  lemma BegunCarried(s: Sys, t: Transfer, mps: nat, cbw: seq<byte>)
    requires s.dev.phase == Idle([]) && CanWrite(t, mps, Writing(s.dev, s.ram, cbw))
    ensures var s0 := Publish(s, t.base, t.list);
      Progress(t.base, t.list, s0, 0, false) && Carried(t, mps, Writing(s.dev, s.ram, cbw), s0, 0, 0)
  {
    PublishedProgress(t.base, t.list, s);
    CutsAt(t, mps, 0);
    assert cbw[..0] == [];
  }

  /** An OUT transfer of a whole command wrapper to an idle device in step: the device acts exactly if it has all `d`
      packets of it. */
  lemma WritingPhase(s: Sys, t: Transfer, mps: nat, cbw: seq<byte>, fs: seq<Fault>) returns (d: nat)
    requires s.dev.phase == Idle([]) && CanWrite(t, mps, Writing(s.dev, s.ram, cbw))
    ensures var s1 := Perform(s, t, fs);
      && d <= |t.list| && s1.ram == s.ram
      && s1.dev == s.dev.(outToggle := ToggleAt(t.toggle, d), phase := s1.dev.phase)
      && (if d == |t.list| then s1.dev.phase == Reaction(s.dev, cbw) else s1.dev.phase.Idle?)
      && (AllClear(fs) && |fs| >= |t.list| ==> d == |t.list| && Accepted(s1, t))
      && (AllClear(fs) && LastDone(s1, t) ==> |fs| >= |t.list|)
  {
    hide Execute, Run, Publish, Progress, LastDone, Accepted;
    var w := Writing(s.dev, s.ram, cbw);
    var s0 := Publish(s, t.base, t.list);
    BegunCarried(s, t, mps, cbw);
    var k, failed;
    k, d, failed := WriteRun(t, mps, w, s0, 0, 0, false, fs);
    CarriedDone(t, mps, w, Run(s0, fs), k, d, failed);
    ClearIsHeard(fs);
  }

  lemma ClearIsHeard(fs: seq<Fault>)
    ensures AllClear(fs) ==> Heard(fs)
  {
  }

  /** The device's stream as the data transfer meets it, and as the status transfer does. */
  function DataStream(s: Sys, p: Plan, w: Weather): Stream {
    Stream(AfterCommand(s, p, w).dev, AfterCommand(s, p, w).ram)
  }

  function StatusStream(s: Sys, p: Plan, w: Weather): Stream {
    Stream(AfterCommand(s, p, w).dev, BeforeStatus(s, p, w).ram)
  }

  lemma CommandPhase(s: Sys, p: Plan, outMps: nat, cbw: seq<byte>, w: Weather) returns (d: nat)
    requires Planned(s, p, outMps, cbw)
    ensures var s1 := AfterCommand(s, p, w);
      && d <= |p.out.list| && s1.ram == s.ram
      && s1.dev == s.dev.(outToggle := ToggleAt(p.out.toggle, d), phase := s1.dev.phase)
      && (if d == |p.out.list| then s1.dev.phase == Reaction(s.dev, cbw) else s1.dev.phase.Idle?)
    ensures Begins(p.data, DataStream(s, p, w), 0, AfterCommand(s, p, w), 0)
  {
    hide Execute, Perform, Tiled;
    d := WritingPhase(s, p.out, outMps, cbw, w.out);
  }

  lemma DataPhase(s: Sys, p: Plan, outMps: nat, cbw: seq<byte>, w: Weather) returns (k: nat, d: nat, failed: bool)
    requires Planned(s, p, outMps, cbw)
    ensures Following(p.data, DataStream(s, p, w), 0, AfterData(s, p, w), k, d)
    ensures Seen(p.data, DataStream(s, p, w), 0, AfterData(s, p, w), k, failed)
  {
    hide Execute, Perform, Tiled, Begins, Following, Seen;
    var _ := CommandPhase(s, p, outMps, cbw, w);
    k, d, failed := TransferFollows(p.data, DataStream(s, p, w), 0, AfterCommand(s, p, w), 0, w.data);
  }

  /** Wherever the data transfer has left the device, the status transfer begins in step with it, or one packet behind,
      if it expects the toggle of packet `b`. */
  lemma StatusBegins(s: Sys, p: Plan, outMps: nat, cbw: seq<byte>, w: Weather, k: nat, d: nat, b: nat)
    requires Planned(s, p, outMps, cbw) && d <= b <= d + 1
    requires Following(p.data, DataStream(s, p, w), 0, AfterData(s, p, w), k, d)
    requires b % 2 == |p.data.list| % 2
    ensures Begins(p.status, StatusStream(s, p, w), b, BeforeStatus(s, p, w), d)
    ensures StatusStream(s, p, w).ram == Splice(AfterData(s, p, w).ram, p.status.buffer, Zeros(CSW_LENGTH))
    ensures |AfterData(s, p, w).ram| == |s.ram|
  {
    hide Execute, Perform, Tiled, Splice, ToggleAt, Due;
    var _ := CommandPhase(s, p, outMps, cbw, w);
    SameParity(s.dev.inToggle, b, |p.data.list|);
    StreamsAgree(s, p, w, d);
  }

  lemma SameParity(toggle: nat, b: nat, n: nat)
    requires b % 2 == n % 2
    ensures ToggleAt(toggle, b) == ToggleAt(toggle, n)
  {
  }

  lemma StatusPhase(s: Sys, p: Plan, outMps: nat, cbw: seq<byte>, w: Weather, k: nat, d: nat, b: nat)
      returns (k': nat, d': nat, failed: bool)
    requires Planned(s, p, outMps, cbw) && d <= b <= d + 1
    requires Following(p.data, DataStream(s, p, w), 0, AfterData(s, p, w), k, d)
    requires b % 2 == |p.data.list| % 2
    ensures Following(p.status, StatusStream(s, p, w), b, AfterStatus(s, p, w), k', d')
    ensures Seen(p.status, StatusStream(s, p, w), b, AfterStatus(s, p, w), k', failed)
    ensures var s3 := Publish(BeforeStatus(s, p, w), p.status.base, p.status.list);
      k' == |p.status.list| ==> (d' == b + k' <==> LastHeard(s3, p.status, w.status))
    ensures k' == 0 ==> !Vouches(AfterStatus(s, p, w).ram, p.status.buffer)
  {
    hide Execute, Perform, Tiled, Begins, Seen, Splice, LastHeard, Publish, Planned, Vouches;
    StatusBegins(s, p, outMps, cbw, w, k, d, b);
    k', d', failed := TransferFollows(p.status, StatusStream(s, p, w), b, BeforeStatus(s, p, w), d, w.status);
    if k' == 0 {
      StatusFits(s, p, outMps, cbw, w, k, d);
      BlankStatusDoesNotVouch(AfterData(s, p, w).ram, p.status.buffer);
    }
  }

  lemma StatusFits(s: Sys, p: Plan, outMps: nat, cbw: seq<byte>, w: Weather, k: nat, d: nat)
    requires Planned(s, p, outMps, cbw) && Following(p.data, DataStream(s, p, w), 0, AfterData(s, p, w), k, d)
    ensures p.status.buffer + CSW_LENGTH <= |s.ram| == |AfterData(s, p, w).ram|
  {
    hide Execute, Perform, Tiled;
    var _ := CommandPhase(s, p, outMps, cbw, w);
  }

  lemma BlankStatusDoesNotVouch(ram: seq<byte>, at: nat)
    requires at + CSW_LENGTH <= |ram|
    ensures !Vouches(Splice(ram, at, Zeros(CSW_LENGTH)), at)
  {
    var r := Splice(ram, at, Zeros(CSW_LENGTH));
    assert r[at..at + 4] == [0, 0, 0, 0];
  }

  /** If the device cannot get a first packet through in the status phase, the signature check fails. */
  lemma RefusedStatusFails(s: Sys, t: Transfer, mps: nat, fs: seq<Fault>)
    requires Tiled(t, mps) && t.pid == InPid && OnBulk(InPid, t.endpoint, s.dev) && Refused(t.list[0], s.dev)
    requires t.buffer + CSW_LENGTH <= |s.ram|
    ensures !Vouches(Perform(Cleared(s, t.buffer), t, fs).ram, t.buffer)
  {
    hide Perform, Tiled, Vouches, Splice;
    RefusedTransfer(Cleared(s, t.buffer), t, mps, fs);
    BlankStatusDoesNotVouch(s.ram, t.buffer);
  }

  // ---------------------------------------------------------------------------
  // What success needs
  // ---------------------------------------------------------------------------

  /** A conversation that succeeds has its wrapper complete and the device acting on it. */
  lemma SuccessNeedsAction(s: Sys, p: Plan, outMps: nat, cbw: seq<byte>, w: Weather)
    requires Planned(s, p, outMps, cbw) && Succeeds(s, p, w)
    ensures AfterCommand(s, p, w).dev ==
        s.dev.(outToggle := ToggleAt(p.out.toggle, |p.out.list|), phase := Reaction(s.dev, cbw))
    ensures AfterCommand(s, p, w).ram == s.ram
    ensures Offers(Reaction(s.dev, cbw))
  {
    hide Execute, Perform, Tiled, Vouches, Accepted;
    var d := CommandPhase(s, p, outMps, cbw, w);
    var s1 := AfterCommand(s, p, w);
    if !Offers(s1.dev.phase) {
      PlannedLists(s, p, outMps, cbw);
      RefusedTransfer(s1, p.data, s.dev.packetSize, w.data);
      RefusedStatusFails(AfterData(s, p, w), p.status, s.dev.packetSize, w.status);
    }
  }

  lemma PlannedLists(s: Sys, p: Plan, outMps: nat, cbw: seq<byte>)
    requires Planned(s, p, outMps, cbw)
    ensures |p.data.list| > 0 && |p.data.cuts| == |p.data.list| + 1 && |p.status.list| > 0
    ensures |p.status.cuts| == |p.status.list| + 1 && s.dev.packetSize > 0 && |cbw| == CBW_LENGTH
    ensures Length(p.data) == LE32(cbw[8..12]) && Length(p.status) == CSW_LENGTH
  {
    hide Execute;
    assert Tile(p.data, s.dev.packetSize, 0);
  }

  lemma StatusIsOnePacket(t: Transfer, mps: nat)
    requires Tiled(t, mps) && Length(t) == CSW_LENGTH <= mps
    ensures |t.list| == 1
  {
    assert Tile(t, mps, 0);
  }

  /** No packet of the status transfer is longer than the wrapper. */
  lemma FirstStatusPacket(t: Transfer, mps: nat)
    requires Tiled(t, mps) && Length(t) == CSW_LENGTH
    ensures |t.list| > 0 && |t.cuts| == |t.list| + 1 && t.cuts[0] == 0
    ensures FieldBytes(t.list[0].maxLength) == PacketSize(t, 0) == if mps <= CSW_LENGTH then mps else CSW_LENGTH
  {
    assert Tile(t, mps, 0);
    if |t.list| > 1 {
      CutsAt(t, mps, 1);
    }
  }

  /** The bytes of the last data packet. */
  function LastPacket(t: Transfer): int
    requires |t.cuts| >= 2
  {
    PacketSize(t, |t.cuts| - 2)
  }

  /** The error bits of two descriptors, which the driver never reads, are clear where they matter. */
  ghost predicate ErrorBitsClear(s: Sys, p: Plan, cbw: seq<byte>, w: Weather)
    requires |p.data.cuts| >= 2
  {
    && (Errored(AfterData(s, p, w), p.data) ==> Reaction(s.dev, cbw).Sending? && LastPacket(p.data) > CSW_LENGTH)
    && (Errored(AfterStatus(s, p, w), p.status) ==> s.dev.packetSize >= CSW_LENGTH)
  }

  lemma NoPacketIsShorter(t: Transfer, mps: nat, i: nat)
    requires Tiled(t, mps) && i < |t.list|
    ensures |t.cuts| >= 2 && |t.cuts| == |t.list| + 1 && PacketSize(t, i) >= LastPacket(t)
    ensures i + 1 < |t.list| ==> PacketSize(t, i) == mps
  {
    assert Tile(t, mps, i) && Tile(t, mps, |t.list| - 1);
  }

  /** In a full answer every packet is at least as long as the last one. */
  lemma LaterPacketsAreLong(t: Transfer, r: Stream, data: seq<byte>, next: Phase, d: nat)
    requires Awaits(t, r, 0) && Due(r, 0) == Sending(data, next) && |data| == Length(t) && d < |t.list|
    ensures |t.cuts| >= 2 && Offers(Due(r, d)) && |PacketAt(r, d)| >= LastPacket(t)
    ensures d + 1 < |t.list| ==> |PacketAt(r, d)| == r.dev.packetSize
  {
    hide Laid, Placed, Splice, Due, PacketAt, PacketSize, LastPacket;
    SendingAlong(t, r, 0, data, next, d);
    NoPacketIsShorter(t, r.dev.packetSize, d);
    CutsAt(t, r.dev.packetSize, d);
  }

  lemma LongPacketFailsStatus(s: Sys, p: Plan, outMps: nat, cbw: seq<byte>, w: Weather, d: nat)
    requires Planned(s, p, outMps, cbw) && AfterData(s, p, w).dev == Acked(DataStream(s, p, w), d)
    requires Offers(Due(DataStream(s, p, w), d)) && |PacketAt(DataStream(s, p, w), d)| > CSW_LENGTH
    requires |AfterData(s, p, w).ram| == |s.ram|
    ensures !Vouches(AfterStatus(s, p, w).ram, p.status.buffer)
  {
    hide Execute, Perform, Vouches;
    FirstStatusPacket(p.status, s.dev.packetSize);
    var _ := CommandPhase(s, p, outMps, cbw, w);
    RefusedStatusFails(AfterData(s, p, w), p.status, s.dev.packetSize, w.status);
  }

  /** A device that acts sends data and then a status wrapper. What it sends is its answer, filled up if it pads; it is
      as long as expected unless the device ends short. */
  lemma ReactionShape(dev: Device, cbw: seq<byte>) returns (given: seq<byte>, csw: seq<byte>)
    requires |cbw| == CBW_LENGTH && Offers(Reaction(dev, cbw))
    ensures dev.verdict.Acts? && given == Given(dev.units, dev.verdict.obeys, cbw)
    ensures |csw| == CSW_LENGTH && LE32(csw[..4]) == CSW_SIGNATURE
    ensures csw[12] == Status(given, LE32(cbw[8..12]))
    ensures Reaction(dev, cbw).Sending? ==>
      var length := LE32(cbw[8..12]);
      && Reaction(dev, cbw).next == Sending(csw, Idle([])) && |Reaction(dev, cbw).rest| == length
      && Reaction(dev, cbw).rest == (if |given| >= length then given[..length] else Filled(given, length))
      && (|given| < length ==> dev.verdict.shortfall == Pads)
    ensures Reaction(dev, cbw).Ending? ==>
      && |given| < LE32(cbw[8..12]) && dev.verdict.shortfall != Pads && Reaction(dev, cbw).rest == given
      && Reaction(dev, cbw).next == (if dev.verdict.shortfall == EndsShort then Sending(csw, Idle([])) else Halted)
  {
    hide Answer;
    var length := LE32(cbw[8..12]);
    given := Given(dev.units, dev.verdict.obeys, cbw);
    csw := Csw(cbw[4..8], if |given| < length then length - |given| else 0, Status(given, length));
    LoadStore32(CSW_SIGNATURE);
    assert csw[..4] == ToLE32(CSW_SIGNATURE);
  }

  /** The data phase of a conversation that succeeds has filled every descriptor. */
  lemma DataCompletes(s: Sys, p: Plan, outMps: nat, cbw: seq<byte>, w: Weather) returns (d: nat)
    requires Planned(s, p, outMps, cbw) && |p.data.cuts| >= 2 && Succeeds(s, p, w) && ErrorBitsClear(s, p, cbw, w)
    ensures Following(p.data, DataStream(s, p, w), 0, AfterData(s, p, w), |p.data.list|, d)
    ensures PacketAt(DataStream(s, p, w), 0) != []
  {
    hide Execute, Perform, Tiled, Vouches, LastDone, Due, PacketAt, Laid, PacketLengths, Placed;
    var k, failed;
    k, d, failed := DataPhase(s, p, outMps, cbw, w);
    SuccessNeedsAction(s, p, outMps, cbw, w);
    PlannedLists(s, p, outMps, cbw);
    if k < |p.data.list| {
      DataErrorIsCaught(s, p, outMps, cbw, w, k, d);
    }
  }

  lemma DataErrorIsCaught(s: Sys, p: Plan, outMps: nat, cbw: seq<byte>, w: Weather, k: nat, d: nat)
    requires Planned(s, p, outMps, cbw) && |p.data.cuts| == |p.data.list| + 1 && |p.data.list| > 0
    requires k == |p.data.list| - 1
    requires AfterCommand(s, p, w).dev.phase == Reaction(s.dev, cbw) && Reaction(s.dev, cbw).Sending?
    requires LastPacket(p.data) > CSW_LENGTH && Following(p.data, DataStream(s, p, w), 0, AfterData(s, p, w), k, d)
    ensures !Vouches(AfterStatus(s, p, w).ram, p.status.buffer)
  {
    hide Execute, Perform, Tiled, Vouches, PacketAt, Laid, PacketLengths, Placed;
    var r := DataStream(s, p, w);
    var given, csw := ReactionShape(s.dev, cbw);
    LaterPacketsAreLong(p.data, r, r.dev.phase.rest, r.dev.phase.next, d);
    StatusFits(s, p, outMps, cbw, w, k, d);
    LongPacketFailsStatus(s, p, outMps, cbw, w, d);
  }

  /** So has the status phase, and the device stands at the packet after that. */
  lemma StatusCompletes(s: Sys, p: Plan, outMps: nat, cbw: seq<byte>, w: Weather, d: nat) returns (d': nat)
    requires Planned(s, p, outMps, cbw) && |p.data.cuts| >= 2 && Succeeds(s, p, w) && ErrorBitsClear(s, p, cbw, w)
    requires Following(p.data, DataStream(s, p, w), 0, AfterData(s, p, w), |p.data.list|, d)
    ensures Following(p.status, StatusStream(s, p, w), |p.data.list|, AfterStatus(s, p, w), |p.status.list|, d')
    ensures d' == |p.data.list| + |p.status.list| <==>
      LastHeard(Publish(BeforeStatus(s, p, w), p.status.base, p.status.list), p.status, w.status)
  {
    hide Execute, Perform, Vouches, LastDone, Following, LastHeard, Publish;
    WithinList(p.data, DataStream(s, p, w), 0, AfterData(s, p, w), |p.data.list|, d);
    var n := |p.data.list|;
    var k, failed;
    DataPosition(s, p, w, d);
    k, d', failed := StatusPhase(s, p, outMps, cbw, w, n, d, n);
    if k < |p.status.list| {
      StatusIsOnePacket(p.status, s.dev.packetSize);
    }
  }

  lemma DataPosition(s: Sys, p: Plan, w: Weather, d: nat)
    requires Following(p.data, DataStream(s, p, w), 0, AfterData(s, p, w), |p.data.list|, d)
    ensures d <= |p.data.list| <= d + 1
  {
  }

  // ---------------------------------------------------------------------------
  // What success is worth
  // ---------------------------------------------------------------------------

  /** The device's answer is at the start of the buffer. A device that pads has filled the rest of it with zeros;
      otherwise nothing else in memory but the status wrapper has changed. */
  ghost predicate Delivered(s: Sys, p: Plan, cbw: seq<byte>, ram: seq<byte>)
    requires |cbw| == CBW_LENGTH && p.data.cuts != []
  {
    var answer, at, length := Answer(s.dev.units, cbw), p.data.buffer, Length(p.data);
    && s.dev.verdict.Acts? && 0 < |answer| <= length && at + length <= |s.ram| == |ram|
    && ram[at..at + |answer|] == answer
    && (forall a :: at + |answer| <= a < at + length ==>
          ram[a] == if s.dev.verdict.shortfall.Pads? then 0 else s.ram[a])
    && (forall a :: 0 <= a < |ram| && !(at <= a < at + length) && !(p.status.buffer <= a < p.status.buffer + CSW_LENGTH)
          ==> ram[a] == s.ram[a])
  }

  /** The buffer holds the device's answer, all of it. */
  ghost predicate Fulfilled(s: Sys, p: Plan, cbw: seq<byte>, ram: seq<byte>)
    requires |cbw| == CBW_LENGTH && p.data.cuts != []
  {
    Delivered(s, p, cbw, ram) && |Answer(s.dev.units, cbw)| == Length(p.data)
  }

  /** The device waits for its next command, in step with the driver. */
  ghost predicate AtRest(s: Sys, p: Plan, dev: Device) {
    dev == s.dev.(inToggle := ToggleAt(p.status.toggle, |p.status.list|),
                  outToggle := ToggleAt(p.out.toggle, |p.out.list|))
  }

  /** The device has not heard that its last packet arrived, and is about to repeat it. */
  ghost predicate OneBehind(s: Sys, p: Plan, dev: Device) {
    && dev == s.dev.(inToggle := dev.inToggle, outToggle := ToggleAt(p.out.toggle, |p.out.list|), phase := dev.phase)
    && Flip(dev.inToggle) == ToggleAt(p.status.toggle, |p.status.list|) && dev.inToggle < 2
    && EndsWrapper(dev.phase, dev.packetSize)
  }

  /** All the device has left to send is the last packet of a status wrapper. */
  predicate EndsWrapper(phase: Phase, packetSize: nat) {
    && phase.Sending? && 0 < |phase.rest| <= CSW_LENGTH && |phase.rest| <= packetSize && phase.next == Idle([])
  }

  /** Nothing in the conversation tells the driver that the answer is shorter than it asked for: the device pads, or it
      ends with a short packet in the last descriptor. */
  predicate Unnoticed(dev: Device, given: seq<byte>, packets: nat)
    requires dev.packetSize > 0
  {
    && dev.verdict.Acts?
    && (dev.verdict.shortfall == Pads
        || (dev.verdict.shortfall == EndsShort && EndingPackets(given, dev.packetSize) == packets))
  }

  /** The status transfer takes the status wrapper, once the device has come to it. */
  lemma StatusArrives(p: Plan, r: Stream, b: nat, s: Sys, d: nat, csw: seq<byte>)
    requires Following(p.status, r, b, s, |p.status.list|, d) && Due(r, b) == Sending(csw, Idle([]))
    requires |csw| == CSW_LENGTH == Length(p.status) && LE32(csw[..4]) == CSW_SIGNATURE
    ensures s.ram == Splice(r.ram, p.status.buffer, csw)
    ensures Vouches(s.ram, p.status.buffer) <==> csw[12] == 0
    ensures |p.status.list| > 0 && Due(r, b + |p.status.list|) == Idle([])
    ensures EndsWrapper(Due(r, b + |p.status.list| - 1), r.dev.packetSize)
  {
    hide Due, Splice, Vouches, Following, Tiled;
    WithinList(p.status, r, b, s, |p.status.list|, d);
    FollowingIsLinked(p.status, r, b, s, |p.status.list|, d);
    WholeAnswerIsLaid(p.status, r, b, s, d, csw, Idle([]));
    LastOfWrapper(p.status, r, b, csw);
    StoredStatusVouches(r.ram, p.status.buffer, csw);
  }

  lemma LastOfWrapper(t: Transfer, r: Stream, b: nat, csw: seq<byte>)
    requires Tiled(t, r.dev.packetSize) && Due(r, b) == Sending(csw, Idle([])) && |csw| == CSW_LENGTH == Length(t)
    ensures |t.list| > 0 && EndsWrapper(Due(r, b + |t.list| - 1), r.dev.packetSize)
  {
    hide Due;
    SendingEnds(t, r, csw, Idle([]), b, |t.list| - 1);
    CutsAt(t, r.dev.packetSize, |t.list| - 1);
    assert Tile(t, r.dev.packetSize, |t.list| - 1);
  }

  lemma StoredStatusVouches(ram: seq<byte>, at: nat, csw: seq<byte>)
    requires |csw| == CSW_LENGTH && at + CSW_LENGTH <= |ram| && LE32(csw[..4]) == CSW_SIGNATURE
    ensures Vouches(Splice(ram, at, csw), at) <==> csw[12] == 0
  {
    assert Splice(ram, at, csw)[at..at + 4] == csw[..4];
  }

  lemma PlannedToggle(s: Sys, p: Plan, outMps: nat, cbw: seq<byte>)
    requires Planned(s, p, outMps, cbw)
    ensures s.dev.inToggle == p.data.toggle < 2 && s.dev.phase == Idle([])
    ensures p.status.toggle == ToggleAt(s.dev.inToggle, |p.data.list|)
  {
    hide Execute, CanWrite;
  }

  /** Where the device stands at the end, if it counts `d` packets. */
  lemma EndsAtRest(s: Sys, p: Plan, r: Stream, dev: Device, d: nat)
    requires s.dev.phase == Idle([]) && s.dev.inToggle < 2 && p.status.toggle == ToggleAt(s.dev.inToggle, |p.data.list|)
    requires r.dev == s.dev.(outToggle := ToggleAt(p.out.toggle, |p.out.list|), phase := r.dev.phase)
    requires |p.status.list| > 0
    requires var end := |p.data.list| + |p.status.list|;
      && dev == Acked(r, d) && d <= end <= d + 1 && Due(r, end) == Idle([])
      && EndsWrapper(Due(r, end - 1), r.dev.packetSize)
    ensures AtRest(s, p, dev) <==> d == |p.data.list| + |p.status.list|
    ensures AtRest(s, p, dev) || OneBehind(s, p, dev)
  {
    hide Due, ToggleAt;
    FlipIsNext(s.dev.inToggle, d);
    ToggleShift(s.dev.inToggle, |p.data.list|, |p.status.list|);
    ToggleIsBit(s.dev.inToggle, d);
  }

  lemma ToggleIsBit(toggle: nat, k: nat)
    ensures ToggleAt(toggle, k) < 2
  {
  }

  /** Of a conversation that succeeds, with the error bits clear: the device has sent its whole stream. */
  lemma StreamIsOver(s: Sys, p: Plan, outMps: nat, cbw: seq<byte>, w: Weather) returns (d: nat, d': nat)
    requires Planned(s, p, outMps, cbw) && |p.data.cuts| >= 2 && Succeeds(s, p, w) && ErrorBitsClear(s, p, cbw, w)
    ensures Following(p.data, DataStream(s, p, w), 0, AfterData(s, p, w), |p.data.list|, d)
    ensures Following(p.status, StatusStream(s, p, w), |p.data.list|, AfterStatus(s, p, w), |p.status.list|, d')
    ensures d' == |p.data.list| + |p.status.list| <==>
      LastHeard(Publish(BeforeStatus(s, p, w), p.status.base, p.status.list), p.status, w.status)
    ensures PacketAt(DataStream(s, p, w), 0) != [] && Vouches(AfterStatus(s, p, w).ram, p.status.buffer)
    ensures DataStream(s, p, w) == Stream(s.dev.(outToggle := ToggleAt(p.out.toggle, |p.out.list|),
                                                 phase := Reaction(s.dev, cbw)), s.ram)
    ensures Offers(Reaction(s.dev, cbw))
  {
    hide Execute, Perform, Vouches, Accepted, Following, LastHeard, Publish, Due, PacketAt, ErrorBitsClear, Planned;
    SuccessNeedsAction(s, p, outMps, cbw, w);
    d := DataCompletes(s, p, outMps, cbw, w);
    d' := StatusCompletes(s, p, outMps, cbw, w, d);
  }

  lemma DueNow(r: Stream)
    ensures Due(r, 0) == r.dev.phase
  {
  }

  lemma StreamsAgree(s: Sys, p: Plan, w: Weather, i: nat)
    ensures Due(StatusStream(s, p, w), i) == Due(DataStream(s, p, w), i)
    ensures StatusStream(s, p, w).dev == DataStream(s, p, w).dev
  {
  }

  /** A full answer: all of it is in the buffer, and the status is the device's. */
  lemma FullAnswerArrives(s: Sys, p: Plan, outMps: nat, cbw: seq<byte>, w: Weather, d: nat, d': nat)
    requires Planned(s, p, outMps, cbw) && |p.data.cuts| >= 2 && Reaction(s.dev, cbw).Sending?
    requires Following(p.data, DataStream(s, p, w), 0, AfterData(s, p, w), |p.data.list|, d)
    requires Following(p.status, StatusStream(s, p, w), |p.data.list|, AfterStatus(s, p, w), |p.status.list|, d')
    requires DataStream(s, p, w).dev.phase == Reaction(s.dev, cbw) && DataStream(s, p, w).ram == s.ram
    ensures Arrived(s, p, w, Reaction(s.dev, cbw).rest) && s.dev.verdict.Acts?
    ensures Vouches(AfterStatus(s, p, w).ram, p.status.buffer) <==>
      Status(Given(s.dev.units, s.dev.verdict.obeys, cbw), Length(p.data)) == PASSED
  {
    hide Execute, Perform, Vouches, Due, Splice, Following, Planned;
    PlannedLists(s, p, outMps, cbw);
    var r, n := DataStream(s, p, w), |p.data.list|;
    var given, csw := ReactionShape(s.dev, cbw);
    var data := Reaction(s.dev, cbw).rest;
    DueNow(r);
    WholeAnswerIsLaid(p.data, r, 0, AfterData(s, p, w), d, data, Sending(csw, Idle([])));
    StreamsAgree(s, p, w, n);
    StatusArrives(p, StatusStream(s, p, w), n, AfterStatus(s, p, w), d', csw);
    StreamsAgree(s, p, w, n + |p.status.list|);
    StatusFits(s, p, outMps, cbw, w, n, d);
  }

  /** The data transfer has stored `data` and then the status transfer a wrapper, and the device has nothing left to
      send but perhaps a repeat. */
  ghost predicate Arrived(s: Sys, p: Plan, w: Weather, data: seq<byte>) {
    && p.data.buffer + |data| <= |s.ram| && p.status.buffer + CSW_LENGTH <= |s.ram|
    && (exists csw: seq<byte> :: |csw| == CSW_LENGTH && AfterStatus(s, p, w).ram ==
          Splice(Splice(Splice(s.ram, p.data.buffer, data), p.status.buffer, Zeros(CSW_LENGTH)), p.status.buffer, csw))
    && var r, end := StatusStream(s, p, w), |p.data.list| + |p.status.list|;
    && end > 0 && Due(r, end) == Idle([]) && EndsWrapper(Due(r, end - 1), r.dev.packetSize)
  }

  /** Storing data and then a status wrapper elsewhere leaves both in place and the rest of memory alone. */
  lemma SplicedApart(ram: seq<byte>, a: nat, data: seq<byte>, b: nat, blank: seq<byte>, csw: seq<byte>)
    requires a + |data| <= |ram| && b + |csw| <= |ram| && |blank| == |csw|
    requires b + |csw| <= a || a + |data| <= b
    ensures var r := Splice(Splice(Splice(ram, a, data), b, blank), b, csw);
      && r[a..a + |data|] == data
      && forall i :: 0 <= i < |ram| && !(a <= i < a + |data|) && !(b <= i < b + |csw|) ==> r[i] == ram[i]
  {
  }

  /** The device had a packet for every descriptor of the two transfers. */
  lemma EveryPacketIsSent(s: Sys, p: Plan, w: Weather, d: nat, d': nat, i: nat)
    requires Following(p.data, DataStream(s, p, w), 0, AfterData(s, p, w), |p.data.list|, d)
    requires Following(p.status, StatusStream(s, p, w), |p.data.list|, AfterStatus(s, p, w), |p.status.list|, d')
    requires i < |p.data.list| + |p.status.list|
    ensures Offers(Due(DataStream(s, p, w), i))
  {
    hide Execute, Perform, Ahead, Laid, Lengths, PacketLengths;
    var n := |p.data.list|;
    if i < n {
      assert Fits(p.data, DataStream(s, p, w), 0, i);
    } else {
      assert Fits(p.status, StatusStream(s, p, w), n, i - n);
      StreamsAgree(s, p, w, i);
    }
  }

  /** After the status wrapper the device has nothing to send. */
  lemma StatusWrapperIsLast(s: Sys, p: Plan, outMps: nat, cbw: seq<byte>, r: Stream, m: nat, csw: seq<byte>)
    requires Planned(s, p, outMps, cbw) && r.dev.packetSize == s.dev.packetSize
    requires |csw| == CSW_LENGTH && Due(r, m) == Sending(csw, Idle([]))
    ensures Due(r, m + |p.status.list|) == Idle([])
  {
    hide Execute, CanWrite, Due;
    SendingEnds(p.status, r, csw, Idle([]), m, |p.status.list|);
  }

  lemma {:induction false} SendingEnds(t: Transfer, r: Stream, data: seq<byte>, next: Phase, m: nat, k: nat)
    requires Tiled(t, r.dev.packetSize) && Length(t) == |data| && Due(r, m) == Sending(data, next) && k <= |t.list|
    ensures t.cuts[k] <= |data| && Due(r, m + k) == if k == |t.list| then next else Sending(data[t.cuts[k]..], next)
    decreases k
  {
    hide Ahead;
    CutsAt(t, r.dev.packetSize, k);
    if k == 0 {
      assert data[0..] == data;
    } else {
      SendingEnds(t, r, data, next, m, k - 1);
      assert Tile(t, r.dev.packetSize, k - 1);
      SendsSlice(data, next, r.dev.packetSize, t.cuts[k - 1], t.cuts[k]);
      DueNext(r, m + k - 1);
    }
  }

  /** A short answer: its packets have just filled the descriptors. */
  lemma ShortAnswerArrives(s: Sys, p: Plan, outMps: nat, cbw: seq<byte>, w: Weather, d: nat, d': nat)
    requires Planned(s, p, outMps, cbw) && |p.data.cuts| >= 2 && Reaction(s.dev, cbw).Ending?
    requires Following(p.data, DataStream(s, p, w), 0, AfterData(s, p, w), |p.data.list|, d)
    requires Following(p.status, StatusStream(s, p, w), |p.data.list|, AfterStatus(s, p, w), |p.status.list|, d')
    requires DataStream(s, p, w).dev.phase == Reaction(s.dev, cbw) && DataStream(s, p, w).ram == s.ram
    requires DataStream(s, p, w).dev.packetSize == s.dev.packetSize > 0 && |p.status.list| > 0
    ensures Arrived(s, p, w, Reaction(s.dev, cbw).rest) && s.dev.verdict.Acts?
    ensures Vouches(AfterStatus(s, p, w).ram, p.status.buffer) <==>
      Status(Given(s.dev.units, s.dev.verdict.obeys, cbw), Length(p.data)) == PASSED
    ensures EndingPackets(Reaction(s.dev, cbw).rest, s.dev.packetSize) == |p.data.list|
    ensures s.dev.verdict.shortfall == EndsShort
  {
    hide Execute, Perform, Vouches, Due, Splice, Following, Planned, EndingPackets;
    PlannedLists(s, p, outMps, cbw);
    var r, n := DataStream(s, p, w), |p.data.list|;
    var given, csw := ReactionShape(s.dev, cbw);
    var m, next := EndingPackets(given, s.dev.packetSize), Reaction(s.dev, cbw).next;
    DueNow(r);
    ShortAnswerIsLaid(p.data, r, 0, AfterData(s, p, w), d, given, next);
    EveryPacketIsSent(s, p, w, d, d', m);
    StatusWrapperIsLast(s, p, outMps, cbw, r, m, csw);
    if m < n {
      EveryPacketIsSent(s, p, w, d, d', m + |p.status.list|);
    }
    StreamsAgree(s, p, w, n);
    StatusArrives(p, StatusStream(s, p, w), n, AfterStatus(s, p, w), d', csw);
    StreamsAgree(s, p, w, n + |p.status.list|);
    StatusFits(s, p, outMps, cbw, w, n, d);
  }

  /** End to end: under every schedule and every fault, lost handshakes included, a conversation that returns SUCCESS
      has delivered the device's answer, provided the two error bits the driver does not read are clear where they
      matter. The answer is all that was asked for unless the device ends short unnoticed. The device is in step with
      the driver again exactly when it has heard the last handshake. */
  lemma SuccessIsSound(s: Sys, p: Plan, outMps: nat, cbw: seq<byte>, w: Weather)
    requires Planned(s, p, outMps, cbw) && |p.data.cuts| >= 2 && Succeeds(s, p, w) && ErrorBitsClear(s, p, cbw, w)
    ensures s.dev.verdict.Acts? && s.dev.verdict.obeys && s.dev.packetSize > 0
    ensures Delivered(s, p, cbw, AfterStatus(s, p, w).ram)
    ensures |Answer(s.dev.units, cbw)| == Length(p.data) || Unnoticed(s.dev, Answer(s.dev.units, cbw), |p.data.list|)
    ensures AtRest(s, p, AfterStatus(s, p, w).dev) <==>
      LastHeard(Publish(BeforeStatus(s, p, w), p.status.base, p.status.list), p.status, w.status)
    ensures AtRest(s, p, AfterStatus(s, p, w).dev) || OneBehind(s, p, AfterStatus(s, p, w).dev)
  {
    hide Execute, Answer, Perform, Vouches, Succeeds, Planned, ErrorBitsClear, Following, LastHeard, Publish, Arrived,
      Delivered, Splice, Due, AtRest, OneBehind, EndingPackets, PacketAt;
    PlannedLists(s, p, outMps, cbw);
    var d, d' := StreamIsOver(s, p, outMps, cbw, w);
    AnswerArrives(s, p, outMps, cbw, w, d, d');
    PassedNeedsVouching(s, p, w);
    ArrivedIsDelivered(s, p, outMps, cbw, w);
  }

  lemma PassedNeedsVouching(s: Sys, p: Plan, w: Weather)
    requires Succeeds(s, p, w)
    ensures Vouches(AfterStatus(s, p, w).ram, p.status.buffer)
  {
    hide Accepted, AfterStatus, Vouches;
  }

  /** The device has sent everything: where that leaves memory and device, whatever the status. */
  lemma AnswerArrives(s: Sys, p: Plan, outMps: nat, cbw: seq<byte>, w: Weather, d: nat, d': nat)
    requires Planned(s, p, outMps, cbw) && |p.data.cuts| >= 2 && Offers(Reaction(s.dev, cbw))
    requires Following(p.data, DataStream(s, p, w), 0, AfterData(s, p, w), |p.data.list|, d)
    requires Following(p.status, StatusStream(s, p, w), |p.data.list|, AfterStatus(s, p, w), |p.status.list|, d')
    requires DataStream(s, p, w) == Stream(s.dev.(outToggle := ToggleAt(p.out.toggle, |p.out.list|),
                                                  phase := Reaction(s.dev, cbw)), s.ram)
    ensures |cbw| == CBW_LENGTH && s.dev.packetSize > 0
    ensures Arrived(s, p, w, Reaction(s.dev, cbw).rest) && s.dev.verdict.Acts?
    ensures Vouches(AfterStatus(s, p, w).ram, p.status.buffer) <==>
      Status(Given(s.dev.units, s.dev.verdict.obeys, cbw), Length(p.data)) == PASSED
    ensures Reaction(s.dev, cbw).Ending? ==>
      EndingPackets(Reaction(s.dev, cbw).rest, s.dev.packetSize) == |p.data.list|
      && s.dev.verdict.shortfall == EndsShort
    ensures AtRest(s, p, AfterStatus(s, p, w).dev) <==> d' == |p.data.list| + |p.status.list|
    ensures AtRest(s, p, AfterStatus(s, p, w).dev) || OneBehind(s, p, AfterStatus(s, p, w).dev)
  {
    hide Execute, Answer, Perform, Vouches, Planned, Following, Arrived, Splice, Due, AtRest, OneBehind, EndingPackets;
    PlannedLists(s, p, outMps, cbw);
    if Reaction(s.dev, cbw).Sending? {
      FullAnswerArrives(s, p, outMps, cbw, w, d, d');
    } else {
      ShortAnswerArrives(s, p, outMps, cbw, w, d, d');
    }
    ArrivedIsAtRest(s, p, outMps, cbw, w, d');
  }

  /** All three transfers pass the driver's checks. */
  ghost predicate Completed(s: Sys, p: Plan, w: Weather) {
    && Accepted(AfterCommand(s, p, w), p.out)
    && Accepted(AfterData(s, p, w), p.data)
    && Accepted(AfterStatus(s, p, w), p.status)
  }

  /** No error bit is set on the last descriptors of the two transfers from the device. */
  ghost predicate Clean(s: Sys, p: Plan, w: Weather) {
    !Errored(AfterData(s, p, w), p.data) && !Errored(AfterStatus(s, p, w), p.status)
  }

  /** The data transfer has taken all its packets, so the device has acted on the wrapper. */
  lemma CompletedData(s: Sys, p: Plan, outMps: nat, cbw: seq<byte>, w: Weather) returns (d: nat)
    requires Planned(s, p, outMps, cbw) && LastDone(AfterData(s, p, w), p.data) && !Errored(AfterData(s, p, w), p.data)
    ensures Following(p.data, DataStream(s, p, w), 0, AfterData(s, p, w), |p.data.list|, d)
    ensures d <= |p.data.list| <= d + 1
    ensures DataStream(s, p, w) == Stream(s.dev.(outToggle := ToggleAt(p.out.toggle, |p.out.list|),
                                                 phase := Reaction(s.dev, cbw)), s.ram)
    ensures Offers(Reaction(s.dev, cbw))
  {
    hide Execute, Perform, LastDone, Accepted, Following, Due, PacketAt, Planned, Errored;
    PlannedLists(s, p, outMps, cbw);
    var k, failed;
    k, d, failed := DataPhase(s, p, outMps, cbw, w);
    DataPosition(s, p, w, d);
    TakenIsOffered(p.data, DataStream(s, p, w), 0, AfterData(s, p, w), k, d, 0);
    DueNow(DataStream(s, p, w));
    var d0 := CommandPhase(s, p, outMps, cbw, w);
  }

  lemma TakenIsOffered(t: Transfer, r: Stream, b: nat, s: Sys, k: nat, d: nat, i: nat)
    requires Following(t, r, b, s, k, d) && i < k
    ensures Offers(Due(r, b + i))
  {
    hide Due;
    assert Fits(t, r, b, i);
  }

  /** The status transfer has taken all its packets. */
  lemma CompletedStatus(s: Sys, p: Plan, outMps: nat, cbw: seq<byte>, w: Weather, d: nat) returns (d': nat)
    requires Planned(s, p, outMps, cbw) && d <= |p.data.list| <= d + 1
    requires Following(p.data, DataStream(s, p, w), 0, AfterData(s, p, w), |p.data.list|, d)
    requires LastDone(AfterStatus(s, p, w), p.status) && !Errored(AfterStatus(s, p, w), p.status)
    ensures Following(p.status, StatusStream(s, p, w), |p.data.list|, AfterStatus(s, p, w), |p.status.list|, d')
    ensures d' == |p.data.list| + |p.status.list| <==>
      LastHeard(Publish(BeforeStatus(s, p, w), p.status.base, p.status.list), p.status, w.status)
  {
    hide Execute, Perform, LastDone, Following, LastHeard, Publish, Planned, Errored;
    var k, failed;
    k, d', failed := StatusPhase(s, p, outMps, cbw, w, |p.data.list|, d, |p.data.list|);
  }

  /** A command whose three transfers complete without an error bit fails exactly when the device reports a failure,
      and leaves the device in step either way, unless the last handshake was lost. */
  lemma CompletedIsAtRest(s: Sys, p: Plan, outMps: nat, cbw: seq<byte>, w: Weather)
    requires Planned(s, p, outMps, cbw) && Completed(s, p, w) && Clean(s, p, w)
    ensures |cbw| == CBW_LENGTH && p.data.cuts != [] && s.dev.verdict.Acts?
    ensures Succeeds(s, p, w) <==> Status(Given(s.dev.units, s.dev.verdict.obeys, cbw), Length(p.data)) == PASSED
    ensures AtRest(s, p, AfterStatus(s, p, w).dev) <==>
      LastHeard(Publish(BeforeStatus(s, p, w), p.status.base, p.status.list), p.status, w.status)
    ensures AtRest(s, p, AfterStatus(s, p, w).dev) || OneBehind(s, p, AfterStatus(s, p, w).dev)
  {
    hide Execute, Answer, Perform, Vouches, Planned, Errored, Following, LastHeard, Publish, LastDone, AtRest,
      OneBehind, Arrived, DataStream, StatusStream, Given, Status, AfterData, AfterStatus, AfterCommand, EndingPackets;
    PlannedLists(s, p, outMps, cbw);
    var d := CompletedData(s, p, outMps, cbw, w);
    var d' := CompletedStatus(s, p, outMps, cbw, w, d);
    AnswerArrives(s, p, outMps, cbw, w, d, d');
  }

  lemma ArrivedBytes(s: Sys, p: Plan, outMps: nat, cbw: seq<byte>, w: Weather, data: seq<byte>)
    requires Planned(s, p, outMps, cbw) && p.data.cuts != [] && Arrived(s, p, w, data) && |data| <= Length(p.data)
    ensures var ram, at, length, st := AfterStatus(s, p, w).ram, p.data.buffer, Length(p.data), p.status.buffer;
      && (st + CSW_LENGTH <= at || at + length <= st)
      && at + length <= |s.ram| == |ram| && ram[at..at + |data|] == data
      && forall i :: 0 <= i < |ram| && !(at <= i < at + |data|) && !(st <= i < st + CSW_LENGTH) ==> ram[i] == s.ram[i]
  {
    hide Execute, Perform, Due, AfterStatus, Tiled, CanWrite;
    var csw :| |csw| == CSW_LENGTH && AfterStatus(s, p, w).ram ==
      Splice(Splice(Splice(s.ram, p.data.buffer, data), p.status.buffer, Zeros(CSW_LENGTH)), p.status.buffer, csw);
    SplicedApart(s.ram, p.data.buffer, data, p.status.buffer, Zeros(CSW_LENGTH), csw);
  }

  lemma ArrivedIsDelivered(s: Sys, p: Plan, outMps: nat, cbw: seq<byte>, w: Weather)
    requires Planned(s, p, outMps, cbw) && |p.data.cuts| >= 2 && Offers(Reaction(s.dev, cbw)) && s.dev.verdict.Acts?
    requires Arrived(s, p, w, Reaction(s.dev, cbw).rest)
    requires Status(Given(s.dev.units, s.dev.verdict.obeys, cbw), Length(p.data)) == PASSED
    ensures s.dev.verdict.obeys && Delivered(s, p, cbw, AfterStatus(s, p, w).ram)
    ensures |Answer(s.dev.units, cbw)| < Length(p.data) ==>
      if Reaction(s.dev, cbw).Sending? then s.dev.verdict.shortfall == Pads
      else Reaction(s.dev, cbw).rest == Answer(s.dev.units, cbw)
    ensures |Answer(s.dev.units, cbw)| == Length(p.data) ==> Reaction(s.dev, cbw).Sending?
  {
    hide Execute, Answer, Perform, Due, AfterStatus, Delivered, Given, Status, Planned, Arrived, Splice;
    PlannedLists(s, p, outMps, cbw);
    PassedIsAnswered(s.dev, cbw, Length(p.data));
    var data := Reaction(s.dev, cbw).rest;
    var given, csw0 := ReactionShape(s.dev, cbw);
    ArrivedBytes(s, p, outMps, cbw, w, data);
    AnswerInPlace(s, p, cbw, AfterStatus(s, p, w).ram, data);
  }

  lemma PassedIsAnswered(dev: Device, cbw: seq<byte>, length: nat)
    requires |cbw| == CBW_LENGTH && dev.verdict.Acts?
    requires Status(Given(dev.units, dev.verdict.obeys, cbw), length) == PASSED
    ensures dev.verdict.obeys && Given(dev.units, dev.verdict.obeys, cbw) == Answer(dev.units, cbw)
    ensures 0 < |Answer(dev.units, cbw)| <= length
  {
    hide Answer;
  }

  /** What is stored begins with the answer, and goes on with zeros or not at all. */
  lemma AnswerInPlace(s: Sys, p: Plan, cbw: seq<byte>, ram: seq<byte>, data: seq<byte>)
    requires |cbw| == CBW_LENGTH && p.data.cuts != [] && s.dev.verdict.Acts?
    requires var answer, at, length, st := Answer(s.dev.units, cbw), p.data.buffer, Length(p.data), p.status.buffer;
      && 0 < |answer| <= length && at + length <= |s.ram| == |ram|
      && ((data == answer && (|answer| < length ==> s.dev.verdict.shortfall != Pads))
          || (data == Filled(answer, length) && s.dev.verdict.shortfall == Pads))
      && |data| <= length && ram[at..at + |data|] == data
      && (st + CSW_LENGTH <= at || at + length <= st)
      && (forall i :: 0 <= i < |ram| && !(at <= i < at + |data|) && !(st <= i < st + CSW_LENGTH) ==> ram[i] == s.ram[i])
    ensures Delivered(s, p, cbw, ram)
  {
    hide Answer;
    var answer, at, length := Answer(s.dev.units, cbw), p.data.buffer, Length(p.data);
    assert data[..|answer|] == answer;
    assert ram[at..at + |answer|] == ram[at..at + |data|][..|answer|];
    forall a | at + |answer| <= a < at + |data| ensures ram[a] == data[a - at] {
      assert ram[a] == ram[at..at + |data|][a - at];
    }
  }

  lemma ArrivedIsAtRest(s: Sys, p: Plan, outMps: nat, cbw: seq<byte>, w: Weather, d: nat)
    requires Planned(s, p, outMps, cbw) && |p.data.cuts| >= 2 && |p.status.list| > 0
    requires Offers(Reaction(s.dev, cbw)) && Arrived(s, p, w, Reaction(s.dev, cbw).rest)
    requires Following(p.status, StatusStream(s, p, w), |p.data.list|, AfterStatus(s, p, w), |p.status.list|, d)
    requires DataStream(s, p, w).dev ==
        s.dev.(outToggle := ToggleAt(p.out.toggle, |p.out.list|), phase := Reaction(s.dev, cbw))
    ensures AtRest(s, p, AfterStatus(s, p, w).dev) <==> d == |p.data.list| + |p.status.list|
    ensures AtRest(s, p, AfterStatus(s, p, w).dev) || OneBehind(s, p, AfterStatus(s, p, w).dev)
  {
    hide Execute, Answer, Perform, Due, CanWrite, ReadsInto, Splice, AtRest, OneBehind, Laid, Lengths, PacketLengths,
      Placed;
    PlannedToggle(s, p, outMps, cbw);
    EndsAtRest(s, p, StatusStream(s, p, w), AfterStatus(s, p, w).dev, d);
  }

  // ---------------------------------------------------------------------------
  // Progress without faults
  // ---------------------------------------------------------------------------

  /** A device that acts on the wrapper, carries it out, and has just the bytes asked for. */
  predicate Obedient(dev: Device, cbw: seq<byte>) {
    && |cbw| == CBW_LENGTH && Offers(Reaction(dev, cbw)) && dev.verdict.obeys
    && 0 < |Answer(dev.units, cbw)| == LE32(cbw[8..12])
  }

  lemma ObedientShape(dev: Device, cbw: seq<byte>)
    requires Obedient(dev, cbw)
    ensures dev.verdict.Acts? && Given(dev.units, dev.verdict.obeys, cbw) == Answer(dev.units, cbw)
    ensures Reaction(dev, cbw) == Sending(Answer(dev.units, cbw), Sending(Csw(cbw[4..8], 0, PASSED), Idle([])))
  {
    hide Answer;
  }

  lemma ObedientSends(dev: Device, cbw: seq<byte>)
    requires Obedient(dev, cbw)
    ensures |cbw| == CBW_LENGTH && dev.verdict.Acts? && Offers(Reaction(dev, cbw)) && Reaction(dev, cbw).Sending?
    ensures Given(dev.units, dev.verdict.obeys, cbw) == Answer(dev.units, cbw)
    ensures Status(Given(dev.units, dev.verdict.obeys, cbw), LE32(cbw[8..12])) == PASSED
    ensures Reaction(dev, cbw).rest == Answer(dev.units, cbw)
  {
    hide Answer;
    ObedientShape(dev, cbw);
  }

  lemma CommandGoesOut(s: Sys, p: Plan, outMps: nat, cbw: seq<byte>, w: Weather)
    requires Planned(s, p, outMps, cbw) && AllClear(w.out) && |w.out| >= |p.out.list|
    ensures Accepted(AfterCommand(s, p, w), p.out)
    ensures DataStream(s, p, w) == Stream(s.dev.(outToggle := ToggleAt(p.out.toggle, |p.out.list|),
                                                 phase := Reaction(s.dev, cbw)), s.ram)
    ensures Begins(p.data, DataStream(s, p, w), 0, AfterCommand(s, p, w), 0)
  {
    hide Execute, Perform, Tiled, Accepted;
    var d := CommandPhase(s, p, outMps, cbw, w);
    var e := WritingPhase(s, p.out, outMps, cbw, w.out);
  }

  /** Without faults a full-length answer fills the buffer. */
  lemma DataGoesIn(s: Sys, p: Plan, outMps: nat, cbw: seq<byte>, w: Weather)
    requires Planned(s, p, outMps, cbw) && Reaction(s.dev, cbw).Sending?
    requires AllClear(w.out) && |w.out| >= |p.out.list| && AllClear(w.data) && |w.data| >= |p.data.list|
    ensures Accepted(AfterCommand(s, p, w), p.out) && Accepted(AfterData(s, p, w), p.data)
    ensures !Errored(AfterData(s, p, w), p.data)
    ensures DataStream(s, p, w) == Stream(s.dev.(outToggle := ToggleAt(p.out.toggle, |p.out.list|),
                                                 phase := Reaction(s.dev, cbw)), s.ram)
    ensures Following(p.data, DataStream(s, p, w), 0, AfterData(s, p, w), |p.data.list|, |p.data.list|)
  {
    hide Execute, Perform, Tiled, Accepted, Errored, LastDone, Following, Begins, Planned;
    PlannedLists(s, p, outMps, cbw);
    CommandGoesOut(s, p, outMps, cbw, w);
    var r := DataStream(s, p, w);
    var given, csw := ReactionShape(s.dev, cbw);
    FullAnswerFits(p.data, r, 0, AfterCommand(s, p, w), 0, r.dev.phase.rest, r.dev.phase.next);
    var k := ClearTransfer(p.data, r, 0, AfterCommand(s, p, w), w.data);
  }

  lemma FullAnswerFits(t: Transfer, r: Stream, b: nat, s: Sys, d: nat, data: seq<byte>, next: Phase)
    requires Begins(t, r, b, s, d) && t.cuts != [] && Due(r, b) == Sending(data, next) && |data| == Length(t)
    ensures |t.list| > 0 && |t.cuts| == |t.list| + 1 && Placed(t, r, b, |t.list|) && PacketAt(r, b) != []
    ensures |PacketAt(r, b + |t.list| - 1)| == LastPacket(t) && Offers(Due(r, b + |t.list| - 1))
  {
    hide Laid, Splice, Due;
    SendingAlong(t, r, b, data, next, |t.list|);
    SendingAlong(t, r, b, data, next, 0);
    SendingAlong(t, r, b, data, next, |t.list| - 1);
    assert Tile(t, r.dev.packetSize, 0);
    CutsAt(t, r.dev.packetSize, |t.list| - 1);
  }

  /** Where a full-length answer leaves the device when the driver asks for the status. */
  lemma StatusIsNext(s: Sys, p: Plan, outMps: nat, cbw: seq<byte>, w: Weather, csw: seq<byte>)
    requires Planned(s, p, outMps, cbw) && Reaction(s.dev, cbw).Sending?
    requires Reaction(s.dev, cbw).next == Sending(csw, Idle([]))
    requires |Reaction(s.dev, cbw).rest| == Length(p.data)
    requires DataStream(s, p, w).dev.packetSize == s.dev.packetSize
    requires DataStream(s, p, w).dev.phase == Reaction(s.dev, cbw)
    ensures Due(StatusStream(s, p, w), |p.data.list|) == Sending(csw, Idle([]))
  {
    hide Execute, Perform, Due, CanWrite;
    DueNow(DataStream(s, p, w));
    SendingEnds(p.data, DataStream(s, p, w), Reaction(s.dev, cbw).rest, Sending(csw, Idle([])), 0, |p.data.list|);
    StreamsAgree(s, p, w, |p.data.list|);
  }

  /** Enough fault-free visits of the controller in each phase make a command to an obedient device succeed, without
      leaving an error bit set. */
  lemma ClearRunsSucceed(s: Sys, p: Plan, outMps: nat, cbw: seq<byte>, w: Weather)
    requires Planned(s, p, outMps, cbw) && AllClear(w.out) && AllClear(w.data) && AllClear(w.status)
    requires |w.out| >= |p.out.list| && |w.data| >= |p.data.list| && |w.status| >= |p.status.list|
    requires Offers(Reaction(s.dev, cbw)) && Reaction(s.dev, cbw).Sending?
    ensures |cbw| == CBW_LENGTH && s.dev.verdict.Acts?
    ensures Succeeds(s, p, w) <==> Status(Given(s.dev.units, s.dev.verdict.obeys, cbw), Length(p.data)) == PASSED
    ensures !Errored(AfterData(s, p, w), p.data) && !Errored(AfterStatus(s, p, w), p.status)
  {
    hide Execute, Perform, Tiled, Accepted, Errored, LastDone, Following, Begins, Planned, Vouches, Due;
    PlannedLists(s, p, outMps, cbw);
    DataGoesIn(s, p, outMps, cbw, w);
    var given, csw := ReactionShape(s.dev, cbw);
    var n, r := |p.data.list|, StatusStream(s, p, w);
    StatusIsNext(s, p, outMps, cbw, w, csw);
    StatusBegins(s, p, outMps, cbw, w, n, n, n);
    FullAnswerFits(p.status, r, n, BeforeStatus(s, p, w), n, csw, Idle([]));
    var k := ClearTransfer(p.status, r, n, BeforeStatus(s, p, w), w.status);
    StatusArrives(p, r, n, AfterStatus(s, p, w), n + k, csw);
  }
}
