/** The far end of the cable: a mass-storage device speaking the USB Mass Storage Bulk-Only Transport 1.0
    over two bulk endpoints, each with its data-toggle bit (USB 2.0, section 8.6). */
module BulkDevice {
  import opened Bytes
  import ControlPipe

  const CBW_LENGTH: nat := 31
  const CSW_LENGTH: nat := 13
  const CBW_SIGNATURE: uint32 := 0x4342_5355
  const CSW_SIGNATURE: uint32 := 0x5342_5355
  const DIRECTION_IN: byte := 0x80

  const REQUEST_SENSE: byte := 0x03
  const INQUIRY: byte := 0x12
  const READ_CAPACITY_10: byte := 0x25
  const READ_10: byte := 0x28

  /** One logical unit: its blocks laid end to end, and its canned answers. */
  datatype LogicalUnit = LogicalUnit(blockSize: nat, content: seq<byte>, inquiry: seq<byte>, sense: seq<byte>)

  /** What the device does when it has fewer bytes than the host asks for (section 6.7.2): fill up the transfer, end
      it with a short packet, or end it with a short packet and stall. */
  datatype Shortfall = Pads | EndsShort | EndsAndStalls

  /** How the device treats the next valid command: stall at once, or act on it, with success or with failure. */
  datatype Verdict = Acts(obeys: bool, shortfall: Shortfall) | Stalls

  /** Collecting a command wrapper, sending just the bytes left, sending them and ending with a packet that is shorter
      than the others, or halted until reset. */
  datatype Phase =
    | Idle(received: seq<byte>)
    | Sending(rest: seq<byte>, next: Phase)
    | Ending(rest: seq<byte>, next: Phase)
    | Halted

  datatype Device = Device(address: nat, inEndpoint: nat, outEndpoint: nat, packetSize: nat,
                           units: seq<LogicalUnit>, verdict: Verdict,
                           phase: Phase, inToggle: nat, outToggle: nat, control: ControlPipe.Pipe)

  datatype OutReply = Ack(after: Device) | OutNak | OutStall
  datatype InReply = Packet(toggle: nat, data: seq<byte>, acked: Device) | InNak | InStall

  function Flip(toggle: nat): nat {
    if toggle == 0 then 1 else 0
  }

  /** What the addressed unit has to say to a command, if it understands it. */
  function Answer(units: seq<LogicalUnit>, cbw: seq<byte>): (data: seq<byte>)
    requires |cbw| == CBW_LENGTH
  {
    if cbw[13] >= |units| then [] else
    var unit := units[cbw[13]];
    if cbw[15] == READ_10 then ReadBlocks(unit, BE32(cbw[17..21]), BE16(cbw[22..24]))
    else if cbw[15] == READ_CAPACITY_10 then Capacity(unit)
    else if cbw[15] == INQUIRY then UpTo(unit.inquiry, BE16(cbw[18..20]))
    else if cbw[15] == REQUEST_SENSE then UpTo(unit.sense, cbw[19])
    else []
  }

  function UpTo(s: seq<byte>, n: nat): seq<byte> {
    if n <= |s| then s[..n] else s
  }

  /** The contents of `count` blocks from `lba` on, or nothing when they run past the end of the medium. */
  function ReadBlocks(unit: LogicalUnit, lba: nat, count: nat): (data: seq<byte>)
    ensures data != [] ==> |data| == count * unit.blockSize
  {
    var from, size := lba * unit.blockSize, count * unit.blockSize;
    if from + size <= |unit.content| then unit.content[from..from + size] else []
  }

  /** READ CAPACITY reports the address of the last block, not the number of blocks. */
  function Capacity(unit: LogicalUnit): (data: seq<byte>)
    ensures data == [] || |data| == 8
  {
    if unit.blockSize == 0 then [] else
    var blocks := |unit.content| / unit.blockSize;
    if 0 < blocks <= WORD_SPAN && unit.blockSize < WORD_SPAN
    then ToBE32(blocks - 1) + ToBE32(unit.blockSize)
    else []
  }

  /** The command status wrapper (section 5.2): signature, echoed tag, residue, status. */
  function Csw(tag: seq<byte>, residue: uint32, status: byte): (csw: seq<byte>)
    requires |tag| == 4
    ensures |csw| == CSW_LENGTH
  {
    ToLE32(CSW_SIGNATURE) + tag + ToLE32(residue) + [status]
  }

  const PASSED: byte := 0
  const FAILED: byte := 1
  const PHASE_ERROR: byte := 2

  /** The bytes a command is answered with: none if it fails. */
  function Given(units: seq<LogicalUnit>, obeys: bool, cbw: seq<byte>): seq<byte>
    requires |cbw| == CBW_LENGTH
  {
    if obeys then Answer(units, cbw) else []
  }

  /** A command without an answer has failed, and one with a longer answer than the host expects is out of phase
      (section 6.7). */
  function Status(given: seq<byte>, expected: nat): byte {
    if given == [] then FAILED else if |given| > expected then PHASE_ERROR else PASSED
  }

  function Filled(data: seq<byte>, length: nat): (r: seq<byte>)
    requires |data| <= length
    ensures |r| == length
  {
    data + Zeros(length - |data|)
  }

  /** A complete command wrapper has arrived (section 5.1). */
  function Execute(units: seq<LogicalUnit>, verdict: Verdict, cbw: seq<byte>): Phase {
    if |cbw| != CBW_LENGTH || LE32(cbw[..4]) != CBW_SIGNATURE || cbw[12] != DIRECTION_IN then Halted else
    var expected := LE32(cbw[8..12]);
    if expected == 0 || verdict.Stalls? then Halted else
    var given := Given(units, verdict.obeys, cbw);
    var residue := if |given| < expected then expected - |given| else 0;
    var status := Sending(Csw(cbw[4..8], residue, Status(given, expected)), Idle([]));
    if |given| >= expected then Sending(given[..expected], status) else
    match verdict.shortfall
    case Pads => Sending(Filled(given, expected), status)
    case EndsShort => Ending(given, status)
    case EndsAndStalls => Ending(given, Halted)
  }

  /** The device's side of an OUT transaction. A halted endpoint stalls (USB 2.0, section 8.4.6.3). Otherwise a packet
      with the wrong toggle is taken for a repeat: it is acknowledged and dropped. */
  function AcceptOut(dev: Device, toggle: nat, data: seq<byte>): OutReply {
    if dev.phase.Halted? then OutStall else
    if toggle != dev.outToggle then Ack(dev) else
    match dev.phase
    case Idle(received) =>
      var all := received + data;
      var phase := if |all| < CBW_LENGTH then Idle(all) else Execute(dev.units, dev.verdict, all);
      Ack(dev.(outToggle := Flip(dev.outToggle), phase := phase))
    case _ => OutNak
  }

  predicate Offers(phase: Phase) {
    phase.Sending? || phase.Ending?
  }

  /** The packet a device in this phase sends. */
  function Offered(phase: Phase, packetSize: nat): (data: seq<byte>)
    requires Offers(phase)
    ensures |data| <= packetSize && |data| <= |phase.rest|
  {
    if |phase.rest| <= packetSize then phase.rest else phase.rest[..packetSize]
  }

  /** The phase after that packet has been acknowledged. */
  function AfterPacket(phase: Phase, packetSize: nat): Phase
    requires Offers(phase)
  {
    var n := |Offered(phase, packetSize)|;
    match phase
    case Sending(rest, next) => if n == |rest| then next else Sending(rest[n..], next)
    case Ending(rest, next) => if n < packetSize then next else Ending(rest[n..], next)
  }

  /** The device's side of an IN transaction: the packet it sends and its state once that is acknowledged. */
  function OfferIn(dev: Device): InReply {
    if Offers(dev.phase) then
      Packet(dev.inToggle, Offered(dev.phase, dev.packetSize),
             dev.(inToggle := Flip(dev.inToggle), phase := AfterPacket(dev.phase, dev.packetSize)))
    else if dev.phase.Halted? then InStall
    else InNak
  }
}
