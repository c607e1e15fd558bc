/** UHCI transfer descriptors, the host controller that walks them, and what any interleaving of the two
    with a device can lead to (UHCI Design Guide 1.1, sections 3.2 and 3.3). */
module Uhci {
  import opened Bytes
  import opened BulkDevice
  import opened ControlPipe

  const TD_SIZE: nat := 32
  /** An element link pointer with only its terminate bit set. */
  const TERMINATE: nat := 1
  /** How 11-bit length fields write zero bytes. */
  const NO_DATA: nat := 0x7FF

  datatype Pid = SetupPid | InPid | OutPid

  /** The descriptor fields the driver or the controller gives meaning to. */
  datatype Td = Td(link: nat, terminate: bool, depthFirst: bool,
                   active: bool, errored: bool, actualLength: nat, errorCount: nat, lowSpeed: bool,
                   pid: Pid, address: nat, endpoint: nat, toggle: nat, maxLength: nat, buffer: nat)

  /** The first dword of a descriptor, as the controller copies it into the queue head. */
  function LinkWord(td: Td): nat {
    (if td.terminate then 1 else 0) + (if td.depthFirst then 4 else 0) + 16 * td.link
  }

  /** An 11-bit length field holds one less than the number of bytes. */
  function LengthField(bytes: nat): nat {
    (bytes + 0x7FF) % 0x800
  }

  function FieldBytes(field: nat): nat {
    (field + 1) % 0x800
  }

  /** Everything driver, controller and device share: descriptor memory, the queue head's element pointer,
      data memory, and the device itself. */
  datatype Sys = Sys(tds: map<nat, Td>, element: nat, ram: seq<byte>, dev: Device)

  /** What the bus does to one visit of the controller: nothing wrong, the device not ready, errors until the
      controller gives up on the descriptor (leaving any value in its length field), or the loss of the handshake
      that ends the transaction. */
  datatype Fault = Clear | NotReady | GivesUp(actual: nat) | Unheard

  // ---------------------------------------------------------------------------
  // The host controller
  // ---------------------------------------------------------------------------

  /** What one transaction on the bus does: nothing to the descriptor, an error, or its completion. Without its
      handshake an OUT packet has reached the device but counts as unsent, and an IN packet has reached memory but
      counts as unsent for the device (USB 2.0, section 8.6). */
  datatype Effect = Stays(dev: Device) | Fails(actual: nat) | Retires(dev: Device, ram: seq<byte>, bytes: nat)

  function Exchange(dev: Device, ram: seq<byte>, td: Td, f: Fault): Effect {
    var bytes := FieldBytes(td.maxLength);
    if f.NotReady? then Stays(dev)
    else if f.GivesUp? then Fails(f.actual)
    else if td.address != dev.address || td.buffer + bytes > |ram| then Fails(NO_DATA)
    else if td.pid == OutPid && td.endpoint == dev.outEndpoint then
      match AcceptOut(dev, td.toggle, ram[td.buffer..td.buffer + bytes])
      case Ack(after) => if f.Unheard? then Stays(after) else Retires(after, ram, bytes)
      case OutNak => Stays(dev)
      case OutStall => Fails(NO_DATA)
    else if td.pid == InPid && td.endpoint == dev.inEndpoint then
      match OfferIn(dev)
      case InNak => Stays(dev)
      case InStall => Fails(NO_DATA)
      case Packet(toggle, data, acked) =>
        if |data| > bytes then Fails(NO_DATA)
        else
          var after := if f.Unheard? then dev else acked;
          if toggle != td.toggle then Stays(after) else Retires(after, Splice(ram, td.buffer, data), |data|)
    else if td.endpoint == 0 then ControlExchange(dev, ram, td, f)
    else Fails(NO_DATA)
  }

  /** A transaction with the control pipe. */
  function ControlExchange(dev: Device, ram: seq<byte>, td: Td, f: Fault): Effect
    requires td.buffer + FieldBytes(td.maxLength) <= |ram|
  {
    var bytes := FieldBytes(td.maxLength);
    var sent := ram[td.buffer..td.buffer + bytes];
    var reply := match td.pid
      case SetupPid => TakeRequest(dev.control, td.toggle, sent)
      case OutPid => TakeStatus(dev.control, td.toggle, sent)
      case InPid => Give(dev.control);
    match reply
    case Nak => Stays(dev)
    case Stall => Fails(NO_DATA)
    case Ack(after) =>
      if f.Unheard? then Stays(dev.(control := after)) else Retires(dev.(control := after), ram, bytes)
    case Data(toggle, data, acked) =>
      if |data| > bytes then Fails(NO_DATA)
      else
        var after := if f.Unheard? then dev else dev.(control := acked);
        if toggle != td.toggle then Stays(after) else Retires(after, Splice(ram, td.buffer, data), |data|)
  }

  /** A completed descriptor is deactivated and the queue head moves to its link; an error deactivates the
      descriptor and leaves the queue head pointing at it. */
  function Apply(s: Sys, a: nat, td: Td, e: Effect): Sys {
    match e
    case Stays(dev) => s.(dev := dev)
    case Fails(actual) =>
      s.(tds := s.tds[a := td.(active := false, errored := true, actualLength := actual % 0x800)])
    case Retires(dev, ram, bytes) =>
      Sys(s.tds[a := td.(active := false, actualLength := LengthField(bytes))], LinkWord(td), ram, dev)
  }

  /** The descriptor the queue head points at, if it points at one that is still active. */
  predicate HasWork(s: Sys) {
    s.element % 4 == 0 && s.element / 16 * 16 in s.tds && s.tds[s.element / 16 * 16].active
  }

  /** One visit of the controller to the queue, atomic per descriptor. */
  function HcStep(s: Sys, f: Fault): Sys {
    if !HasWork(s) then s else
    var a := s.element / 16 * 16;
    Apply(s, a, s.tds[a], Exchange(s.dev, s.ram, s.tds[a], f))
  }

  function Run(s: Sys, fs: seq<Fault>): Sys
    decreases |fs|
  {
    if fs == [] then s else Run(HcStep(s, fs[0]), fs[1..])
  }

  lemma {:induction false} RunConcat(s: Sys, fs: seq<Fault>, gs: seq<Fault>)
    ensures Run(s, fs + gs) == Run(Run(s, fs), gs)
    decreases |fs|
  {
    if fs == [] {
      assert fs + gs == gs;
    } else {
      assert (fs + gs)[1..] == fs[1..] + gs;
      RunConcat(HcStep(s, fs[0]), fs[1..], gs);
    }
  }

  /** With the queue head terminated the controller changes nothing, however long it runs. */
  lemma {:induction false} TerminatedIsStill(s: Sys, fs: seq<Fault>)
    requires s.element % 4 == 1
    ensures Run(s, fs) == s
    decreases |fs|
  {
    if fs != [] {
      TerminatedIsStill(s, fs[1..]);
    }
  }

  // ---------------------------------------------------------------------------
  // The descriptor list of a bulk transaction
  // ---------------------------------------------------------------------------

  datatype Bulk = Bulk(base: nat, buffer: nat, length: nat, mps: nat,
                       pid: Pid, address: nat, endpoint: nat, lowSpeed: bool, toggle: nat)

  predicate WellFormed(b: Bulk) {
    && b.length > 0 && 0 < b.mps < 0x100
    && b.base % 16 == 0 && b.toggle < 2
    && b.pid != SetupPid
  }

  function Count(length: nat, mps: nat): nat
    requires mps > 0
  {
    length / mps + if length % mps != 0 then 1 else 0
  }

  function Size(length: nat, mps: nat, i: nat): nat
    requires mps > 0
  {
    if i + 1 == Count(length, mps) && length % mps != 0 then length % mps else mps
  }

  function Addr(base: nat, i: nat): nat {
    base + TD_SIZE * i
  }

  /** The driver shifts a descriptor's address into the link field. */
  lemma ParagraphOf(a: nat)
    ensures Shr(a, 4) == a / 16
  {
    ShiftsAreMulDiv(a, 4);
    assert Pow2(2) == 4;
  }

  function ToggleAt(toggle: nat, i: nat): nat {
    (toggle + i) % 2
  }

  function BulkTd(b: Bulk, i: nat): Td
    requires WellFormed(b)
  {
    var last := i + 1 == Count(b.length, b.mps);
    Td(if last then 0 else Addr(b.base, i + 1) / 16, last, true,
       true, false, 0, 3, b.lowSpeed,
       b.pid, b.address, b.endpoint, ToggleAt(b.toggle, i), Size(b.length, b.mps, i) - 1, b.buffer + b.mps * i)
  }

  function BulkList(b: Bulk): (list: seq<Td>)
    requires WellFormed(b)
    ensures |list| == Count(b.length, b.mps)
  {
    seq(Count(b.length, b.mps), i requires 0 <= i < Count(b.length, b.mps) => BulkTd(b, i))
  }

  /** What every descriptor of the list carries (section 3.2): three attempts, depth first, the device's address,
      endpoint and speed, its own part of the buffer; and only the last one terminates. */
  lemma BulkFields(b: Bulk, i: nat)
    requires WellFormed(b) && i < Count(b.length, b.mps)
    ensures var td := BulkList(b)[i];
      && td.errorCount == 3 && td.depthFirst && td.active && !td.errored
      && td.pid == b.pid && td.address == b.address && td.endpoint == b.endpoint && td.lowSpeed == b.lowSpeed
      && td.buffer == b.buffer + Covered(b.length, b.mps, i)
      && FieldBytes(td.maxLength) == (Covered(b.length, b.mps, i + 1) - Covered(b.length, b.mps, i)) % 0x800
      && (td.terminate <==> Covered(b.length, b.mps, i + 1) == b.length)
      && (!td.terminate ==> 16 * td.link <= Addr(b.base, i + 1) < 16 * td.link + 16)
  {
    PacketsTile(b.length, b.mps, i);
    if i + 1 < Count(b.length, b.mps) {
      PacketsTile(b.length, b.mps, i + 1);
    }
  }

  /** Bytes covered by the first `k` packets. */
  function Covered(length: nat, mps: nat, k: nat): nat
    requires mps > 0
  {
    if k >= Count(length, mps) then length else mps * k
  }

  /** The packets tile the buffer: packet `i` starts where the first `i` packets end, is neither empty nor
      larger than the packet size, and the last one ends exactly at `length`. */
  lemma PacketsTile(length: nat, mps: nat, i: nat)
    requires length > 0 && mps > 0 && i < Count(length, mps)
    ensures 0 < Size(length, mps, i) <= mps
    ensures mps * i == Covered(length, mps, i) < length
    ensures Covered(length, mps, i + 1) == Covered(length, mps, i) + Size(length, mps, i) <= length
  {
    var q, r := length / mps, length % mps;
    assert length == mps * q + r;
    if i + 1 <= q {
      MulMonotone(i + 1, q, mps);
      assert mps * (i + 1) == mps * i + mps;
    } else {
      assert i == q;
    }
    if i + 1 == Count(length, mps) && r == 0 {
      assert mps * (i + 1) == mps * i + mps;
    }
  }

  lemma MulMonotone(x: nat, y: nat, m: nat)
    requires x <= y
    ensures m * x <= m * y
  {
    assert m * y == m * x + m * (y - x);
  }

  lemma SomePacket(length: nat, mps: nat)
    requires length > 0 && mps > 0
    ensures Count(length, mps) > 0
  {
    if length / mps == 0 {
      assert length == mps * 0 + length % mps;
    }
  }

  // ---------------------------------------------------------------------------
  // Handing a list to the controller and taking it back
  // ---------------------------------------------------------------------------

  /** Descriptor memory after `list` has been written from `base` on. */
  function Install(tds: map<nat, Td>, base: nat, list: seq<Td>): map<nat, Td>
    decreases |list|
  {
    if list == [] then tds else
    Install(tds, base, list[..|list| - 1])[Addr(base, |list| - 1) := list[|list| - 1]]
  }

  lemma {:induction false} InstallHolds(tds: map<nat, Td>, base: nat, list: seq<Td>)
    ensures forall i {:trigger Addr(base, i)} :: 0 <= i < |list| ==>
      Addr(base, i) in Install(tds, base, list) && Install(tds, base, list)[Addr(base, i)] == list[i]
    decreases |list|
  {
    if list != [] {
      InstallHolds(tds, base, list[..|list| - 1]);
    }
  }

  function Publish(s: Sys, base: nat, list: seq<Td>): Sys {
    s.(tds := Install(s.tds, base, list), element := base)
  }

  function Unpublish(s: Sys): Sys {
    s.(element := TERMINATE)
  }
}
