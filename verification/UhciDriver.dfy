/** The driver's side of a UHCI controller: building descriptor lists in place, publishing them through the
    queue head, and polling the last descriptor while the controller runs. */
module UhciDriver {
  import opened Bytes
  import opened Memory
  import opened BulkDevice
  import opened Uhci
  import opened TransferRuns
  import opened BulkRuns
  import opened ControlPipe
  import opened UhciControl
  import opened ControlRuns

  const USB_TXNTYPE_BULK_IN: nat := 2
  const USB_TXNTYPE_BULK_OUT: nat := 3
  const BULK_TIMEOUT: nat := 1000
  const CONTROL_TIMEOUT: nat := 500

  /** What the bus does while the driver waits: during each one-millisecond poll interval, during the pause
      after the last descriptor has been seen inactive, and after the queue head has been terminated. */
  datatype Schedule = Schedule(polls: seq<seq<Fault>>, settle: seq<Fault>, unpublished: seq<Fault>)

  function Interval(sch: Schedule, j: nat): seq<Fault> {
    if j < |sch.polls| then sch.polls[j] else []
  }

  /** Everything that has happened on the bus by poll `j`. */
  function Polled(sch: Schedule, j: nat): seq<Fault> {
    if j == 0 then [] else Polled(sch, j - 1) + Interval(sch, j - 1)
  }

  /** Some poll before the timeout found the descriptor inactive. */
  ghost predicate SeenInactive(s: Sys, td: nat, timeout: nat, sch: Schedule) {
    exists j :: 0 <= j < timeout && InactiveAt(s, td, Polled(sch, j))
  }

  ghost predicate InactiveAt(s: Sys, td: nat, fs: seq<Fault>) {
    td in Run(s, fs).tds && !Run(s, fs).tds[td].active
  }

  /** What has happened on the bus when `wait_for_transfer` unpublishes the list. */
  ghost predicate Waited(s: Sys, td: nat, timeout: nat, sch: Schedule, trace: seq<Fault>) {
    if SeenInactive(s, td, timeout, sch)
    then exists j :: 0 <= j < timeout && InactiveAt(s, td, Polled(sch, j)) && trace == Polled(sch, j) + sch.settle
    else trace == Polled(sch, timeout)
  }

  lemma {:induction false} RunKeepsDescriptors(s: Sys, fs: seq<Fault>)
    ensures Run(s, fs).tds.Keys == s.tds.Keys
    decreases |fs|
  {
    if fs != [] {
      assert HcStep(s, fs[0]).tds.Keys == s.tds.Keys;
      RunKeepsDescriptors(HcStep(s, fs[0]), fs[1..]);
    }
  }

  /** No run changes what the device stores. */
  lemma {:induction false} RunKeepsUnits(s: Sys, fs: seq<Fault>)
    ensures Run(s, fs).dev.units == s.dev.units
    decreases |fs|
  {
    if fs != [] {
      StepKeepsUnits(s, fs[0]);
      RunKeepsUnits(HcStep(s, fs[0]), fs[1..]);
    }
  }

  lemma StepKeepsUnits(s: Sys, f: Fault)
    ensures HcStep(s, f).dev.units == s.dev.units
  {
    hide Execute, Splice;
  }

  lemma {:induction false} RunKeepsMemorySize(s: Sys, fs: seq<Fault>)
    ensures |Run(s, fs).ram| == |s.ram|
    decreases |fs|
  {
    if fs != [] {
      RunKeepsMemorySize(HcStep(s, fs[0]), fs[1..]);
    }
  }

  /** The controller never touches an inactive descriptor again. */
  lemma {:induction false} InactiveStays(s: Sys, td: nat, fs: seq<Fault>)
    requires td in s.tds && !s.tds[td].active
    ensures td in Run(s, fs).tds && Run(s, fs).tds[td] == s.tds[td]
    decreases |fs|
  {
    if fs != [] {
      InactiveStays(HcStep(s, fs[0]), td, fs[1..]);
    }
  }

  /** The bytes a transaction reports: one more than the length field of each descriptor. */
  function Reported(tds: map<nat, Td>, base: nat, n: nat): nat {
    if n == 0 then 0
    else Reported(tds, base, n - 1) + (if Addr(base, n - 1) in tds then tds[Addr(base, n - 1)].actualLength + 1 else 0)
  }

  /** A transaction whose packets all arrived in full reports the length asked for. */
  lemma {:induction false} FullTransferReportsLength(t: Transfer, mps: nat, tds: map<nat, Td>, n: nat)
    requires Tiled(t, mps) && n <= |t.list| && Lengths(t, tds, Sizes(t, mps, n))
    ensures Reported(tds, t.base, n) == t.cuts[n]
  {
    if n > 0 {
      assert Tile(t, mps, n - 1);
      assert Sizes(t, mps, n)[n - 1] == PacketSize(t, n - 1) && Sizes(t, mps, n)[..n - 1] == Sizes(t, mps, n - 1);
      assert tds[Addr(t.base, n - 1)].actualLength == LengthField(Sizes(t, mps, n)[n - 1]);
      FullTransferReportsLength(t, mps, tds, n - 1);
    }
  }

  /** The first `k` data descriptors of a control transfer. */
  lemma {:induction false} PartReported(x: Call, tds: map<nat, Td>, k: nat, done: nat)
    requires Served(x) && DataPackets(x.c) > 0 && Sends(x, DataPackets(x.c)) && k <= DataPackets(x.c)
    requires Reports(x, tds, done) && DataDone(x, done) == DataPackets(x.c)
    ensures First(x).Answering?
    ensures Reported(tds, Addr(x.c.base, 1), k) ==
        if k < DataPackets(x.c) then x.c.mps * k
        else if |First(x).rest| == x.c.mps * (k - 1) then |First(x).rest| + 0x800 else |First(x).rest|
    decreases k
  {
    hide StageAfter, DataPackets, ControlRuns.Request, StageAt, Piece;
    PieceLength(x, 0);
    if k == 0 {
      assert x.c.mps * 0 == 0;
    } else {
      PartReported(x, tds, k - 1, done);
      PieceLength(x, k - 1);
      assert Addr(Addr(x.c.base, 1), k - 1) == Addr(x.c.base, k - 1 + 1);
      assert x.c.mps * k == x.c.mps * (k - 1) + x.c.mps;
      FieldOfLength(|Piece(StageAt(x, k - 1).rest, x.c.mps)|);
    }
  }

  lemma FieldOfLength(bytes: nat)
    requires bytes < 0x100
    ensures LengthField(bytes) + 1 == if bytes == 0 then 0x800 else bytes
  {
  }

  /** What a control transfer that returns SUCCESS reports: the length of the answer, and 0x800 more if that ends with
      an empty packet. */
  lemma ControlReportsExactly(x: Call, s: Sys, fs: seq<Fault>)
    requires BeginsCall(x, s) && StatusDone(Carry(s, x.c, fs), x.c) && DataPackets(x.c) > 0
    ensures ControlRuns.Request(x) in x.dev.control.answers
    ensures var answer, n := UpTo(x.dev.control.answers[ControlRuns.Request(x)], x.c.length), DataPackets(x.c);
      Reported(Carry(s, x.c, fs).tds, Addr(x.c.base, 1), n) ==
        |answer| + if |answer| == x.c.mps * (n - 1) then 0x800 else 0
  {
    hide Carry, DataPackets, StatusDone, ControlRuns.Request, Reports, Sends;
    var k, failed := CallEnds(x, s, fs);
    ControlSuccessIsSound(x, s, fs);
    AnswerIsLimited(x);
    PartReported(x, Carry(s, x.c, fs).tds, DataPackets(x.c), k);
  }

  /** `trace` is what happens on the bus until the driver, polling, unpublishes the list. */
  ghost predicate Lasts(s: Sys, b: Bulk, sch: Schedule, trace: seq<Fault>)
    requires WellFormed(b)
  {
    && BulkList(b) != []
    && Waited(Publish(s, b.base, BulkList(b)), LastTd(BulkTransfer(b)), BULK_TIMEOUT, sch, trace)
  }

  /** The driver sees the last descriptor inactive in time, and the first one reports data. */
  ghost predicate Finishes(s: Sys, b: Bulk, sch: Schedule, trace: seq<Fault>)
    requires WellFormed(b)
  {
    && BulkList(b) != []
    && SeenInactive(Publish(s, b.base, BulkList(b)), LastTd(BulkTransfer(b)), BULK_TIMEOUT, sch)
    && FirstReportsData(Perform(s, BulkTransfer(b), trace).tds, b.base)
  }

  /** That is all `Accepted` asks for. */
  lemma FinishedIsAccepted(s: Sys, b: Bulk, sch: Schedule, trace: seq<Fault>)
    requires WellFormed(b) && Lasts(s, b, sch, trace) && Finishes(s, b, sch, trace)
    ensures Accepted(Perform(s, BulkTransfer(b), trace), BulkTransfer(b))
  {
    hide Run, Publish, BulkList, Polled;
    var t := BulkTransfer(b);
    var s0 := Publish(s, t.base, t.list);
    var j :| 0 <= j < BULK_TIMEOUT && InactiveAt(s0, LastTd(t), Polled(sch, j)) && trace == Polled(sch, j) + sch.settle;
    RunConcat(s0, Polled(sch, j), sch.settle);
    InactiveStays(Run(s0, Polled(sch, j)), LastTd(t), sch.settle);
  }

  /** Enough heap for `n` descriptors without the watermark wrapping. */
  predicate Room(free: nat, n: nat) {
    free + 16 + TD_SIZE * n < WORD_SPAN
  }

  lemma BlockInRoom(free: nat, n: nat)
    requires Room(free, n)
    ensures var r := Aligned(16, TD_SIZE * n);
      IsPowerOfTwo(16) && Advance(free, r) <= free + 16 + TD_SIZE * n && Block(free, r) % 16 == 0
  {
    assert Pow2(4) == 16;
    WasteAligns(free, 16);
  }

  class UsbEndpoint {
    const address: nat
    const maxPacketSize: uint16
    var toggle: nat

    constructor (address: nat, maxPacketSize: uint16)
      ensures this.address == address && this.maxPacketSize == maxPacketSize && toggle == 0
    {
      this.address := address;
      this.maxPacketSize := maxPacketSize;
      toggle := 0;
    }
  }

  /** The packet size the bulk driver works with: the endpoint's, cut to a byte. */
  function ByteSize(maxPacketSize: uint16): (mps: uint8)
    ensures (maxPacketSize - mps) % 0x100 == 0
  {
    maxPacketSize % 0x100
  }

  class UhciController {
    var elementLinkPointer: nat
    var descriptors: map<nat, Td>
    var ram: seq<byte>
    var device: Device
    const heap: Heap

    constructor (heap: Heap, ram: seq<byte>, device: Device)
      requires heap.Valid()
      ensures Valid() && this.heap == heap && View() == Sys(map[], TERMINATE, ram, device)
    {
      this.heap := heap;
      elementLinkPointer := TERMINATE;
      descriptors := map[];
      this.ram := ram;
      this.device := device;
    }

    function View(): Sys
      reads this
    {
      Sys(descriptors, elementLinkPointer, ram, device)
    }

    /** Between transactions the queue head is terminated, so the controller can reach nothing. */
    ghost predicate Valid()
      reads this, heap
    {
      heap.Valid() && elementLinkPointer == TERMINATE
    }

    /** Time passes on the bus. */
    method Delay(fs: seq<Fault>)
      modifies this
      ensures View() == Run(old(View()), fs)
    {
      var s := View();
      var i := 0;
      while i < |fs|
        invariant 0 <= i <= |fs| && s == Run(old(View()), fs[..i]) && View() == old(View())
      {
        assert fs[..i + 1] == fs[..i] + [fs[i]];
        RunConcat(old(View()), fs[..i], [fs[i]]);
        assert Run(s, [fs[i]]) == HcStep(s, fs[i]);
        s := HcStep(s, fs[i]);
        i := i + 1;
      }
      assert fs[..|fs|] == fs;
      descriptors, elementLinkPointer, ram, device := s.tds, s.element, s.ram, s.dev;
    }

    /** Polls one descriptor, then terminates the queue head whatever was seen. Afterwards the controller can
        reach no descriptor, so further running changes nothing. */
    method WaitForTransfer(td: nat, timeout: nat, sch: Schedule) returns (ok: bool, ghost trace: seq<Fault>)
      requires td in descriptors
      modifies this
      ensures View() == Unpublish(Run(old(View()), trace))
      ensures ok <==> SeenInactive(old(View()), td, timeout, sch)
      ensures td in descriptors && (ok ==> !descriptors[td].active)
      ensures Waited(old(View()), td, timeout, sch, trace)
    {
      ghost var s0 := View();
      RunKeepsDescriptors(s0, []);
      assert Run(s0, []) == s0 && Polled(sch, 0) == [];
      hide HcStep, Run, InactiveAt;
      trace := [];
      var j := 0;
      ok := false;
      while j < timeout
        invariant 0 <= j <= timeout && td in descriptors && !ok
        invariant trace == Polled(sch, j) && View() == Run(s0, trace)
        invariant forall i :: 0 <= i < j ==> !InactiveAt(s0, td, Polled(sch, i))
      {
        if !descriptors[td].active {
          assert InactiveAt(s0, td, Polled(sch, j));
          ghost var s1 := View();
          Delay(sch.settle);
          InactiveStays(s1, td, sch.settle);
          RunConcat(s0, trace, sch.settle);
          trace := trace + sch.settle;
          ok := true;
          break;
        }
        ghost var s1 := View();
        Delay(Interval(sch, j));
        RunKeepsDescriptors(s1, Interval(sch, j));
        RunConcat(s0, trace, Interval(sch, j));
        trace := trace + Interval(sch, j);
        j := j + 1;
      }
      elementLinkPointer := TERMINATE;
      TerminatedIsStill(View(), sch.unpublished);
      Delay(sch.unpublished);
    }

    /** The fields of one zeroed descriptor are set. */
    method FillDescriptor(b: Bulk, packetIdx: nat, toggle: nat) returns (td: Td)
      requires WellFormed(b) && packetIdx < Count(b.length, b.mps) && toggle == ToggleAt(b.toggle, packetIdx)
      ensures td == BulkTd(b, packetIdx)
    {
      var isLastPacket := packetIdx == Count(b.length, b.mps) - 1;
      var maxLength := b.mps - 1;
      if b.length % b.mps != 0 && isLastPacket {
        maxLength := b.length % b.mps - 1;
      }
      var link := if isLastPacket then 0 else Shr(Addr(b.base, packetIdx + 1), 4);
      ParagraphOf(Addr(b.base, packetIdx + 1));
      td := Td(link, isLastPacket, true, true, false, 0, 3, b.lowSpeed, b.pid, b.address, b.endpoint,
               toggle, maxLength, b.buffer + b.mps * packetIdx);
    }

    /** The packet loop: each descriptor is filled in place and the endpoint's toggle flipped. */
    method BuildBulkList(endpoint: UsbEndpoint, b: Bulk)
      requires WellFormed(b) && b.endpoint == endpoint.address && b.toggle == endpoint.toggle
      modifies this`descriptors, endpoint`toggle
      ensures descriptors == Install(old(descriptors), b.base, BulkList(b))
      ensures endpoint.toggle == ToggleAt(b.toggle, Count(b.length, b.mps))
    {
      ghost var list := BulkList(b);
      for packetIdx := 0 to Count(b.length, b.mps)
        invariant descriptors == Install(old(descriptors), b.base, list[..packetIdx])
        invariant endpoint.toggle == ToggleAt(b.toggle, packetIdx)
      {
        var td := FillDescriptor(b, packetIdx, endpoint.toggle);
        InstallNext(old(descriptors), b.base, list, packetIdx);
        descriptors := descriptors[Addr(b.base, packetIdx) := td];
        FlipIsNext(b.toggle, packetIdx);
        endpoint.toggle := 1 - endpoint.toggle;
      }
      assert list[..|list|] == list;
    }

    /** The descriptors of a control transfer, filled in place: SETUP, data and status. */
    method BuildControl(c: Control)
      requires Sane(c)
      modifies this`descriptors
      ensures descriptors == Install(old(descriptors), c.base, ControlList(c))
    {
      hide ControlList, Fill, StatusTd, Install;
      ghost var list := ControlList(c);
      SetupFilled(c);
      var numDataPackets := c.length / c.mps;
      if c.length % c.mps != 0 {
        numDataPackets := numDataPackets + 1;
      }
      var numPackets := 1 + numDataPackets + 1;
      InstallNone(descriptors, c.base, list);
      InstallNext(descriptors, c.base, list, 0);
      descriptors := descriptors[c.base := Fill(c.base + 0x20, c, SetupPid, 0, 7, c.setup)];
      var packetIdx := 1;
      while packetIdx < numPackets - 1
        invariant 1 <= packetIdx <= numPackets - 1
        invariant descriptors == Install(old(descriptors), c.base, list[..packetIdx])
      {
        DataFilled(c, packetIdx);
        InstallNext(old(descriptors), c.base, list, packetIdx);
        descriptors := descriptors[Addr(c.base, packetIdx) :=
          Fill(Addr(c.base, packetIdx + 1), c, InPid, packetIdx % 2, c.mps - 1, c.buffer + 8 * (packetIdx - 1))];
        packetIdx := packetIdx + 1;
      }
      StatusFilled(c);
      InstallNext(old(descriptors), c.base, list, packetIdx);
      var status := StatusTd(c, if numDataPackets > 0 then OutPid else InPid);
      descriptors := descriptors[Addr(c.base, packetIdx) := status];
      assert list[..|list|] == list;
    }

    /** How many packets of eight bytes hold the descriptor. */
    method EightsIn(fullLength: uint8) returns (dataPackets: nat)
      ensures dataPackets == Count(fullLength, 8)
    {
      dataPackets := fullLength / 8;
      var remainder := fullLength - dataPackets * 8;
      if remainder != 0 {
        dataPackets := dataPackets + 1;
      }
      FetchPackets(fullLength);
    }

    /** The second phase of `uhci_get_device_descriptor`, to address 0 with eight-byte packets. */
    method BuildDescriptorFetch(base: nat, packet: nat, buffer: nat, fullLength: uint8, lowSpeed: bool)
      requires base % 16 == 0
      modifies this`descriptors
      ensures descriptors ==
          Install(old(descriptors), base, FetchList(Control(base, packet, buffer, fullLength, 8, 0, lowSpeed)))
    {
      var c := Control(base, packet, buffer, fullLength, 8, 0, lowSpeed);
      hide FetchList, ControlList, Fill, StatusTd, Install, Count;
      ghost var list := FetchList(c);
      SetupFilled(c);
      var dataPackets := EightsIn(fullLength);
      var numPackets := 2 + dataPackets;
      InstallNone(descriptors, base, list);
      InstallNext(descriptors, base, list, 0);
      descriptors := descriptors[base := Fill(Addr(base, 1), c, SetupPid, 0, 7, packet)];
      var num := 1;
      while num < numPackets - 1
        invariant 1 <= num <= numPackets - 1
        invariant descriptors == Install(old(descriptors), base, list[..num])
      {
        DataFilled(c, num);
        InstallNext(old(descriptors), base, list, num);
        descriptors := descriptors[Addr(base, num) :=
          Fill(Addr(base, num + 1), c, InPid, num % 2, 7, buffer + 8 * (num - 1))];
        num := num + 1;
      }
      StatusFilled(c);
      InstallNext(old(descriptors), base, list, num);
      descriptors := descriptors[Addr(base, num) := StatusTd(c, OutPid)];
      assert list[..|list|] == list;
    }

    /** `uhci_execute_transaction` for a control transfer: the request says how much data to ask for. */
    method ExecuteControl(address: nat, mps: uint8, lowSpeed: bool, setup: nat, buffer: nat, sch: Schedule)
        returns (ok: bool, actual: nat, ghost c: Control, ghost trace: seq<Fault>)
      requires Valid() && mps > 0 && setup + REQUEST_LENGTH <= |ram|
      requires Room(heap.freeMemoryStart, Count(LE16(ram[setup + 6..setup + 8]), mps) + 2)
      modifies this, heap
      ensures Valid() && |ram| == |old(ram)|
      ensures c == Control(c.base, setup, buffer, old(LE16(ram[setup + 6..setup + 8])), mps, address, lowSpeed)
      ensures Sane(c) && old(heap.freeMemoryStart) <= c.base
      ensures heap.freeMemoryStart == c.base + TD_SIZE * (DataPackets(c) + 2)
      ensures View() == Carry(old(View()), c, trace)
      ensures ok <==> SeenInactive(Publish(old(View()), c.base, ControlList(c)), Addr(c.base, DataPackets(c) + 1),
                                   CONTROL_TIMEOUT, sch)
      ensures Waited(Publish(old(View()), c.base, ControlList(c)), Addr(c.base, DataPackets(c) + 1), CONTROL_TIMEOUT,
                     sch, trace)
      ensures ok ==> StatusDone(View(), c) && actual == Reported(descriptors, Addr(c.base, 1), DataPackets(c))
    {
      hide HcStep, Run, SeenInactive, Waited, Reported, ControlTd;
      var length := LE16(ram[setup + 6..setup + 8]);
      var numDataPackets := Count(length, mps);
      BlockInRoom(heap.freeMemoryStart, numDataPackets + 2);
      var base := heap.Memalign(16, TD_SIZE * (numDataPackets + 2));
      c := Control(base, setup, buffer, length, mps, address, lowSpeed);
      var request := Control(base, setup, buffer, length, mps, address, lowSpeed);
      BuildControl(request);
      elementLinkPointer := base;
      ghost var published := View();
      InstalledAddresses(old(descriptors), base, ControlList(c));
      actual := 0;
      ok, trace := WaitForTransfer(Addr(base, numDataPackets + 1), CONTROL_TIMEOUT, sch);
      RunKeepsDescriptors(published, trace);
      RunKeepsMemorySize(published, trace);
      if !ok {
        return;
      }
      DataAddresses(base, numDataPackets, descriptors);
      actual := SumLengths(Addr(base, 1), numDataPackets);
    }

    /** Adds up what the descriptors report. */
    method SumLengths(base: nat, n: nat) returns (actual: nat)
      requires forall i {:trigger Addr(base, i)} :: 0 <= i < n ==> Addr(base, i) in descriptors
      ensures actual == Reported(descriptors, base, n)
    {
      actual := 0;
      for i := 0 to n
        invariant actual == Reported(descriptors, base, i)
      {
        actual := actual + (descriptors[Addr(base, i)].actualLength + 1);
      }
    }

    /** `uhci_execute_bulk_transaction`: the list is built with alternating toggles, published, polled and
        unpublished. `b` describes the list and `trace` what the bus did to it. */
    method ExecuteBulk(typ: nat, endpoint: UsbEndpoint, address: nat, lowSpeed: bool, buffer: nat, length: uint32,
                       sch: Schedule)
        returns (ok: bool, actual: nat, ghost b: Bulk, ghost trace: seq<Fault>)
      requires Valid() && length > 0 && ByteSize(endpoint.maxPacketSize) != 0 && endpoint.toggle < 2
      requires Room(heap.freeMemoryStart, Count(length, ByteSize(endpoint.maxPacketSize)))
      modifies this, heap, endpoint
      ensures Valid() && |ram| == |old(ram)|
      ensures !IsBulk(typ) ==> !ok && View() == old(View()) && endpoint.toggle == old(endpoint.toggle)
      ensures IsBulk(typ) ==>
        && b == Bulk(b.base, buffer, length, ByteSize(endpoint.maxPacketSize), PidOf(typ),
                     address, endpoint.address, lowSpeed, old(endpoint.toggle))
        && WellFormed(b) && endpoint.toggle == ToggleAt(b.toggle, Count(length, b.mps))
      ensures IsBulk(typ) ==>
        && old(heap.freeMemoryStart) <= b.base < old(heap.freeMemoryStart) + 16
        && heap.freeMemoryStart == b.base + TD_SIZE * Count(length, b.mps)
      ensures IsBulk(typ) ==> View() == Perform(old(View()), BulkTransfer(b), trace)
      ensures IsBulk(typ) ==> Lasts(old(View()), b, sch, trace) && (ok <==> Finishes(old(View()), b, sch, trace))
      ensures ok ==> Accepted(View(), BulkTransfer(b)) && actual == Reported(descriptors, b.base, Count(length, b.mps))
    {
      hide HcStep, Run, BulkList, SeenInactive, Waited, Reported, ToggleAt;
      ok, actual, trace, b := false, 0, [], Bulk(0, 0, 0, 0, InPid, 0, 0, false, 0);
      if !IsBulk(typ) {
        return;
      }
      var maxPacketSize := ByteSize(endpoint.maxPacketSize);
      var numPackets := Count(length, maxPacketSize);
      SomePacket(length, maxPacketSize);
      BlockInRoom(heap.freeMemoryStart, numPackets);
      var base := heap.Memalign(16, TD_SIZE * numPackets);
      var request := Bulk(base, buffer, length, maxPacketSize, PidOf(typ), address, endpoint.address, lowSpeed,
        endpoint.toggle);
      b := request;
      BuildBulkList(endpoint, request);
      elementLinkPointer := base;
      ghost var published := View();
      InstalledAddresses(old(descriptors), base, BulkList(b));
      assert Addr(base, numPackets - 1) in descriptors && Addr(base, 0) in descriptors;
      ok, trace := WaitForTransfer(Addr(base, numPackets - 1), BULK_TIMEOUT, sch);
      RunKeepsDescriptors(published, trace);
      RunKeepsMemorySize(published, trace);
      if !ok {
        return;
      }
      if descriptors[Addr(base, 0)].actualLength == NO_DATA {
        ok := false;
        return;
      }
      actual := SumLengths(base, numPackets);
    }
  }

  predicate IsBulk(typ: nat) {
    typ == USB_TXNTYPE_BULK_IN || typ == USB_TXNTYPE_BULK_OUT
  }

  function PidOf(typ: nat): Pid {
    if typ == USB_TXNTYPE_BULK_IN then InPid else OutPid
  }

  lemma FetchPackets(fullLength: uint8)
    ensures fullLength - fullLength / 8 * 8 == fullLength % 8
    ensures Count(fullLength, 8) == fullLength / 8 + if fullLength % 8 != 0 then 1 else 0
  {
    var l: int := fullLength;
    assert l == l / 8 * 8 + l % 8;
  }

  lemma InstallNone(tds: map<nat, Td>, base: nat, list: seq<Td>)
    ensures Install(tds, base, list[..0]) == tds && Addr(base, 0) == base
  {
  }

  lemma InstallNext(tds: map<nat, Td>, base: nat, list: seq<Td>, i: nat)
    requires i < |list|
    ensures Install(tds, base, list[..i + 1]) == Install(tds, base, list[..i])[Addr(base, i) := list[i]]
  {
    assert list[..i + 1][..i] == list[..i];
  }

  lemma DataAddresses(base: nat, n: nat, tds: map<nat, Td>)
    requires forall i {:trigger Addr(base, i)} :: 0 <= i < n + 2 ==> Addr(base, i) in tds
    ensures forall i {:trigger Addr(Addr(base, 1), i)} :: 0 <= i < n ==> Addr(Addr(base, 1), i) in tds
  {
    forall i {:trigger Addr(Addr(base, 1), i)} | 0 <= i < n ensures Addr(Addr(base, 1), i) in tds {
      assert Addr(Addr(base, 1), i) == Addr(base, i + 1);
    }
  }

  lemma InstalledAddresses(tds: map<nat, Td>, base: nat, list: seq<Td>)
    ensures forall i {:trigger Addr(base, i)} :: 0 <= i < |list| ==> Addr(base, i) in Install(tds, base, list)
  {
    InstallHolds(tds, base, list);
  }

  predicate FirstReportsData(tds: map<nat, Td>, base: nat) {
    base in tds && tds[base].actualLength != NO_DATA
  }
}
