/** Requests a driver sends over the control pipe. */
module UsbRequests {
  import opened Bytes
  import opened Kernel
  import opened ControlPipe
  import opened BulkDevice
  import opened Uhci
  import opened UhciControl
  import opened ControlRuns
  import opened UhciDriver
  import opened CalmRuns

  const GET_MAX_LUN: byte := 0xFE
  const CLASS_TO_INTERFACE: byte := 0x21

  /** Device to host, class, interface; value 0; one byte. */
  function MaxLunRequest(interfaceNumber: byte): (request: seq<byte>)
    ensures |request| == REQUEST_LENGTH && request == [0xA1, 0xFE, 0, 0, interfaceNumber, 0, 1, 0]
  {
    [DEVICE_TO_HOST + CLASS_TO_INTERFACE, GET_MAX_LUN] + ToLE16(0) + ToLE16(interfaceNumber) + ToLE16(1)
  }

  /** The device's control pipe answers at the address, in packets of this size. */
  predicate OnPipe(dev: Device, address: nat, mps: nat) {
    dev.address == address && dev.inEndpoint != 0 && dev.outEndpoint != 0 && dev.control.packetSize == mps
  }

  lemma MaxLunInPlace(ram: seq<byte>, packet: nat, interfaceNumber: byte)
    requires packet + REQUEST_LENGTH <= |ram|
    ensures var request, after := MaxLunRequest(interfaceNumber), Splice(ram, packet, MaxLunRequest(interfaceNumber));
      && after[packet..packet + REQUEST_LENGTH] == request && LE16(after[packet + 6..packet + 8]) == 1
      && Asked(request) == 1 && request[0] >= DEVICE_TO_HOST
      && forall i :: 0 <= i < |ram| && !(packet <= i < packet + REQUEST_LENGTH) ==> after[i] == ram[i]
  {
    var request, after := MaxLunRequest(interfaceNumber), Splice(ram, packet, MaxLunRequest(interfaceNumber));
    SpliceHolds(ram, packet, request);
    assert request[6..8] == ToLE16(1);
    assert after[packet + 6..packet + 8] == after[packet..packet + REQUEST_LENGTH][6..8];
    LoadStore16(1);
  }

  /** The transfer behind it. */
  lemma OneByteAnswer(x: Call, s: Sys, interfaceNumber: byte, fs: seq<Fault>)
    requires Sane(x.c) && x.c.length == 1 && s.dev == x.dev && s.ram == x.ram && OnPipe(x.dev, x.c.address, x.c.mps)
    requires x.c.setup + REQUEST_LENGTH <= |x.ram| && x.c.buffer + x.c.mps <= |x.ram|
    requires Request(x) == MaxLunRequest(interfaceNumber) && Asked(Request(x)) == 1 && Request(x)[0] >= DEVICE_TO_HOST
    ensures BeginsCall(x, s) && DataPackets(x.c) == 1
    ensures Request(x) in x.dev.control.answers ==> Willing(x)
    ensures StatusDone(Carry(s, x.c, fs), x.c) ==>
      && Request(x) in x.dev.control.answers && |Carry(s, x.c, fs).ram| == |x.ram|
      && Carry(s, x.c, fs).ram[x.c.buffer] == var answer := x.dev.control.answers[Request(x)];
           if answer == [] then x.ram[x.c.buffer] else answer[0]
  {
    hide Carry, Stored, MaxLunRequest, StatusDone, StageAt;
    OnePacket(x.c);
    WillingExactly(x);
    if StatusDone(Carry(s, x.c, fs), x.c) {
      ControlRuns.AnswerArrives(x, s, fs);
      var answer := UpTo(x.dev.control.answers[Request(x)], 1);
      if answer != [] {
        assert Carry(s, x.c, fs).ram[x.c.buffer..x.c.buffer + |answer|][0] == answer[0];
      }
    }
  }

  lemma OnePacket(c: Control)
    requires Sane(c) && c.length == 1
    ensures DataPackets(c) == 1 && c.mps * 0 == 0
  {
    if c.mps == 1 {
      assert 1 / c.mps == 1 && 1 % c.mps == 0;
    } else {
      ModUnique(1, c.mps, 0, 1);
    }
  }

  /** Asks the device for its highest unit number: a class request to the interface, for one byte. `packet` and `at` are
      where the request and the answer lie. */
  method GetMaxLun(controller: UhciController, address: nat, lowSpeed: bool, packet: nat, at: nat, mps: uint8,
                   interfaceNumber: byte, sch: Schedule)
      returns (result: int)
    requires controller.Valid() && mps > 0
    requires packet + REQUEST_LENGTH <= |controller.ram| && at + mps <= |controller.ram|
    requires packet + REQUEST_LENGTH <= at || at + mps <= packet
    requires Room(controller.heap.freeMemoryStart, 3)
    modifies controller, controller.heap
    ensures controller.Valid() && |controller.ram| == |old(controller.ram)|
    ensures OnPipe(old(controller.device), address, mps) && result != FAILURE ==>
      var request := MaxLunRequest(interfaceNumber);
      && request in old(controller.device).control.answers
      && result == var answer := old(controller.device).control.answers[request];
           if answer == [] then old(controller.ram)[at] else answer[0]
    ensures OnPipe(old(controller.device), address, mps) && ControlCalm(sch, 3) ==>
      (MaxLunRequest(interfaceNumber) in old(controller.device).control.answers ==> result != FAILURE)
  {
    ghost var dev, before := controller.device, controller.ram;
    var request := MaxLunRequest(interfaceNumber);
    controller.ram := Splice(controller.ram, packet, request);
    ghost var s0 := controller.View();
    MaxLunInPlace(before, packet, interfaceNumber);
    var ok, actual;
    ghost var c, trace;
    ok, actual, c, trace := controller.ExecuteControl(address, mps, lowSpeed, packet, at, sch);
    if OnPipe(dev, address, mps) {
      OneByteAnswer(Call(c, dev, s0.ram), s0, interfaceNumber, trace);
      if ControlCalm(sch, 3) && request in dev.control.answers {
        CalmControl(Call(c, dev, s0.ram), s0, sch);
      }
    }
    if !ok {
      return FAILURE;
    }
    result := controller.ram[at];
  }
}
