/** What a command of the mass-storage driver comes to: its three descriptor lists as one conversation, and what its
    result is worth. */
module UsbCommands {
  import opened Bytes
  import opened BulkDevice
  import opened Uhci
  import opened TransferRuns
  import opened BulkRuns
  import opened PacketStreams
  import opened BulkOnly
  import opened ShortAnswers
  import opened Aftermath
  import opened UhciDriver
  import opened CalmRuns

  const INQUIRY_LENGTH: uint32 := 0x24
  const CAPACITY_LENGTH: uint32 := 8
  const SENSE_LENGTH: uint32 := 18

  /** One schedule for each of the three transfers. */
  datatype Schedules = Schedules(out: Schedule, data: Schedule, status: Schedule)

  /** Where the driver's wrappers and the caller's buffer lie in memory. */
  datatype Places = Places(cbw: nat, buffer: nat, csw: nat)

  predicate Apart(at: Places, length: nat, size: nat) {
    && at.cbw + CBW_LENGTH <= size && at.buffer + length <= size && at.csw + CSW_LENGTH <= size
    && (at.cbw + CBW_LENGTH <= at.buffer || at.buffer + length <= at.cbw)
    && (at.csw + CSW_LENGTH <= at.buffer || at.buffer + length <= at.csw)
  }

  /** The bytes of the last packet when `length` bytes travel in packets of `mps`. */
  function LastSize(length: nat, mps: nat): nat
    requires mps > 0
  {
    if length % mps == 0 then mps else length % mps
  }

  /** The last data packet and the packet size both leave no room for an unread error bit to matter. */
  predicate Robust(length: nat, mps: nat)
    requires mps > 0
  {
    mps >= CSW_LENGTH && LastSize(length, mps) > CSW_LENGTH
  }

  lemma LastPacketIsLastSize(b: Bulk)
    requires WellFormed(b)
    ensures Count(b.length, b.mps) > 0 && LastPacket(BulkTransfer(b)) == LastSize(b.length, b.mps)
  {
    SomePacket(b.length, b.mps);
    PacketsTile(b.length, b.mps, Count(b.length, b.mps) - 1);
  }

  function PlanOf(out: Bulk, data: Bulk, status: Bulk): Plan
    requires WellFormed(out) && WellFormed(data) && WellFormed(status)
  {
    Plan(BulkTransfer(out), BulkTransfer(data), BulkTransfer(status))
  }

  /** The driver's idea of the device: its address, endpoints, packet sizes and toggles. */
  datatype Host = Host(address: nat, inEndpoint: nat, inMps: nat, inToggle: nat,
                       outEndpoint: nat, outMps: nat, outToggle: nat)

  /** The device waits for a command at the driver's address and endpoints, with both toggles in step. */
  predicate InStep(h: Host, dev: Device) {
    && dev.phase == Idle([]) && dev.address == h.address
    && dev.inEndpoint == h.inEndpoint && dev.outEndpoint == h.outEndpoint
    && dev.packetSize == h.inMps && dev.inToggle == h.inToggle && dev.outToggle == h.outToggle
  }

  /** The lists of one command, as the driver builds them: wrapper, data and status in turn, the toggles of each
      endpoint running on from one transfer to the next. */
  ghost predicate Wired(h: Host, at: Places, length: nat, out: Bulk, data: Bulk, status: Bulk, h': Host) {
    && WellFormed(out) && WellFormed(data) && WellFormed(status)
    && out == Bulk(out.base, at.cbw, CBW_LENGTH, h.outMps, OutPid, h.address, h.outEndpoint, out.lowSpeed, h.outToggle)
    && data == Bulk(data.base, at.buffer, length, h.inMps, InPid, h.address, h.inEndpoint, data.lowSpeed, h.inToggle)
    && status == Bulk(status.base, at.csw, CSW_LENGTH, h.inMps, InPid, h.address, h.inEndpoint, status.lowSpeed,
                      ToggleAt(h.inToggle, Count(length, h.inMps)))
    && h' == h.(outToggle := ToggleAt(h.outToggle, Count(CBW_LENGTH, h.outMps)),
                inToggle := ToggleAt(status.toggle, Count(CSW_LENGTH, h.inMps)))
  }

  /** The lists of the first two phases, and the toggles after them. */
  ghost predicate Launched(h: Host, at: Places, length: nat, out: Bulk, data: Bulk, h2: Host) {
    && WellFormed(out) && WellFormed(data)
    && out == Bulk(out.base, at.cbw, CBW_LENGTH, h.outMps, OutPid, h.address, h.outEndpoint, out.lowSpeed, h.outToggle)
    && data == Bulk(data.base, at.buffer, length, h.inMps, InPid, h.address, h.inEndpoint, data.lowSpeed, h.inToggle)
    && h2 == h.(outToggle := ToggleAt(h.outToggle, Count(CBW_LENGTH, h.outMps)),
                inToggle := ToggleAt(h.inToggle, Count(length, h.inMps)))
  }

  /** The list of the first phase alone. */
  ghost predicate Issued(h: Host, at: Places, out: Bulk, h1: Host) {
    && WellFormed(out)
    && out == Bulk(out.base, at.cbw, CBW_LENGTH, h.outMps, OutPid, h.address, h.outEndpoint, out.lowSpeed, h.outToggle)
    && h1 == h.(outToggle := ToggleAt(h.outToggle, Count(CBW_LENGTH, h.outMps)))
  }

  /** A command as it went: the state with its wrapper in memory, the lists the driver built, what happened on the bus
      during each transfer, the state in the end, and whether all three transfers finished. */
  datatype Record = Record(start: Sys, cbw: seq<byte>, out: Bulk, data: Bulk, status: Bulk, weather: Weather, end: Sys,
                           done: bool)

  /** The wrapper has gone out, and the data has come in. */
  ghost predicate Opened(r: Record, sch: Schedules)
    requires WellFormed(r.out) && WellFormed(r.data)
  {
    && Lasts(r.start, r.out, sch.out, r.weather.out) && Finishes(r.start, r.out, sch.out, r.weather.out)
    && var s1 := Perform(r.start, BulkTransfer(r.out), r.weather.out);
    && Lasts(s1, r.data, sch.data, r.weather.data) && Finishes(s1, r.data, sch.data, r.weather.data)
  }

  /** The driver has given up during one of the first two phases. */
  ghost predicate Broken(r: Record, h: Host, at: Places, length: nat, sch: Schedules, h': Host) {
    && WellFormed(r.out) && Lasts(r.start, r.out, sch.out, r.weather.out)
    && var s1 := Perform(r.start, BulkTransfer(r.out), r.weather.out);
       if Finishes(r.start, r.out, sch.out, r.weather.out) then
         && Launched(h, at, length, r.out, r.data, h') && Lasts(s1, r.data, sch.data, r.weather.data)
         && !Finishes(s1, r.data, sch.data, r.weather.data)
         && r.end == Perform(s1, BulkTransfer(r.data), r.weather.data)
       else Issued(h, at, r.out, h') && r.end == s1
  }

  lemma StopsAtWrapper(r: Record, h: Host, at: Places, length: nat, sch: Schedules, h1: Host)
    requires Issued(h, at, r.out, h1) && Lasts(r.start, r.out, sch.out, r.weather.out)
    requires !Finishes(r.start, r.out, sch.out, r.weather.out)
    requires r.end == Perform(r.start, BulkTransfer(r.out), r.weather.out)
    ensures Broken(r, h, at, length, sch, h1)
  {
    hide Lasts, Finishes, Perform;
  }

  lemma GoesOn(r: Record, h: Host, at: Places, length: nat, sch: Schedules, h1: Host, h2: Host, ok: bool)
    requires Issued(h, at, r.out, h1) && WellFormed(r.data)
    requires Lasts(r.start, r.out, sch.out, r.weather.out) && Finishes(r.start, r.out, sch.out, r.weather.out)
    requires r.data == Bulk(r.data.base, at.buffer, length, h1.inMps, InPid, h1.address, h1.inEndpoint, r.data.lowSpeed,
                            h1.inToggle)
    requires h2 == h1.(inToggle := ToggleAt(h1.inToggle, Count(length, h1.inMps)))
    requires var s1 := Perform(r.start, BulkTransfer(r.out), r.weather.out);
      && Lasts(s1, r.data, sch.data, r.weather.data) && (ok <==> Finishes(s1, r.data, sch.data, r.weather.data))
      && r.end == Perform(s1, BulkTransfer(r.data), r.weather.data)
    ensures Launched(h, at, length, r.out, r.data, h2)
    ensures if ok then Opened(r, sch) else Broken(r, h, at, length, sch, h2)
  {
    hide Lasts, Finishes, Perform, Count, ToggleAt;
  }

  /** The driver has gone through all three phases. */
  ghost predicate Finished(r: Record, h: Host, at: Places, length: nat, sch: Schedules, h': Host) {
    && Wired(h, at, length, r.out, r.data, r.status, h')
    && var s3 := BeforeStatus(r.start, PlanOf(r.out, r.data, r.status), r.weather);
    && Opened(r, sch) && Lasts(s3, r.status, sch.status, r.weather.status)
    && (r.done <==> Finishes(s3, r.status, sch.status, r.weather.status))
    && r.end == AfterStatus(r.start, PlanOf(r.out, r.data, r.status), r.weather)
  }

  /** All that a command does, and all that its result depends on. */
  ghost predicate Conducted(r: Record, h: Host, before: Sys, at: Places, length: nat, sch: Schedules, ok: bool,
                            h': Host) {
    && |r.cbw| == CBW_LENGTH && at.cbw + CBW_LENGTH <= |before.ram| && r.start == WithWrapper(before, at.cbw, r.cbw)
    && (Finished(r, h, at, length, sch, h') || (Broken(r, h, at, length, sch, h') && !r.done))
    && (ok <==> r.done && Vouches(r.end.ram, at.csw))
  }

  /** The lists of a command as one conversation. */
  ghost predicate Built(r: Record) {
    WellFormed(r.out) && WellFormed(r.data) && WellFormed(r.status)
  }

  function TalkOf(r: Record): Talk
    requires Built(r)
  {
    Talk(r.start, PlanOf(r.out, r.data, r.status), r.cbw, r.weather)
  }

  /** The error bits the driver never reads are clear where they matter. */
  ghost predicate BitsClear(r: Record) {
    && Built(r) && |TalkOf(r).plan.data.cuts| >= 2
    && ErrorBitsClear(r.start, TalkOf(r).plan, r.cbw, r.weather)
  }

  /** All three transfers finished, and no error bit that matters is set. */
  ghost predicate Settled(r: Record, ok: bool) {
    r.done && if ok then BitsClear(r) else Built(r) && Clean(r.start, TalkOf(r).plan, r.weather)
  }

  /** Only a wrapper given up on, before a single packet of data, gets a command through to a device that is behind. */
  ghost predicate Mistook(r: Record) {
    && Built(r) && |TalkOf(r).plan.data.list| == 1
    && Errored(AfterCommand(r.start, TalkOf(r).plan, r.weather), TalkOf(r).plan.out)
  }

  /** Against a device in step, the three lists make a well-planned conversation. */
  lemma WiredIsPlanned(h: Host, at: Places, length: nat, out: Bulk, data: Bulk, status: Bulk, h': Host, s: Sys,
                       cbw: seq<byte>)
    requires Wired(h, at, length, out, data, status, h') && InStep(h, s.dev) && Apart(at, length, |s.ram|)
    requires |cbw| == CBW_LENGTH && LE32(cbw[8..12]) == length && s.ram[at.cbw..at.cbw + CBW_LENGTH] == cbw
    ensures Planned(s, PlanOf(out, data, status), out.mps, cbw)
    ensures Length(BulkTransfer(data)) == length && LastPacket(BulkTransfer(data)) == LastSize(length, h.inMps)
  {
    BulkIsTiled(out);
    BulkIsTiled(data);
    BulkIsTiled(status);
    LastPacketIsLastSize(data);
  }

  ghost predicate SameElsewhere(before: seq<byte>, after: seq<byte>, at: Places, length: nat) {
    |after| == |before| &&
    forall a :: 0 <= a < |before|
      && !(at.buffer <= a < at.buffer + length) && !(at.cbw <= a < at.cbw + CBW_LENGTH)
      && !(at.csw <= a < at.csw + CSW_LENGTH)
      ==> after[a] == before[a]
  }

  /** The buffer begins with `answer`. A device that pads has filled the rest of it with zeros; otherwise the rest of
      memory, outside the driver's own wrappers, is as it was. */
  ghost predicate Answered(before: Sys, after: Sys, answer: seq<byte>, at: Places, length: nat) {
    && SameElsewhere(before.ram, after.ram, at, length) && after.dev.units == before.dev.units
    && before.dev.verdict.Acts? && 0 < |answer| <= length && at.buffer + length <= |before.ram| == |after.ram|
    && after.ram[at.buffer..at.buffer + |answer|] == answer
    && forall a :: at.buffer + |answer| <= a < at.buffer + length ==>
         after.ram[a] == if before.dev.verdict.shortfall.Pads? then 0 else before.ram[a]
  }

  /** The device did not hear that its last status packet arrived: it is about to repeat it. */
  predicate Behind(h: Host, dev: Device) {
    && dev.address == h.address && dev.inEndpoint == h.inEndpoint && dev.outEndpoint == h.outEndpoint
    && dev.packetSize == h.inMps && dev.inToggle < 2 && Flip(dev.inToggle) == h.inToggle && dev.outToggle == h.outToggle
    && EndsWrapper(dev.phase, dev.packetSize)
  }

  /** The device is short, unnoticed by a driver that asks for `length` bytes. */
  predicate FooledBy(dev: Device, cbw: seq<byte>, length: nat) {
    dev.packetSize > 0 && Fooled(dev, cbw, Count(length, dev.packetSize))
  }

  /** What a command that returned SUCCESS has done: the device carried it out, its answer is in the buffer and is all
      that was asked for unless the device is short unnoticed, and the device is in step again, or one packet behind. */
  ghost predicate CarriedOut(before: Sys, cbw: seq<byte>, at: Places, length: nat, after: Sys, h': Host)
    requires |cbw| == CBW_LENGTH
  {
    && Answered(before, after, Answer(before.dev.units, cbw), at, length)
    && (|Answer(before.dev.units, cbw)| == length || FooledBy(before.dev, cbw, length))
    && (InStep(h', after.dev) || Behind(h', after.dev))
  }

  /** The device's data phase is as long as the driver's. */
  predicate SendsAll(dev: Device, cbw: seq<byte>) {
    Reaction(dev, cbw).Sending?
  }

  /** Neither the sizes nor the device leave an unread error bit room to matter. */
  predicate Sturdy(dev: Device, cbw: seq<byte>, length: nat, mps: nat)
    requires mps > 0
  {
    Robust(length, mps) && SendsAll(dev, cbw)
  }

  /** No handshake is lost while the driver waits. */
  ghost predicate Audible(sch: Schedule) {
    Heard(Polled(sch, BULK_TIMEOUT)) && Heard(sch.settle)
  }

  lemma AudibleTrace(s: Sys, b: Bulk, sch: Schedule, trace: seq<Fault>)
    requires Audible(sch) && WellFormed(b) && Lasts(s, b, sch, trace)
    ensures Heard(trace)
  {
    hide SeenInactive, InactiveAt, Polled, Publish, BulkTransfer, BulkList;
    var s0, td := Publish(s, b.base, BulkList(b)), LastTd(BulkTransfer(b));
    if SeenInactive(s0, td, BULK_TIMEOUT, sch) {
      var j :| 0 <= j < BULK_TIMEOUT && InactiveAt(s0, td, Polled(sch, j)) && trace == Polled(sch, j) + sch.settle;
      PolledGrows(sch, j, BULK_TIMEOUT);
      HeardPrefix(Polled(sch, j), Polled(sch, BULK_TIMEOUT));
    }
  }

  lemma HeardPrefix(fs: seq<Fault>, gs: seq<Fault>)
    requires fs <= gs && Heard(gs)
    ensures Heard(fs)
  {
    forall i | 0 <= i < |fs| ensures !fs[i].Unheard? {
      assert fs[i] == gs[i];
    }
  }

  /** What `SuccessIsSound` says about the three lists of one command. */
  lemma SuccessCarriesOut(h: Host, at: Places, length: nat, out: Bulk, data: Bulk, status: Bulk, h': Host, before: Sys,
                          s0: Sys, cbw: seq<byte>, w: Weather)
    requires Wired(h, at, length, out, data, status, h') && InStep(h, before.dev) && Apart(at, length, |before.ram|)
    requires |cbw| == CBW_LENGTH && LE32(cbw[8..12]) == length
    requires at.cbw + |cbw| <= |before.ram| && s0 == WithWrapper(before, at.cbw, cbw)
    requires |PlanOf(out, data, status).data.cuts| >= 2
    requires Succeeds(s0, PlanOf(out, data, status), w) && ErrorBitsClear(s0, PlanOf(out, data, status), cbw, w)
    ensures CarriedOut(before, cbw, at, length, AfterStatus(s0, PlanOf(out, data, status), w), h')
    ensures Heard(w.status) ==> InStep(h', AfterStatus(s0, PlanOf(out, data, status), w).dev)
  {
    hide WellFormed, Apart, Splice, Succeeds, ErrorBitsClear, Delivered, AtRest, OneBehind, Unnoticed, Answer, LE32,
      CarriedOut, InStep, AfterStatus, BulkTransfer, LastHeard, BeforeStatus, Publish, Planned, Execute;
    var p := PlanOf(out, data, status);
    SpliceHolds(before.ram, at.cbw, cbw);
    WrapperInPlace(before, at, cbw, length);
    WiredIsPlanned(h, at, length, out, data, status, h', s0, cbw);
    SuccessIsSound(s0, p, out.mps, cbw, w);
    SuccessNeedsAction(s0, p, out.mps, cbw, w);
    StatusIsDone(s0, p, w);
    HeardStatusIsKnown(s0, p, out.mps, cbw, w);
    DeliveredCarriesOut(h, at, length, out, data, status, h', before, s0, cbw, AfterStatus(s0, p, w));
  }

  /** With sizes that leave no room for an unread error bit to matter. */
  lemma RobustIsClear(h: Host, at: Places, length: nat, out: Bulk, data: Bulk, status: Bulk, h': Host, s0: Sys,
                      cbw: seq<byte>, w: Weather)
    requires Wired(h, at, length, out, data, status, h') && InStep(h, s0.dev) && Apart(at, length, |s0.ram|)
    requires |cbw| == CBW_LENGTH && LE32(cbw[8..12]) == length && s0.ram[at.cbw..at.cbw + CBW_LENGTH] == cbw
    ensures var p := PlanOf(out, data, status);
      |p.data.cuts| >= 2 && (Robust(length, h.inMps) && SendsAll(s0.dev, cbw) ==> ErrorBitsClear(s0, p, cbw, w))
  {
    hide Execute, Errored, AfterData, AfterStatus, Planned, BulkTransfer, LE32;
    WiredIsPlanned(h, at, length, out, data, status, h', s0, cbw);
    PlannedLists(s0, PlanOf(out, data, status), out.mps, cbw);
  }

  lemma WrapperInPlace(before: Sys, at: Places, cbw: seq<byte>, length: nat)
    requires |cbw| == CBW_LENGTH && Apart(at, length, |before.ram|)
    ensures at.cbw + CBW_LENGTH <= |before.ram| == |WithWrapper(before, at.cbw, cbw).ram|
    ensures WithWrapper(before, at.cbw, cbw).ram[at.cbw..at.cbw + CBW_LENGTH] == cbw
    ensures WithWrapper(before, at.cbw, cbw).dev == before.dev
  {
  }

  /** If every handshake of the status transfer is heard, so is the last one. */
  lemma HeardStatusIsKnown(s: Sys, p: Plan, outMps: nat, cbw: seq<byte>, w: Weather)
    requires Planned(s, p, outMps, cbw) && LastDone(AfterStatus(s, p, w), p.status)
    ensures Heard(w.status) ==>
      LastHeard(Publish(BeforeStatus(s, p, w), p.status.base, p.status.list), p.status, w.status)
  {
    hide Execute, Perform, Publish, CanWrite, LastDone, BeforeStatus;
    var s0 := Publish(BeforeStatus(s, p, w), p.status.base, p.status.list);
    TiledIsLinked(p.status, s.dev.packetSize);
    PublishedProgress(p.status.base, p.status.list, BeforeStatus(s, p, w));
    LastSeen(p.status, s.dev.packetSize, s0, 0, false);
    PerformedLastDone(BeforeStatus(s, p, w), p.status, w.status);
    if Heard(w.status) {
      HeardIsLastHeard(s0, p.status, w.status);
    }
  }

  lemma StatusIsDone(s: Sys, p: Plan, w: Weather)
    ensures Completed(s, p, w) || Succeeds(s, p, w) ==> LastDone(AfterStatus(s, p, w), p.status)
  {
    hide Perform, Vouches;
  }

  lemma PerformedLastDone(s: Sys, t: Transfer, fs: seq<Fault>)
    ensures LastDone(Perform(s, t, fs), t) <==> LastDone(Run(Publish(s, t.base, t.list), fs), t)
  {
    hide Run, Publish;
  }

  lemma {:induction false} HeardIsLastHeard(s: Sys, t: Transfer, fs: seq<Fault>)
    requires Heard(fs) && !LastDone(s, t) && LastDone(Run(s, fs), t)
    ensures LastHeard(s, t, fs)
    decreases |fs|
  {
    hide HcStep, LastDone;
    if !LastDone(HcStep(s, fs[0]), t) {
      HeardIsLastHeard(HcStep(s, fs[0]), t, fs[1..]);
    }
  }

  lemma UndisturbedIsEnough(out: Bulk, data: Bulk, status: Bulk, w: Weather)
    requires WellFormed(out) && WellFormed(data) && WellFormed(status) && Undisturbed(w, out, data, status)
    ensures AllClear(w.out) && AllClear(w.data) && AllClear(w.status)
    ensures var p := PlanOf(out, data, status);
      |w.out| >= |p.out.list| && |w.data| >= |p.data.list| && |w.status| >= |p.status.list|
  {
  }

  lemma DeliveredCarriesOut(h: Host, at: Places, length: nat, out: Bulk, data: Bulk, status: Bulk, h': Host,
                            before: Sys, s0: Sys, cbw: seq<byte>, after: Sys)
    requires Wired(h, at, length, out, data, status, h') && InStep(h, before.dev) && Apart(at, length, |before.ram|)
    requires |cbw| == CBW_LENGTH && LE32(cbw[8..12]) == length && Offers(Reaction(before.dev, cbw))
    requires at.cbw + |cbw| <= |before.ram| && s0 == WithWrapper(before, at.cbw, cbw)
    requires var p, answer := PlanOf(out, data, status), Answer(s0.dev.units, cbw);
      && p.data.cuts != [] && Length(p.data) == length && s0.dev.packetSize > 0 && s0.dev.verdict.Acts?
      && s0.dev.verdict.obeys
      && Delivered(s0, p, cbw, after.ram) && (|answer| == length || Unnoticed(s0.dev, answer, |p.data.list|))
      && (AtRest(s0, p, after.dev) || OneBehind(s0, p, after.dev))
    ensures CarriedOut(before, cbw, at, length, after, h')
    ensures AtRest(s0, PlanOf(out, data, status), after.dev) ==> InStep(h', after.dev)
  {
    hide Answer, LE32, Execute, Unnoticed;
  }

  // ---------------------------------------------------------------------------
  // What a record tells
  // ---------------------------------------------------------------------------

  lemma StatusPlace(r: Record)
    requires Built(r)
    ensures TalkOf(r).plan.status.buffer == r.status.buffer
  {
  }

  /** A command all of whose transfers finished was one whole conversation. */
  lemma DoneIsCompleted(r: Record, h: Host, before: Sys, at: Places, length: nat, sch: Schedules, ok: bool, h': Host)
    requires Conducted(r, h, before, at, length, sch, ok, h') && r.done
    ensures Wired(h, at, length, r.out, r.data, r.status, h') && Built(r)
    ensures Completed(r.start, TalkOf(r).plan, r.weather)
    ensures r.end == AfterStatus(r.start, TalkOf(r).plan, r.weather)
    ensures ok <==> Succeeds(r.start, TalkOf(r).plan, r.weather)
    ensures Audible(sch.status) ==> Heard(r.weather.status)
  {
    hide Perform, Lasts, Finishes, Broken, BulkTransfer, Vouches, Accepted, WellFormed, Audible, Heard, WithWrapper;
    var s1 := Perform(r.start, BulkTransfer(r.out), r.weather.out);
    var s3 := BeforeStatus(r.start, TalkOf(r).plan, r.weather);
    StatusPlace(r);
    FinishedIsAccepted(r.start, r.out, sch.out, r.weather.out);
    FinishedIsAccepted(s1, r.data, sch.data, r.weather.data);
    FinishedIsAccepted(s3, r.status, sch.status, r.weather.status);
    if Audible(sch.status) {
      AudibleTrace(s3, r.status, sch.status, r.weather.status);
    }
  }

  /** The device was in step when the command began, and its wrapper asks for what the driver asks for. */
  ghost predicate Begun(r: Record, h: Host, before: Sys, at: Places, length: nat) {
    && InStep(h, before.dev) && Apart(at, length, |before.ram|) && |r.cbw| == CBW_LENGTH && LE32(r.cbw[8..12]) == length
  }

  lemma StartOf(r: Record, h: Host, before: Sys, at: Places, length: nat, sch: Schedules, ok: bool, h': Host)
    requires Conducted(r, h, before, at, length, sch, ok, h') && Apart(at, length, |before.ram|)
    ensures |r.cbw| == CBW_LENGTH && r.start.dev == before.dev && at.cbw + CBW_LENGTH <= |r.start.ram| == |before.ram|
    ensures r.start.ram[at.cbw..at.cbw + CBW_LENGTH] == r.cbw
  {
    hide Finished, Broken, Vouches;
    WrapperInPlace(before, at, r.cbw, length);
  }

  lemma BegunIsPlanned(r: Record, h: Host, before: Sys, at: Places, length: nat, sch: Schedules, ok: bool, h': Host)
    requires Conducted(r, h, before, at, length, sch, ok, h') && r.done && Begun(r, h, before, at, length)
    ensures Built(r) && Planned(r.start, TalkOf(r).plan, r.out.mps, r.cbw) && |TalkOf(r).plan.data.cuts| >= 2
  {
    hide Perform, Broken, BulkTransfer, Vouches, WellFormed, Opened, LE32, InStep;
    WrapperInPlace(before, at, r.cbw, length);
    DoneIsCompleted(r, h, before, at, length, sch, ok, h');
    WiredIsPlanned(h, at, length, r.out, r.data, r.status, h', r.start, r.cbw);
    PlannedLists(r.start, TalkOf(r).plan, r.out.mps, r.cbw);
  }

  /** SUCCESS from a device in step, with the unread bits clear, is a command carried out. */
  lemma SuccessIsCarriedOut(r: Record, h: Host, before: Sys, at: Places, length: nat, sch: Schedules, h': Host)
    requires Conducted(r, h, before, at, length, sch, true, h') && Begun(r, h, before, at, length) && BitsClear(r)
    ensures CarriedOut(before, r.cbw, at, length, r.end, h')
    ensures Audible(sch.status) ==> InStep(h', r.end.dev)
  {
    hide Perform, Broken, Finished, BulkTransfer, Vouches, WellFormed, Opened, LE32, InStep, CarriedOut, Succeeds,
      Completed, AfterStatus, Wired, Heard, Audible, Answer;
    DoneIsCompleted(r, h, before, at, length, sch, true, h');
    SuccessCarriesOut(h, at, length, r.out, r.data, r.status, h', before, r.start, r.cbw, r.weather);
  }

  /** Whatever the status, a command whose transfers finished leaves the device in step, or one packet behind. */
  lemma SettledIsReady(r: Record, h: Host, before: Sys, at: Places, length: nat, sch: Schedules, ok: bool, h': Host)
    requires Conducted(r, h, before, at, length, sch, ok, h') && Begun(r, h, before, at, length) && Settled(r, ok)
    ensures InStep(h', r.end.dev) || Behind(h', r.end.dev)
    ensures Audible(sch.status) ==> InStep(h', r.end.dev)
  {
    hide Perform, Broken, Finished, BulkTransfer, Vouches, WellFormed, Opened, LE32, InStep, Behind, Succeeds,
      AfterStatus, Wired, Heard, Audible, Answered, BitsClear, Answer, AtRest, OneBehind, Planned, LastHeard, Publish,
      BeforeStatus, Apart;
    if ok {
      SuccessIsCarriedOut(r, h, before, at, length, sch, h');
    } else {
      var p := TalkOf(r).plan;
      DoneIsCompleted(r, h, before, at, length, sch, ok, h');
      BegunIsPlanned(r, h, before, at, length, sch, ok, h');
      CompletedIsAtRest(r.start, p, r.out.mps, r.cbw, r.weather);
      StatusIsDone(r.start, p, r.weather);
      HeardStatusIsKnown(r.start, p, r.out.mps, r.cbw, r.weather);
      RestIsInStep(r, h, before, at, length, h');
    }
  }

  lemma RestIsInStep(r: Record, h: Host, before: Sys, at: Places, length: nat, h': Host)
    requires Wired(h, at, length, r.out, r.data, r.status, h') && InStep(h, before.dev) && r.start.dev == before.dev
    ensures AtRest(r.start, TalkOf(r).plan, r.end.dev) ==> InStep(h', r.end.dev)
    ensures OneBehind(r.start, TalkOf(r).plan, r.end.dev) ==> Behind(h', r.end.dev)
  {
  }

  /** A device one packet behind lets no command through unless the driver overlooks two error bits. */
  lemma BehindMistakes(r: Record, h: Host, before: Sys, at: Places, length: nat, sch: Schedules, ok: bool, h': Host)
    requires |r.cbw| == CBW_LENGTH && LE32(r.cbw[8..12]) == length && Apart(at, length, |before.ram|)
    requires Conducted(r, h, before, at, length, sch, ok, h') && r.done && Behind(h, before.dev)
    ensures Mistook(r)
  {
    hide Conducted, Wired, BulkTransfer, WellFormed, LE32, Behind, Accepted, AfterStatus, AfterData, AfterCommand,
      Errored, Prepared, Trails, Apart;
    DoneIsCompleted(r, h, before, at, length, sch, ok, h');
    StartOf(r, h, before, at, length, sch, ok, h');
    BehindTrails(h, at, length, r.out, r.data, r.status, h', r.start, r.cbw);
    TrailingOut(r.start, TalkOf(r).plan, r.out.mps, r.cbw, r.weather);
    var d := TrailingData(r.start, TalkOf(r).plan, r.out.mps, r.cbw, r.weather);
  }

  lemma BehindTrails(h: Host, at: Places, length: nat, out: Bulk, data: Bulk, status: Bulk, h': Host, s: Sys,
                     cbw: seq<byte>)
    requires Wired(h, at, length, out, data, status, h') && Behind(h, s.dev) && Apart(at, length, |s.ram|)
    requires |cbw| == CBW_LENGTH && LE32(cbw[8..12]) == length && s.ram[at.cbw..at.cbw + CBW_LENGTH] == cbw
    ensures Prepared(s, PlanOf(out, data, status), out.mps, cbw) && Trails(s, PlanOf(out, data, status))
  {
    BulkIsTiled(out);
    BulkIsTiled(data);
    BulkIsTiled(status);
  }

  /** All of it, for a command that is over. */
  lemma CommandTells(r: Record, h: Host, before: Sys, at: Places, length: nat, sch: Schedules, ok: bool, h': Host)
    requires |r.cbw| == CBW_LENGTH && LE32(r.cbw[8..12]) == length && Apart(at, length, |before.ram|)
    requires Conducted(r, h, before, at, length, sch, ok, h') && h.inMps > 0
    ensures ok && InStep(h, before.dev) && BitsClear(r) ==> CarriedOut(before, r.cbw, at, length, r.end, h')
    ensures InStep(h, before.dev) && Settled(r, ok) ==>
      (InStep(h', r.end.dev) || Behind(h', r.end.dev)) && (Audible(sch.status) ==> InStep(h', r.end.dev))
    ensures Behind(h, before.dev) && r.done ==> Mistook(r)
    ensures InStep(h, before.dev) && r.done && Sturdy(before.dev, r.cbw, length, h.inMps) ==> BitsClear(r)
    ensures Favourable(h, before.dev, r.cbw, length, sch) && ok && Calmly(r) ==> BitsClear(r)
  {
    hide CarriedOut, InStep, Behind, BitsClear, Mistook, Sturdy, Audible, LE32, Apart, Calmly, Obedient, Finished,
      Broken, Vouches, CalmThroughout, WithWrapper;
    if InStep(h, before.dev) && ok && BitsClear(r) {
      SuccessIsCarriedOut(r, h, before, at, length, sch, h');
    }
    if InStep(h, before.dev) && Settled(r, ok) {
      SettledIsReady(r, h, before, at, length, sch, ok, h');
    }
    if Behind(h, before.dev) && r.done {
      BehindMistakes(r, h, before, at, length, sch, ok, h');
    }
    if InStep(h, before.dev) && r.done && Sturdy(before.dev, r.cbw, length, h.inMps) {
      SturdyIsClear(r, h, before, at, length, sch, ok, h');
    }
    if Favourable(h, before.dev, r.cbw, length, sch) && ok && Calmly(r) {
      FavourableIsClear(r, h, before, at, length, sch, h');
    }
  }

  /** A command that was not disturbed has left no error bit set. */
  lemma FavourableIsClear(r: Record, h: Host, before: Sys, at: Places, length: nat, sch: Schedules, h': Host)
    requires Conducted(r, h, before, at, length, sch, true, h') && Apart(at, length, |before.ram|)
    requires Favourable(h, before.dev, r.cbw, length, sch) && h.inMps > 0
    requires Calmly(r)
    ensures BitsClear(r)
  {
    hide Apart, Splice, Succeeds, Answer, LE32, Obedient, InStep, AfterStatus, AfterData, Errored, Planned, Execute,
      Tiled, Undisturbed, BulkTransfer, WellFormed, Finished, Broken, Vouches, CalmThroughout, Completed, Wired;
    var p := TalkOf(r).plan;
    DoneIsCompleted(r, h, before, at, length, sch, true, h');
    BegunIsPlanned(r, h, before, at, length, sch, true, h');
    ObedientSends(before.dev, r.cbw);
    UndisturbedIsEnough(r.out, r.data, r.status, r.weather);
    ClearRunsSucceed(r.start, p, r.out.mps, r.cbw, r.weather);
  }

  lemma SucceededIsDone(r: Record, h: Host, before: Sys, at: Places, length: nat, sch: Schedules, h': Host)
    requires Conducted(r, h, before, at, length, sch, true, h')
    ensures r.done
  {
    hide Finished, Broken, Vouches;
  }

  /** No command changes what the device stores. */
  lemma ConductedKeepsUnits(r: Record, h: Host, before: Sys, at: Places, length: nat, sch: Schedules, ok: bool,
                            h': Host)
    requires Conducted(r, h, before, at, length, sch, ok, h')
    ensures r.end.dev.units == before.dev.units
  {
    hide Perform, Lasts, Finishes, Vouches, BulkTransfer, Splice;
    PerformKeepsUnits(r.start, BulkTransfer(r.out), r.weather.out);
    var s1 := Perform(r.start, BulkTransfer(r.out), r.weather.out);
    if WellFormed(r.data) {
      PerformKeepsUnits(s1, BulkTransfer(r.data), r.weather.data);
    }
    if Built(r) {
      PerformKeepsUnits(BeforeStatus(r.start, TalkOf(r).plan, r.weather), TalkOf(r).plan.status, r.weather.status);
    }
  }

  lemma PerformKeepsUnits(s: Sys, t: Transfer, fs: seq<Fault>)
    ensures Perform(s, t, fs).dev.units == s.dev.units
  {
    hide Run;
    RunKeepsUnits(Publish(s, t.base, t.list), fs);
  }

  /** With sizes and a device that leave an unread bit no room to matter. */
  lemma SturdyIsClear(r: Record, h: Host, before: Sys, at: Places, length: nat, sch: Schedules, ok: bool, h': Host)
    requires Conducted(r, h, before, at, length, sch, ok, h') && r.done && Begun(r, h, before, at, length)
    requires h.inMps > 0 && Sturdy(before.dev, r.cbw, length, h.inMps)
    ensures BitsClear(r)
  {
    hide Perform, Broken, Finished, BulkTransfer, Vouches, WellFormed, Opened, LE32, InStep, Reaction, Robust, Apart,
      Wired, ErrorBitsClear;
    DoneIsCompleted(r, h, before, at, length, sch, ok, h');
    WrapperInPlace(before, at, r.cbw, length);
    RobustIsClear(h, at, length, r.out, r.data, r.status, h', r.start, r.cbw, r.weather);
  }

  // ---------------------------------------------------------------------------
  // When commands succeed
  // ---------------------------------------------------------------------------

  /** The bus is calm during all three transfers of a command. */
  ghost predicate CalmThroughout(h: Host, length: nat, sch: Schedules) {
    && h.outMps > 0 && h.inMps > 0
    && Calm(sch.out, Count(CBW_LENGTH, h.outMps)) && Calm(sch.data, Count(length, h.inMps))
    && Calm(sch.status, Count(CSW_LENGTH, h.inMps))
  }

  /** The device is in step and carries the command out, and the bus is calm throughout. */
  ghost predicate Favourable(h: Host, dev: Device, cbw: seq<byte>, length: nat, sch: Schedules) {
    |cbw| == CBW_LENGTH && LE32(cbw[8..12]) == length && InStep(h, dev) && Obedient(dev, cbw)
    && CalmThroughout(h, length, sch)
  }

  /** The device has the unit and the blocks, their size is the one the driver reckons with, and it obeys. */
  predicate WillRead(dev: Device, lun: byte, lba: uint32, blocks: uint16, length: nat) {
    && dev.verdict.Acts? && dev.verdict.obeys && lun < |dev.units|
    && |ReadBlocks(dev.units[lun], lba, blocks)| == length
  }

  /** Nothing stands in the way of a read. */
  ghost predicate ReadGranted(h: Host, dev: Device, lun: byte, lba: uint32, blocks: uint16, length: nat,
                              sch: Schedules) {
    InStep(h, dev) && WillRead(dev, lun, lba, blocks, length) && CalmThroughout(h, length, sch)
  }

  /** The unit holds the blocks asked for, its blocks are of the size the driver reckons with, the device is in step and
      obeys, and the bus is calm for as many bytes as that makes. */
  ghost predicate OnMedium(h: Host, dev: Device, lun: byte, lba: nat, blocks: nat, blockSize: nat, sch: Schedules) {
    && InStep(h, dev) && dev.verdict.Acts? && dev.verdict.obeys
    && lun < |dev.units| && dev.units[lun].blockSize == blockSize && 0 < blocks * blockSize < WORD_SPAN
    && (lba + blocks) * blockSize <= |dev.units[lun].content| && CalmThroughout(h, blocks * blockSize, sch)
  }

  /** Memory holds `blocks` blocks of the unit from `lba` on. */
  ghost predicate HoldsBlocks(ram: seq<byte>, at: nat, unit: LogicalUnit, lba: nat, blocks: nat) {
    var from, size := lba * unit.blockSize, blocks * unit.blockSize;
    from + size <= |unit.content| && at + size <= |ram| && ram[at..at + size] == unit.content[from..from + size]
  }

  lemma OnMediumIsGranted(h: Host, dev: Device, lun: byte, lba: uint32, blocks: uint16, blockSize: uint32,
                          sch: Schedules)
    requires OnMedium(h, dev, lun, lba, blocks, blockSize, sch)
    ensures var size := blocks * blockSize; size < WORD_SPAN && ReadGranted(h, dev, lun, lba, blocks, size, sch)
  {
    hide InStep, CalmThroughout;
    var l: int, b: int, s: int := lba, blocks, blockSize;
    assert (l + b) * s == l * s + b * s;
    assert l * s >= 0;
  }

  lemma ArrivedIsHeld(before: Sys, after: Sys, lun: byte, lba: nat, blocks: nat, at: Places, length: nat)
    requires BlocksArrived(before, after, lun, lba, blocks, at, length)
    ensures lun < |before.dev.units| && HoldsBlocks(after.ram, at.buffer, before.dev.units[lun], lba, blocks)
  {
  }

  lemma ReadIsObeyed(dev: Device, lun: byte, lba: uint32, blocks: uint16, length: uint32)
    requires length > 0 && WillRead(dev, lun, lba, blocks, length)
    ensures Obedient(dev, Cbw(length, lun, 10, Read10Block(lba, blocks)))
  {
    hide Cbw, Read10Block, Answer, ReadBlocks;
    CbwFields(length, lun, 10, Read10Block(lba, blocks));
    Read10Decodes(dev.units, length, lun, lba, blocks);
  }

  lemma CapacityIsFavourable(h: Host, dev: Device, lun: byte, sch: Schedules)
    requires lun < |dev.units| && Answers(h, dev, lun, Capacity(dev.units[lun]), 8, sch)
    ensures Favourable(h, dev, CapacityCbw(lun), CAPACITY_LENGTH, sch) && InStep(h, dev)
  {
    hide Cbw, Answer, Answers, Favourable, Capacity, UpTo, CommandBlock;
    SmallCommandsDecode(dev.units, lun, CAPACITY_LENGTH);
    AnswersIsFavourable(h, dev, lun, CAPACITY_LENGTH, 12, CommandBlock([READ_CAPACITY_10]), sch);
    FavourableIsInStep(h, dev, CapacityCbw(lun), CAPACITY_LENGTH, sch);
  }

  lemma InquiryIsFavourable(h: Host, dev: Device, lun: byte, sch: Schedules)
    requires lun < |dev.units| && Answers(h, dev, lun, UpTo(dev.units[lun].inquiry, 36), 36, sch)
    ensures Favourable(h, dev, InquiryCbw(lun), INQUIRY_LENGTH, sch) && InStep(h, dev)
  {
    hide Cbw, Answer, Answers, Favourable, Capacity, UpTo, CommandBlock;
    SmallCommandsDecode(dev.units, lun, INQUIRY_LENGTH);
    AnswersIsFavourable(h, dev, lun, INQUIRY_LENGTH, 6, CommandBlock([INQUIRY, 0, 0, 0, 0x24]), sch);
    FavourableIsInStep(h, dev, InquiryCbw(lun), INQUIRY_LENGTH, sch);
  }

  lemma SenseIsFavourable(h: Host, dev: Device, lun: byte, sch: Schedules)
    requires lun < |dev.units| && Answers(h, dev, lun, UpTo(dev.units[lun].sense, 18), 18, sch)
    ensures Favourable(h, dev, SenseCbw(lun), SENSE_LENGTH, sch) && InStep(h, dev)
  {
    hide Cbw, Answer, Answers, Favourable, Capacity, UpTo, CommandBlock;
    SmallCommandsDecode(dev.units, lun, SENSE_LENGTH);
    AnswersIsFavourable(h, dev, lun, SENSE_LENGTH, 6, CommandBlock([REQUEST_SENSE, 0, 0, 0, 18]), sch);
    FavourableIsInStep(h, dev, SenseCbw(lun), SENSE_LENGTH, sch);
  }

  lemma FavourableIsInStep(h: Host, dev: Device, cbw: seq<byte>, length: nat, sch: Schedules)
    requires Favourable(h, dev, cbw, length, sch)
    ensures InStep(h, dev)
  {
  }

  lemma AnsweredIsHeld(before: Sys, after: Sys, answer: seq<byte>, at: Places, length: nat)
    requires Answered(before, after, answer, at, length)
    ensures Holds(after.ram, at.buffer, answer)
  {
  }

  /** A unit is asked for `answer` by a small command, the device is in step and obeys, and the bus is calm for as many
      bytes as that is. */
  ghost predicate Answers(h: Host, dev: Device, lun: byte, answer: seq<byte>, length: nat, sch: Schedules) {
    && InStep(h, dev) && dev.verdict.Acts? && dev.verdict.obeys && lun < |dev.units| && |answer| == length
    && CalmThroughout(h, length, sch)
  }

  /** Then nothing stands in the way of the command. */
  lemma AnswersIsFavourable(h: Host, dev: Device, lun: byte, length: uint32, commandLength: byte, command: seq<byte>,
                            sch: Schedules)
    requires |command| == 16 && length > 0
    requires Answers(h, dev, lun, Answer(dev.units, Cbw(length, lun, commandLength, command)), length, sch)
    ensures Favourable(h, dev, Cbw(length, lun, commandLength, command), length, sch)
  {
    hide Cbw, Answer, InStep, CalmThroughout, LE32;
    CbwFields(length, lun, commandLength, command);
    ActsOnCommand(dev, Cbw(length, lun, commandLength, command), length);
  }

  lemma ActsOnCommand(dev: Device, cbw: seq<byte>, length: nat)
    requires |cbw| == CBW_LENGTH && LE32(cbw[..4]) == CBW_SIGNATURE && cbw[12] == DIRECTION_IN
    requires LE32(cbw[8..12]) == length > 0 && dev.verdict.Acts? && dev.verdict.obeys
    requires |Answer(dev.units, cbw)| == length
    ensures Obedient(dev, cbw)
  {
    hide Answer, LE32;
  }

  /** The device is about to send `answer`, at the driver's address and in step with it. */
  predicate Answering(h: Host, dev: Device, answer: seq<byte>, next: Phase) {
    && dev.phase == Sending(answer, next) && dev.address == h.address && dev.inEndpoint == h.inEndpoint
    && dev.packetSize == h.inMps && dev.inToggle == h.inToggle
  }

  /** The state once a wrapper is in memory. */
  function WithWrapper(s: Sys, at: nat, cbw: seq<byte>): Sys
    requires at + |cbw| <= |s.ram|
  {
    s.(ram := Splice(s.ram, at, cbw))
  }

  /** `n` descriptors were cut from the heap, with less than 16 bytes of waste. */
  predicate Spent(before: nat, after: nat, n: nat) {
    before <= after <= before + 16 + TD_SIZE * n
  }

  /** All three transfers had enough visits, none of them faulty. */
  ghost predicate Undisturbed(w: Weather, out: Bulk, data: Bulk, status: Bulk)
    requires WellFormed(out) && WellFormed(data) && WellFormed(status)
  {
    && AllClear(w.out) && AllClear(w.data) && AllClear(w.status) && |w.out| >= Count(out.length, out.mps)
    && |w.data| >= Count(data.length, data.mps) && |w.status| >= Count(status.length, status.mps)
  }

  /** The first two transfers had enough visits, none of them faulty, and the device is about to send a good status. */
  ghost predicate Halfway(r: Record, h: Host, dev: Device, length: nat) {
    && |r.cbw| == CBW_LENGTH && h.outMps > 0 && h.inMps > 0 && AllClear(r.weather.out) && AllClear(r.weather.data)
    && |r.weather.out| >= Count(CBW_LENGTH, h.outMps) && |r.weather.data| >= Count(length, h.inMps)
    && Answering(h, dev, Csw(r.cbw[4..8], 0, PASSED), Idle([]))
  }

  lemma GetsHalfway(r: Record, h: Host, dev: Device, length: nat)
    requires |r.cbw| == CBW_LENGTH && h.outMps > 0 && h.inMps > 0 && AllClear(r.weather.out) && AllClear(r.weather.data)
    requires |r.weather.out| >= Count(CBW_LENGTH, h.outMps) && |r.weather.data| >= Count(length, h.inMps)
    requires Answering(h, dev, Csw(r.cbw[4..8], 0, PASSED), Idle([]))
    ensures Halfway(r, h, dev, length)
  {
  }

  /** What a command in favourable circumstances starts from. */
  lemma FavourableStart(h: Host, dev: Device, cbw: seq<byte>, length: nat, sch: Schedules)
    requires Favourable(h, dev, cbw, length, sch)
    ensures InStep(h, dev) && |cbw| == CBW_LENGTH && h.outMps > 0 && h.inMps > 0
    ensures Calm(sch.out, Count(CBW_LENGTH, h.outMps)) && Calm(sch.data, Count(length, h.inMps))
    ensures |Answer(dev.units, cbw)| == length
    ensures Reaction(dev, cbw) == Sending(Answer(dev.units, cbw), Sending(Csw(cbw[4..8], 0, PASSED), Idle([])))
  {
    hide Answer, Execute, Calm;
    ObedientShape(dev, cbw);
  }

  ghost predicate Calmly(r: Record) {
    Built(r) && Undisturbed(r.weather, r.out, r.data, r.status)
  }

  /** A good status wrapper in memory passes the driver's checks. */
  lemma CswVouches(ram: seq<byte>, at: nat, tag: seq<byte>)
    requires at + CSW_LENGTH <= |ram| && |tag| == 4
    ensures Vouches(Splice(ram, at, Csw(tag, 0, PASSED)), at)
  {
    var csw := Csw(tag, 0, PASSED);
    var r := Splice(ram, at, csw);
    LoadStore32(CSW_SIGNATURE);
    assert r[at..at + 4] == csw[..4] == ToLE32(CSW_SIGNATURE);
    assert r[at + 12] == csw[12];
  }

  /** The wrapper goes out. */
  lemma WrapperSucceeds(h: Host, s: Sys, at: nat, cbw: seq<byte>, out: Bulk, sch: Schedule, trace: seq<Fault>)
    requires InStep(h, s.dev) && WellFormed(out) && |cbw| == CBW_LENGTH
    requires h.outMps > 0 && Calm(sch, Count(CBW_LENGTH, h.outMps))
    requires out ==
        Bulk(out.base, at, CBW_LENGTH, h.outMps, OutPid, h.address, h.outEndpoint, out.lowSpeed, h.outToggle)
    requires at + CBW_LENGTH <= |s.ram| && s.ram[at..at + CBW_LENGTH] == cbw
    requires Lasts(s, out, sch, trace)
    ensures Finishes(s, out, sch, trace)
    ensures AllClear(trace) && |trace| >= Count(CBW_LENGTH, h.outMps)
    ensures var s1 := Perform(s, BulkTransfer(out), trace);
      && Accepted(s1, BulkTransfer(out)) && s1.ram == s.ram
      && s1.dev == s.dev.(outToggle := ToggleAt(h.outToggle, Count(CBW_LENGTH, h.outMps)),
                          phase := Reaction(s.dev, cbw))
  {
    BulkIsTiled(out);
    SomePacket(CBW_LENGTH, h.outMps);
    CalmWriting(s, out, cbw, sch, trace);
    var d := WritingPhase(s, BulkTransfer(out), out.mps, cbw, trace);
  }

  /** A transfer from the device goes through. */
  lemma ReadingSucceeds(h: Host, s: Sys, b: Bulk, data: seq<byte>, next: Phase, sch: Schedule, trace: seq<Fault>)
    requires WellFormed(b) && Answering(h, s.dev, data, next) && |data| == b.length
    requires b == Bulk(b.base, b.buffer, b.length, h.inMps, InPid, h.address, h.inEndpoint, b.lowSpeed, h.inToggle)
    requires b.buffer + b.length <= |s.ram| && Calm(sch, Count(b.length, b.mps))
    requires Lasts(s, b, sch, trace)
    ensures Finishes(s, b, sch, trace)
    ensures AllClear(trace) && |trace| >= Count(b.length, b.mps)
    ensures var s2 := Perform(s, BulkTransfer(b), trace);
      && Accepted(s2, BulkTransfer(b)) && s2.ram == Splice(s.ram, b.buffer, data)
      && s2.dev == s.dev.(inToggle := ToggleAt(b.toggle, Count(b.length, b.mps)), phase := next)
  {
    BulkIsTiled(b);
    SomePacket(b.length, b.mps);
    CalmReading(s, b, data, next, sch, trace);
    ClearReading(s, BulkTransfer(b), data, next, trace);
  }

  /** A READ (10) that a device answers at all is answered with the blocks asked for. */
  lemma Read10Answered(units: seq<LogicalUnit>, length: uint32, lun: byte, lba: uint32, blocks: uint16)
    requires Answer(units, Cbw(length, lun, 10, Read10Block(lba, blocks))) != []
    ensures lun < |units| && units[lun].blockSize > 0
    ensures Answer(units, Cbw(length, lun, 10, Read10Block(lba, blocks))) == ReadBlocks(units[lun], lba, blocks)
  {
    CbwFields(length, lun, 10, Read10Block(lba, blocks));
    Read10Decodes(units, length, lun, lba, blocks);
  }

  /** The wrapper of a READ (10). */
  function ReadCbw(length: uint32, lun: byte, lba: uint32, blocks: uint16): seq<byte> {
    Cbw(length, lun, 10, Read10Block(lba, blocks))
  }

  /** The buffer begins with the unit's blocks `lba`, ..., `lba + blocks - 1`; `Answered` says what the rest holds. */
  ghost predicate BlocksArrived(before: Sys, after: Sys, lun: byte, lba: nat, blocks: nat, at: Places, length: nat) {
    && lun < |before.dev.units|
    && var unit := before.dev.units[lun];
    && var from, size := lba * unit.blockSize, blocks * unit.blockSize;
    && 0 < size <= length && from + size <= |unit.content|
    && Answered(before, after, unit.content[from..from + size], at, length)
  }

  /** What carrying out a READ (10) means. */
  lemma ReadCarriedOut(before: Sys, lun: byte, lba: uint32, blocks: uint16, at: Places, length: uint32, after: Sys,
                       h': Host)
    requires length > 0 && CarriedOut(before, ReadCbw(length, lun, lba, blocks), at, length, after, h')
    ensures BlocksArrived(before, after, lun, lba, blocks, at, length)
    ensures (InStep(h', after.dev) || Behind(h', after.dev))
    ensures blocks * before.dev.units[lun].blockSize == length
            || FooledBy(before.dev, ReadCbw(length, lun, lba, blocks), length)
  {
    hide Answer, Cbw, Read10Block, InStep, Behind, Answered, FooledBy;
    var cbw := ReadCbw(length, lun, lba, blocks);
    AnsweredIsSome(before, after, Answer(before.dev.units, cbw), at, length);
    Read10Answered(before.dev.units, length, lun, lba, blocks);
  }

  lemma AnsweredIsSome(before: Sys, after: Sys, answer: seq<byte>, at: Places, length: nat)
    requires Answered(before, after, answer, at, length)
    ensures 0 < |answer| <= length
  {
  }

  /** A read of whole blocks of at least two packets each, from a device that does not pad, is all there on SUCCESS. */
  lemma WholeBlocksAreNoticed(dev: Device, lun: byte, lba: uint32, blocks: uint16, length: uint32, unit: nat)
    requires dev.packetSize > 0 && unit > dev.packetSize && unit % dev.packetSize == 0 && length % unit == 0
    requires lun < |dev.units| && dev.units[lun].blockSize > 0 && dev.units[lun].blockSize % unit == 0
    requires dev.verdict.Acts? && dev.verdict.shortfall != Pads
    ensures !FooledBy(dev, ReadCbw(length, lun, lba, blocks), length)
  {
    hide Cbw, Read10Block, Answer, Execute, EndingPackets;
    var cbw, size := ReadCbw(length, lun, lba, blocks), dev.units[lun].blockSize;
    if FooledBy(dev, cbw, length) {
      CbwFields(length, lun, 10, Read10Block(lba, blocks));
      Read10Answered(dev.units, length, lun, lba, blocks);
      MultipleOf(size, unit, blocks);
      WholeUnitsAreNoticed(dev, Answer(dev.units, cbw), length, unit);
    }
  }

  lemma MultipleOf(x: nat, d: nat, k: nat)
    requires d > 0 && x % d == 0
    ensures k * x % d == 0
  {
    var q := x / d;
    assert x == q * d;
    assert k * x == (k * q) * d;
    ModUnique(k * x, d, k * q, 0);
  }

  lemma SmallCommandAnswered(units: seq<LogicalUnit>, length: uint32, lun: byte, commandLength: byte,
                             command: seq<byte>)
    requires |command| == 16 && Answer(units, Cbw(length, lun, commandLength, command)) != []
    ensures lun < |units|
  {
    CbwFields(length, lun, commandLength, command);
  }

  /** The two big-endian words of a capacity reply, as the driver swaps them in place. */
  lemma CapacityDecodes(unit: LogicalUnit, reply: seq<byte>)
    requires reply == Capacity(unit) != []
    ensures unit.blockSize > 0
    ensures BSwap32(LE32(reply[..4])) == |unit.content| / unit.blockSize - 1
    ensures BSwap32(LE32(reply[4..8])) == unit.blockSize
  {
    var blocks := |unit.content| / unit.blockSize;
    assert reply[..4] == ToBE32(blocks - 1);
    assert reply[4..8] == ToBE32(unit.blockSize);
    SwappedLoad(blocks - 1);
    SwappedLoad(unit.blockSize);
  }

  /** The wrappers of the small commands. */
  function CapacityCbw(lun: byte): seq<byte> {
    Cbw(CAPACITY_LENGTH, lun, 12, CommandBlock([READ_CAPACITY_10]))
  }

  function InquiryCbw(lun: byte): seq<byte> {
    Cbw(INQUIRY_LENGTH, lun, 6, CommandBlock([INQUIRY, 0, 0, 0, 0x24]))
  }

  function SenseCbw(lun: byte): seq<byte> {
    Cbw(SENSE_LENGTH, lun, 6, CommandBlock([REQUEST_SENSE, 0, 0, 0, 18]))
  }

  /** What carrying out a READ CAPACITY (10) means. */
  lemma CapacityArrives(before: Sys, lun: byte, at: Places, after: Sys, h': Host)
    requires |CapacityCbw(lun)| == CBW_LENGTH && CarriedOut(before, CapacityCbw(lun), at, CAPACITY_LENGTH, after, h')
    ensures lun < |before.dev.units| && before.dev.units[lun].blockSize > 0 && after.dev.units == before.dev.units
    ensures InStep(h', after.dev) || Behind(h', after.dev)
    ensures at.buffer + CAPACITY_LENGTH <= |after.ram|
    ensures var unit := before.dev.units[lun];
      && BSwap32(LE32(after.ram[at.buffer..at.buffer + 4])) + 1 == |unit.content| / unit.blockSize
      && BSwap32(LE32(after.ram[at.buffer + 4..at.buffer + 8])) == unit.blockSize
  {
    hide Cbw, CommandBlock, Answer, Capacity, FooledBy, LE32, BSwap32, InStep, Behind;
    var reply := after.ram[at.buffer..at.buffer + 8];
    SmallCommandAnswered(before.dev.units, CAPACITY_LENGTH, lun, 12, CommandBlock([READ_CAPACITY_10]));
    SmallCommandsDecode(before.dev.units, lun, CAPACITY_LENGTH);
    CapacityDecodes(before.dev.units[lun], reply);
    assert after.ram[at.buffer..at.buffer + 4] == reply[..4];
    assert after.ram[at.buffer + 4..at.buffer + 8] == reply[4..8];
  }
}
