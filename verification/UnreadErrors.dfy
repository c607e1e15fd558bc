/** What the error bits the driver never reads can hide: a lost last data packet, and a failure the device reports. */
module UnreadErrors {
  import opened Bytes
  import opened BulkDevice
  import opened Uhci
  import opened TransferRuns
  import opened BulkRuns
  import opened PacketStreams
  import opened BulkOnly

  // ---------------------------------------------------------------------------
  // A lost last data packet
  // ---------------------------------------------------------------------------

  /** The command goes through, and all of the data but its last packet. */
  lemma AllButLast(s: Sys, p: Plan, outMps: nat, cbw: seq<byte>, w: Weather, csw: seq<byte>)
    requires Planned(s, p, outMps, cbw) && Reaction(s.dev, cbw).Sending?
    requires |Reaction(s.dev, cbw).rest| == Length(p.data)
    requires Reaction(s.dev, cbw).next == Sending(csw, Idle([])) && |p.data.list| > 0
    requires w.out == Clears(|p.out.list|) && w.data == LastGivenUp(p.data)
    ensures Accepted(AfterCommand(s, p, w), p.out) && Accepted(AfterData(s, p, w), p.data)
    ensures var r, n := DataStream(s, p, w), |p.data.list|;
      && Following(p.data, r, 0, AfterData(s, p, w), n - 1, n - 1)
      && r == Stream(s.dev.(outToggle := ToggleAt(p.out.toggle, |p.out.list|), phase := Reaction(s.dev, cbw)), s.ram)
      && Offers(Due(r, n - 1)) && |p.data.cuts| >= 2 && |PacketAt(r, n - 1)| == LastPacket(p.data)
    ensures Due(StatusStream(s, p, w), |p.data.list|) == Sending(csw, Idle([]))
  {
    hide Execute, Perform, Tiled, Accepted, Following, Begins, Planned, Due, PacketAt;
    PlannedLists(s, p, outMps, cbw);
    CommandGoesOut(s, p, outMps, cbw, w);
    var r := DataStream(s, p, w);
    DueNow(r);
    FullAnswerFits(p.data, r, 0, AfterCommand(s, p, w), 0, r.dev.phase.rest, r.dev.phase.next);
    GivenUpTransfer(p.data, r, 0, AfterCommand(s, p, w));
    StatusIsNext(s, p, outMps, cbw, w, csw);
  }

  /** The status transfer drops the packet the device repeats, and then takes the status wrapper. */
  lemma StatusAfterRepeat(s: Sys, p: Plan, outMps: nat, cbw: seq<byte>, w: Weather, csw: seq<byte>)
    requires Planned(s, p, outMps, cbw) && |p.data.list| > 0 && w.status == [Clear] + Clears(|p.status.list|)
    requires var r, n := DataStream(s, p, w), |p.data.list|;
      && Following(p.data, r, 0, AfterData(s, p, w), n - 1, n - 1) && r.dev.packetSize == s.dev.packetSize
      && Offers(Due(r, n - 1)) && |PacketAt(r, n - 1)| <= CSW_LENGTH
    requires Due(StatusStream(s, p, w), |p.data.list|) == Sending(csw, Idle([]))
    requires |csw| == CSW_LENGTH && LE32(csw[..4]) == CSW_SIGNATURE
    ensures Accepted(AfterStatus(s, p, w), p.status) && !Errored(AfterStatus(s, p, w), p.status)
    ensures Vouches(AfterStatus(s, p, w).ram, p.status.buffer) <==> csw[12] == 0
    ensures p.status.buffer + CSW_LENGTH <= |BeforeStatus(s, p, w).ram|
    ensures AfterStatus(s, p, w).ram == Splice(BeforeStatus(s, p, w).ram, p.status.buffer, csw)
  {
    hide Execute, Perform, Tiled, Accepted, Errored, LastDone, Following, Begins, Planned, Vouches, Due, PacketAt,
      Splice;
    PlannedLists(s, p, outMps, cbw);
    StatusFits(s, p, outMps, cbw, w, |p.data.list| - 1, |p.data.list| - 1);
    var n, r := |p.data.list|, StatusStream(s, p, w);
    StatusBegins(s, p, outMps, cbw, w, n - 1, n - 1, n);
    FullAnswerFits(p.status, r, n, BeforeStatus(s, p, w), n - 1, csw, Idle([]));
    RepeatFitsStatus(s, p, outMps, cbw, w, n - 1);
    LateTransfer(p.status, r, n, BeforeStatus(s, p, w));
    StatusArrives(p, r, n, AfterStatus(s, p, w), n + |p.status.list|, csw);
  }

  lemma RepeatFitsStatus(s: Sys, p: Plan, outMps: nat, cbw: seq<byte>, w: Weather, d: nat)
    requires Planned(s, p, outMps, cbw) && DataStream(s, p, w).dev.packetSize == s.dev.packetSize
    requires Offers(Due(DataStream(s, p, w), d)) && |PacketAt(DataStream(s, p, w), d)| <= CSW_LENGTH
    ensures |p.status.cuts| > 1 && Offers(Due(StatusStream(s, p, w), d))
    ensures |PacketAt(StatusStream(s, p, w), d)| <= PacketSize(p.status, 0)
  {
    hide Execute, Perform, Due, CanWrite;
    FirstStatusPacket(p.status, s.dev.packetSize);
    StreamsAgree(s, p, w, d);
  }

  ghost predicate SameBetween(ram0: seq<byte>, ram: seq<byte>, from: nat, to: nat) {
    to <= |ram0| == |ram| && forall a :: from <= a < to ==> ram[a] == ram0[a]
  }

  /** The run that `wait_for_transfer` cannot tell from a good one: the controller gives up on the last data packet, the
      status phase still goes through, and the end of the buffer is never written. */
  lemma StaleTail(s: Sys, p: Plan, outMps: nat, cbw: seq<byte>) returns (w: Weather)
    requires Planned(s, p, outMps, cbw) && Obedient(s.dev, cbw)
    requires |p.data.cuts| == |p.data.list| + 1 >= 2 && LastPacket(p.data) <= CSW_LENGTH
    ensures Succeeds(s, p, w) && p.data.cuts[|p.data.list| - 1] < Length(p.data)
    ensures SameBetween(s.ram, AfterStatus(s, p, w).ram, p.data.buffer + p.data.cuts[|p.data.list| - 1],
                        p.data.buffer + Length(p.data))
  {
    hide Execute, Perform, Tiled, Accepted, Following, Planned, Vouches, Due, PacketAt, Splice, BeforeStatus, Obedient,
      Answer;
    PlannedLists(s, p, outMps, cbw);
    ObedientSends(s.dev, cbw);
    var given, csw := ReactionShape(s.dev, cbw);
    w := Weather(Clears(|p.out.list|), LastGivenUp(p.data), [Clear] + Clears(|p.status.list|));
    AllButLast(s, p, outMps, cbw, w, csw);
    StatusAfterRepeat(s, p, outMps, cbw, w, csw);
    TailUntouched(s, p, outMps, cbw, w, csw);
  }

  lemma TailUntouched(s: Sys, p: Plan, outMps: nat, cbw: seq<byte>, w: Weather, csw: seq<byte>)
    requires Planned(s, p, outMps, cbw) && Reaction(s.dev, cbw).Sending?
    requires |Reaction(s.dev, cbw).rest| == Length(p.data)
    requires |p.data.cuts| == |p.data.list| + 1 >= 2 && |csw| == CSW_LENGTH
    requires DataStream(s, p, w).dev.phase == Reaction(s.dev, cbw) && DataStream(s, p, w).ram == s.ram
    requires Following(p.data, DataStream(s, p, w), 0, AfterData(s, p, w), |p.data.list| - 1, |p.data.list| - 1)
    requires p.status.buffer + CSW_LENGTH <= |BeforeStatus(s, p, w).ram|
    requires AfterStatus(s, p, w).ram == Splice(BeforeStatus(s, p, w).ram, p.status.buffer, csw)
    ensures p.data.cuts[|p.data.list| - 1] < Length(p.data)
    ensures SameBetween(s.ram, AfterStatus(s, p, w).ram, p.data.buffer + p.data.cuts[|p.data.list| - 1],
                        p.data.buffer + Length(p.data))
  {
    hide Execute, Perform, CanWrite, Due, PacketAt, Lengths, PacketLengths, Placed, Laid;
    var r, last := DataStream(s, p, w), |p.data.list| - 1;
    DueNow(r);
    SendingAlong(p.data, r, 0, r.dev.phase.rest, r.dev.phase.next, last);
    CutsAt(p.data, r.dev.packetSize, last);
    OutsideOfBoth(s.ram, p.data.buffer, r.dev.phase.rest[..p.data.cuts[last]], p.data.buffer + Length(p.data),
                  p.status.buffer, csw);
  }

  lemma OutsideOfBoth(ram: seq<byte>, a: nat, sent: seq<byte>, to: nat, b: nat, csw: seq<byte>)
    requires a + |sent| <= to <= |ram| && b + |csw| <= |ram| && |csw| == CSW_LENGTH
    requires b + |csw| <= a || to <= b
    ensures SameBetween(ram, Splice(Splice(Splice(ram, a, sent), b, Zeros(CSW_LENGTH)), b, csw), a + |sent|, to)
  {
  }

  /** The end of the buffer does not yet hold the end of the answer. */
  ghost predicate TailMissing(s: Sys, p: Plan, cbw: seq<byte>)
    requires Tiled(p.data, s.dev.packetSize) && |cbw| == CBW_LENGTH
  {
    var at, from, answer := p.data.buffer, p.data.cuts[|p.data.list| - 1], Answer(s.dev.units, cbw);
    && |answer| == Length(p.data) && from <= |answer| && at + |answer| <= |s.ram|
    && s.ram[at + from..at + |answer|] != answer[from..]
  }

  lemma TailDiffers(ram0: seq<byte>, ram: seq<byte>, at: nat, from: nat, data: seq<byte>)
    requires from <= |data| && SameBetween(ram0, ram, at + from, at + |data|)
    requires ram0[at + from..at + |data|] != data[from..]
    ensures ram[at..at + |data|] != data
  {
    assert ram0[at + from..at + |data|] == ram[at + from..at + |data|];
    assert ram[at..at + |data|][from..] == ram[at + from..at + |data|];
  }

  lemma StaleTailIsWrong(s: Sys, p: Plan, outMps: nat, cbw: seq<byte>) returns (w: Weather)
    requires Planned(s, p, outMps, cbw) && Obedient(s.dev, cbw) && TailMissing(s, p, cbw)
    requires |p.data.cuts| >= 2 && LastPacket(p.data) <= CSW_LENGTH
    ensures Succeeds(s, p, w) && !Fulfilled(s, p, cbw, AfterStatus(s, p, w).ram)
  {
    hide Execute, Perform, Answer, Succeeds, Obedient, CanWrite, AfterStatus;
    PlannedLists(s, p, outMps, cbw);
    w := StaleTail(s, p, outMps, cbw);
    TailDiffers(s.ram, AfterStatus(s, p, w).ram, p.data.buffer, p.data.cuts[|p.data.list| - 1],
                Answer(s.dev.units, cbw));
  }

  /** For a device that carries the command out, and a buffer whose tail is not already right, SUCCESS means the data is
      there in every run exactly when the last data packet is longer than a status wrapper, for every packet size. */
  lemma SuccessIsSoundExactly(s: Sys, p: Plan, outMps: nat, cbw: seq<byte>)
    requires Planned(s, p, outMps, cbw) && Obedient(s.dev, cbw) && TailMissing(s, p, cbw) && |p.data.cuts| >= 2
    ensures (forall w :: Succeeds(s, p, w) ==> Fulfilled(s, p, cbw, AfterStatus(s, p, w).ram))
       <==> LastPacket(p.data) > CSW_LENGTH
  {
    hide Execute, Perform, Answer, Succeeds, Obedient, CanWrite, AfterStatus, Delivered;
    PlannedLists(s, p, outMps, cbw);
    if LastPacket(p.data) > CSW_LENGTH {
      forall w | Succeeds(s, p, w) ensures Fulfilled(s, p, cbw, AfterStatus(s, p, w).ram) {
        LongLastPacketIsSafe(s, p, outMps, cbw, w);
      }
    } else {
      var w := StaleTailIsWrong(s, p, outMps, cbw);
    }
  }

  lemma LongLastPacketIsSafe(s: Sys, p: Plan, outMps: nat, cbw: seq<byte>, w: Weather)
    requires Planned(s, p, outMps, cbw) && Obedient(s.dev, cbw) && Succeeds(s, p, w)
    requires |p.data.cuts| >= 2 && LastPacket(p.data) > CSW_LENGTH
    ensures ErrorBitsClear(s, p, cbw, w) && |cbw| == CBW_LENGTH && Fulfilled(s, p, cbw, AfterStatus(s, p, w).ram)
  {
    hide Execute, Perform, Answer, Succeeds, CanWrite, AfterStatus, Delivered;
    PlannedLists(s, p, outMps, cbw);
    ObedientSends(s.dev, cbw);
    assert Tile(p.data, s.dev.packetSize, |p.data.list| - 1);
    SuccessIsSound(s, p, outMps, cbw, w);
  }

  // ---------------------------------------------------------------------------
  // A reported failure
  // ---------------------------------------------------------------------------

  /** The device acts on the wrapper and has failed to carry it out. */
  predicate ReportsFailure(dev: Device, cbw: seq<byte>) {
    && |cbw| == CBW_LENGTH && Offers(Reaction(dev, cbw)) && Given(dev.units, dev.verdict.obeys, cbw) == []
  }

  lemma FailureShape(dev: Device, cbw: seq<byte>) returns (csw: seq<byte>)
    requires ReportsFailure(dev, cbw)
    ensures Reaction(dev, cbw).Sending? ==>
      Reaction(dev, cbw) == Sending(Zeros(LE32(cbw[8..12])), Sending(csw, Idle([])))
    ensures Reaction(dev, cbw).Ending? ==>
      && Reaction(dev, cbw) == Ending([], Reaction(dev, cbw).next)
      && Reaction(dev, cbw).next == (if dev.verdict.shortfall == EndsShort then Sending(csw, Idle([])) else Halted)
    ensures Offers(Reaction(dev, cbw)) && dev.verdict.Acts?
    ensures (Reaction(dev, cbw).Ending? <==> dev.verdict.shortfall != Pads)
    ensures |csw| == CSW_LENGTH && LE32(csw[..4]) == CSW_SIGNATURE && csw[12] != 0
  {
    hide Execute;
    var given;
    given, csw := ReactionShape(dev, cbw);
    assert Filled([], LE32(cbw[8..12])) == Zeros(LE32(cbw[8..12]));
    ActsOnSome(dev, cbw);
  }

  /** A device acts only on wrappers that ask for something. */
  lemma ActsOnSome(dev: Device, cbw: seq<byte>)
    requires |cbw| == CBW_LENGTH && Offers(Reaction(dev, cbw))
    ensures LE32(cbw[8..12]) > 0
  {
    hide Answer;
  }

  /** With fewer than 13 bytes to a packet the signature fits in front of the last status packet. */
  lemma SignatureComesEarly(t: Transfer, mps: nat)
    requires Tiled(t, mps) && Length(t) == CSW_LENGTH && mps < CSW_LENGTH
    ensures |t.list| > 0 && |t.cuts| == |t.list| + 1 && 4 <= t.cuts[|t.list| - 1] <= 12
  {
    var n := |t.list|;
    assert Tile(t, mps, 0) && Tile(t, mps, n - 1);
    CutsAt(t, mps, n - 1);
    MulMonotone(1, n - 1, mps);
  }

  lemma PartialStatusVouches(ram: seq<byte>, at: nat, csw: seq<byte>, n: nat)
    requires at + CSW_LENGTH <= |ram| && |csw| == CSW_LENGTH && LE32(csw[..4]) == CSW_SIGNATURE && 4 <= n <= 12
    ensures Vouches(Splice(Splice(ram, at, Zeros(CSW_LENGTH)), at, csw[..n]), at)
  {
    var r := Splice(Splice(ram, at, Zeros(CSW_LENGTH)), at, csw[..n]);
    assert r[at..at + 4] == csw[..4];
  }

  /** The run in which a reported failure returns SUCCESS: the controller gives up on the last status packet, and the
      byte it would have brought keeps the zero the driver put there. */
  lemma HiddenFailure(s: Sys, p: Plan, outMps: nat, cbw: seq<byte>) returns (w: Weather)
    requires Planned(s, p, outMps, cbw) && ReportsFailure(s.dev, cbw) && s.dev.packetSize < CSW_LENGTH
    requires Reaction(s.dev, cbw).Sending?
    ensures Succeeds(s, p, w)
  {
    hide Execute, Perform, Tiled, Accepted, Errored, LastDone, Following, Begins, Planned, Vouches, Due, PacketAt,
      Splice, ReportsFailure;
    PlannedLists(s, p, outMps, cbw);
    var csw := FailureShape(s.dev, cbw);
    w := Weather(Clears(|p.out.list|), Clears(|p.data.list|), LastGivenUp(p.status));
    DataGoesIn(s, p, outMps, cbw, w);
    var n, r := |p.data.list|, StatusStream(s, p, w);
    StatusIsNext(s, p, outMps, cbw, w, csw);
    StatusBegins(s, p, outMps, cbw, w, n, n, n);
    FullAnswerFits(p.status, r, n, BeforeStatus(s, p, w), n, csw, Idle([]));
    GivenUpTransfer(p.status, r, n, BeforeStatus(s, p, w));
    PartialStatusArrives(s, p, outMps, cbw, w, csw);
  }

  lemma PartialStatusArrives(s: Sys, p: Plan, outMps: nat, cbw: seq<byte>, w: Weather, csw: seq<byte>)
    requires Planned(s, p, outMps, cbw) && s.dev.packetSize < CSW_LENGTH && |p.status.list| > 0
    requires |csw| == CSW_LENGTH && LE32(csw[..4]) == CSW_SIGNATURE
    requires var r, n, m := StatusStream(s, p, w), |p.data.list|, |p.status.list|;
      && Following(p.status, r, n, AfterStatus(s, p, w), m - 1, n + m - 1) && Due(r, n) == Sending(csw, Idle([]))
      && r.dev.packetSize == s.dev.packetSize && |AfterData(s, p, w).ram| == |s.ram|
      && r.ram == Splice(AfterData(s, p, w).ram, p.status.buffer, Zeros(CSW_LENGTH))
    ensures Vouches(AfterStatus(s, p, w).ram, p.status.buffer)
  {
    hide Execute, Perform, CanWrite, Due, PacketAt, Lengths, PacketLengths, Placed, Laid, Splice, Vouches;
    var r, n, last := StatusStream(s, p, w), |p.data.list|, |p.status.list| - 1;
    SendingAlong(p.status, r, n, csw, Idle([]), last);
    SignatureComesEarly(p.status, s.dev.packetSize);
    PartialStatusVouches(AfterData(s, p, w).ram, p.status.buffer, csw, p.status.cuts[last]);
  }

  lemma ZerosDoNotVouch(ram: seq<byte>, at: nat, data: seq<byte>)
    requires at + CSW_LENGTH <= |ram| && |data| <= CSW_LENGTH && forall i :: 0 <= i < |data| ==> data[i] == 0
    ensures !Vouches(Splice(Splice(ram, at, Zeros(CSW_LENGTH)), at, data), at)
  {
    var r := Splice(Splice(ram, at, Zeros(CSW_LENGTH)), at, data);
    assert r[at..at + 4] == [0, 0, 0, 0];
  }

  /** One packet on in a stream of zeros there are only zeros. */
  lemma FillerPacket(s: Sys, p: Plan, outMps: nat, cbw: seq<byte>, w: Weather, d: nat)
    requires Planned(s, p, outMps, cbw) && Reaction(s.dev, cbw).Sending?
    requires Reaction(s.dev, cbw).rest == Zeros(Length(p.data))
    requires DataStream(s, p, w).dev.phase == Reaction(s.dev, cbw) && d < |p.data.list|
    requires DataStream(s, p, w).dev.packetSize == s.dev.packetSize
    ensures forall i :: 0 <= i < |PacketAt(StatusStream(s, p, w), d)| ==> PacketAt(StatusStream(s, p, w), d)[i] == 0
  {
    hide Execute, Perform, CanWrite, Due;
    var r := DataStream(s, p, w);
    DueNow(r);
    SendingEnds(p.data, r, r.dev.phase.rest, r.dev.phase.next, 0, d);
    StreamsAgree(s, p, w, d);
  }

  /** What the status transfer can bring when packets have at least 13 bytes: at most the one packet it begins at. */
  lemma OneStatusPacket(s: Sys, p: Plan, outMps: nat, cbw: seq<byte>, w: Weather, k: nat, d: nat, b: nat)
      returns (k': nat, d': nat)
    requires Planned(s, p, outMps, cbw) && s.dev.packetSize >= CSW_LENGTH && d <= b <= d + 1
    requires Following(p.data, DataStream(s, p, w), 0, AfterData(s, p, w), k, d) && b % 2 == |p.data.list| % 2
    ensures Following(p.status, StatusStream(s, p, w), b, AfterStatus(s, p, w), k', d')
    ensures |p.status.list| == 1 && (k' == 1 || !Vouches(AfterStatus(s, p, w).ram, p.status.buffer))
  {
    hide Execute, Perform, Following, Vouches, CanWrite, Seen, LastHeard, Publish;
    StatusIsOnePacket(p.status, s.dev.packetSize);
    var failed;
    k', d', failed := StatusPhase(s, p, outMps, cbw, w, k, d, b);
    WithinList(p.status, StatusStream(s, p, w), b, AfterStatus(s, p, w), k', d');
  }

  /** The status transfer begins at the status wrapper, which reports failure. */
  lemma FailureIsRead(s: Sys, p: Plan, outMps: nat, cbw: seq<byte>, w: Weather, k: nat, d: nat, csw: seq<byte>)
    requires Planned(s, p, outMps, cbw) && s.dev.packetSize >= CSW_LENGTH && d <= |p.data.list| <= d + 1
    requires Following(p.data, DataStream(s, p, w), 0, AfterData(s, p, w), k, d)
    requires Due(StatusStream(s, p, w), |p.data.list|) == Sending(csw, Idle([]))
    requires |csw| == CSW_LENGTH && LE32(csw[..4]) == CSW_SIGNATURE && csw[12] != 0
    ensures !Vouches(AfterStatus(s, p, w).ram, p.status.buffer)
  {
    hide Execute, Perform, Following, Vouches, Planned, Due;
    PlannedLists(s, p, outMps, cbw);
    var k', d' := OneStatusPacket(s, p, outMps, cbw, w, k, d, |p.data.list|);
    if k' == 1 {
      StatusArrives(p, StatusStream(s, p, w), |p.data.list|, AfterStatus(s, p, w), d', csw);
    }
  }

  /** The status transfer begins two packets early, at data: this is filler. */
  lemma FillerIsRead(s: Sys, p: Plan, outMps: nat, cbw: seq<byte>, w: Weather, k: nat, d: nat)
    requires Planned(s, p, outMps, cbw) && s.dev.packetSize >= CSW_LENGTH && d + 2 == |p.data.list|
    requires Following(p.data, DataStream(s, p, w), 0, AfterData(s, p, w), k, d)
    requires Reaction(s.dev, cbw).Sending? && Reaction(s.dev, cbw).rest == Zeros(Length(p.data))
    requires DataStream(s, p, w).dev.phase == Reaction(s.dev, cbw)
    requires DataStream(s, p, w).dev.packetSize == s.dev.packetSize
    ensures !Vouches(AfterStatus(s, p, w).ram, p.status.buffer)
  {
    hide Execute, Perform, Following, Vouches, Planned, Due, PacketAt, Splice;
    PlannedLists(s, p, outMps, cbw);
    var k', d' := OneStatusPacket(s, p, outMps, cbw, w, k, d, d);
    if k' == 1 {
      FillerPacket(s, p, outMps, cbw, w, d);
      StatusFits(s, p, outMps, cbw, w, k, d);
      StatusBegins(s, p, outMps, cbw, w, k, d, d);
      FirstIsLaid(p, StatusStream(s, p, w), d, AfterStatus(s, p, w), d');
      ZerosDoNotVouch(AfterData(s, p, w).ram, p.status.buffer, PacketAt(StatusStream(s, p, w), d));
    }
  }

  lemma FirstIsLaid(p: Plan, r: Stream, b: nat, s: Sys, d: nat)
    requires Following(p.status, r, b, s, 1, d) && Length(p.status) == CSW_LENGTH && |p.status.list| == 1
    ensures |PacketAt(r, b)| <= CSW_LENGTH && p.status.buffer + CSW_LENGTH <= |r.ram|
    ensures s.ram == Splice(r.ram, p.status.buffer, PacketAt(r, b))
  {
    hide Due, PacketAt, Lengths, PacketLengths;
    assert Fits(p.status, r, b, 0) && Tile(p.status, r.dev.packetSize, 0);
    assert Laid(p.status, r, b, 0) == r.ram;
  }

  lemma FilledFailureIsCaught(s: Sys, p: Plan, outMps: nat, cbw: seq<byte>, w: Weather)
    requires Planned(s, p, outMps, cbw) && ReportsFailure(s.dev, cbw) && s.dev.packetSize >= CSW_LENGTH
    requires Reaction(s.dev, cbw).Sending?
    ensures !Succeeds(s, p, w)
  {
    hide Execute, Perform, Following, Vouches, Planned, Due, PacketAt, ReportsFailure, LastDone;
    if Succeeds(s, p, w) {
      PlannedLists(s, p, outMps, cbw);
      SuccessNeedsAction(s, p, outMps, cbw, w);
      StreamIsReaction(s, p, outMps, cbw, w);
      var csw := FailureShape(s.dev, cbw);
      StatusIsNext(s, p, outMps, cbw, w, csw);
      var k, d, failed := DataPhase(s, p, outMps, cbw, w);
      AtMostOneBehind(p.data, DataStream(s, p, w), AfterData(s, p, w), k, d);
      if d + 1 >= |p.data.list| {
        FailureIsRead(s, p, outMps, cbw, w, k, d, csw);
      } else {
        FillerIsRead(s, p, outMps, cbw, w, k, d);
      }
    }
  }

  lemma AtMostOneBehind(t: Transfer, r: Stream, s: Sys, k: nat, d: nat)
    requires Following(t, r, 0, s, k, d)
    ensures d <= k <= d + 1 && k <= |t.list|
  {
  }

  lemma StreamIsReaction(s: Sys, p: Plan, outMps: nat, cbw: seq<byte>, w: Weather)
    requires AfterCommand(s, p, w).dev ==
        s.dev.(outToggle := ToggleAt(p.out.toggle, |p.out.list|), phase := Reaction(s.dev, cbw))
    ensures DataStream(s, p, w).dev.phase == Reaction(s.dev, cbw)
    ensures DataStream(s, p, w).dev.packetSize == s.dev.packetSize
  {
    hide Execute, Perform;
  }

  /** A failing device that ends short sends one empty packet and then goes on to the status wrapper, or stalls. */
  lemma EmptyAnswer(s: Sys, p: Plan, w: Weather, next: Phase)
    requires DataStream(s, p, w).dev.phase == Ending([], next) && DataStream(s, p, w).dev.packetSize > 0
    ensures PacketAt(DataStream(s, p, w), 0) == [] && Offers(Due(DataStream(s, p, w), 0))
    ensures Due(DataStream(s, p, w), 1) == next == Due(StatusStream(s, p, w), 1)
  {
    DueNext(DataStream(s, p, w), 0);
    StreamsAgree(s, p, w, 1);
  }

  lemma EmptyFailureIsCaught(s: Sys, p: Plan, outMps: nat, cbw: seq<byte>, w: Weather)
    requires Planned(s, p, outMps, cbw) && ReportsFailure(s.dev, cbw) && Reaction(s.dev, cbw).Ending?
    requires s.dev.packetSize >= CSW_LENGTH || s.dev.verdict.shortfall == EndsAndStalls || |p.data.list| > 1
    ensures !Succeeds(s, p, w)
  {
    hide Execute, Perform, Following, Vouches, Planned, Due, PacketAt, ReportsFailure, LastDone;
    if Succeeds(s, p, w) {
      PlannedLists(s, p, outMps, cbw);
      SuccessNeedsAction(s, p, outMps, cbw, w);
      StreamIsReaction(s, p, outMps, cbw, w);
      var csw := FailureShape(s.dev, cbw);
      EmptyAnswer(s, p, w, Reaction(s.dev, cbw).next);
      var k, d, failed := DataPhase(s, p, outMps, cbw, w);
      AtMostOneBehind(p.data, DataStream(s, p, w), AfterData(s, p, w), k, d);
      assert k == 0 && |p.data.list| == 1;
      if s.dev.verdict.shortfall == EndsShort {
        FailureIsRead(s, p, outMps, cbw, w, k, d, csw);
      } else {
        StalledStatusFails(s, p, outMps, cbw, w, k, d);
      }
    }
  }

  lemma StalledStatusFails(s: Sys, p: Plan, outMps: nat, cbw: seq<byte>, w: Weather, k: nat, d: nat)
    requires Planned(s, p, outMps, cbw) && Following(p.data, DataStream(s, p, w), 0, AfterData(s, p, w), k, d)
    requires |p.data.list| == 1 && d == 0 && Due(StatusStream(s, p, w), 1) == Halted
    ensures !Vouches(AfterStatus(s, p, w).ram, p.status.buffer)
  {
    hide Execute, Perform, Following, Vouches, Planned, Due;
    PlannedLists(s, p, outMps, cbw);
    var k', d', failed := StatusPhase(s, p, outMps, cbw, w, k, d, 1);
    if k' > 0 {
      TakenIsOffered(p.status, StatusStream(s, p, w), 1, AfterStatus(s, p, w), k', d', 0);
    }
  }

  /** The run in which the failure of a device that ends short returns SUCCESS: the data transfer is a single
      descriptor, on which the controller gives up. */
  lemma HiddenEmptyFailure(s: Sys, p: Plan, outMps: nat, cbw: seq<byte>) returns (w: Weather)
    requires Planned(s, p, outMps, cbw) && ReportsFailure(s.dev, cbw) && s.dev.packetSize < CSW_LENGTH
    requires Reaction(s.dev, cbw).Ending? && s.dev.verdict.shortfall == EndsShort && |p.data.list| == 1
    ensures Succeeds(s, p, w)
  {
    hide Execute, Perform, Tiled, Accepted, Errored, LastDone, Following, Begins, Planned, Vouches, Due, PacketAt,
      Splice, ReportsFailure;
    PlannedLists(s, p, outMps, cbw);
    var csw := FailureShape(s.dev, cbw);
    w := Weather(Clears(|p.out.list|), LastGivenUp(p.data), [Clear] + LastGivenUp(p.status));
    CommandGoesOut(s, p, outMps, cbw, w);
    var r, r' := DataStream(s, p, w), StatusStream(s, p, w);
    EmptyAnswer(s, p, w, Reaction(s.dev, cbw).next);
    EmptyPacketFits(p.data, r, AfterCommand(s, p, w));
    GivenUpTransfer(p.data, r, 0, AfterCommand(s, p, w));
    StatusBegins(s, p, outMps, cbw, w, 0, 0, 1);
    FullAnswerFits(p.status, r', 1, BeforeStatus(s, p, w), 0, csw, Idle([]));
    RepeatFitsStatus(s, p, outMps, cbw, w, 0);
    LateGivenUpTransfer(p.status, r', 1, BeforeStatus(s, p, w));
    PartialStatusArrives(s, p, outMps, cbw, w, csw);
  }

  lemma EmptyPacketFits(t: Transfer, r: Stream, s: Sys)
    requires Begins(t, r, 0, s, 0) && |t.list| == 1 && Offers(Due(r, 0)) && PacketAt(r, 0) == []
    ensures Placed(t, r, 0, 1)
  {
    hide Due, PacketAt;
    assert Tile(t, r.dev.packetSize, 0);
  }

  /** A failure the device reports never returns SUCCESS, whatever the bus does, exactly when packets have at least 13
      bytes, so that the status wrapper travels in one, or the device fills no data phase and that is noticed. */
  lemma ReportedFailureIsCaughtExactly(s: Sys, p: Plan, outMps: nat, cbw: seq<byte>)
    requires Planned(s, p, outMps, cbw) && ReportsFailure(s.dev, cbw)
    ensures s.dev.verdict.Acts?
    ensures (forall w :: !Succeeds(s, p, w)) <==>
      match s.dev.verdict.shortfall
      case Pads => s.dev.packetSize >= CSW_LENGTH
      case EndsShort => s.dev.packetSize >= CSW_LENGTH || |p.data.list| > 1
      case EndsAndStalls => true
  {
    hide Succeeds, Planned, ReportsFailure, Execute;
    PlannedLists(s, p, outMps, cbw);
    var csw := FailureShape(s.dev, cbw);
    if Reaction(s.dev, cbw).Sending? {
      if s.dev.packetSize >= CSW_LENGTH {
        forall w ensures !Succeeds(s, p, w) {
          FilledFailureIsCaught(s, p, outMps, cbw, w);
        }
      } else {
        var w := HiddenFailure(s, p, outMps, cbw);
      }
    } else if s.dev.packetSize >= CSW_LENGTH || s.dev.verdict.shortfall == EndsAndStalls || |p.data.list| > 1 {
      forall w ensures !Succeeds(s, p, w) {
        EmptyFailureIsCaught(s, p, outMps, cbw, w);
      }
    } else {
      var w := HiddenEmptyFailure(s, p, outMps, cbw);
    }
  }
}
