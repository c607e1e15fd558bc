/** Short answers with the error bits unread: when SUCCESS still means that the device's answer has arrived. */
module EndingRuns {
  import opened Bytes
  import opened BulkDevice
  import opened Uhci
  import opened TransferRuns
  import opened BulkRuns
  import opened PacketStreams
  import opened BulkOnly
  import opened UnreadErrors

  /** The device carries the command out with fewer bytes than asked for, and ends with a short packet. A packet has
      room for a whole status wrapper, and more. */
  predicate EndsEarly(dev: Device, cbw: seq<byte>) {
    && |cbw| == CBW_LENGTH && Reaction(dev, cbw).Ending? && dev.verdict.obeys && Answer(dev.units, cbw) != []
    && dev.packetSize > CSW_LENGTH
  }

  lemma EarlyShape(dev: Device, cbw: seq<byte>) returns (csw: seq<byte>)
    requires EndsEarly(dev, cbw)
    ensures Reaction(dev, cbw) == Ending(Answer(dev.units, cbw), Reaction(dev, cbw).next)
    ensures dev.verdict.Acts? && dev.verdict.shortfall != Pads && 0 < |Answer(dev.units, cbw)| < LE32(cbw[8..12])
    ensures Reaction(dev, cbw).next == if dev.verdict.shortfall == EndsShort then Sending(csw, Idle([])) else Halted
    ensures |csw| == CSW_LENGTH && LE32(csw[..4]) == CSW_SIGNATURE && csw[12] == 0
    ensures Given(dev.units, dev.verdict.obeys, cbw) == Answer(dev.units, cbw)
    ensures Status(Given(dev.units, dev.verdict.obeys, cbw), LE32(cbw[8..12])) == PASSED
  {
    hide Answer;
    var given;
    given, csw := ReactionShape(dev, cbw);
  }

  /** The data transfer as it meets such an answer. */
  ghost predicate Meets(t: Transfer, r: Stream, answer: seq<byte>, next: Phase) {
    && Awaits(t, r, 0) && r.dev.phase == Ending(answer, next) && r.dev.packetSize > CSW_LENGTH
    && 0 < |answer| < Length(t)
  }

  lemma CommandMeets(s: Sys, p: Plan, outMps: nat, cbw: seq<byte>, w: Weather)
    requires Planned(s, p, outMps, cbw) && EndsEarly(s.dev, cbw)
    requires AfterCommand(s, p, w).dev.phase == Reaction(s.dev, cbw)
    ensures |p.data.list| > 0 && |p.data.cuts| == |p.data.list| + 1 && DataStream(s, p, w).ram == s.ram
    ensures Meets(p.data, DataStream(s, p, w), Answer(s.dev.units, cbw), Reaction(s.dev, cbw).next)
  {
    hide Execute, Perform, Answer, Tiled, CanWrite;
    var csw := EarlyShape(s.dev, cbw);
    PlannedLists(s, p, outMps, cbw);
    var _ := CommandPhase(s, p, outMps, cbw, w);
  }

  /** Packet `k` of the answer is a full one, or the short one at the end. */
  lemma PieceSize(t: Transfer, r: Stream, answer: seq<byte>, next: Phase, k: nat)
    requires Meets(t, r, answer, next)
    ensures var ps := r.dev.packetSize; var m := EndingPackets(answer, ps);
      && 0 < m <= |t.list| && Due(r, m) == next
      && (k < m ==> Offers(Due(r, k)) && |PacketAt(r, k)| == if k + 1 < m then ps else |answer| % ps)
  {
    hide Due, Placed, Laid, Splice, EndingPackets;
    var ps := r.dev.packetSize;
    var m := EndingPackets(answer, ps);
    DueNow(r);
    EndingBounds(t, ps, answer);
    EndingAlong(t, r, 0, answer, next, m);
    if k < m {
      EndingAlong(t, r, 0, answer, next, k);
      var to := ShortPacketEnd(ps, answer, k);
      EndsSlice(answer, next, ps, ps * k, to);
      LastPiece(answer, ps);
    }
  }

  lemma LastPiece(answer: seq<byte>, ps: nat)
    requires ps > 0
    ensures |answer| == ps * (EndingPackets(answer, ps) - 1) + |answer| % ps
  {
  }

  /** After the answer there is at most a status wrapper, in one packet. */
  lemma StreamAfter(t: Transfer, r: Stream, answer: seq<byte>, next: Phase, csw: seq<byte>, i: nat)
    requires Meets(t, r, answer, next) && |csw| == CSW_LENGTH && (next == Halted || next == Sending(csw, Idle([])))
    ensures var m := EndingPackets(answer, r.dev.packetSize);
      && (i > m ==> !Offers(Due(r, i))) && (i == m ==> Due(r, i) == next)
  {
    hide Due, EndingPackets, Offers;
    var m := EndingPackets(answer, r.dev.packetSize);
    PieceSize(t, r, answer, next, 0);
    DueNext(r, m);
    AfterHalt(next, csw, r.dev.packetSize);
    if i > m {
      DueStays(r, m + 1, i);
    }
  }

  lemma AfterHalt(next: Phase, csw: seq<byte>, ps: nat)
    requires (next == Halted || next == Sending(csw, Idle([]))) && |csw| == CSW_LENGTH < ps
    ensures Offers(next) ==> AfterPacket(next, ps) == Idle([])
    ensures !Offers(Idle([])) && (next.Halted? ==> !Offers(next))
  {
  }

  /** What reaches memory: the packets taken, and then one packet for the status. */
  lemma StoredIsDelivered(s: Sys, p: Plan, cbw: seq<byte>, ram: seq<byte>, status: seq<byte>)
    requires EndsEarly(s.dev, cbw) && p.data.cuts != [] && |status| <= CSW_LENGTH
    requires var answer, at, length, st := Answer(s.dev.units, cbw), p.data.buffer, Length(p.data), p.status.buffer;
      && |answer| <= length && at + length <= |s.ram| && st + CSW_LENGTH <= |s.ram|
      && (st + CSW_LENGTH <= at || at + length <= st)
      && ram == Splice(Splice(Splice(s.ram, at, answer), st, Zeros(CSW_LENGTH)), st, status)
    ensures Delivered(s, p, cbw, ram)
  {
    hide Answer, Execute;
    var csw := EarlyShape(s.dev, cbw);
    var answer, at, st := Answer(s.dev.units, cbw), p.data.buffer, p.status.buffer;
    assert ram[at..at + |answer|] == answer;
  }

  /** The data transfer got all its packets: then so does the status transfer. */
  lemma AllPiecesTaken(s: Sys, p: Plan, outMps: nat, cbw: seq<byte>, w: Weather, d: nat)
    requires Planned(s, p, outMps, cbw) && EndsEarly(s.dev, cbw) && |p.data.cuts| >= 2
    requires AfterCommand(s, p, w).dev ==
        s.dev.(outToggle := ToggleAt(p.out.toggle, |p.out.list|), phase := Reaction(s.dev, cbw))
    requires AfterCommand(s, p, w).ram == s.ram && Vouches(AfterStatus(s, p, w).ram, p.status.buffer)
    requires Following(p.data, DataStream(s, p, w), 0, AfterData(s, p, w), |p.data.list|, d)
    ensures Delivered(s, p, cbw, AfterStatus(s, p, w).ram)
  {
    hide Execute, Answer, Perform, Vouches, Planned, Following, Arrived, Delivered, AtRest, OneBehind, EndingPackets,
      Due, PacketAt;
    PlannedLists(s, p, outMps, cbw);
    DataPosition(s, p, w, d);
    var k', d' := OneStatusPacket(s, p, outMps, cbw, w, |p.data.list|, d, |p.data.list|);
    AnswerArrives(s, p, outMps, cbw, w, d, d');
    ArrivedIsDelivered(s, p, outMps, cbw, w);
  }

  /** The data transfer got all its packets but the last, and the device knows: the status transfer drops that last one,
      if it is short enough, and reads the status behind it. */
  lemma LastPieceLost(s: Sys, p: Plan, outMps: nat, cbw: seq<byte>, w: Weather)
    requires Planned(s, p, outMps, cbw) && EndsEarly(s.dev, cbw) && |p.data.list| > 0
    requires AfterCommand(s, p, w).dev.phase == Reaction(s.dev, cbw)
    requires Vouches(AfterStatus(s, p, w).ram, p.status.buffer)
    requires Following(p.data, DataStream(s, p, w), 0, AfterData(s, p, w), |p.data.list| - 1, |p.data.list| - 1)
    ensures s.dev.verdict.Acts? && s.dev.verdict.shortfall == EndsShort
    ensures EndingPackets(Answer(s.dev.units, cbw), s.dev.packetSize) == |p.data.list|
    ensures |Answer(s.dev.units, cbw)| % s.dev.packetSize <= CSW_LENGTH
    ensures |Answer(s.dev.units, cbw)| % s.dev.packetSize == 0 ==> Delivered(s, p, cbw, AfterStatus(s, p, w).ram)
  {
    hide Execute, Answer, Perform, Vouches, Planned, Following, Delivered, EndingPackets, Due, PacketAt, Meets, Splice;
    PlannedLists(s, p, outMps, cbw);
    CommandMeets(s, p, outMps, cbw, w);
    var answer, next, n := Answer(s.dev.units, cbw), Reaction(s.dev, cbw).next, |p.data.list|;
    var r, r' := DataStream(s, p, w), StatusStream(s, p, w);
    var csw := EarlyShape(s.dev, cbw);
    SamePacketSize(s, p, outMps, cbw, w);
    var k', d' := OneStatusPacket(s, p, outMps, cbw, w, n - 1, n - 1, n);
    TakenIsOffered(p.status, r', n, AfterStatus(s, p, w), k', d', 0);
    StreamsAgree(s, p, w, n);
    PieceSize(p.data, r, answer, next, n - 1);
    StreamAfter(p.data, r, answer, next, csw, n);
    LongLastPieceFails(s, p, outMps, cbw, w);
    StatusArrives(p, r', n, AfterStatus(s, p, w), d', csw);
    if |answer| % s.dev.packetSize == 0 {
      LastPiece(answer, s.dev.packetSize);
      PiecesAre(p.data, r, answer, next, AfterData(s, p, w), n - 1, n - 1);
      PlannedApart(s, p, outMps, cbw);
      StatusMemory(s, p, outMps, cbw, w, n - 1, n - 1);
      StoredIsDelivered(s, p, cbw, AfterStatus(s, p, w).ram, csw);
    }
  }

  lemma SamePacketSize(s: Sys, p: Plan, outMps: nat, cbw: seq<byte>, w: Weather)
    requires Planned(s, p, outMps, cbw)
    ensures DataStream(s, p, w).dev.packetSize == s.dev.packetSize
  {
    hide Execute, Perform, Tiled;
    var _ := CommandPhase(s, p, outMps, cbw, w);
  }

  lemma LongLastPieceFails(s: Sys, p: Plan, outMps: nat, cbw: seq<byte>, w: Weather)
    requires Planned(s, p, outMps, cbw) && |p.data.list| > 0
    requires Vouches(AfterStatus(s, p, w).ram, p.status.buffer)
    requires Following(p.data, DataStream(s, p, w), 0, AfterData(s, p, w), |p.data.list| - 1, |p.data.list| - 1)
    requires Offers(Due(DataStream(s, p, w), |p.data.list| - 1))
    ensures |PacketAt(DataStream(s, p, w), |p.data.list| - 1)| <= CSW_LENGTH
  {
    hide Execute, Perform, Vouches, Planned, Due, PacketAt, Laid, Lengths, PacketLengths, Placed;
    var last := |p.data.list| - 1;
    StatusFits(s, p, outMps, cbw, w, last, last);
    if |PacketAt(DataStream(s, p, w), last)| > CSW_LENGTH {
      LongPacketFailsStatus(s, p, outMps, cbw, w, last);
    }
  }

  /** What `k` packets leave in memory, once they are the whole answer. */
  lemma PiecesAre(t: Transfer, r: Stream, answer: seq<byte>, next: Phase, s: Sys, k: nat, d: nat)
    requires Meets(t, r, answer, next) && Following(t, r, 0, s, k, d) && k <= EndingPackets(answer, r.dev.packetSize)
    requires |answer| <= r.dev.packetSize * k
    ensures t.buffer + Length(t) <= |r.ram| && s.ram == Splice(r.ram, t.buffer, answer)
  {
    hide Due, Placed, Laid, Splice, Lengths, PacketLengths, Acked, EndingPackets;
    DueNow(r);
    EndingAlong(t, r, 0, answer, next, k);
    assert answer[..|answer|] == answer;
  }

  lemma StatusMemory(s: Sys, p: Plan, outMps: nat, cbw: seq<byte>, w: Weather, k: nat, d: nat)
    requires Planned(s, p, outMps, cbw) && Following(p.data, DataStream(s, p, w), 0, AfterData(s, p, w), k, d)
    ensures p.status.buffer + CSW_LENGTH <= |s.ram| == |AfterData(s, p, w).ram|
    ensures StatusStream(s, p, w).ram == Splice(AfterData(s, p, w).ram, p.status.buffer, Zeros(CSW_LENGTH))
  {
    hide Planned, AfterData, Splice, Following;
    StatusFits(s, p, outMps, cbw, w, k, d);
  }

  lemma PlannedApart(s: Sys, p: Plan, outMps: nat, cbw: seq<byte>)
    requires Planned(s, p, outMps, cbw)
    ensures p.data.cuts != []
    ensures p.status.buffer + CSW_LENGTH <= p.data.buffer || p.data.buffer + Length(p.data) <= p.status.buffer
  {
    hide CanWrite, Execute;
  }

  /** The device has not heard that its last but one packet arrived: the status transfer takes that packet again. Either
      it is the end of the answer, which has arrived, or the status wrapper, which the data transfer has taken as
      well. */
  lemma PieceRepeated(s: Sys, p: Plan, outMps: nat, cbw: seq<byte>, w: Weather)
    requires Planned(s, p, outMps, cbw) && EndsEarly(s.dev, cbw) && |p.data.list| > 1
    requires AfterCommand(s, p, w).dev.phase == Reaction(s.dev, cbw)
    requires Vouches(AfterStatus(s, p, w).ram, p.status.buffer)
    requires Following(p.data, DataStream(s, p, w), 0, AfterData(s, p, w), |p.data.list| - 1, |p.data.list| - 2)
    ensures s.dev.verdict.Acts?
    ensures Delivered(s, p, cbw, AfterStatus(s, p, w).ram)
            || (s.dev.verdict.shortfall == EndsShort
                && EndingPackets(Answer(s.dev.units, cbw), s.dev.packetSize) + 2 == |p.data.list|)
  {
    hide Execute, Answer, Perform, Vouches, Planned, Following, Delivered, EndingPackets, Due, PacketAt, Meets, Splice;
    PlannedLists(s, p, outMps, cbw);
    CommandMeets(s, p, outMps, cbw, w);
    var answer, next, n := Answer(s.dev.units, cbw), Reaction(s.dev, cbw).next, |p.data.list|;
    var r, r', ps := DataStream(s, p, w), StatusStream(s, p, w), s.dev.packetSize;
    var csw := EarlyShape(s.dev, cbw);
    SamePacketSize(s, p, outMps, cbw, w);
    var k', d' := OneStatusPacket(s, p, outMps, cbw, w, n - 1, n - 2, n - 2);
    TakenIsOffered(p.status, r', n - 2, AfterStatus(s, p, w), k', d', 0);
    FirstIsLaid(p, r', n - 2, AfterStatus(s, p, w), d');
    StreamsAgree(s, p, w, n - 2);
    SamePacket(r, r', n - 2);
    PieceSize(p.data, r, answer, next, n - 2);
    StreamAfter(p.data, r, answer, next, csw, n - 2);
    if EndingPackets(answer, ps) == n - 1 {
      LastPiece(answer, ps);
      EndOf(ps, n - 1, |answer|);
      PiecesAre(p.data, r, answer, next, AfterData(s, p, w), n - 1, n - 2);
      PlannedApart(s, p, outMps, cbw);
      StatusMemory(s, p, outMps, cbw, w, n - 1, n - 2);
      StoredIsDelivered(s, p, cbw, AfterStatus(s, p, w).ram, PacketAt(r', n - 2));
    }
  }

  lemma SamePacket(r: Stream, r': Stream, i: nat)
    requires Due(r, i) == Due(r', i) && r.dev == r'.dev
    ensures PacketAt(r, i) == PacketAt(r', i)
  {
  }

  lemma EndOf(ps: nat, m: nat, size: nat)
    requires ps > 0 && m > 0 && size == ps * (m - 1) + size % ps
    ensures size <= ps * m
  {
    assert ps * m == ps * (m - 1) + ps;
  }

  /** SUCCESS, whatever the error bits: the answer has arrived, but for two cases. */
  lemma EarlySuccess(s: Sys, p: Plan, outMps: nat, cbw: seq<byte>, w: Weather)
    requires Planned(s, p, outMps, cbw) && EndsEarly(s.dev, cbw) && p.data.cuts != [] && Succeeds(s, p, w)
    ensures Delivered(s, p, cbw, AfterStatus(s, p, w).ram) || !EarlyIsSafe(s.dev, cbw, |p.data.list|)
  {
    hide Execute, Answer, Perform, Vouches, Planned, Following, Delivered, EndingPackets, Due, PacketAt, LastDone;
    PlannedLists(s, p, outMps, cbw);
    SuccessNeedsAction(s, p, outMps, cbw, w);
    var k, d, failed := DataPhase(s, p, outMps, cbw, w);
    AtMostOneBehind(p.data, DataStream(s, p, w), AfterData(s, p, w), k, d);
    AcceptedIsDone(AfterData(s, p, w), p.data);
    if k == |p.data.list| {
      AllPiecesTaken(s, p, outMps, cbw, w, d);
    } else if d == k {
      LastPieceLost(s, p, outMps, cbw, w);
    } else {
      PieceRepeated(s, p, outMps, cbw, w);
    }
  }

  /** What has to be checked of a short answer: it does not end in the last descriptor with a packet that the status
      transfer would throw away, nor two descriptors before, where the data transfer may take the status wrapper. */
  predicate EarlyIsSafe(dev: Device, cbw: seq<byte>, packets: nat)
    requires EndsEarly(dev, cbw)
  {
    var m, last := EndingPackets(Answer(dev.units, cbw), dev.packetSize), |Answer(dev.units, cbw)| % dev.packetSize;
    dev.verdict == Acts(true, EndsAndStalls)
    || (m + 2 != packets && (m == packets ==> last == 0 || last > CSW_LENGTH))
  }

  // ---------------------------------------------------------------------------
  // The two cases
  // ---------------------------------------------------------------------------

  /** Memory does not happen to hold already what the first run leaves out, nor what the second puts in. */
  ghost predicate Distinct(s: Sys, p: Plan, cbw: seq<byte>)
    requires EndsEarly(s.dev, cbw)
  {
    var answer, at, ps := Answer(s.dev.units, cbw), p.data.buffer, s.dev.packetSize;
    var from, after := at + CutOf(ps, EndingPackets(answer, ps) - 1), at + CutOf(ps, EndingPackets(answer, ps));
    && (from <= at + |answer| <= |s.ram| ==> s.ram[from..at + |answer|] != answer[from - at..] || from == at + |answer|)
    && (after + CSW_LENGTH <= |s.ram| && Reaction(s.dev, cbw).next.Sending? ==>
          s.ram[after..after + CSW_LENGTH] != Reaction(s.dev, cbw).next.rest)
  }

  function CutOf(ps: nat, k: int): nat
    requires k >= 0
  {
    ps * k
  }

  lemma CommandToEarly(s: Sys, p: Plan, outMps: nat, cbw: seq<byte>, w: Weather)
    requires Planned(s, p, outMps, cbw) && EndsEarly(s.dev, cbw) && w.out == Clears(|p.out.list|)
    ensures Accepted(AfterCommand(s, p, w), p.out) && |p.data.list| > 0 && |p.data.cuts| == |p.data.list| + 1
    ensures DataStream(s, p, w).ram == s.ram && DataStream(s, p, w).dev.packetSize == s.dev.packetSize
    ensures Meets(p.data, DataStream(s, p, w), Answer(s.dev.units, cbw), Reaction(s.dev, cbw).next)
    ensures Begins(p.data, DataStream(s, p, w), 0, AfterCommand(s, p, w), 0) && PacketAt(DataStream(s, p, w), 0) != []
  {
    hide Execute, Answer, Perform, Planned, Accepted, Begins, Meets, Due, PacketAt, EndingPackets;
    PlannedLists(s, p, outMps, cbw);
    CommandGoesOut(s, p, outMps, cbw, w);
    CommandMeets(s, p, outMps, cbw, w);
    SomePieces(p.data, DataStream(s, p, w), Answer(s.dev.units, cbw), Reaction(s.dev, cbw).next);
  }

  lemma SomePieces(t: Transfer, r: Stream, answer: seq<byte>, next: Phase)
    requires Meets(t, r, answer, next)
    ensures PacketAt(r, 0) != []
  {
    hide Due, PacketAt, EndingPackets;
    PieceSize(t, r, answer, next, 0);
    LastPiece(answer, r.dev.packetSize);
  }

  /** The controller gives up on the last piece, and the status transfer throws it away. */
  lemma LosesLastPiece(s: Sys, p: Plan, outMps: nat, cbw: seq<byte>) returns (w: Weather)
    requires Planned(s, p, outMps, cbw) && EndsEarly(s.dev, cbw) && s.dev.verdict == Acts(true, EndsShort)
    requires EndingPackets(Answer(s.dev.units, cbw), s.dev.packetSize) == |p.data.list| && p.data.cuts != []
    requires 0 < |Answer(s.dev.units, cbw)| % s.dev.packetSize <= CSW_LENGTH && Distinct(s, p, cbw)
    ensures Succeeds(s, p, w) && !Delivered(s, p, cbw, AfterStatus(s, p, w).ram)
  {
    hide Execute, Answer, Perform, Vouches, Planned, Following, Delivered, EndingPackets, Due, PacketAt, Meets, Splice,
      Accepted, Errored, Distinct, Placed, Begins, BeforeStatus;
    PlannedLists(s, p, outMps, cbw);
    w := Weather(Clears(|p.out.list|), LastGivenUp(p.data), [Clear] + Clears(|p.status.list|));
    var answer, next, n := Answer(s.dev.units, cbw), Reaction(s.dev, cbw).next, |p.data.list|;
    var csw := EarlyShape(s.dev, cbw);
    CommandToEarly(s, p, outMps, cbw, w);
    var r := DataStream(s, p, w);
    PieceSize(p.data, r, answer, next, n - 1);
    AllPlaced(p.data, r, answer, next);
    GivenUpTransfer(p.data, r, 0, AfterCommand(s, p, w));
    StreamsAgree(s, p, w, n);
    StatusAfterRepeat(s, p, outMps, cbw, w, csw);
    StatusMemory(s, p, outMps, cbw, w, n - 1, n - 1);
    LastPieceMissing(s, p, outMps, cbw, w, csw);
  }

  lemma AllPlaced(t: Transfer, r: Stream, answer: seq<byte>, next: Phase)
    requires Meets(t, r, answer, next) && |t.cuts| == |t.list| + 1
    ensures EndingPackets(answer, r.dev.packetSize) <= |t.list|
    ensures Placed(t, r, 0, EndingPackets(answer, r.dev.packetSize))
  {
    hide Due, Laid, Splice, EndingPackets, Placed;
    DueNow(r);
    EndingAlong(t, r, 0, answer, next, EndingPackets(answer, r.dev.packetSize));
  }

  lemma LastPieceMissing(s: Sys, p: Plan, outMps: nat, cbw: seq<byte>, w: Weather, csw: seq<byte>)
    requires Planned(s, p, outMps, cbw) && EndsEarly(s.dev, cbw) && Distinct(s, p, cbw) && p.data.cuts != []
    requires 0 < |Answer(s.dev.units, cbw)| % s.dev.packetSize && |csw| == CSW_LENGTH && p.data.list != []
    requires EndingPackets(Answer(s.dev.units, cbw), s.dev.packetSize) == |p.data.list|
    requires var r := DataStream(s, p, w);
      && Meets(p.data, r, Answer(s.dev.units, cbw), Reaction(s.dev, cbw).next) && r.ram == s.ram
      && r.dev.packetSize == s.dev.packetSize
      && Following(p.data, r, 0, AfterData(s, p, w), |p.data.list| - 1, |p.data.list| - 1)
    requires p.status.buffer + CSW_LENGTH <= |s.ram| == |AfterData(s, p, w).ram|
    requires AfterStatus(s, p, w).ram == Splice(BeforeStatus(s, p, w).ram, p.status.buffer, csw)
    requires BeforeStatus(s, p, w).ram == Splice(AfterData(s, p, w).ram, p.status.buffer, Zeros(CSW_LENGTH))
    ensures !Delivered(s, p, cbw, AfterStatus(s, p, w).ram)
  {
    hide Execute, Answer, Perform, Planned, EndingPackets, Due, Lengths, PacketLengths, Placed, Laid, Acked, Splice,
      BeforeStatus, Delivered, Distinct;
    var answer, r, ps, at := Answer(s.dev.units, cbw), DataStream(s, p, w), s.dev.packetSize, p.data.buffer;
    var from := CutOf(ps, |p.data.list| - 1);
    DueNow(r);
    EndingAlong(p.data, r, 0, answer, Reaction(s.dev, cbw).next, |p.data.list| - 1);
    LastPiece(answer, ps);
    PlannedApart(s, p, outMps, cbw);
    assert UpTo(answer, from) == answer[..from];
    OutsideOfBoth(s.ram, at, answer[..from], at + |answer|, p.status.buffer, csw);
    TailStays(s, p, cbw, AfterStatus(s, p, w).ram, from);
  }

  lemma TailStays(s: Sys, p: Plan, cbw: seq<byte>, ram: seq<byte>, from: nat)
    requires EndsEarly(s.dev, cbw) && Distinct(s, p, cbw) && p.data.cuts != []
    requires from == CutOf(s.dev.packetSize, EndingPackets(Answer(s.dev.units, cbw), s.dev.packetSize) - 1)
    requires from < |Answer(s.dev.units, cbw)|
    requires SameBetween(s.ram, ram, p.data.buffer + from, p.data.buffer + |Answer(s.dev.units, cbw)|)
    ensures !Delivered(s, p, cbw, ram)
  {
    hide Execute, Answer, EndingPackets, CutOf;
    TailDiffers(s.ram, ram, p.data.buffer, from, Answer(s.dev.units, cbw));
  }

  /** The controller gives up on descriptor `k`, wherever the device stands. */
  lemma GivesUpHere(t: Transfer, r: Stream, b: nat, s: Sys, k: nat, d: nat)
    requires Progress(t.base, t.list, s, k, false) && Following(t, r, b, s, k, d) && k < |t.list|
    ensures Progress(t.base, t.list, HcStep(s, GivesUp(0)), k, true)
    ensures Following(t, r, b, HcStep(s, GivesUp(0)), k, d)
  {
    hide Progress, Laid, Placed, PacketLengths, Acked, Awaits, Lengths, PacketAt;
    FollowingIsLinked(t, r, b, s, k, d);
    ProgressStep(t.base, t.list, s, k, false, GivesUp(0));
    Visit(t.base, t.list, s, k, false, GivesUp(0));
    assert Exchange(s.dev, s.ram, t.list[k], GivesUp(0)) == Fails(0);
    LengthsGrow(t, s, k, Fails(0), PacketLengths(t, r, b, k));
  }

  /** The run of a transfer in which the handshake of packet `m` is lost and the controller gives up on the next one. */
  function Doubled(m: nat): seq<Fault> {
    Clears(m) + [Unheard, GivesUp(0)]
  }

  lemma DoubledTransfer(t: Transfer, r: Stream, s: Sys, m: nat)
    requires Begins(t, r, 0, s, 0) && |t.list| == m + 2 && |t.cuts| == m + 3 && Placed(t, r, 0, m + 1)
    requires PacketAt(r, 0) != []
    ensures var e := Perform(s, t, Doubled(m)); Following(t, r, 0, e, m + 1, m) && Accepted(e, t)
  {
    hide Following, Progress, HcStep, Begins, Placed, Fits, Exchange, PacketAt, Publish, Run, Seen;
    var s0 := Publish(s, t.base, t.list);
    BegunFollows(t, r, 0, s, 0);
    PlacedFits(t, r, 0, m, m + 1);
    var k := ClearRun(t, r, 0, s0, 0, Clears(m));
    var s1 := Run(s0, Clears(m));
    FollowingIsLinked(t, r, 0, s1, m, m);
    ProgressStep(t.base, t.list, s1, m, false, Unheard);
    var d := FollowStep(t, r, 0, s1, m, m, false, Unheard);
    var s2 := HcStep(s1, Unheard);
    CountsOne(t, r, s2, m, d);
    GivesUpHere(t, r, 0, s2, m + 1, m);
    SeenAfterRun(t, r, 0, HcStep(s2, GivesUp(0)), m + 1, m, true);
    TwoMore(s0, Clears(m), Unheard, GivesUp(0));
    AcceptedOnceSeen(t, r, Unpublish(HcStep(s2, GivesUp(0))), m);
  }

  lemma CountsOne(t: Transfer, r: Stream, s: Sys, m: nat, d: nat)
    requires Following(t, r, 0, s, m + 1, d) && d != m + 1
    ensures d == m
  {
  }

  lemma AcceptedOnceSeen(t: Transfer, r: Stream, s: Sys, m: nat)
    requires Seen(t, r, 0, s, m + 1, true) && |t.list| == m + 2 && PacketAt(r, 0) != []
    ensures Accepted(s, t)
  {
    hide Accepted, LastDone, PacketAt;
  }

  lemma TwoMore(s: Sys, fs: seq<Fault>, f: Fault, g: Fault)
    ensures Run(s, fs + [f, g]) == HcStep(HcStep(Run(s, fs), f), g)
  {
    hide HcStep;
    RunConcat(s, fs, [f, g]);
    assert [f, g][1..] == [g];
    assert Run(HcStep(Run(s, fs), f), [g]) == HcStep(HcStep(Run(s, fs), f), g);
  }

  /** The status wrapper travels on where the answer ends: the data transfer takes it too. */
  lemma WrapperPlaced(t: Transfer, r: Stream, answer: seq<byte>, csw: seq<byte>)
    requires Meets(t, r, answer, Sending(csw, Idle([]))) && |csw| == CSW_LENGTH && |t.cuts| == |t.list| + 1
    requires EndingPackets(answer, r.dev.packetSize) + 2 == |t.list|
    ensures var m := EndingPackets(answer, r.dev.packetSize);
      && Placed(t, r, 0, m + 1) && PacketAt(r, m) == csw && Due(r, m) == Sending(csw, Idle([]))
      && |answer| < t.cuts[m] == CutOf(r.dev.packetSize, m) <= Length(t) - CSW_LENGTH
      && t.buffer + Length(t) <= |r.ram|
      && Laid(t, r, 0, m + 1) == Splice(Splice(r.ram, t.buffer, answer), t.buffer + t.cuts[m], csw)
  {
    hide Due, Splice, EndingPackets, Placed, Fits, Laid;
    var ps, m := r.dev.packetSize, EndingPackets(answer, r.dev.packetSize);
    DueNow(r);
    PieceSize(t, r, answer, Sending(csw, Idle([])), 0);
    EndingAlong(t, r, 0, answer, Sending(csw, Idle([])), m);
    EndingBounds(t, ps, answer);
    assert UpTo(answer, ps * m) == answer;
    CutsAt(t, ps, m);
    CutsAt(t, ps, m + 1);
    assert Tile(t, ps, m);
    OneMore(t, r, m);
  }

  lemma OneMore(t: Transfer, r: Stream, m: nat)
    requires Awaits(t, r, 0) && |t.cuts| == |t.list| + 1 && m < |t.list| && Placed(t, r, 0, m)
    requires Offers(Due(r, m)) && |PacketAt(r, m)| <= PacketSize(t, m)
    ensures Placed(t, r, 0, m + 1) && t.buffer + t.cuts[m] + |PacketAt(r, m)| <= |r.ram|
    ensures Laid(t, r, 0, m + 1) == Splice(Laid(t, r, 0, m), t.buffer + t.cuts[m], PacketAt(r, m))
  {
    hide Due, Splice, PacketAt;
    assert Fits(t, r, 0, m);
    assert Tile(t, r.dev.packetSize, m);
    CutsAt(t, r.dev.packetSize, m + 1);
  }

  /** The data transfer takes the status wrapper, the device does not hear so, and sends it to the status transfer. */
  lemma TakesStatusTwice(s: Sys, p: Plan, outMps: nat, cbw: seq<byte>) returns (w: Weather)
    requires Planned(s, p, outMps, cbw) && EndsEarly(s.dev, cbw) && s.dev.verdict == Acts(true, EndsShort)
    requires EndingPackets(Answer(s.dev.units, cbw), s.dev.packetSize) + 2 == |p.data.list| && p.data.cuts != []
    requires Distinct(s, p, cbw)
    ensures Succeeds(s, p, w) && !Delivered(s, p, cbw, AfterStatus(s, p, w).ram)
  {
    hide Execute, Answer, Perform, Vouches, Planned, Following, Delivered, EndingPackets, Due, PacketAt, Meets, Splice,
      Accepted, Distinct, Placed, Begins, BeforeStatus, Laid;
    PlannedLists(s, p, outMps, cbw);
    var answer, ps := Answer(s.dev.units, cbw), s.dev.packetSize;
    var m := EndingPackets(answer, ps);
    var csw := EarlyShape(s.dev, cbw);
    w := Weather(Clears(|p.out.list|), Doubled(m), Clears(|p.status.list|));
    CommandToEarly(s, p, outMps, cbw, w);
    var r, r' := DataStream(s, p, w), StatusStream(s, p, w);
    WrapperPlaced(p.data, r, answer, csw);
    DoubledTransfer(p.data, r, AfterCommand(s, p, w), m);
    StreamsAgree(s, p, w, m);
    StatusBegins(s, p, outMps, cbw, w, m + 1, m, m);
    FullAnswerFits(p.status, r', m, BeforeStatus(s, p, w), m, csw, Idle([]));
    var k := ClearTransfer(p.status, r', m, BeforeStatus(s, p, w), w.status);
    StatusArrives(p, r', m, AfterStatus(s, p, w), m + k, csw);
    StatusMemory(s, p, outMps, cbw, w, m + 1, m);
    PlannedApart(s, p, outMps, cbw);
    LaidIsMemory(p.data, r, AfterData(s, p, w), m + 1, m);
    WrapperInBuffer(s, p, cbw, AfterStatus(s, p, w).ram, csw);
  }

  lemma LaidIsMemory(t: Transfer, r: Stream, s: Sys, k: nat, d: nat)
    requires Following(t, r, 0, s, k, d)
    ensures Awaits(t, r, 0) && k <= |t.list| && |t.cuts| == |t.list| + 1 && Placed(t, r, 0, k)
    ensures s.ram == Laid(t, r, 0, k)
  {
  }

  lemma SplicedBetween(ram: seq<byte>, a: nat, answer: seq<byte>, b: nat, x: seq<byte>, c: nat, csw: seq<byte>)
    requires a + |answer| <= b && b + |x| <= |ram| && c + CSW_LENGTH <= |ram| && |csw| == CSW_LENGTH
    requires c + CSW_LENGTH <= b || b + |x| <= c
    ensures var r := Splice(Splice(Splice(Splice(ram, a, answer), b, x), c, Zeros(CSW_LENGTH)), c, csw);
      |r| == |ram| && r[b..b + |x|] == x
  {
    var r := Splice(Splice(Splice(Splice(ram, a, answer), b, x), c, Zeros(CSW_LENGTH)), c, csw);
    forall i | 0 <= i < |x| ensures r[b + i] == x[i] {
    }
  }

  lemma WrapperInBuffer(s: Sys, p: Plan, cbw: seq<byte>, ram: seq<byte>, csw: seq<byte>)
    requires EndsEarly(s.dev, cbw) && Distinct(s, p, cbw) && p.data.cuts != [] && |csw| == CSW_LENGTH
    requires Reaction(s.dev, cbw).next == Sending(csw, Idle([])) && s.dev.verdict == Acts(true, EndsShort)
    requires var answer, at, length, st := Answer(s.dev.units, cbw), p.data.buffer, Length(p.data), p.status.buffer;
      var after := CutOf(s.dev.packetSize, EndingPackets(answer, s.dev.packetSize));
      && |answer| <= after && after + CSW_LENGTH <= length && at + length <= |s.ram| && st + CSW_LENGTH <= |s.ram|
      && (st + CSW_LENGTH <= at || at + length <= st)
      && ram == Splice(Splice(Splice(Splice(s.ram, at, answer), at + after, csw), st, Zeros(CSW_LENGTH)), st, csw)
    ensures !Delivered(s, p, cbw, ram)
  {
    hide Execute, Answer, EndingPackets, CutOf;
    var answer, at := Answer(s.dev.units, cbw), p.data.buffer;
    var after := at + CutOf(s.dev.packetSize, EndingPackets(answer, s.dev.packetSize));
    SplicedBetween(s.ram, at, answer, after, csw, p.status.buffer, csw);
    assert s.ram[after..after + CSW_LENGTH] != ram[after..after + CSW_LENGTH];
  }

  /** For a device that carries a command out with fewer bytes than asked for and ends with a short packet, with more
      than 13 bytes to a packet, SUCCESS means that its answer has arrived, and nothing else, in every run and with the
      error bits unread, exactly when `EarlyIsSafe` says. */
  lemma EarlySuccessIsSoundExactly(s: Sys, p: Plan, outMps: nat, cbw: seq<byte>)
    requires Planned(s, p, outMps, cbw) && EndsEarly(s.dev, cbw) && Distinct(s, p, cbw)
    ensures p.data.cuts != []
    ensures (forall w :: Succeeds(s, p, w) ==> Delivered(s, p, cbw, AfterStatus(s, p, w).ram))
       <==> EarlyIsSafe(s.dev, cbw, |p.data.list|)
  {
    hide Execute, Answer, Planned, Delivered, EndingPackets, Succeeds, AfterStatus, Distinct;
    PlannedLists(s, p, outMps, cbw);
    var csw := EarlyShape(s.dev, cbw);
    if EarlyIsSafe(s.dev, cbw, |p.data.list|) {
      forall w | Succeeds(s, p, w) ensures Delivered(s, p, cbw, AfterStatus(s, p, w).ram) {
        EarlySuccess(s, p, outMps, cbw, w);
      }
    } else if EndingPackets(Answer(s.dev.units, cbw), s.dev.packetSize) == |p.data.list| {
      var w := LosesLastPiece(s, p, outMps, cbw);
    } else {
      var w := TakesStatusTwice(s, p, outMps, cbw);
    }
  }
}
