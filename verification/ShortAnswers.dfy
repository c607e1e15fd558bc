/** Answers shorter than the host asked for (USB Mass Storage Bulk-Only Transport 1.0, section 6.7.2). The driver reads
    neither the residue of the status wrapper nor the lengths of the packets but the first. */
module ShortAnswers {
  import opened Bytes
  import opened BulkDevice
  import opened Uhci
  import opened TransferRuns
  import opened BulkRuns
  import opened PacketStreams
  import opened BulkOnly

  /** The device carries the command out with fewer bytes than asked for, and nothing tells the driver. */
  predicate Fooled(dev: Device, cbw: seq<byte>, packets: nat)
    requires dev.packetSize > 0
  {
    && |cbw| == CBW_LENGTH && Offers(Reaction(dev, cbw)) && dev.verdict.obeys
    && 0 < |Answer(dev.units, cbw)| < LE32(cbw[8..12]) && Unnoticed(dev, Answer(dev.units, cbw), packets)
  }

  lemma CleanIsClear(s: Sys, p: Plan, cbw: seq<byte>, w: Weather)
    requires Clean(s, p, w) && |p.data.cuts| >= 2
    ensures ErrorBitsClear(s, p, cbw, w)
  {
  }

  /** A device that carries the command out with a short answer reports success. */
  lemma FooledShape(dev: Device, cbw: seq<byte>, packets: nat) returns (csw: seq<byte>)
    requires dev.packetSize > 0 && Fooled(dev, cbw, packets)
    ensures |cbw| == CBW_LENGTH && Offers(Reaction(dev, cbw)) && dev.verdict.Acts?
    ensures 0 < |Answer(dev.units, cbw)| < LE32(cbw[8..12])
    ensures |csw| == CSW_LENGTH && LE32(csw[..4]) == CSW_SIGNATURE && csw[12] == 0
    ensures Given(dev.units, dev.verdict.obeys, cbw) == Answer(dev.units, cbw) != []
    ensures Status(Given(dev.units, dev.verdict.obeys, cbw), LE32(cbw[8..12])) == PASSED
    ensures if dev.verdict.shortfall == Pads then Reaction(dev, cbw).Sending?
            else Reaction(dev, cbw) == Ending(Answer(dev.units, cbw), Sending(csw, Idle([])))
                 && EndingPackets(Answer(dev.units, cbw), dev.packetSize) == packets
  {
    hide Answer, EndingPackets;
    var given;
    given, csw := ReactionShape(dev, cbw);
  }

  /** The packets of a short answer that just fill the descriptors. */
  lemma ShortAnswerFits(t: Transfer, r: Stream, s: Sys, data: seq<byte>, next: Phase)
    requires Begins(t, r, 0, s, 0) && Due(r, 0) == Ending(data, next) && 0 < |data| && t.cuts != []
    requires |data| < Length(t)
    requires r.dev.packetSize > 0 && EndingPackets(data, r.dev.packetSize) == |t.list|
    ensures Placed(t, r, 0, |t.list|) && PacketAt(r, 0) != [] && Due(r, |t.list|) == next
  {
    hide Laid, Splice, Ahead, EndingPackets;
    EndingAlong(t, r, 0, data, next, |t.list|);
  }

  /** A fault-free run in which the short answer of a device that ends short returns SUCCESS. */
  lemma ShortRunSucceeds(s: Sys, p: Plan, outMps: nat, cbw: seq<byte>, w: Weather)
    requires Planned(s, p, outMps, cbw) && s.dev.packetSize > 0 && Fooled(s.dev, cbw, |p.data.list|)
    requires s.dev.verdict.shortfall != Pads
    requires w == Weather(Clears(|p.out.list|), Clears(|p.data.list|), Clears(|p.status.list|))
    ensures Succeeds(s, p, w) && Clean(s, p, w)
  {
    hide Execute, Perform, Tiled, Accepted, Errored, LastDone, Following, Begins, Planned, Vouches, Due, PacketAt,
      Splice, Fooled, EndingPackets, Answer;
    PlannedLists(s, p, outMps, cbw);
    var csw := FooledShape(s.dev, cbw, |p.data.list|);
    var n, r, r' := |p.data.list|, DataStream(s, p, w), StatusStream(s, p, w);
    CommandGoesOut(s, p, outMps, cbw, w);
    DueNow(r);
    ShortAnswerFits(p.data, r, AfterCommand(s, p, w), Answer(s.dev.units, cbw), Sending(csw, Idle([])));
    var k := ClearTransfer(p.data, r, 0, AfterCommand(s, p, w), w.data);
    StreamsAgree(s, p, w, n);
    StatusBegins(s, p, outMps, cbw, w, n, n, n);
    FullAnswerFits(p.status, r', n, BeforeStatus(s, p, w), n, csw, Idle([]));
    var k' := ClearTransfer(p.status, r', n, BeforeStatus(s, p, w), w.status);
    StatusArrives(p, r', n, AfterStatus(s, p, w), n + k', csw);
  }

  /** The input for which success is not a full buffer: no fault at all. */
  lemma ShortAnswerAccepted(s: Sys, p: Plan, outMps: nat, cbw: seq<byte>) returns (w: Weather)
    requires Planned(s, p, outMps, cbw) && s.dev.packetSize > 0 && Fooled(s.dev, cbw, |p.data.list|)
    ensures Succeeds(s, p, w) && Clean(s, p, w) && AllClear(w.out) && AllClear(w.data) && AllClear(w.status)
    ensures |cbw| == CBW_LENGTH && p.data.cuts != [] && Delivered(s, p, cbw, AfterStatus(s, p, w).ram)
    ensures !Fulfilled(s, p, cbw, AfterStatus(s, p, w).ram)
  {
    hide Execute, Perform, Accepted, Errored, Following, Planned, Fooled, EndingPackets, Answer, Succeeds, Delivered,
      Clean;
    PlannedLists(s, p, outMps, cbw);
    var csw := FooledShape(s.dev, cbw, |p.data.list|);
    w := Weather(Clears(|p.out.list|), Clears(|p.data.list|), Clears(|p.status.list|));
    if s.dev.verdict.shortfall == Pads {
      ClearRunsSucceed(s, p, outMps, cbw, w);
      ClearIsClean(s, p, w);
    } else {
      ShortRunSucceeds(s, p, outMps, cbw, w);
    }
    CleanIsClear(s, p, cbw, w);
    SuccessIsSound(s, p, outMps, cbw, w);
  }

  lemma ClearIsClean(s: Sys, p: Plan, w: Weather)
    requires !Errored(AfterData(s, p, w), p.data) && !Errored(AfterStatus(s, p, w), p.status)
    ensures Clean(s, p, w)
  {
  }

  lemma UnfooledIsFull(s: Sys, p: Plan, outMps: nat, cbw: seq<byte>, w: Weather)
    requires Planned(s, p, outMps, cbw) && s.dev.packetSize > 0 && !Fooled(s.dev, cbw, |p.data.list|)
    requires |p.data.cuts| >= 2 && Succeeds(s, p, w) && ErrorBitsClear(s, p, cbw, w)
    ensures |cbw| == CBW_LENGTH && Fulfilled(s, p, cbw, AfterStatus(s, p, w).ram)
  {
    hide Execute, Perform, Answer, Succeeds, Planned, ErrorBitsClear, Unnoticed;
    PlannedLists(s, p, outMps, cbw);
    SuccessNeedsAction(s, p, outMps, cbw, w);
    SuccessIsSound(s, p, outMps, cbw, w);
  }

  /** Whatever the device, SUCCESS without error bits means that the buffer holds all that was asked for, in every
      run, exactly when the device's answer is not short unnoticed: a device that fills up is never noticed, and one
      that ends with a short packet exactly when that packet does not fall to the last descriptor. */
  lemma SuccessMeansAllExactly(s: Sys, p: Plan, outMps: nat, cbw: seq<byte>)
    requires Planned(s, p, outMps, cbw)
    ensures s.dev.packetSize > 0 && |cbw| == CBW_LENGTH && p.data.cuts != []
    ensures (forall w :: Succeeds(s, p, w) && Clean(s, p, w) ==> Fulfilled(s, p, cbw, AfterStatus(s, p, w).ram))
       <==> !Fooled(s.dev, cbw, |p.data.list|)
  {
    hide Execute, Perform, Answer, Succeeds, Planned, Clean, Fulfilled, Fooled;
    PlannedLists(s, p, outMps, cbw);
    if Fooled(s.dev, cbw, |p.data.list|) {
      var w := ShortAnswerAccepted(s, p, outMps, cbw);
    } else {
      forall w | Succeeds(s, p, w) && Clean(s, p, w) ensures Fulfilled(s, p, cbw, AfterStatus(s, p, w).ram) {
        CleanIsClear(s, p, cbw, w);
        UnfooledIsFull(s, p, outMps, cbw, w);
      }
    }
  }

  /** An answer that is short by whole units of at least two packets is noticed, if the device does not fill it up. */
  lemma WholeUnitsAreNoticed(dev: Device, answer: seq<byte>, length: nat, unit: nat)
    requires dev.packetSize > 0 && unit > dev.packetSize && unit % dev.packetSize == 0
    requires |answer| % unit == 0 && length % unit == 0 && |answer| < length
    requires dev.verdict.Acts? && dev.verdict.shortfall != Pads
    ensures !Unnoticed(dev, answer, Count(length, dev.packetSize))
  {
    var ps := dev.packetSize;
    var u, a, n := unit / ps, |answer| / unit, length / unit;
    assert unit == ps * u && |answer| == unit * a && length == unit * n;
    assert u >= 2 by {
      if u < 2 {
        MulMonotone(u, 1, ps);
      }
    }
    LessByFactor(unit, a, n);
    UnitsInPackets(ps, u, a, |answer|);
    UnitsInPackets(ps, u, n, length);
    MulMonotone(a + 1, n, u);
    assert u * (a + 1) == u * a + u;
  }

  lemma UnitsInPackets(ps: nat, u: nat, k: nat, size: nat)
    requires ps > 0 && size == ps * u * k
    ensures size / ps == u * k && size % ps == 0
  {
    assert size == ps * (u * k);
    QuotientOf(ps, u * k);
  }

  lemma QuotientOf(ps: nat, q: nat)
    requires ps > 0
    ensures ps * q / ps == q && ps * q % ps == 0
  {
    ModUnique(ps * q, ps, q, 0);
  }
}
