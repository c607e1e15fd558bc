/** What one command leaves behind for the next. The driver resets nothing and every wrapper carries the same tag, so a
    device that still has an answer to send may send it to another command. */
module Aftermath {
  import opened Bytes
  import opened BulkDevice
  import opened Uhci
  import opened TransferRuns
  import opened BulkRuns
  import opened PacketStreams
  import opened BulkOnly

  // ---------------------------------------------------------------------------
  // Commands to a device in any state
  // ---------------------------------------------------------------------------

  ghost predicate WritesFrom(t: Transfer, mps: nat, dev: Device, ram: seq<byte>) {
    && Tiled(t, mps) && t.pid == OutPid && t.toggle < 2
    && t.address == dev.address && t.endpoint == dev.outEndpoint
    && t.buffer + Length(t) <= |ram|
  }

  /** The two transfers from the device, the toggles running on from the first to the second. */
  ghost predicate Reads(s: Sys, p: Plan) {
    && ReadsInto(p.data, s.dev, s.ram) && ReadsInto(p.status, s.dev, s.ram)
    && p.status.toggle == ToggleAt(p.data.toggle, |p.data.list|) && Length(p.status) == CSW_LENGTH
    && (p.status.buffer + CSW_LENGTH <= p.data.buffer || p.data.buffer + Length(p.data) <= p.status.buffer)
    && s.dev.inToggle < 2
  }

  /** The three lists of a command as the driver builds them, whatever the device is doing. */
  ghost predicate Prepared(s: Sys, p: Plan, outMps: nat, cbw: seq<byte>) {
    && WritesFrom(p.out, outMps, s.dev, s.ram) && |cbw| == CBW_LENGTH == Length(p.out)
    && s.ram[p.out.buffer..p.out.buffer + CBW_LENGTH] == cbw
    && Reads(s, p) && Length(p.data) == LE32(cbw[8..12]) && s.dev.outToggle < 2
  }

  /** A planned conversation is one prepared for a device that waits for a command, in step on both endpoints. */
  lemma PlannedIsInStep(s: Sys, p: Plan, outMps: nat, cbw: seq<byte>)
    ensures Planned(s, p, outMps, cbw) <==>
      && Prepared(s, p, outMps, cbw) && s.dev.phase == Idle([])
      && p.out.toggle == s.dev.outToggle && p.data.toggle == s.dev.inToggle
  {
    hide Execute, Tiled, LE32;
  }

  /** One command: the state with its wrapper in memory, its three lists, and what the bus does. */
  datatype Talk = Talk(start: Sys, plan: Plan, cbw: seq<byte>, weather: Weather)

  // ---------------------------------------------------------------------------
  // A wrapper for a device that has something to send
  // ---------------------------------------------------------------------------

  /** How many packets such a device acknowledges: one with the wrong toggle, which it takes for a repeat and drops. */
  function Dropped(t: Transfer, dev: Device): nat {
    if t.toggle == dev.outToggle then 0 else 1
  }

  lemma BusyVisit(t: Transfer, mps: nat, s: Sys, k: nat, f: Fault)
    requires WritesFrom(t, mps, s.dev, s.ram) && s.dev.outToggle < 2 && Offers(s.dev.phase) && k < |t.list|
    requires k <= Dropped(t, s.dev)
    ensures var e := Exchange(s.dev, s.ram, t.list[k], f);
      && (e.Stays? ==> e.dev == s.dev)
      && (e.Retires? ==> k < Dropped(t, s.dev) && e.dev == s.dev && e.ram == s.ram && e.bytes == PacketSize(t, k))
      && (f.Clear? && k < Dropped(t, s.dev) ==> e.Retires?) && (e.Fails? ==> f.GivesUp?)
  {
    hide Exchange, AcceptOut;
    assert Tile(t, mps, k);
    CutsAt(t, mps, k + 1);
    OutExchange(s.dev, s.ram, t.list[k], f);
    BusyReply(s.dev, t.list[k].toggle, s.ram[t.list[k].buffer..t.list[k].buffer + FieldBytes(t.list[k].maxLength)]);
  }

  lemma BusyReply(dev: Device, toggle: nat, data: seq<byte>)
    requires Offers(dev.phase)
    ensures AcceptOut(dev, toggle, data) == if toggle != dev.outToggle then Ack(dev) else OutNak
  {
  }

  lemma {:induction false} BusyRun(t: Transfer, mps: nat, s: Sys, k: nat, failed: bool, fs: seq<Fault>)
      returns (k': nat, failed': bool)
    requires WritesFrom(t, mps, s.dev, s.ram) && s.dev.outToggle < 2 && Offers(s.dev.phase)
    requires k <= Dropped(t, s.dev)
    requires Progress(t.base, t.list, s, k, failed) && Lengths(t, s.tds, Sizes(t, mps, k))
    ensures k <= k' <= Dropped(t, s.dev)
    ensures Progress(t.base, t.list, Run(s, fs), k', failed') && Lengths(t, Run(s, fs).tds, Sizes(t, mps, k'))
    ensures Run(s, fs).dev == s.dev && Run(s, fs).ram == s.ram
    ensures AllClear(fs) && !failed ==> !failed' && (fs != [] ==> k' == Dropped(t, s.dev))
    decreases |fs|
  {
    hide Exchange, HcStep, Lengths, Tiled, LinkWord;
    TiledIsLinked(t, mps);
    if fs == [] {
      k', failed' := k, failed;
    } else {
      ProgressStep(t.base, t.list, s, k, failed, fs[0]);
      Visit(t.base, t.list, s, k, failed, fs[0]);
      var k1, failed1 := NextDone(t.list, s, k, failed, fs[0]), NextFailed(t.list, s, k, failed, fs[0]);
      if !failed && k < |t.list| {
        BusyVisit(t, mps, s, k, fs[0]);
        LengthsGrow(t, s, k, Exchange(s.dev, s.ram, t.list[k], fs[0]), Sizes(t, mps, k));
      }
      k', failed' := BusyRun(t, mps, HcStep(s, fs[0]), k1, failed1, fs[1..]);
    }
  }

  /** What a transfer to such a device comes to: it leaves device and memory alone, and retires no more descriptors than
      the device drops. */
  lemma BusyTransfer(s: Sys, t: Transfer, mps: nat, fs: seq<Fault>) returns (k: nat, failed: bool)
    requires WritesFrom(t, mps, s.dev, s.ram) && s.dev.outToggle < 2 && Offers(s.dev.phase)
    ensures Perform(s, t, fs).dev == s.dev && Perform(s, t, fs).ram == s.ram
    ensures k <= Dropped(t, s.dev) && |t.list| > 0
    ensures LastDone(Perform(s, t, fs), t) <==> k == |t.list| || (failed && k == |t.list| - 1)
    ensures Errored(Perform(s, t, fs), t) <==> failed && k == |t.list| - 1
    ensures AllClear(fs) ==> !failed && (fs != [] ==> k == Dropped(t, s.dev))
    ensures Accepted(Perform(s, t, fs), t) <==>
      LastDone(Perform(s, t, fs), t) && (k == 0 ==> FirstLength(Perform(s, t, fs), t) != NO_DATA)
  {
    hide Run, HcStep, Publish, Tiled, PointsAt, Standing, LinkWord;
    var s0 := Publish(s, t.base, t.list);
    TiledIsLinked(t, mps);
    PublishedProgress(t.base, t.list, s);
    PublishKeeps(s, t);
    k, failed := BusyRun(t, mps, s0, 0, false, fs);
    LastSeen(t, mps, Run(s0, fs), k, failed);
    if k > 0 {
      FirstSize(t, mps, k);
      assert Run(s0, fs).tds[Addr(t.base, 0)].actualLength == LengthField(Sizes(t, mps, k)[0]);
    }
  }

  /** What the first descriptor's length field holds. */
  function FirstLength(s: Sys, t: Transfer): nat {
    if Addr(t.base, 0) in s.tds then s.tds[Addr(t.base, 0)].actualLength else NO_DATA
  }

  lemma PublishKeeps(s: Sys, t: Transfer)
    ensures Publish(s, t.base, t.list).dev == s.dev && Publish(s, t.base, t.list).ram == s.ram
  {
  }

  /** The controller gives up on the next descriptor. */
  lemma GivesUpNow(t: Transfer, s: Sys, k: nat)
    requires Linked(t.base, t.list) && Progress(t.base, t.list, s, k, false) && k < |t.list|
    ensures HcStep(s, GivesUp(0)) ==
        s.(tds := s.tds[Addr(t.base, k) := t.list[k].(active := false, errored := true, actualLength := 0)])
  {
    Visit(t.base, t.list, s, k, false, GivesUp(0));
  }

  lemma BusyGivenUp(s: Sys, t: Transfer, mps: nat) returns (fs: seq<Fault>)
    requires WritesFrom(t, mps, s.dev, s.ram) && s.dev.outToggle < 2 && Offers(s.dev.phase)
    requires |t.list| == 1 + Dropped(t, s.dev)
    ensures Accepted(Perform(s, t, fs), t)
  {
    hide HcStep, Publish, Tiled, PointsAt, Standing, LinkWord;
    var s0, n := Publish(s, t.base, t.list), |t.list|;
    TiledIsLinked(t, mps);
    PublishedProgress(t.base, t.list, s);
    PublishKeeps(s, t);
    fs := Clears(n - 1) + [GivesUp(0)];
    var k, failed := BusyRun(t, mps, s0, 0, false, Clears(n - 1));
    var m := Run(s0, Clears(n - 1));
    RunConcat(s0, Clears(n - 1), [GivesUp(0)]);
    assert Run(m, [GivesUp(0)]) == HcStep(m, GivesUp(0));
    GivesUpNow(t, m, k);
    if k > 0 {
      FirstSize(t, mps, k);
      assert m.tds[Addr(t.base, 0)].actualLength == LengthField(Sizes(t, mps, k)[0]);
    }
  }

  /** Against a device that still has something to send, a wrapper can pass the driver's checks in some run exactly when
      it is at most one packet longer than what the device drops, and without an error bit exactly when it is a single
      packet that the device takes for a repeat. */
  lemma WrapperPassesExactly(s: Sys, t: Transfer, mps: nat)
    requires WritesFrom(t, mps, s.dev, s.ram) && s.dev.outToggle < 2 && Offers(s.dev.phase)
    ensures (exists fs :: Accepted(Perform(s, t, fs), t)) <==> |t.list| <= 1 + Dropped(t, s.dev)
    ensures (exists fs :: Accepted(Perform(s, t, fs), t) && !Errored(Perform(s, t, fs), t))
       <==> |t.list| == 1 == Dropped(t, s.dev)
    ensures forall fs :: Perform(s, t, fs).dev == s.dev && Perform(s, t, fs).ram == s.ram
  {
    hide Perform, Accepted, Errored, WritesFrom, LastDone;
    forall fs ensures Perform(s, t, fs).dev == s.dev && Perform(s, t, fs).ram == s.ram
      ensures |t.list| > 0 && (Accepted(Perform(s, t, fs), t) ==> |t.list| <= 1 + Dropped(t, s.dev))
      ensures Accepted(Perform(s, t, fs), t) && !Errored(Perform(s, t, fs), t) ==> |t.list| == 1 == Dropped(t, s.dev) {
      var k, failed := BusyTransfer(s, t, mps, fs);
    }
    var k, failed := BusyTransfer(s, t, mps, [Clear]);
    if |t.list| == 1 + Dropped(t, s.dev) {
      var fs := BusyGivenUp(s, t, mps);
    } else if |t.list| == 1 {
      assert Accepted(Perform(s, t, [Clear]), t) && !Errored(Perform(s, t, [Clear]), t);
    }
  }

  // ---------------------------------------------------------------------------
  // An answer nobody has read
  // ---------------------------------------------------------------------------

  /** What the device has to send, as the next command meets it. */
  function Leftover(s: Sys): Stream {
    Stream(s.dev, s.ram)
  }

  /** The packet the data transfer expects: the second one if its toggle takes the first for a repeat. */
  function Lag(p: Plan, dev: Device): nat {
    if p.data.toggle == dev.inToggle then 0 else 1
  }

  lemma LeftoverAwaited(s: Sys, p: Plan)
    requires Reads(s, p)
    ensures Awaits(p.data, Leftover(s), Lag(p, s.dev)) && p.status.pid == InPid
    ensures |p.data.list| > 0 && |p.data.cuts| == |p.data.list| + 1
    ensures |p.status.list| > 0 && |p.status.cuts| == |p.status.list| + 1 && s.dev.packetSize > 0
    ensures p.status.buffer + CSW_LENGTH <= |s.ram|
  {
    assert Tile(p.data, s.dev.packetSize, 0);
  }

  /** The device has packets for both transfers, and each fits the descriptor it falls to. */
  ghost predicate TakesUp(s: Sys, p: Plan)
    requires Reads(s, p)
  {
    LeftoverAwaited(s, p);
    var r, b, n := Leftover(s), Lag(p, s.dev), |p.data.list|;
    && (b == 1 ==> |PacketAt(r, 0)| <= PacketSize(p.data, 0))
    && Placed(p.data, r, b, n) && PacketAt(r, b) != []
    && Placed(p.status, r, b + n, |p.status.list|) && PacketAt(r, b + n) != []
  }

  /** The device and memory as the status transfer then meets them. */
  ghost function Rest(s: Sys, p: Plan): (r: Stream)
    requires Reads(s, p) && TakesUp(s, p)
    ensures r.dev == s.dev && |r.ram| == |s.ram|
  {
    LeftoverAwaited(s, p);
    Stream(s.dev, Splice(Laid(p.data, Leftover(s), Lag(p, s.dev), |p.data.list|), p.status.buffer, Zeros(CSW_LENGTH)))
  }

  lemma RestAwaited(s: Sys, p: Plan)
    requires Reads(s, p) && TakesUp(s, p)
    ensures var b := Lag(p, s.dev) + |p.data.list|;
      && Awaits(p.status, Rest(s, p), b) && |p.status.cuts| == |p.status.list| + 1
      && Placed(p.status, Rest(s, p), b, |p.status.list|) && PacketAt(Rest(s, p), b) == PacketAt(Leftover(s), b) != []
  {
    hide Tiled, Ahead, Laid;
    LeftoverAwaited(s, p);
    ToggleShift(s.dev.inToggle, Lag(p, s.dev), |p.data.list|);
    SameStream(p.status, Leftover(s), Rest(s, p), Lag(p, s.dev) + |p.data.list|, |p.status.list|);
  }

  lemma SameDue(r: Stream, r': Stream, i: nat)
    requires r.dev == r'.dev
    ensures Due(r, i) == Due(r', i)
  {
  }

  /** What a device sends does not depend on memory. */
  lemma SameStream(t: Transfer, r: Stream, r': Stream, b: nat, k: nat)
    requires r.dev == r'.dev && |t.cuts| == |t.list| + 1 && k <= |t.list| && Placed(t, r, b, k)
    ensures Placed(t, r', b, k) && PacketAt(r', b) == PacketAt(r, b)
  {
    hide Ahead;
    forall i | 0 <= i < k ensures Fits(t, r', b, i) {
      assert Fits(t, r, b, i);
    }
  }

  /** Memory when both transfers have taken up what the device had to send. */
  ghost function TakenUp(s: Sys, p: Plan): (ram: seq<byte>)
    requires Reads(s, p) && TakesUp(s, p)
    ensures |ram| == |s.ram|
  {
    RestAwaited(s, p);
    Laid(p.status, Rest(s, p), Lag(p, s.dev) + |p.data.list|, |p.status.list|)
  }

  /** No error bit is set on any of the last descriptors. */
  ghost predicate Unmarked(s: Sys, p: Plan, w: Weather) {
    !Errored(AfterCommand(s, p, w), p.out) && Clean(s, p, w)
  }

  lemma BusyCommand(s: Sys, p: Plan, outMps: nat, cbw: seq<byte>, w: Weather)
    requires Prepared(s, p, outMps, cbw) && Offers(s.dev.phase)
    ensures AfterCommand(s, p, w).dev == s.dev && AfterCommand(s, p, w).ram == s.ram
    ensures Begins(p.data, Leftover(s), Lag(p, s.dev), AfterCommand(s, p, w), 0)
  {
    hide Perform, Tiled, WritesFrom;
    LeftoverAwaited(s, p);
    BusyOut(s, p, outMps, cbw, w);
    assert ToggleAt(s.dev.inToggle, 0) == s.dev.inToggle;
  }

  lemma BusyOut(s: Sys, p: Plan, outMps: nat, cbw: seq<byte>, w: Weather)
    requires Prepared(s, p, outMps, cbw) && Offers(s.dev.phase)
    ensures AfterCommand(s, p, w).dev == s.dev && AfterCommand(s, p, w).ram == s.ram
    ensures Accepted(AfterCommand(s, p, w), p.out) ==> |p.out.list| <= 1 + Dropped(p.out, s.dev)
    ensures Accepted(AfterCommand(s, p, w), p.out) && !Errored(AfterCommand(s, p, w), p.out) ==>
      |p.out.list| == 1 == Dropped(p.out, s.dev)
    ensures |p.out.list| == 1 == Dropped(p.out, s.dev) && w.out == [Clear] ==>
      Accepted(AfterCommand(s, p, w), p.out) && !Errored(AfterCommand(s, p, w), p.out)
  {
    hide Perform, Tiled, WritesFrom, Reads, Accepted, LastDone, Errored;
    var k, failed := BusyTransfer(s, p.out, outMps, w.out);
    assert Accepted(AfterCommand(s, p, w), p.out) ==> LastDone(AfterCommand(s, p, w), p.out) by {
      AcceptedIsDone(AfterCommand(s, p, w), p.out);
    }
  }

  /** Without an error bit, the data transfer takes one packet of the leftover for each descriptor. */
  lemma LeftoverTaken(s: Sys, p: Plan, outMps: nat, cbw: seq<byte>, w: Weather) returns (d: nat)
    requires Prepared(s, p, outMps, cbw) && Offers(s.dev.phase)
    requires Accepted(AfterData(s, p, w), p.data) && !Errored(AfterData(s, p, w), p.data)
    ensures |p.data.cuts| == |p.data.list| + 1 > 1 && Awaits(p.data, Leftover(s), Lag(p, s.dev))
    ensures var r, b := Leftover(s), Lag(p, s.dev);
      && Following(p.data, r, b, AfterData(s, p, w), |p.data.list|, d) && PacketAt(r, b) != []
      && (b == 1 ==> |PacketAt(r, 0)| <= PacketSize(p.data, 0))
  {
    hide Perform, Following, Begins, Prepared, PacketAt, LastDone, Errored, Awaits;
    PreparedReads(s, p, outMps, cbw);
    LeftoverAwaited(s, p);
    BusyCommand(s, p, outMps, cbw, w);
    AcceptedIsDone(AfterData(s, p, w), p.data);
    var r, b, k, failed := Leftover(s), Lag(p, s.dev), 0, false;
    k, d, failed := TransferFollows(p.data, r, b, AfterCommand(s, p, w), 0, w.data);
    if b == 1 && |PacketAt(r, 0)| > PacketSize(p.data, 0) {
      LongIsRefused(s, p);
      RefusedTransfer(AfterCommand(s, p, w), p.data, s.dev.packetSize, w.data);
    }
  }

  lemma PreparedReads(s: Sys, p: Plan, outMps: nat, cbw: seq<byte>)
    requires Prepared(s, p, outMps, cbw)
    ensures Reads(s, p)
  {
  }

  lemma LongIsRefused(s: Sys, p: Plan)
    requires Reads(s, p) && Offers(s.dev.phase) && |p.data.cuts| > 1
    requires |PacketAt(Leftover(s), 0)| > PacketSize(p.data, 0)
    ensures p.data.list != [] && Refused(p.data.list[0], s.dev)
    ensures Tiled(p.data, s.dev.packetSize) && p.data.pid == InPid
  {
    assert Tile(p.data, s.dev.packetSize, 0);
  }

  /** The status transfer as it begins when the data transfer has taken `n` packets and the device knows of `d`. */
  lemma RestBegins(s: Sys, p: Plan, w: Weather, d: nat)
    requires Reads(s, p) && |p.data.cuts| == |p.data.list| + 1 && Awaits(p.data, Leftover(s), Lag(p, s.dev))
    requires Following(p.data, Leftover(s), Lag(p, s.dev), AfterData(s, p, w), |p.data.list|, d)
    ensures var r := Stream(s.dev, BeforeStatus(s, p, w).ram);
      && Begins(p.status, r, Lag(p, s.dev) + |p.data.list|, BeforeStatus(s, p, w), d)
      && r.ram == Splice(Laid(p.data, Leftover(s), Lag(p, s.dev), |p.data.list|), p.status.buffer, Zeros(CSW_LENGTH))
  {
    hide Perform, Tiled, Ahead, Laid, Lengths, PacketLengths, Placed;
    LeftoverAwaited(s, p);
    ToggleShift(s.dev.inToggle, Lag(p, s.dev), |p.data.list|);
  }

  /** A command that succeeds without an error bit has taken up what the device had left to send. */
  lemma SuccessTakesUp(s: Sys, p: Plan, outMps: nat, cbw: seq<byte>, w: Weather)
    requires Prepared(s, p, outMps, cbw) && Offers(s.dev.phase) && Succeeds(s, p, w) && Unmarked(s, p, w)
    ensures |p.out.list| == 1 == Dropped(p.out, s.dev)
    ensures Reads(s, p) && TakesUp(s, p)
    ensures AfterStatus(s, p, w).ram == TakenUp(s, p) && Vouches(TakenUp(s, p), p.status.buffer)
  {
    hide Perform, Following, Begins, Prepared, PacketAt, LastDone, Errored, Awaits, Accepted, Vouches, Reads, Laid,
      Splice, BeforeStatus, Placed;
    PreparedReads(s, p, outMps, cbw);
    BusyOut(s, p, outMps, cbw, w);
    LeftoverAwaited(s, p);
    var d := LeftoverTaken(s, p, outMps, cbw, w);
    RestBegins(s, p, w, d);
    var r, b := Stream(s.dev, BeforeStatus(s, p, w).ram), Lag(p, s.dev) + |p.data.list|;
    AcceptedIsDone(AfterStatus(s, p, w), p.status);
    var k, d', failed := TransferFollows(p.status, r, b, BeforeStatus(s, p, w), d, w.status);
    FollowingIsPlaced(p.data, Leftover(s), Lag(p, s.dev), AfterData(s, p, w), d);
    FollowingIsPlaced(p.status, r, b, AfterStatus(s, p, w), d');
    SameStream(p.status, r, Leftover(s), b, |p.status.list|);
  }

  lemma FollowingIsPlaced(t: Transfer, r: Stream, b: nat, s: Sys, d: nat)
    requires Following(t, r, b, s, |t.list|, d)
    ensures Awaits(t, r, b) && |t.cuts| == |t.list| + 1 && Placed(t, r, b, |t.list|) && s.ram == Laid(t, r, b, |t.list|)
  {
  }

  /** The run without faults in which the next command takes it up. */
  function TakingUp(p: Plan, dev: Device): (w: Weather)
    ensures AllClear(w.out) && AllClear(w.data) && AllClear(w.status)
  {
    Weather([Clear], (if Lag(p, dev) == 1 then [Clear] else []) + Clears(|p.data.list|), Clears(|p.status.list|))
  }

  lemma DataTakenUp(s: Sys, p: Plan, outMps: nat, cbw: seq<byte>, w: Weather)
    requires Prepared(s, p, outMps, cbw) && Offers(s.dev.phase) && Reads(s, p) && TakesUp(s, p)
    requires w == TakingUp(p, s.dev)
    ensures var r, b, n := Leftover(s), Lag(p, s.dev), |p.data.list|;
      Following(p.data, r, b, AfterData(s, p, w), n, b + n) && Seen(p.data, r, b, AfterData(s, p, w), n, false)
  {
    hide Perform, Following, Begins, Prepared, PacketAt, Seen, Awaits, Reads, Placed;
    PreparedReads(s, p, outMps, cbw);
    BusyCommand(s, p, outMps, cbw, w);
    LeftoverAwaited(s, p);
    var r, b, n := Leftover(s), Lag(p, s.dev), |p.data.list|;
    DueNow(r);
    if b == 1 {
      LateTransfer(p.data, r, b, AfterCommand(s, p, w));
    } else {
      assert [] + Clears(n) == Clears(n);
      var k := ClearTransfer(p.data, r, b, AfterCommand(s, p, w), w.data);
    }
  }

  lemma TakesUpSucceeds(s: Sys, p: Plan, outMps: nat, cbw: seq<byte>, w: Weather)
    requires Prepared(s, p, outMps, cbw) && Offers(s.dev.phase) && Reads(s, p) && TakesUp(s, p)
    requires |p.out.list| == 1 == Dropped(p.out, s.dev) && w == TakingUp(p, s.dev)
    ensures Completed(s, p, w) && Unmarked(s, p, w) && AfterStatus(s, p, w).ram == TakenUp(s, p)
  {
    hide Perform, Following, Begins, Prepared, PacketAt, LastDone, Errored, Awaits, Accepted, Reads, Laid, Splice,
      BeforeStatus, Placed;
    BusyOut(s, p, outMps, cbw, w);
    LeftoverAwaited(s, p);
    RestAwaited(s, p);
    DataTakenUp(s, p, outMps, cbw, w);
    RestBegins(s, p, w, Lag(p, s.dev) + |p.data.list|);
    var r, b := Rest(s, p), Lag(p, s.dev) + |p.data.list|;
    var k := ClearTransfer(p.status, r, b, BeforeStatus(s, p, w), w.status);
    FollowingIsPlaced(p.status, r, b, AfterStatus(s, p, w), b + k);
  }

  /** Exactly when the next command after one that failed can succeed without an error bit, while the device still has
      something to send: its wrapper is a single packet that the device takes for a repeat, every descriptor of its two
      transfers gets a packet of the leftover that fits, and what reaches the status memory passes for a good status.
      The command itself plays no part. */
  lemma LeftoverSucceedsExactly(s: Sys, p: Plan, outMps: nat, cbw: seq<byte>)
    requires Prepared(s, p, outMps, cbw) && Offers(s.dev.phase)
    ensures Reads(s, p)
    ensures (exists w :: Succeeds(s, p, w) && Unmarked(s, p, w)) <==>
      && |p.out.list| == 1 && p.out.toggle != s.dev.outToggle
      && TakesUp(s, p) && Vouches(TakenUp(s, p), p.status.buffer)
    ensures (exists w :: Succeeds(s, p, w) && Unmarked(s, p, w)) ==>
      Succeeds(s, p, TakingUp(p, s.dev)) && Unmarked(s, p, TakingUp(p, s.dev))
    ensures forall w :: Succeeds(s, p, w) && Unmarked(s, p, w) ==> AfterStatus(s, p, w).ram == TakenUp(s, p)
  {
    hide Succeeds, Unmarked, Prepared, TakesUp, Vouches, AfterStatus, Reads;
    PreparedReads(s, p, outMps, cbw);
    forall w | Succeeds(s, p, w) && Unmarked(s, p, w)
      ensures |p.out.list| == 1 == Dropped(p.out, s.dev) && TakesUp(s, p)
      ensures AfterStatus(s, p, w).ram == TakenUp(s, p) && Vouches(TakenUp(s, p), p.status.buffer) {
      SuccessTakesUp(s, p, outMps, cbw, w);
    }
    if |p.out.list| == 1 == Dropped(p.out, s.dev) && TakesUp(s, p) && Vouches(TakenUp(s, p), p.status.buffer) {
      TakesUpSucceeds(s, p, outMps, cbw, TakingUp(p, s.dev));
      CompletedSucceeds(s, p, TakingUp(p, s.dev));
    }
  }

  lemma CompletedSucceeds(s: Sys, p: Plan, w: Weather)
    requires Completed(s, p, w)
    ensures Succeeds(s, p, w) <==> Vouches(AfterStatus(s, p, w).ram, p.status.buffer)
  {
  }

  // ---------------------------------------------------------------------------
  // The whole answer of another command
  // ---------------------------------------------------------------------------

  /** Packets of an answer that is no longer than what is asked for. */
  lemma AnswerFitsList(t: Transfer, mps: nat, data: seq<byte>)
    requires Tiled(t, mps) && 0 < |data| <= Length(t)
    ensures mps > 0 && 0 < Count(|data|, mps) <= |t.list|
  {
    LengthIsBounded(t, mps);
    SomePacket(|data|, mps);
    PacketsTile(|data|, mps, Count(|data|, mps) - 1);
    LessByFactor(mps, Count(|data|, mps) - 1, |t.list|);
  }

  lemma AnswerPacket(t: Transfer, mps: nat, data: seq<byte>, k: nat) returns (to: nat)
    requires Tiled(t, mps) && 0 < |data| <= Length(t) && mps > 0 && k < Count(|data|, mps)
    ensures k < |t.list| && t.cuts[k] == Covered(|data|, mps, k) < to == Covered(|data|, mps, k + 1) <= |data|
    ensures to - t.cuts[k] <= PacketSize(t, k) && to - t.cuts[k] <= mps && (to < |data| ==> to - t.cuts[k] == mps)
    ensures to == |data| <==> k + 1 == Count(|data|, mps)
  {
    AnswerFitsList(t, mps, data);
    PacketsTile(|data|, mps, k);
    if k + 1 < Count(|data|, mps) {
      PacketsTile(|data|, mps, k + 1);
    }
    CutsAt(t, mps, k);
    assert Tile(t, mps, k);
    to := Covered(|data|, mps, k + 1);
  }

  /** Such an answer as the device sends it, whoever takes it. */
  lemma {:induction false} AnswerSends(t: Transfer, r: Stream, b: nat, data: seq<byte>, next: Phase, k: nat)
    requires Tiled(t, r.dev.packetSize) && Due(r, b) == Sending(data, next) && 0 < |data| <= Length(t)
    requires r.dev.packetSize > 0 && k <= Count(|data|, r.dev.packetSize)
    ensures var ps := r.dev.packetSize;
      && k <= Count(|data|, ps) <= |t.list| && Covered(|data|, ps, k) <= |data|
      && Due(r, b + k) ==
           (if k == Count(|data|, ps) then next else Sending(data[Covered(|data|, ps, k)..], next))
      && (k < Count(|data|, ps) ==>
            Covered(|data|, ps, k) < Covered(|data|, ps, k + 1) <= |data|
            && PacketAt(r, b + k) == data[Covered(|data|, ps, k)..Covered(|data|, ps, k + 1)])
    decreases k
  {
    hide Ahead, Covered, Count, Offered, AfterPacket;
    var ps := r.dev.packetSize;
    AnswerFitsList(t, ps, data);
    if k == 0 {
      assert data[0..] == data;
      CoveredNone(|data|, ps);
    } else {
      AnswerSends(t, r, b, data, next, k - 1);
      var to := AnswerPacket(t, ps, data, k - 1);
      SendsSlice(data, next, ps, t.cuts[k - 1], to);
      DueNext(r, b + k - 1);
    }
    if k < Count(|data|, ps) {
      var to := AnswerPacket(t, ps, data, k);
      SendsSlice(data, next, ps, t.cuts[k], to);
    }
  }

  /** Its packets fit the descriptors, and are stored one after the other. */
  lemma {:induction false} AnswerAlong(t: Transfer, r: Stream, b: nat, data: seq<byte>, next: Phase, k: nat)
    requires Awaits(t, r, b) && Due(r, b) == Sending(data, next) && 0 < |data| <= Length(t) && r.dev.packetSize > 0
    requires k <= Count(|data|, r.dev.packetSize)
    ensures var ps := r.dev.packetSize;
      && k <= |t.list| && Covered(|data|, ps, k) <= |data|
      && Placed(t, r, b, k) && Laid(t, r, b, k) == Splice(r.ram, t.buffer, data[..Covered(|data|, ps, k)])
    decreases k
  {
    hide Laid, Placed, Splice, Due, Covered, Count, PacketAt;
    var ps := r.dev.packetSize;
    AnswerSends(t, r, b, data, next, k);
    if k == 0 {
      assert data[..0] == [];
      NothingLaid(t, r, b);
      CoveredNone(|data|, ps);
    } else {
      AnswerAlong(t, r, b, data, next, k - 1);
      AnswerSends(t, r, b, data, next, k - 1);
      var to := AnswerPacket(t, ps, data, k - 1);
      TakesPacket(t, r, b, k - 1, data, t.cuts[k - 1], to);
    }
  }

  lemma CoveredNone(length: nat, mps: nat)
    requires length > 0 && mps > 0
    ensures Covered(length, mps, 0) == 0 < Count(length, mps)
  {
    SomePacket(length, mps);
    assert mps * 0 == 0;
  }

  /** The device still has an answer, or the end of one, and its status to send. */
  predicate Unread(dev: Device, data: seq<byte>, csw: seq<byte>) {
    && dev.phase == Sending(data, Sending(csw, Idle([]))) && data != []
    && |csw| == CSW_LENGTH && LE32(csw[..4]) == CSW_SIGNATURE
  }

  /** Where the stream of such a device is after the data, and where it ends. */
  lemma UnreadStream(s: Sys, p: Plan, data: seq<byte>, csw: seq<byte>)
    requires Reads(s, p) && Unread(s.dev, data, csw) && |data| <= Length(p.data)
    ensures s.dev.packetSize > 0
    ensures var r, m := Leftover(s), Count(|data|, s.dev.packetSize);
      m <= |p.data.list| && Due(r, m) == Sending(csw, Idle([])) && Due(r, m + |p.status.list|) == Idle([])
    ensures Lag(p, s.dev) == 0 ==>
      var r, m := Leftover(s), Count(|data|, s.dev.packetSize);
      && |p.data.cuts| == |p.data.list| + 1 && Awaits(p.data, r, 0)
      && Placed(p.data, r, 0, m) && Laid(p.data, r, 0, m) == Splice(s.ram, p.data.buffer, data) && PacketAt(r, 0) != []
  {
    hide Laid, Placed, Splice, Ahead, Count, PacketAt, Reads;
    LeftoverAwaited(s, p);
    var r, ps := Leftover(s), s.dev.packetSize;
    var m := Count(|data|, ps);
    DueNow(r);
    UnreadEnds(s, p, data, csw, m);
    if Lag(p, s.dev) == 0 {
      CoveredNone(|data|, ps);
      AnswerAlong(p.data, r, 0, data, Sending(csw, Idle([])), 0);
      AnswerAlong(p.data, r, 0, data, Sending(csw, Idle([])), m);
      assert data[..Covered(|data|, ps, m)] == data;
    }
  }

  lemma UnreadEnds(s: Sys, p: Plan, data: seq<byte>, csw: seq<byte>, m: nat)
    requires Reads(s, p) && Unread(s.dev, data, csw) && |data| <= Length(p.data) && s.dev.packetSize > 0
    requires m == Count(|data|, s.dev.packetSize)
    ensures m <= |p.data.list| && Due(Leftover(s), m) == Sending(csw, Idle([]))
    ensures Due(Leftover(s), m + |p.status.list|) == Idle([]) && PacketAt(Leftover(s), 0) != []
  {
    hide Due, Count, Covered, PacketAt;
    DueNow(Leftover(s));
    CoveredNone(|data|, s.dev.packetSize);
    AnswerSends(p.data, Leftover(s), 0, data, Sending(csw, Idle([])), 0);
    AnswerSends(p.data, Leftover(s), 0, data, Sending(csw, Idle([])), m);
    SendingEnds(p.status, Leftover(s), csw, Idle([]), m, |p.status.list|);
  }

  /** If it is taken up at all, then from its first packet on, and by just as many descriptors. */
  lemma TakesUpInStep(s: Sys, p: Plan, data: seq<byte>, csw: seq<byte>)
    requires Reads(s, p) && Unread(s.dev, data, csw) && |data| <= Length(p.data) && TakesUp(s, p)
    ensures s.dev.packetSize > 0 && Lag(p, s.dev) == 0 && Count(|data|, s.dev.packetSize) == |p.data.list|
  {
    hide Due, Count, PacketAt, Reads;
    LeftoverAwaited(s, p);
    UnreadStream(s, p, data, csw);
    var r, m, last := Leftover(s), Count(|data|, s.dev.packetSize), Lag(p, s.dev) + |p.data.list| + |p.status.list| - 1;
    assert Fits(p.status, r, Lag(p, s.dev) + |p.data.list|, |p.status.list| - 1);
    if m + |p.status.list| <= last {
      DueStays(r, m + |p.status.list|, last);
    }
  }

  /** Then data and status end up where the driver looks for those of its own command. */
  lemma UnreadTakesUp(s: Sys, p: Plan, data: seq<byte>, csw: seq<byte>)
    requires Reads(s, p) && Unread(s.dev, data, csw) && |data| <= Length(p.data) && s.dev.packetSize > 0
    requires Lag(p, s.dev) == 0 && Count(|data|, s.dev.packetSize) == |p.data.list|
    ensures TakesUp(s, p) && p.data.buffer + |data| <= |s.ram| && p.status.buffer + CSW_LENGTH <= |s.ram|
    ensures TakenUp(s, p) ==
        Splice(Splice(Splice(s.ram, p.data.buffer, data), p.status.buffer, Zeros(CSW_LENGTH)), p.status.buffer, csw)
  {
    hide Due, Count, PacketAt, Laid, Placed, Splice, Tiled;
    LeftoverAwaited(s, p);
    UnreadStream(s, p, data, csw);
    var r, n := Leftover(s), |p.data.list|;
    StatusOfUnread(s, p, r, csw);
    RestAwaited(s, p);
    SameDue(r, Rest(s, p), n);
    StatusOfUnread(s, p, Rest(s, p), csw);
  }

  lemma StatusOfUnread(s: Sys, p: Plan, r: Stream, csw: seq<byte>)
    requires Reads(s, p) && r.dev == s.dev && |r.ram| == |s.ram| && Lag(p, s.dev) == 0
    requires Due(r, |p.data.list|) == Sending(csw, Idle([])) && |csw| == CSW_LENGTH
    ensures |p.status.list| > 0 && |p.status.cuts| == |p.status.list| + 1 && Awaits(p.status, r, |p.data.list|)
    ensures Placed(p.status, r, |p.data.list|, |p.status.list|) && PacketAt(r, |p.data.list|) != []
    ensures Laid(p.status, r, |p.data.list|, |p.status.list|) == Splice(r.ram, p.status.buffer, csw)
  {
    hide Due, Laid, Placed, Splice, Tiled;
    LeftoverAwaited(s, p);
    FirstStatusPacket(p.status, s.dev.packetSize);
    SendingAlong(p.status, r, |p.data.list|, csw, Idle([]), 0);
    SendingAlong(p.status, r, |p.data.list|, csw, Idle([]), |p.status.list|);
    assert csw[..p.status.cuts[|p.status.list|]] == csw;
  }

  /** The next command after one that failed succeeds without an error bit, in some run, while the device still has an
      answer of at most the length asked for and its status to send, exactly when the wrapper is a single packet with
      the wrong toggle, the data toggle is right, the unread answer is as many packets long as the one asked for, and
      its status is good. So the next command is given an answer that is not its own. */
  lemma UnreadSucceedsExactly(s: Sys, p: Plan, outMps: nat, cbw: seq<byte>, data: seq<byte>, csw: seq<byte>)
    requires Prepared(s, p, outMps, cbw) && Unread(s.dev, data, csw) && |data| <= Length(p.data)
    ensures s.dev.packetSize > 0
    ensures (exists w :: Succeeds(s, p, w) && Unmarked(s, p, w)) <==>
      && |p.out.list| == 1 && p.out.toggle != s.dev.outToggle && p.data.toggle == s.dev.inToggle
      && |p.data.list| == Count(|data|, s.dev.packetSize) && csw[12] == 0
    ensures (exists w :: Succeeds(s, p, w) && Unmarked(s, p, w)) ==>
      Succeeds(s, p, TakingUp(p, s.dev)) && Unmarked(s, p, TakingUp(p, s.dev))
    ensures forall w :: Succeeds(s, p, w) && Unmarked(s, p, w) ==> Holds(AfterStatus(s, p, w).ram, p.data.buffer, data)
  {
    hide Succeeds, Unmarked, Prepared, TakesUp, Vouches, AfterStatus, Reads, Splice, Count, TakenUp;
    PreparedReads(s, p, outMps, cbw);
    UnreadStream(s, p, data, csw);
    LeftoverSucceedsExactly(s, p, outMps, cbw);
    if TakesUp(s, p) {
      TakesUpInStep(s, p, data, csw);
    }
    if Lag(p, s.dev) == 0 && Count(|data|, s.dev.packetSize) == |p.data.list| {
      UnreadTakesUp(s, p, data, csw);
      UnreadInPlace(s, p, data, csw);
    }
  }

  ghost predicate Holds(ram: seq<byte>, at: nat, data: seq<byte>) {
    at + |data| <= |ram| && ram[at..at + |data|] == data
  }

  lemma UnreadInPlace(s: Sys, p: Plan, data: seq<byte>, csw: seq<byte>)
    requires Reads(s, p) && TakesUp(s, p) && |data| <= Length(p.data) && Unread(s.dev, data, csw)
    requires p.data.buffer + |data| <= |s.ram| && p.status.buffer + CSW_LENGTH <= |s.ram|
    requires TakenUp(s, p) ==
        Splice(Splice(Splice(s.ram, p.data.buffer, data), p.status.buffer, Zeros(CSW_LENGTH)), p.status.buffer, csw)
    ensures Holds(TakenUp(s, p), p.data.buffer, data)
    ensures Vouches(TakenUp(s, p), p.status.buffer) <==> csw[12] == 0
  {
    hide Vouches, TakesUp, TakenUp, Tiled, Splice;
    var blank := Splice(Splice(s.ram, p.data.buffer, data), p.status.buffer, Zeros(CSW_LENGTH));
    StoredStatusVouches(blank, p.status.buffer, csw);
    SplicedApart(s.ram, p.data.buffer, data, p.status.buffer, Zeros(CSW_LENGTH), csw);
  }

  // ---------------------------------------------------------------------------
  // Two commands that fail, and a third that succeeds
  // ---------------------------------------------------------------------------

  lemma TiledCount(t: Transfer, mps: nat)
    requires Tiled(t, mps)
    ensures mps > 0 && |t.list| > 0 && t.cuts != [] && |t.list| == Count(Length(t), mps)
  {
    var n := |t.list|;
    assert Tile(t, mps, n - 1);
    CutsAt(t, mps, n - 1);
    var size := PacketSize(t, n - 1);
    if size == mps {
      assert mps * n == mps * (n - 1) + mps;
      ModUnique(Length(t), mps, n, 0);
    } else {
      ModUnique(Length(t), mps, n - 1, size);
    }
  }

  lemma UnvisitedFails(s: Sys, t: Transfer, mps: nat)
    requires Tiled(t, mps)
    ensures Perform(s, t, []).dev == s.dev && Perform(s, t, []).ram == s.ram && !Accepted(Perform(s, t, []), t)
  {
    PublishedProgress(t.base, t.list, s);
    LastSeen(t, mps, Publish(s, t.base, t.list), 0, false);
  }

  /** Commands A, B and C are sent in turn from a device that was ready for A. The controller does not come to A's data
      transfer before the driver gives up on it, nor does the device take B's wrapper. */
  ghost predicate TwoFail(a: Talk, b: Talk, c: Talk, outMps: nat) {
    && Planned(a.start, a.plan, outMps, a.cbw) && Obedient(a.start.dev, a.cbw)
    && a.weather == Weather(Clears(|a.plan.out.list|), [], [])
    && Prepared(b.start, b.plan, outMps, b.cbw) && AllClear(b.weather.out)
    && b.start.dev == AfterData(a.start, a.plan, a.weather).dev
    && b.plan.out.toggle == ToggleAt(a.plan.out.toggle, |a.plan.out.list|)
    && Prepared(c.start, c.plan, outMps, c.cbw)
    && c.start.dev == AfterCommand(b.start, b.plan, b.weather).dev
    && c.plan.out.toggle == ToggleAt(b.plan.out.toggle, |b.plan.out.list|)
    && c.plan.data.toggle == ToggleAt(a.plan.data.toggle, |a.plan.data.list|)
    && c.plan.data.cuts != [] && a.plan.data.cuts != [] && Length(c.plan.data) == Length(a.plan.data)
  }

  lemma FirstFails(a: Talk, b: Talk, c: Talk, outMps: nat)
    requires TwoFail(a, b, c, outMps)
    ensures |a.cbw| == CBW_LENGTH
    ensures !Accepted(AfterData(a.start, a.plan, a.weather), a.plan.data)
    ensures b.start.dev == a.start.dev.(outToggle := b.plan.out.toggle, phase := Reaction(a.start.dev, a.cbw))
  {
    hide Perform, Tiled, Accepted, Execute, Obedient, CanWrite, WritesFrom, Reads;
    PlannedLists(a.start, a.plan, outMps, a.cbw);
    CommandGoesOut(a.start, a.plan, outMps, a.cbw, a.weather);
    UnvisitedFails(AfterCommand(a.start, a.plan, a.weather), a.plan.data, a.start.dev.packetSize);
  }

  lemma SecondFails(a: Talk, b: Talk, c: Talk, outMps: nat)
    requires TwoFail(a, b, c, outMps)
    ensures |a.cbw| == CBW_LENGTH
    ensures !Accepted(AfterData(a.start, a.plan, a.weather), a.plan.data)
    ensures !Accepted(AfterCommand(b.start, b.plan, b.weather), b.plan.out)
    ensures Unread(c.start.dev, Answer(a.start.dev.units, a.cbw), Csw(a.cbw[4..8], 0, PASSED))
    ensures c.start.dev == a.start.dev.(outToggle := b.plan.out.toggle, phase := Reaction(a.start.dev, a.cbw))
  {
    hide Perform, Tiled, Accepted, Execute, CanWrite, WritesFrom, Reads, Answer, Csw, LastDone;
    FirstFails(a, b, c, outMps);
    ObedientShape(a.start.dev, a.cbw);
    var k, failed := BusyTransfer(b.start, b.plan.out, outMps, b.weather.out);
    AcceptedIsDone(AfterCommand(b.start, b.plan, b.weather), b.plan.out);
    GoodStatus(a.cbw[4..8]);
  }

  lemma GoodStatus(tag: seq<byte>)
    requires |tag| == 4
    ensures var csw := Csw(tag, 0, PASSED); LE32(csw[..4]) == CSW_SIGNATURE && csw[12] == 0
  {
    LoadStore32(CSW_SIGNATURE);
    assert Csw(tag, 0, PASSED)[..4] == ToLE32(CSW_SIGNATURE);
  }

  lemma WrapperPackets(t: Transfer, u: Transfer, mps: nat)
    requires Tiled(t, mps) && Tiled(u, mps) && Length(t) == Length(u) == CBW_LENGTH
    ensures |t.list| == |u.list| && (|t.list| == 1 <==> mps >= CBW_LENGTH)
  {
    TiledCount(t, mps);
    TiledCount(u, mps);
    var q, rem := CBW_LENGTH / mps, CBW_LENGTH % mps;
    assert CBW_LENGTH == mps * q + rem;
    if mps < CBW_LENGTH {
      assert q > 0;
    } else {
      ModUnique(CBW_LENGTH, mps, if mps == CBW_LENGTH then 1 else 0, if mps == CBW_LENGTH then 0 else CBW_LENGTH);
    }
  }

  lemma Odd(toggle: nat, n: nat)
    requires toggle < 2
    ensures ToggleAt(toggle, n) == toggle <==> n % 2 == 0
  {
  }

  /** C is answered in A's place, with A's data, in some run without error bits exactly when wrappers travel in one
      packet and the data in an even number of them; then a run without any fault will do. */
  lemma ForeignDataExactly(a: Talk, b: Talk, c: Talk, outMps: nat)
    requires TwoFail(a, b, c, outMps)
    ensures |a.cbw| == CBW_LENGTH
    ensures !Accepted(AfterData(a.start, a.plan, a.weather), a.plan.data)
    ensures !Accepted(AfterCommand(b.start, b.plan, b.weather), b.plan.out)
    ensures (exists w :: Succeeds(c.start, c.plan, w) && Unmarked(c.start, c.plan, w))
       <==> outMps >= CBW_LENGTH && |a.plan.data.list| % 2 == 0
    ensures (exists w :: Succeeds(c.start, c.plan, w) && Unmarked(c.start, c.plan, w)) ==>
      var w := TakingUp(c.plan, c.start.dev); Succeeds(c.start, c.plan, w) && Unmarked(c.start, c.plan, w)
    ensures forall w :: Succeeds(c.start, c.plan, w) && Unmarked(c.start, c.plan, w) ==>
      Holds(AfterStatus(c.start, c.plan, w).ram, c.plan.data.buffer, Answer(a.start.dev.units, a.cbw))
  {
    hide Accepted, Succeeds, Unmarked, AfterData, AfterCommand, AfterStatus, Holds, Answer, Csw, Count;
    SecondFails(a, b, c, outMps);
    var answer, csw := Answer(a.start.dev.units, a.cbw), Csw(a.cbw[4..8], 0, PASSED);
    TwoFailLists(a, b, c, outMps);
    UnreadSucceedsExactly(c.start, c.plan, outMps, c.cbw, answer, csw);
    GoodStatus(a.cbw[4..8]);
  }

  /** The input for which SUCCESS is another command's data: no fault but that the controller is late for A. */
  lemma ForeignData(a: Talk, b: Talk, c: Talk, outMps: nat)
    requires TwoFail(a, b, c, outMps) && outMps >= CBW_LENGTH && |a.plan.data.list| % 2 == 0
    requires c.weather == TakingUp(c.plan, c.start.dev)
    ensures |a.cbw| == CBW_LENGTH == |c.cbw| && c.plan.data.cuts != []
    ensures !Accepted(AfterData(a.start, a.plan, a.weather), a.plan.data)
    ensures !Accepted(AfterCommand(b.start, b.plan, b.weather), b.plan.out)
    ensures Succeeds(c.start, c.plan, c.weather)
    ensures AllClear(c.weather.out) && AllClear(c.weather.data) && AllClear(c.weather.status)
    ensures Answer(c.start.dev.units, c.cbw) != Answer(a.start.dev.units, a.cbw) ==>
      !Fulfilled(c.start, c.plan, c.cbw, AfterStatus(c.start, c.plan, c.weather).ram)
  {
    hide Accepted, Succeeds, Unmarked, AfterData, AfterCommand, AfterStatus, Answer, Execute, Planned, WritesFrom;
    ForeignDataExactly(a, b, c, outMps);
    TwoFailLists(a, b, c, outMps);
  }

  /** What the three commands' lists and toggles have in common. */
  lemma TwoFailLists(a: Talk, b: Talk, c: Talk, outMps: nat)
    requires TwoFail(a, b, c, outMps) && |a.cbw| == CBW_LENGTH
    ensures Prepared(c.start, c.plan, outMps, c.cbw)
    ensures |c.plan.out.list| == 1 <==> outMps >= CBW_LENGTH
    ensures |c.plan.out.list| == 1 ==> c.plan.out.toggle != b.plan.out.toggle
    ensures c.plan.data.toggle == a.start.dev.inToggle <==> |a.plan.data.list| % 2 == 0
    ensures a.start.dev.packetSize > 0 && c.start.dev.packetSize == a.start.dev.packetSize
    ensures c.plan.data.cuts != [] && |Answer(a.start.dev.units, a.cbw)| == Length(c.plan.data)
    ensures |c.plan.data.list| == Count(Length(c.plan.data), a.start.dev.packetSize)
  {
    hide Perform, Accepted, Execute, Answer, Count, ToggleAt;
    FirstFails(a, b, c, outMps);
    SecondFails(a, b, c, outMps);
    PlannedLists(a.start, a.plan, outMps, a.cbw);
    PlannedToggle(a.start, a.plan, outMps, a.cbw);
    WrapperPackets(c.plan.out, b.plan.out, outMps);
    TiledCount(c.plan.data, c.start.dev.packetSize);
    Odd(a.start.dev.inToggle, |a.plan.data.list|);
    Odd(b.plan.out.toggle, |b.plan.out.list|);
  }

  // ---------------------------------------------------------------------------
  // Devices with nothing to send
  // ---------------------------------------------------------------------------

  /** The device has halted, or drops the only packet of the wrapper while it waits for a command. */
  predicate Silent(t: Transfer, dev: Device) {
    dev.phase.Halted? || (dev.phase.Idle? && |t.list| == 1 && t.toggle != dev.outToggle)
  }

  lemma SilentVisit(t: Transfer, mps: nat, s: Sys, k: nat, f: Fault)
    requires WritesFrom(t, mps, s.dev, s.ram) && Silent(t, s.dev) && k < |t.list|
    ensures var e := Exchange(s.dev, s.ram, t.list[k], f);
      (e.Stays? ==> e.dev == s.dev) && (e.Retires? ==> e.dev == s.dev && e.ram == s.ram)
  {
    hide Exchange;
    assert Tile(t, mps, k);
    CutsAt(t, mps, k + 1);
    OutExchange(s.dev, s.ram, t.list[k], f);
  }

  lemma {:induction false} SilentRun(t: Transfer, mps: nat, s: Sys, k: nat, failed: bool, fs: seq<Fault>)
    requires WritesFrom(t, mps, s.dev, s.ram) && Silent(t, s.dev) && Progress(t.base, t.list, s, k, failed)
    ensures Run(s, fs).dev == s.dev && Run(s, fs).ram == s.ram
    decreases |fs|
  {
    hide Exchange, HcStep, Tiled, LinkWord, Silent;
    TiledIsLinked(t, mps);
    if fs != [] {
      ProgressStep(t.base, t.list, s, k, failed, fs[0]);
      Visit(t.base, t.list, s, k, failed, fs[0]);
      if !failed && k < |t.list| {
        SilentVisit(t, mps, s, k, fs[0]);
      }
      SilentRun(t, mps, HcStep(s, fs[0]), NextDone(t.list, s, k, failed, fs[0]),
                NextFailed(t.list, s, k, failed, fs[0]), fs[1..]);
    }
  }

  lemma SilentTransfer(s: Sys, t: Transfer, mps: nat, fs: seq<Fault>)
    requires WritesFrom(t, mps, s.dev, s.ram) && Silent(t, s.dev)
    ensures Perform(s, t, fs).dev == s.dev && Perform(s, t, fs).ram == s.ram
  {
    hide Run, Tiled;
    TiledIsLinked(t, mps);
    PublishedProgress(t.base, t.list, s);
    PublishKeeps(s, t);
    SilentRun(t, mps, Publish(s, t.base, t.list), 0, false, fs);
  }

  /** Such a device lets no command succeed, in any run and with the error bits unread. */
  lemma SilentNeverSucceeds(s: Sys, p: Plan, outMps: nat, cbw: seq<byte>, w: Weather)
    requires Prepared(s, p, outMps, cbw) && Silent(p.out, s.dev)
    ensures !Succeeds(s, p, w)
  {
    hide Perform, Tiled, Vouches, Accepted, WritesFrom;
    SilentTransfer(s, p.out, outMps, w.out);
    LeftoverAwaited(s, p);
    RefusedTransfer(AfterCommand(s, p, w), p.data, s.dev.packetSize, w.data);
    RefusedStatusFails(AfterData(s, p, w), p.status, s.dev.packetSize, w.status);
  }

  // ---------------------------------------------------------------------------
  // After a lost last handshake
  // ---------------------------------------------------------------------------

  /** The device is about to repeat the last packet of the status before, and the driver has moved on. */
  ghost predicate Trails(s: Sys, p: Plan) {
    EndsWrapper(s.dev.phase, s.dev.packetSize) && p.data.toggle != s.dev.inToggle && p.out.toggle == s.dev.outToggle
  }

  /** Memory if that packet is taken for the status of the next command. */
  function Mistaken(s: Sys, p: Plan): (ram: seq<byte>)
    requires s.dev.phase.Sending? && |s.dev.phase.rest| <= CSW_LENGTH && p.status.buffer + CSW_LENGTH <= |s.ram|
  {
    Splice(Splice(s.ram, p.status.buffer, Zeros(CSW_LENGTH)), p.status.buffer, s.dev.phase.rest)
  }

  lemma TrailingStream(r: Stream)
    requires EndsWrapper(r.dev.phase, r.dev.packetSize)
    ensures PacketAt(r, 0) == r.dev.phase.rest && forall i :: i >= 1 ==> !Offers(Due(r, i))
  {
    DueNext(r, 0);
    forall i | i >= 1 ensures !Offers(Due(r, i)) {
      DueStays(r, 1, i);
    }
  }

  lemma NothingTaken(t: Transfer, r: Stream, b: nat, s: Sys, k: nat, d: nat)
    requires Following(t, r, b, s, k, d) && !Offers(Due(r, b))
    ensures k == 0 && s.ram == r.ram
  {
    hide Due;
    if k > 0 {
      TakenIsOffered(t, r, b, s, k, d, 0);
    }
  }

  /** The data transfer gets nothing. */
  lemma TrailingData(s: Sys, p: Plan, outMps: nat, cbw: seq<byte>, w: Weather) returns (d: nat)
    requires Prepared(s, p, outMps, cbw) && Trails(s, p) && Accepted(AfterData(s, p, w), p.data)
    ensures d <= 1 && |p.data.list| == 1 && Errored(AfterData(s, p, w), p.data)
    ensures AfterData(s, p, w).dev == Acked(Leftover(s), d) && AfterData(s, p, w).ram == s.ram
  {
    hide Perform, Begins, Prepared, PacketAt, LastDone, Errored, Awaits, Due, Laid, Placed;
    var r, k, failed := Leftover(s), 0, false;
    BusyCommand(s, p, outMps, cbw, w);
    TrailingStream(r);
    k, d, failed := TransferFollows(p.data, r, 1, AfterCommand(s, p, w), 0, w.data);
    NothingTaken(p.data, r, 1, AfterData(s, p, w), k, d);
    AcceptedIsDone(AfterData(s, p, w), p.data);
  }

  /** The status transfer as it begins then. */
  lemma TrailingBegins(s: Sys, p: Plan, outMps: nat, cbw: seq<byte>, w: Weather, d: nat)
    requires Prepared(s, p, outMps, cbw) && Trails(s, p) && d <= 1 && |p.data.list| == 1
    requires AfterData(s, p, w).dev == Acked(Leftover(s), d) && AfterData(s, p, w).ram == s.ram
    ensures p.status.buffer + CSW_LENGTH <= |s.ram|
    ensures var r := Stream(s.dev, Splice(s.ram, p.status.buffer, Zeros(CSW_LENGTH)));
      Begins(p.status, r, 2 * d, BeforeStatus(s, p, w), d)
  {
    hide Perform, Tiled, Due, WritesFrom, LE32, ToggleAt, EndsWrapper, AfterData, Splice;
    var r := Stream(s.dev, Splice(s.ram, p.status.buffer, Zeros(CSW_LENGTH)));
    PreparedReads(s, p, outMps, cbw);
    LeftoverAwaited(s, p);
    SameDue(Leftover(s), r, d);
    TwiceFlipped(s.dev.inToggle, p.data.toggle, d);
  }

  lemma TwiceFlipped(toggle: nat, other: nat, d: nat)
    requires toggle < 2 && other < 2 && toggle != other
    ensures ToggleAt(other, 1) == ToggleAt(toggle, 2 * d)
  {
  }

  /** The next command after a lost last handshake: what SUCCESS takes, in any run. */
  lemma TrailingNeedsErrors(s: Sys, p: Plan, outMps: nat, cbw: seq<byte>, w: Weather)
    requires Prepared(s, p, outMps, cbw) && Trails(s, p) && Succeeds(s, p, w)
    ensures |p.out.list| == 1 && Errored(AfterCommand(s, p, w), p.out)
    ensures |p.data.list| == 1 && Errored(AfterData(s, p, w), p.data)
    ensures p.status.buffer + CSW_LENGTH <= |s.ram| && 1 <= |p.status.list| <= 2
    ensures AfterStatus(s, p, w).ram == Mistaken(s, p) && Vouches(Mistaken(s, p), p.status.buffer)
  {
    hide Perform, Begins, Prepared, PacketAt, LastDone, Errored, Awaits, Due, Accepted, Vouches, Following, Splice,
      BeforeStatus;
    TrailingOut(s, p, outMps, cbw, w);
    var d := TrailingData(s, p, outMps, cbw, w);
    TrailingBegins(s, p, outMps, cbw, w, d);
    var r := Stream(s.dev, Splice(s.ram, p.status.buffer, Zeros(CSW_LENGTH)));
    TrailingStream(r);
    AcceptedIsDone(AfterStatus(s, p, w), p.status);
    var k, d', failed := TransferFollows(p.status, r, 2 * d, BeforeStatus(s, p, w), d, w.status);
    TrailingStatus(s, p, r, 2 * d, AfterStatus(s, p, w), k, d');
    BlankStatusDoesNotVouch(s.ram, p.status.buffer);
  }

  lemma TrailingOut(s: Sys, p: Plan, outMps: nat, cbw: seq<byte>, w: Weather)
    requires Prepared(s, p, outMps, cbw) && Trails(s, p) && Accepted(AfterCommand(s, p, w), p.out)
    ensures |p.out.list| == 1 && Errored(AfterCommand(s, p, w), p.out)
  {
    hide Perform, Tiled, WritesFrom, Reads, Accepted, LastDone, Errored;
    AcceptedIsDone(AfterCommand(s, p, w), p.out);
    var k, failed := BusyTransfer(s, p.out, outMps, w.out);
  }

  /** It takes at most the one packet there is. */
  lemma TrailingStatus(s: Sys, p: Plan, r: Stream, b: nat, s': Sys, k: nat, d: nat)
    requires Following(p.status, r, b, s', k, d) && s.dev.phase == r.dev.phase
    requires EndsWrapper(r.dev.phase, r.dev.packetSize) && PacketAt(r, 0) == r.dev.phase.rest
    requires forall i :: i >= 1 ==> !Offers(Due(r, i))
    ensures k <= 1 && (k == 0 ==> s'.ram == r.ram)
    ensures k == 1 ==>
      && b == 0 && p.status.buffer + |s.dev.phase.rest| <= |r.ram|
      && s'.ram == Splice(r.ram, p.status.buffer, s.dev.phase.rest)
  {
    hide Due, PacketAt, Lengths, PacketLengths;
    if k > 1 {
      TakenIsOffered(p.status, r, b, s', k, d, 1);
    }
    if k == 1 {
      assert Fits(p.status, r, b, 0) && Tile(p.status, r.dev.packetSize, 0);
      assert Laid(p.status, r, b, 0) == r.ram;
    }
  }

  /** A transfer of one descriptor, on which the controller gives up at once. */
  lemma GivenUpAtOnce(s: Sys, t: Transfer, mps: nat)
    requires Tiled(t, mps) && |t.list| == 1
    ensures var e := Perform(s, t, [GivesUp(0)]); e.dev == s.dev && e.ram == s.ram && Accepted(e, t)
  {
    var s0 := Publish(s, t.base, t.list);
    PublishedProgress(t.base, t.list, s);
    assert Run(s0, [GivesUp(0)]) == HcStep(s0, GivesUp(0));
    GivesUpNow(t, s0, 0);
  }

  /** Of two descriptors the first takes a packet, and the controller gives up on the second. */
  lemma HalfTransfer(t: Transfer, r: Stream, s: Sys)
    requires Begins(t, r, 0, s, 0) && |t.list| == 2 && |t.cuts| == 3 && Fits(t, r, 0, 0) && PacketAt(r, 0) != []
    ensures var e := Perform(s, t, [Clear, GivesUp(0)]); Following(t, r, 0, e, 1, 1) && Accepted(e, t)
  {
    hide Following, Progress, HcStep, Begins, Fits, Exchange, PacketAt, Publish, Due;
    var s0 := Publish(s, t.base, t.list);
    BegunFollows(t, r, 0, s, 0);
    FollowingIsLinked(t, r, 0, s0, 0, 0);
    ProgressStep(t.base, t.list, s0, 0, false, Clear);
    var d := FollowStep(t, r, 0, s0, 0, 0, false, Clear);
    var s1 := HcStep(s0, Clear);
    ProgressStep(t.base, t.list, s1, 1, false, GivesUp(0));
    GivesUpNext(t, r, 0, s1, 1);
    assert Run(s0, [Clear, GivesUp(0)]) == HcStep(s1, GivesUp(0)) by {
      assert [Clear, GivesUp(0)][1..] == [GivesUp(0)];
    }
    SeenAfterRun(t, r, 0, HcStep(s1, GivesUp(0)), 1, 1, true);
  }

  /** The run in which the repeated packet passes for the status of the next command. */
  function Mistaking(p: Plan): Weather {
    Weather([GivesUp(0)], [GivesUp(0)], if |p.status.list| == 1 then [Clear] else [Clear, GivesUp(0)])
  }

  lemma TrailingSucceeds(s: Sys, p: Plan, outMps: nat, cbw: seq<byte>, w: Weather)
    requires Prepared(s, p, outMps, cbw) && Trails(s, p) && w == Mistaking(p)
    requires |p.out.list| == 1 && |p.data.list| == 1 && 1 <= |p.status.list| <= 2
    ensures Completed(s, p, w) && p.status.buffer + CSW_LENGTH <= |s.ram| && AfterStatus(s, p, w).ram == Mistaken(s, p)
  {
    hide Perform, Begins, PacketAt, LastDone, Errored, Awaits, Due, Accepted, Following, Splice, BeforeStatus, Tiled;
    GivenUpAtOnce(s, p.out, outMps);
    GivenUpAtOnce(AfterCommand(s, p, w), p.data, s.dev.packetSize);
    TrailingStart(s, p, w);
    TrailingBegins(s, p, outMps, cbw, w, 0);
    var r := Stream(s.dev, Splice(s.ram, p.status.buffer, Zeros(CSW_LENGTH)));
    TrailingStream(r);
    RepeatIsStatus(s, p, r);
    if |p.status.list| == 1 {
      assert [Clear] == Clears(1);
      var k := ClearTransfer(p.status, r, 0, BeforeStatus(s, p, w), w.status);
      TrailingStatus(s, p, r, 0, AfterStatus(s, p, w), 1, 1);
    } else {
      HalfTransfer(p.status, r, BeforeStatus(s, p, w));
      TrailingStatus(s, p, r, 0, AfterStatus(s, p, w), 1, 1);
    }
  }

  lemma TrailingStart(s: Sys, p: Plan, w: Weather)
    requires AfterData(s, p, w).dev == s.dev && s.dev.inToggle < 2
    ensures AfterData(s, p, w).dev == Acked(Leftover(s), 0)
  {
    hide AfterData;
  }

  lemma RepeatIsStatus(s: Sys, p: Plan, r: Stream)
    requires Reads(s, p) && EndsWrapper(s.dev.phase, s.dev.packetSize) && r.dev == s.dev
    ensures |p.status.cuts| == |p.status.list| + 1 > 1 && Fits(p.status, r, 0, 0) && PacketAt(r, 0) != []
    ensures |p.status.list| == 1 ==> Placed(p.status, r, 0, 1)
  {
    hide Tiled;
    FirstStatusPacket(p.status, s.dev.packetSize);
    TrailingStream(r);
    DueNow(r);
  }

  /** Exactly when a command can succeed whose device has not heard that its last status packet arrived, in any run and
      with the error bits unread: its wrapper and its data are single packets, the controller gives up on both, and the
      packet the device repeats passes for the status. The data buffer is never written. */
  lemma TrailingSucceedsExactly(s: Sys, p: Plan, outMps: nat, cbw: seq<byte>)
    requires Prepared(s, p, outMps, cbw) && Trails(s, p)
    ensures p.status.buffer + CSW_LENGTH <= |s.ram|
    ensures (exists w :: Succeeds(s, p, w)) <==>
      |p.out.list| == 1 && |p.data.list| == 1 && |p.status.list| <= 2 && Vouches(Mistaken(s, p), p.status.buffer)
    ensures forall w :: Succeeds(s, p, w) ==> AfterStatus(s, p, w).ram == Mistaken(s, p)
    ensures forall w :: Succeeds(s, p, w) ==>
      Errored(AfterCommand(s, p, w), p.out) && Errored(AfterData(s, p, w), p.data)
  {
    hide Succeeds, Prepared, Vouches, AfterStatus, AfterData, AfterCommand, Errored, Mistaken, Reads;
    PreparedReads(s, p, outMps, cbw);
    LeftoverAwaited(s, p);
    forall w | Succeeds(s, p, w)
      ensures |p.out.list| == 1 && |p.data.list| == 1 && |p.status.list| <= 2
      ensures AfterStatus(s, p, w).ram == Mistaken(s, p) && Vouches(Mistaken(s, p), p.status.buffer)
      ensures Errored(AfterCommand(s, p, w), p.out) && Errored(AfterData(s, p, w), p.data) {
      TrailingNeedsErrors(s, p, outMps, cbw, w);
    }
    if |p.out.list| == 1 && |p.data.list| == 1 && |p.status.list| <= 2 && Vouches(Mistaken(s, p), p.status.buffer) {
      TrailingSucceeds(s, p, outMps, cbw, Mistaking(p));
      CompletedSucceeds(s, p, Mistaking(p));
    }
  }

  // ---------------------------------------------------------------------------
  // Commands one after the other
  // ---------------------------------------------------------------------------

  /** `b` meets the device as `a` has left it, but for what the device does by itself. The driver's toggles run on. */
  ghost predicate Follows(a: Talk, b: Talk) {
    && b.start.dev == AfterStatus(a.start, a.plan, a.weather).dev.(units := b.start.dev.units,
                                                                   verdict := b.start.dev.verdict)
    && b.plan.out.toggle == ToggleAt(a.plan.out.toggle, |a.plan.out.list|)
    && b.plan.data.toggle == ToggleAt(a.plan.status.toggle, |a.plan.status.list|)
  }

  ghost predicate Series(talks: seq<Talk>, outMps: nat) {
    && (forall i :: 0 <= i < |talks| ==> Prepared(talks[i].start, talks[i].plan, outMps, talks[i].cbw))
    && (forall i :: 0 <= i < |talks| - 1 ==> Follows(talks[i], talks[i + 1]))
  }

  /** The command's three transfers pass the driver's checks, and the error bits it does not read are clear where they
      matter. */
  ghost predicate Orderly(talk: Talk) {
    var s, p, w := talk.start, talk.plan, talk.weather;
    && Completed(s, p, w) && |p.data.cuts| >= 2
    && (if Succeeds(s, p, w) then ErrorBitsClear(s, p, talk.cbw, w) else Clean(s, p, w))
    && (Errored(AfterCommand(s, p, w), p.out) ==> |p.data.list| > 1)
  }

  /** Such a command begins in step: a device one packet behind does not let it through. */
  lemma OrderlyDoesNotTrail(talk: Talk, outMps: nat)
    requires Prepared(talk.start, talk.plan, outMps, talk.cbw) && Orderly(talk)
    ensures !Trails(talk.start, talk.plan)
  {
    hide Prepared, Accepted, AfterCommand, AfterData, AfterStatus, Errored, Trails, Succeeds, ErrorBitsClear;
    if Trails(talk.start, talk.plan) {
      TrailingOut(talk.start, talk.plan, outMps, talk.cbw, talk.weather);
      var d := TrailingData(talk.start, talk.plan, outMps, talk.cbw, talk.weather);
    }
  }

  lemma OrderlyEnds(talk: Talk, outMps: nat)
    requires Planned(talk.start, talk.plan, outMps, talk.cbw) && Orderly(talk)
    ensures var s, p, dev := talk.start, talk.plan, AfterStatus(talk.start, talk.plan, talk.weather).dev;
      AtRest(s, p, dev) || OneBehind(s, p, dev)
  {
    hide Planned, Accepted, AfterCommand, AfterData, AfterStatus, Errored, Succeeds, ErrorBitsClear, AtRest, OneBehind,
      LastHeard, Publish, Answer, Delivered, Unnoticed;
    if Succeeds(talk.start, talk.plan, talk.weather) {
      SuccessIsSound(talk.start, talk.plan, outMps, talk.cbw, talk.weather);
    } else {
      CompletedIsAtRest(talk.start, talk.plan, outMps, talk.cbw, talk.weather);
    }
  }

  lemma NextIsPlanned(a: Talk, b: Talk, outMps: nat)
    requires Planned(a.start, a.plan, outMps, a.cbw) && Orderly(a) && Follows(a, b)
    requires Prepared(b.start, b.plan, outMps, b.cbw) && Orderly(b)
    ensures Planned(b.start, b.plan, outMps, b.cbw)
  {
    hide Prepared, Orderly, Planned, AfterStatus, ToggleAt;
    OrderlyEnds(a, outMps);
    OrderlyDoesNotTrail(b, outMps);
    PlannedIsInStep(a.start, a.plan, outMps, a.cbw);
    PlannedIsInStep(b.start, b.plan, outMps, b.cbw);
  }

  lemma {:induction false} SeriesIsPlanned(talks: seq<Talk>, outMps: nat, i: nat)
    requires Series(talks, outMps) && (forall j :: 0 <= j < |talks| ==> Orderly(talks[j])) && i < |talks|
    requires Planned(talks[0].start, talks[0].plan, outMps, talks[0].cbw)
    ensures Planned(talks[i].start, talks[i].plan, outMps, talks[i].cbw)
  {
    hide Prepared, Orderly, Planned, Follows;
    if i > 0 {
      SeriesIsPlanned(talks, outMps, i - 1);
      assert Follows(talks[i - 1], talks[i - 1 + 1]);
      NextIsPlanned(talks[i - 1], talks[i], outMps);
    }
  }

  /** Over any number of commands to a device that was ready for the first, as long as all transfers complete and no
      error bit that matters is set: every command begins in step, every SUCCESS has delivered that command's own
      answer, and every other command is one the device reports as failed. */
  lemma EverySuccessIsRight(talks: seq<Talk>, outMps: nat)
    requires Series(talks, outMps) && forall i :: 0 <= i < |talks| ==> Orderly(talks[i])
    requires talks != [] && Planned(talks[0].start, talks[0].plan, outMps, talks[0].cbw)
    ensures forall i :: 0 <= i < |talks| ==> Right(talks[i], outMps)
  {
    hide Prepared, Orderly, Planned, Follows, Right;
    forall i | 0 <= i < |talks| ensures Right(talks[i], outMps) {
      SeriesIsPlanned(talks, outMps, i);
      OrderlyIsRight(talks[i], outMps);
    }
  }

  ghost predicate Right(talk: Talk, outMps: nat) {
    var s, p, w := talk.start, talk.plan, talk.weather;
    && Planned(s, p, outMps, talk.cbw) && |talk.cbw| == CBW_LENGTH && p.data.cuts != [] && s.dev.verdict.Acts?
    && (if Succeeds(s, p, w) then Delivered(s, p, talk.cbw, AfterStatus(s, p, w).ram)
        else Status(Given(s.dev.units, s.dev.verdict.obeys, talk.cbw), Length(p.data)) != PASSED)
  }

  lemma OrderlyIsRight(talk: Talk, outMps: nat)
    requires Planned(talk.start, talk.plan, outMps, talk.cbw) && Orderly(talk)
    ensures Right(talk, outMps)
  {
    hide Planned, Accepted, AfterCommand, AfterData, AfterStatus, Errored, Succeeds, ErrorBitsClear, AtRest, OneBehind,
      LastHeard, Publish, Answer, Delivered, Unnoticed, Given, Status;
    PlannedLists(talk.start, talk.plan, outMps, talk.cbw);
    if Succeeds(talk.start, talk.plan, talk.weather) {
      SuccessIsSound(talk.start, talk.plan, outMps, talk.cbw, talk.weather);
    } else {
      CompletedIsAtRest(talk.start, talk.plan, outMps, talk.cbw, talk.weather);
    }
  }
}
