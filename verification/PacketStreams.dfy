/** Transfers from the device. What a device has to send is a stream of packets, whatever it belongs to; a transfer
    takes packets off that stream, and does not know where one answer ends and the next begins. */
module PacketStreams {
  import opened Bytes
  import opened BulkDevice
  import opened Uhci
  import opened TransferRuns
  import opened BulkRuns

  /** The phase of a device once `k` more of its packets have been acknowledged. */
  function Ahead(phase: Phase, packetSize: nat, k: nat): Phase
    decreases k
  {
    if k == 0 || !Offers(phase) then phase else Ahead(AfterPacket(phase, packetSize), packetSize, k - 1)
  }

  lemma {:induction false} AheadAdds(phase: Phase, packetSize: nat, j: nat, k: nat)
    ensures Ahead(Ahead(phase, packetSize, j), packetSize, k) == Ahead(phase, packetSize, j + k)
    decreases j
  {
    if j > 0 && Offers(phase) {
      AheadAdds(AfterPacket(phase, packetSize), packetSize, j - 1, k);
    }
  }

  /** A device and the memory it sends to, as of position 0 of its stream. */
  datatype Stream = Stream(dev: Device, ram: seq<byte>)

  /** The device's phase when it is about to send packet `i`. */
  function Due(r: Stream, i: nat): Phase {
    Ahead(r.dev.phase, r.dev.packetSize, i)
  }

  function PacketAt(r: Stream, i: nat): seq<byte> {
    if Offers(Due(r, i)) then Offered(Due(r, i), r.dev.packetSize) else []
  }

  /** The device after `d` packets have been acknowledged. */
  function Acked(r: Stream, d: nat): Device {
    r.dev.(inToggle := ToggleAt(r.dev.inToggle, d), phase := Due(r, d))
  }

  lemma DueNext(r: Stream, i: nat)
    ensures Due(r, i + 1) == if Offers(Due(r, i)) then AfterPacket(Due(r, i), r.dev.packetSize) else Due(r, i)
  {
    AheadAdds(r.dev.phase, r.dev.packetSize, i, 1);
  }

  lemma {:induction false} DueStays(r: Stream, i: nat, j: nat)
    requires i <= j && !Offers(Due(r, i))
    ensures Due(r, j) == Due(r, i)
    decreases j
  {
    if i < j {
      DueStays(r, i, j - 1);
      DueNext(r, j - 1);
    }
  }

  // ---------------------------------------------------------------------------
  // A transfer somewhere along the stream
  // ---------------------------------------------------------------------------

  /** The transfer's first descriptor expects the toggle of packet `b`. */
  ghost predicate Awaits(t: Transfer, r: Stream, b: nat) {
    && Tiled(t, r.dev.packetSize) && t.pid == InPid && t.address == r.dev.address && t.endpoint == r.dev.inEndpoint
    && r.dev.inToggle < 2 && t.toggle == ToggleAt(r.dev.inToggle, b) && t.buffer + Length(t) <= |r.ram|
  }

  /** Packet `b + i` exists and fits descriptor `i`. */
  ghost predicate Fits(t: Transfer, r: Stream, b: nat, i: nat)
    requires |t.cuts| == |t.list| + 1 && i < |t.list|
  {
    Offers(Due(r, b + i)) && |PacketAt(r, b + i)| <= PacketSize(t, i)
  }

  ghost predicate Placed(t: Transfer, r: Stream, b: nat, k: nat)
    requires |t.cuts| == |t.list| + 1 && k <= |t.list|
  {
    forall i :: 0 <= i < k ==> Fits(t, r, b, i)
  }

  /** Memory with packets `b`, ..., `b + k - 1` stored, each at the start of its own descriptor's part of the buffer. */
  ghost function Laid(t: Transfer, r: Stream, b: nat, k: nat): (ram: seq<byte>)
    requires Awaits(t, r, b) && k <= |t.list| && Placed(t, r, b, k)
    ensures |ram| == |r.ram|
  {
    if k == 0 then r.ram else
    assert Fits(t, r, b, k - 1) && Tile(t, r.dev.packetSize, k - 1);
    Splice(Laid(t, r, b, k - 1), t.buffer + t.cuts[k - 1], PacketAt(r, b + k - 1))
  }

  ghost function PacketLengths(t: Transfer, r: Stream, b: nat, k: nat): (bytes: seq<nat>)
    requires Awaits(t, r, b) && k <= |t.list| && Placed(t, r, b, k)
    ensures |bytes| == k
  {
    if k == 0 then [] else
    assert Fits(t, r, b, k - 1);
    PacketLengths(t, r, b, k - 1) + [|PacketAt(r, b + k - 1)|]
  }

  /** `k` descriptors have taken one packet each, and the device knows of all of these packets, or of all but the
      last. */
  ghost predicate Following(t: Transfer, r: Stream, b: nat, s: Sys, k: nat, d: nat) {
    && Awaits(t, r, b) && k <= |t.list| && Placed(t, r, b, k) && d <= b + k <= d + 1
    && s.dev == Acked(r, d) && s.ram == Laid(t, r, b, k) && Lengths(t, s.tds, PacketLengths(t, r, b, k))
  }

  /** What the bus does to a packet from the device. */
  lemma InExchange(dev: Device, ram: seq<byte>, td: Td, f: Fault)
    requires td.pid == InPid && td.address == dev.address && td.endpoint == dev.inEndpoint
    requires td.buffer + FieldBytes(td.maxLength) <= |ram|
    ensures Exchange(dev, ram, td, f) ==
      if f.NotReady? then Stays(dev) else if f.GivesUp? then Fails(f.actual) else
      if !Offers(dev.phase) then if dev.phase.Halted? then Fails(NO_DATA) else Stays(dev) else
      var data := Offered(dev.phase, dev.packetSize);
      if |data| > FieldBytes(td.maxLength) then Fails(NO_DATA) else
      var after := if f.Unheard? then dev else
        dev.(inToggle := Flip(dev.inToggle), phase := AfterPacket(dev.phase, dev.packetSize));
      if dev.inToggle != td.toggle then Stays(after) else Retires(after, Splice(ram, td.buffer, data), |data|)
  {
  }

  lemma AckedNext(r: Stream, d: nat)
    requires Offers(Due(r, d))
    ensures Acked(r, d + 1) == Acked(r, d).(inToggle := Flip(Acked(r, d).inToggle),
                                            phase := AfterPacket(Due(r, d), r.dev.packetSize))
    ensures Acked(r, d + 1).inToggle != Acked(r, d).inToggle
  {
    FlipIsNext(r.dev.inToggle, d);
    DueNext(r, d);
  }

  lemma DescriptorFields(t: Transfer, r: Stream, b: nat, k: nat)
    requires Awaits(t, r, b) && k < |t.list|
    ensures var td := t.list[k];
      && td.pid == InPid && td.address == r.dev.address && td.endpoint == r.dev.inEndpoint
      && td.buffer == t.buffer + t.cuts[k] && FieldBytes(td.maxLength) == PacketSize(t, k) > 0
      && td.buffer + PacketSize(t, k) <= |r.ram| && td.toggle == ToggleAt(r.dev.inToggle, b + k)
  {
    assert Tile(t, r.dev.packetSize, k);
  }

  /** In step, a packet that fits is stored and the descriptor retired; the device moves on if it hears of it. */
  lemma InStepExchange(t: Transfer, r: Stream, b: nat, s: Sys, k: nat, f: Fault)
    requires Following(t, r, b, s, k, b + k) && k < |t.list|
    ensures match Exchange(s.dev, s.ram, t.list[k], f)
      case Stays(dev) => dev == s.dev && (f.Clear? || f.Unheard? ==> !Fits(t, r, b, k))
      case Fails(_) => f.GivesUp? || !Fits(t, r, b, k)
      case Retires(dev, ram, bytes) => (
        && Fits(t, r, b, k) && dev == Acked(r, if f.Unheard? then b + k else b + k + 1)
        && Placed(t, r, b, k + 1) && ram == Laid(t, r, b, k + 1) && bytes == |PacketAt(r, b + k)|)
  {
    hide Exchange, Ahead, AfterPacket, Offered, Offers, Splice;
    DescriptorFields(t, r, b, k);
    InExchange(s.dev, s.ram, t.list[k], f);
    if Offers(Due(r, b + k)) {
      AckedNext(r, b + k);
    }
    if Fits(t, r, b, k) {
      assert Placed(t, r, b, k + 1);
    }
  }

  /** One packet behind, the device repeats what has been stored already: the toggle gives it away, and it is thrown
      away unless it is too long for the descriptor. */
  lemma RepeatExchange(t: Transfer, r: Stream, b: nat, s: Sys, k: nat, d: nat, f: Fault)
    requires Following(t, r, b, s, k, d) && d + 1 == b + k && k < |t.list|
    ensures match Exchange(s.dev, s.ram, t.list[k], f)
      case Stays(dev) => dev == s.dev || dev == Acked(r, d + 1)
      case Fails(_) => true
      case Retires(_, _, _) => false
    ensures f.Clear? && Offers(Due(r, d)) && |PacketAt(r, d)| <= PacketSize(t, k) ==>
      Exchange(s.dev, s.ram, t.list[k], f) == Stays(Acked(r, d + 1))
  {
    hide Exchange, Ahead, AfterPacket, Offered, Offers, Splice;
    DescriptorFields(t, r, b, k);
    InExchange(s.dev, s.ram, t.list[k], f);
    if Offers(Due(r, d)) {
      AckedNext(r, d);
    }
  }

  /** One visit to the next descriptor, by what it does. */
  lemma FollowVisit(t: Transfer, r: Stream, b: nat, s: Sys, k: nat, d: nat, f: Fault) returns (d': nat)
    requires Following(t, r, b, s, k, d) && k < |t.list|
    ensures var e := Exchange(s.dev, s.ram, t.list[k], f);
      && Following(t, r, b, Apply(s, Addr(t.base, k), t.list[k], e), if e.Retires? then k + 1 else k, d') && d <= d'
      && (d == b + k && !f.Unheard? ==> d' == b + if e.Retires? then k + 1 else k)
      && (e.Retires? ==> d == b + k && (d' == b + k + 1 <==> !f.Unheard?))
      && ((f.Clear? || f.Unheard?) && d == b + k && Fits(t, r, b, k) ==> e.Retires?)
      && (f.Clear? && d + 1 == b + k && Offers(Due(r, d)) && |PacketAt(r, d)| <= PacketSize(t, k)
          ==> e.Stays? && d' == d + 1)
  {
    hide Exchange, Ahead, AfterPacket, Offered, Offers, Splice, LinkWord, Lengths;
    var e := Exchange(s.dev, s.ram, t.list[k], f);
    LengthsGrow(t, s, k, e, PacketLengths(t, r, b, k));
    d' := d;
    if d == b + k {
      InStepExchange(t, r, b, s, k, f);
      d' := if e.Retires? && !f.Unheard? then d + 1 else d;
    } else {
      RepeatExchange(t, r, b, s, k, d, f);
      d' := if e.Stays? && e.dev == Acked(r, d + 1) then d + 1 else d;
    }
  }

  lemma WithinList(t: Transfer, r: Stream, b: nat, s: Sys, k: nat, d: nat)
    requires Following(t, r, b, s, k, d)
    ensures k <= |t.list| && |t.cuts| == |t.list| + 1 && |t.list| > 0
  {
  }

  lemma FollowingIsLinked(t: Transfer, r: Stream, b: nat, s: Sys, k: nat, d: nat)
    requires Following(t, r, b, s, k, d)
    ensures Linked(t.base, t.list) && Tiled(t, r.dev.packetSize)
  {
  }

  lemma FollowStep(t: Transfer, r: Stream, b: nat, s: Sys, k: nat, d: nat, failed: bool, f: Fault) returns (d': nat)
    requires Progress(t.base, t.list, s, k, failed) && Following(t, r, b, s, k, d)
    ensures Following(t, r, b, HcStep(s, f), NextDone(t.list, s, k, failed, f), d') && d <= d'
    ensures d == b + k && !f.Unheard? ==> d' == b + NextDone(t.list, s, k, failed, f)
    ensures failed || k == |t.list| ==> d' == d
    ensures NextDone(t.list, s, k, failed, f) > k ==> d == b + k && (d' == b + k + 1 <==> !f.Unheard?)
    ensures (f.Clear? || f.Unheard?) && !failed && k < |t.list| && d == b + k && Fits(t, r, b, k) ==>
      NextDone(t.list, s, k, failed, f) == k + 1 && !NextFailed(t.list, s, k, failed, f)
    ensures f.Clear? && !failed && k < |t.list| && d + 1 == b + k && Offers(Due(r, d))
            && |PacketAt(r, d)| <= PacketSize(t, k) ==>
      NextDone(t.list, s, k, failed, f) == k && !NextFailed(t.list, s, k, failed, f) && d' == d + 1
  {
    hide Exchange, HcStep, Following, Fits, PacketAt, Due, Offers;
    FollowingIsLinked(t, r, b, s, k, d);
    WithinList(t, r, b, s, k, d);
    Visit(t.base, t.list, s, k, failed, f);
    d' := d;
    if !failed && k < |t.list| {
      d' := FollowVisit(t, r, b, s, k, d, f);
    }
  }

  /** Every run of a transfer from the device stores exactly the packets of the retired descriptors, each exactly once
      and in order, however many handshakes are lost. The device is at most one packet behind; it is not behind at all
      if every handshake is heard, or if the transfer is completed and the last one is. */
  lemma {:induction false} DeliveredExactlyOnce(t: Transfer, r: Stream, b: nat, s: Sys, k: nat, d: nat, failed: bool,
                                                fs: seq<Fault>)
      returns (k': nat, d': nat, failed': bool)
    requires Progress(t.base, t.list, s, k, failed) && Following(t, r, b, s, k, d)
    ensures Progress(t.base, t.list, Run(s, fs), k', failed') && Following(t, r, b, Run(s, fs), k', d')
    ensures d == b + k && Heard(fs) ==> d' == b + k'
    ensures failed || k == |t.list| ==> k' == k && d' == d
    ensures k < |t.list| == k' ==> (d' == b + k' <==> LastHeard(s, t, fs))
    decreases |fs|
  {
    hide HcStep, Following, Progress, Exchange, LastDone;
    WithinList(t, r, b, s, k, d);
    if fs == [] {
      k', d', failed' := k, d, failed;
    } else {
      var f, s' := fs[0], HcStep(s, fs[0]);
      FollowingIsLinked(t, r, b, s, k, d);
      ProgressStep(t.base, t.list, s, k, failed, f);
      var e := FollowStep(t, r, b, s, k, d, failed, f);
      var k1, failed1 := NextDone(t.list, s, k, failed, f), NextFailed(t.list, s, k, failed, f);
      LastSeen(t, r.dev.packetSize, s', k1, failed1);
      k', d', failed' := DeliveredExactlyOnce(t, r, b, s', k1, e, failed1, fs[1..]);
    }
  }

  // ---------------------------------------------------------------------------
  // Whole transfers
  // ---------------------------------------------------------------------------

  /** What the driver sees of a transfer of which `k` descriptors were retired and, if `failed`, the next given up. */
  ghost predicate Seen(t: Transfer, r: Stream, b: nat, s: Sys, k: nat, failed: bool) {
    && (LastDone(s, t) <==> k == |t.list| || (failed && k == |t.list| - 1))
    && (Errored(s, t) <==> failed && k == |t.list| - 1)
    && (k > 0 ==> (Accepted(s, t) <==> LastDone(s, t) && PacketAt(r, b) != []))
  }

  lemma FirstSeen(t: Transfer, r: Stream, b: nat, s: Sys, k: nat, d: nat)
    requires Following(t, r, b, s, k, d) && k > 0
    ensures Addr(t.base, 0) in s.tds && (s.tds[Addr(t.base, 0)].actualLength != NO_DATA <==> PacketAt(r, b) != [])
  {
    hide Laid, Awaits, Placed, Acked, PacketLengths, PacketAt;
    FirstPacketLength(t, r, b, k);
    assert s.tds[Addr(t.base, 0)].actualLength == LengthField(PacketLengths(t, r, b, k)[0]);
  }

  lemma SeenAfterRun(t: Transfer, r: Stream, b: nat, s: Sys, k: nat, d: nat, failed: bool)
    requires Progress(t.base, t.list, s, k, failed) && Following(t, r, b, s, k, d)
    ensures Following(t, r, b, Unpublish(s), k, d) && Seen(t, r, b, Unpublish(s), k, failed)
  {
    hide Progress, Laid, Placed, Acked, PacketLengths, PacketAt, Lengths;
    LastSeen(t, r.dev.packetSize, s, k, failed);
    if k > 0 {
      FirstSeen(t, r, b, s, k, d);
    }
  }

  lemma {:induction false} FirstPacketLength(t: Transfer, r: Stream, b: nat, k: nat)
    requires Awaits(t, r, b) && 0 < k <= |t.list| && Placed(t, r, b, k)
    ensures PacketLengths(t, r, b, k)[0] == |PacketAt(r, b)| < NO_DATA + 1
  {
    assert Fits(t, r, b, 0) && Tile(t, r.dev.packetSize, 0);
    if k > 1 {
      FirstPacketLength(t, r, b, k - 1);
    }
  }

  /** The device stands at packet `d`, and the transfer is about to ask for packet `b`. */
  ghost predicate Begins(t: Transfer, r: Stream, b: nat, s: Sys, d: nat) {
    Awaits(t, r, b) && d <= b <= d + 1 && s.dev == Acked(r, d) && s.ram == r.ram
  }

  lemma BegunFollows(t: Transfer, r: Stream, b: nat, s: Sys, d: nat)
    requires Begins(t, r, b, s, d)
    ensures var s0 := Publish(s, t.base, t.list);
      Progress(t.base, t.list, s0, 0, false) && Following(t, r, b, s0, 0, d)
  {
    PublishedProgress(t.base, t.list, s);
  }

  /** Any transfer from the device, under any schedule. */
  lemma TransferFollows(t: Transfer, r: Stream, b: nat, s: Sys, d: nat, fs: seq<Fault>)
      returns (k: nat, d': nat, failed: bool)
    requires Begins(t, r, b, s, d)
    ensures Following(t, r, b, Perform(s, t, fs), k, d') && Seen(t, r, b, Perform(s, t, fs), k, failed)
    ensures d == b && Heard(fs) ==> d' == b + k
    ensures k == |t.list| ==> (d' == b + k <==> LastHeard(Publish(s, t.base, t.list), t, fs))
  {
    hide Following, Seen, Progress, Begins, Publish, Run;
    BegunFollows(t, r, b, s, d);
    WithinList(t, r, b, Publish(s, t.base, t.list), 0, d);
    k, d', failed := DeliveredExactlyOnce(t, r, b, Publish(s, t.base, t.list), 0, d, false, fs);
    SeenAfterRun(t, r, b, Run(Publish(s, t.base, t.list), fs), k, d', failed);
  }

  function Clears(n: nat): (fs: seq<Fault>)
    ensures |fs| == n && AllClear(fs)
  {
    seq(n, _ => Clear)
  }

  lemma PlacedFits(t: Transfer, r: Stream, b: nat, k: nat, n: nat)
    requires |t.cuts| == |t.list| + 1 && k <= n <= |t.list| && Placed(t, r, b, n)
    ensures Placed(t, r, b, k) && (k < n ==> Fits(t, r, b, k))
  {
  }

  lemma ClearStep(t: Transfer, r: Stream, b: nat, s: Sys, k: nat)
    requires Progress(t.base, t.list, s, k, false) && Following(t, r, b, s, k, b + k)
    requires |t.cuts| == |t.list| + 1 && (k < |t.list| ==> Fits(t, r, b, k))
    ensures var k' := AtMostAll(k + 1, |t.list|);
      Progress(t.base, t.list, HcStep(s, Clear), k', false) && Following(t, r, b, HcStep(s, Clear), k', b + k')
  {
    hide Following, Progress, HcStep, Exchange, Fits, Placed;
    WithinList(t, r, b, s, k, b + k);
    FollowingIsLinked(t, r, b, s, k, b + k);
    ProgressStep(t.base, t.list, s, k, false, Clear);
    var d := FollowStep(t, r, b, s, k, b + k, false, Clear);
  }

  /** In step and without faults every visit takes one packet. */
  lemma {:induction false} ClearRun(t: Transfer, r: Stream, b: nat, s: Sys, k: nat, fs: seq<Fault>) returns (k': nat)
    requires Progress(t.base, t.list, s, k, false) && Following(t, r, b, s, k, b + k) && AllClear(fs)
    requires |t.cuts| == |t.list| + 1 && Placed(t, r, b, AtMostAll(k + |fs|, |t.list|))
    ensures k' == AtMostAll(k + |fs|, |t.list|)
    ensures Progress(t.base, t.list, Run(s, fs), k', false) && Following(t, r, b, Run(s, fs), k', b + k')
    decreases |fs|
  {
    hide HcStep, Following, Progress, Placed, Fits;
    WithinList(t, r, b, s, k, b + k);
    if fs == [] {
      k' := k;
    } else {
      PlacedFits(t, r, b, k, AtMostAll(k + |fs|, |t.list|));
      ClearStep(t, r, b, s, k);
      assert fs[0] == Clear;
      k' := ClearRun(t, r, b, HcStep(s, Clear), AtMostAll(k + 1, |t.list|), fs[1..]);
    }
  }

  /** A transfer begun in step, without faults. */
  lemma ClearTransfer(t: Transfer, r: Stream, b: nat, s: Sys, fs: seq<Fault>) returns (k: nat)
    requires Begins(t, r, b, s, b) && Placed(t, r, b, |t.list|) && AllClear(fs)
    ensures k == AtMostAll(|fs|, |t.list|)
    ensures Following(t, r, b, Perform(s, t, fs), k, b + k) && Seen(t, r, b, Perform(s, t, fs), k, false)
  {
    hide Following, Progress, HcStep, Run, Begins, Placed, Seen, Publish;
    BegunFollows(t, r, b, s, b);
    WithinList(t, r, b, Publish(s, t.base, t.list), 0, b);
    PlacedFits(t, r, b, AtMostAll(|fs|, |t.list|), |t.list|);
    k := ClearRun(t, r, b, Publish(s, t.base, t.list), 0, fs);
    SeenAfterRun(t, r, b, Run(Publish(s, t.base, t.list), fs), k, b + k, false);
  }

  /** The run of a transfer in which the controller gives up on the last descriptor. */
  function LastGivenUp(t: Transfer): seq<Fault>
    requires t.list != []
  {
    Clears(|t.list| - 1) + [GivesUp(0)]
  }

  lemma GivesUpNext(t: Transfer, r: Stream, b: nat, s: Sys, k: nat)
    requires Progress(t.base, t.list, s, k, false) && Following(t, r, b, s, k, b + k) && k < |t.list|
    ensures Progress(t.base, t.list, HcStep(s, GivesUp(0)), k, true)
    ensures Following(t, r, b, HcStep(s, GivesUp(0)), k, b + k)
    ensures Addr(t.base, k) in HcStep(s, GivesUp(0)).tds && HcStep(s, GivesUp(0)).tds[Addr(t.base, k)].actualLength == 0
  {
    hide Following, Progress;
    FollowingIsLinked(t, r, b, s, k, b + k);
    Visit(t.base, t.list, s, k, false, GivesUp(0));
    ProgressStep(t.base, t.list, s, k, false, GivesUp(0));
    var d := FollowStep(t, r, b, s, k, b + k, false, GivesUp(0));
  }

  lemma GivenUpRun(t: Transfer, r: Stream, b: nat, s: Sys)
    requires Progress(t.base, t.list, s, 0, false) && Following(t, r, b, s, 0, b)
    requires |t.cuts| == |t.list| + 1 && |t.list| > 0 && Placed(t, r, b, |t.list|)
    ensures var e := Unpublish(Run(s, LastGivenUp(t)));
      && Following(t, r, b, e, |t.list| - 1, b + |t.list| - 1) && LastDone(e, t)
      && (PacketAt(r, b) != [] || |t.list| == 1 ==> Accepted(e, t))
  {
    hide Following, Progress, HcStep, Placed, Awaits, PacketAt, Exchange;
    var n, g := |t.list|, GivesUp(0);
    PlacedFits(t, r, b, n - 1, n);
    var k := ClearRun(t, r, b, s, 0, Clears(n - 1));
    var m := Run(s, Clears(n - 1));
    RunConcat(s, Clears(n - 1), [g]);
    assert Run(m, [g]) == HcStep(m, g);
    GivesUpNext(t, r, b, m, k);
    SeenAfterRun(t, r, b, HcStep(m, g), k, b + k, true);
  }

  lemma GivenUpTransfer(t: Transfer, r: Stream, b: nat, s: Sys)
    requires Begins(t, r, b, s, b) && Placed(t, r, b, |t.list|)
    ensures |t.list| > 0
    ensures var e := Perform(s, t, LastGivenUp(t));
      && Following(t, r, b, e, |t.list| - 1, b + |t.list| - 1) && LastDone(e, t)
      && (PacketAt(r, b) != [] || |t.list| == 1 ==> Accepted(e, t))
  {
    hide Following, Progress, HcStep, Begins, Placed, Awaits, PacketAt, Publish, LastDone, Run;
    BegunFollows(t, r, b, s, b);
    WithinList(t, r, b, Publish(s, t.base, t.list), 0, b);
    GivenUpRun(t, r, b, Publish(s, t.base, t.list));
  }

  lemma DropsRepeat(t: Transfer, r: Stream, b: nat, s: Sys)
    requires Progress(t.base, t.list, s, 0, false) && b > 0 && Following(t, r, b, s, 0, b - 1)
    requires Offers(Due(r, b - 1)) && |PacketAt(r, b - 1)| <= PacketSize(t, 0)
    ensures Progress(t.base, t.list, HcStep(s, Clear), 0, false) && Following(t, r, b, HcStep(s, Clear), 0, b)
  {
    hide Following, Progress, Offers, PacketAt, Due;
    WithinList(t, r, b, s, 0, b - 1);
    FollowingIsLinked(t, r, b, s, 0, b - 1);
    ProgressStep(t.base, t.list, s, 0, false, Clear);
    var d := FollowStep(t, r, b, s, 0, b - 1, false, Clear);
  }

  lemma PerformFirst(s: Sys, t: Transfer, f: Fault, fs: seq<Fault>)
    ensures Perform(s, t, [f] + fs) == Unpublish(Run(HcStep(Publish(s, t.base, t.list), f), fs))
  {
    hide HcStep, Publish;
    assert ([f] + fs)[1..] == fs;
  }

  /** Begun one packet behind, on a bus without faults: the first visit drops the repeat. */
  lemma LateTransfer(t: Transfer, r: Stream, b: nat, s: Sys)
    requires b > 0 && Begins(t, r, b, s, b - 1) && Placed(t, r, b, |t.list|)
    requires Offers(Due(r, b - 1)) && |PacketAt(r, b - 1)| <= PacketSize(t, 0)
    ensures var e := Perform(s, t, [Clear] + Clears(|t.list|));
      Following(t, r, b, e, |t.list|, b + |t.list|) && Seen(t, r, b, e, |t.list|, false)
  {
    hide Following, Progress, HcStep, Run, Begins, Placed, Awaits, PacketAt, Publish, Exchange, Due, Seen, PacketSize;
    var s0, n := Publish(s, t.base, t.list), |t.list|;
    BegunFollows(t, r, b, s, b - 1);
    WithinList(t, r, b, s0, 0, b - 1);
    DropsRepeat(t, r, b, s0);
    var k := ClearRun(t, r, b, HcStep(s0, Clear), 0, Clears(n));
    SeenAfterRun(t, r, b, Run(HcStep(s0, Clear), Clears(n)), k, b + k, false);
    PerformFirst(s, t, Clear, Clears(n));
  }

  /** The same, but the controller gives up on the last descriptor. */
  lemma LateGivenUpTransfer(t: Transfer, r: Stream, b: nat, s: Sys)
    requires b > 0 && Begins(t, r, b, s, b - 1) && Placed(t, r, b, |t.list|)
    requires Offers(Due(r, b - 1)) && |PacketAt(r, b - 1)| <= PacketSize(t, 0)
    ensures |t.list| > 0
    ensures var e := Perform(s, t, [Clear] + LastGivenUp(t));
      && Following(t, r, b, e, |t.list| - 1, b + |t.list| - 1) && LastDone(e, t)
      && (PacketAt(r, b) != [] || |t.list| == 1 ==> Accepted(e, t))
  {
    hide Following, Progress, HcStep, Run, Begins, Placed, Awaits, PacketAt, Publish, Due, LastDone, PacketSize;
    var s0 := Publish(s, t.base, t.list);
    BegunFollows(t, r, b, s, b - 1);
    WithinList(t, r, b, s0, 0, b - 1);
    DropsRepeat(t, r, b, s0);
    GivenUpRun(t, r, b, HcStep(s0, Clear));
    PerformFirst(s, t, Clear, LastGivenUp(t));
  }

  /** The first packet the device would send cannot go through: there is none, or it is too long. */
  predicate Refused(first: Td, dev: Device) {
    Offers(dev.phase) ==> FieldBytes(first.maxLength) < |Offered(dev.phase, dev.packetSize)|
  }

  /** An IN transfer whose first packet cannot go through retires nothing and leaves device and memory alone. */
  lemma {:induction false} RefusedRun(t: Transfer, mps: nat, s: Sys, failed: bool, fs: seq<Fault>)
      returns (failed': bool)
    requires Tiled(t, mps) && t.pid == InPid && OnBulk(InPid, t.endpoint, s.dev) && Refused(t.list[0], s.dev)
    requires Progress(t.base, t.list, s, 0, failed)
    ensures Progress(t.base, t.list, Run(s, fs), 0, failed')
    ensures Run(s, fs).dev == s.dev && Run(s, fs).ram == s.ram
    decreases |fs|
  {
    if fs == [] {
      failed' := failed;
    } else {
      assert Tile(t, mps, 0);
      ProgressStep(t.base, t.list, s, 0, failed, fs[0]);
      Visit(t.base, t.list, s, 0, failed, fs[0]);
      failed' := RefusedRun(t, mps, HcStep(s, fs[0]), NextFailed(t.list, s, 0, failed, fs[0]), fs[1..]);
    }
  }

  lemma RefusedTransfer(s: Sys, t: Transfer, mps: nat, fs: seq<Fault>)
    requires Tiled(t, mps) && t.pid == InPid && OnBulk(InPid, t.endpoint, s.dev) && Refused(t.list[0], s.dev)
    ensures Perform(s, t, fs).dev == s.dev && Perform(s, t, fs).ram == s.ram
    ensures LastDone(Perform(s, t, fs), t) ==> Errored(Perform(s, t, fs), t)
  {
    PublishedProgress(t.base, t.list, s);
    var failed := RefusedRun(t, mps, Publish(s, t.base, t.list), false, fs);
    LastSeen(t, mps, Run(Publish(s, t.base, t.list), fs), 0, failed);
  }

  // ---------------------------------------------------------------------------
  // Answers of the length asked for, and shorter ones
  // ---------------------------------------------------------------------------

  lemma {:induction false} CutsAt(t: Transfer, mps: nat, i: nat)
    requires Tiled(t, mps) && i <= |t.list|
    ensures t.cuts[i] <= Length(t) && (i < |t.list| ==> t.cuts[i] == mps * i < Length(t))
    decreases i
  {
    if i > 0 {
      assert Tile(t, mps, i - 1);
      CutsAt(t, mps, i - 1);
      assert mps * i == mps * (i - 1) + mps;
    } else {
      assert Tile(t, mps, 0);
    }
  }

  lemma NextSlice(data: seq<byte>, from: nat, to: nat)
    requires from <= to <= |data|
    ensures data[from..][..to - from] == data[from..to]
    ensures data[from..][to - from..] == data[to..]
    ensures data[..from] + data[from..to] == data[..to]
  {
  }

  /** One packet of a device that has data from `from` on left. */
  lemma SendsSlice(data: seq<byte>, next: Phase, packetSize: nat, from: nat, to: nat)
    requires from < to <= |data| && to - from <= packetSize && (to < |data| ==> to - from == packetSize)
    ensures Offered(Sending(data[from..], next), packetSize) == data[from..to]
    ensures AfterPacket(Sending(data[from..], next), packetSize) ==
      if to == |data| then next else Sending(data[to..], next)
  {
    NextSlice(data, from, to);
  }

  lemma TakesPacket(t: Transfer, r: Stream, b: nat, k: nat, data: seq<byte>, from: nat, to: nat)
    requires Awaits(t, r, b) && k < |t.list| && Placed(t, r, b, k) && Offers(Due(r, b + k))
    requires from <= to <= |data| && from == t.cuts[k] && PacketAt(r, b + k) == data[from..to]
    requires to - from <= PacketSize(t, k)
    requires t.buffer + |data| <= |r.ram| && Laid(t, r, b, k) == Splice(r.ram, t.buffer, data[..from])
    ensures Placed(t, r, b, k + 1) && Laid(t, r, b, k + 1) == Splice(r.ram, t.buffer, data[..to])
  {
    hide Due, PacketAt, Splice;
    assert Fits(t, r, b, k);
    assert Placed(t, r, b, k + 1);
    assert data[..from] + data[from..to] == data[..to];
    SpliceAppends(r.ram, t.buffer, data[..from], t.buffer + from, data[from..to]);
  }

  /** A device with exactly the bytes asked for: descriptor `i` takes the part of the data its buffer is for. */
  lemma {:induction false} SendingAlong(t: Transfer, r: Stream, b: nat, data: seq<byte>, next: Phase, k: nat)
    requires Awaits(t, r, b) && Due(r, b) == Sending(data, next) && |data| == Length(t) && k <= |t.list|
    ensures t.cuts[k] <= |data| && Due(r, b + k) == if k == |t.list| then next else Sending(data[t.cuts[k]..], next)
    ensures k < |t.list| ==> |PacketAt(r, b + k)| == PacketSize(t, k)
    ensures Placed(t, r, b, k) && Laid(t, r, b, k) == Splice(r.ram, t.buffer, data[..t.cuts[k]])
    decreases k
  {
    hide Laid, Placed, Splice, Ahead;
    CutsAt(t, r.dev.packetSize, k);
    if k == 0 {
      assert data[0..] == data && data[..0] == [];
      NothingLaid(t, r, b);
    } else {
      SendingAlong(t, r, b, data, next, k - 1);
      SendingStep(t, r, b, data, next, k - 1);
    }
    if k < |t.list| {
      assert Tile(t, r.dev.packetSize, k);
      SendsSlice(data, next, r.dev.packetSize, t.cuts[k], t.cuts[k + 1]);
    }
  }

  lemma SendingStep(t: Transfer, r: Stream, b: nat, data: seq<byte>, next: Phase, k: nat)
    requires Awaits(t, r, b) && |data| == Length(t) && k < |t.list|
    requires t.cuts[k] <= |data| && Due(r, b + k) == Sending(data[t.cuts[k]..], next)
    requires Placed(t, r, b, k) && Laid(t, r, b, k) == Splice(r.ram, t.buffer, data[..t.cuts[k]])
    ensures t.cuts[k + 1] <= |data|
    ensures Due(r, b + k + 1) == if k + 1 == |t.list| then next else Sending(data[t.cuts[k + 1]..], next)
    ensures Placed(t, r, b, k + 1) && Laid(t, r, b, k + 1) == Splice(r.ram, t.buffer, data[..t.cuts[k + 1]])
  {
    hide Ahead, Offered, AfterPacket, Splice;
    assert Tile(t, r.dev.packetSize, k);
    CutsAt(t, r.dev.packetSize, k + 1);
    SendsSlice(data, next, r.dev.packetSize, t.cuts[k], t.cuts[k + 1]);
    DueNext(r, b + k);
    TakesPacket(t, r, b, k, data, t.cuts[k], t.cuts[k + 1]);
  }

  /** A completed transfer has put exactly the device's data into the buffer. */
  lemma WholeAnswerIsLaid(t: Transfer, r: Stream, b: nat, s: Sys, d: nat, data: seq<byte>, next: Phase)
    requires Following(t, r, b, s, |t.list|, d) && Due(r, b) == Sending(data, next) && |data| == Length(t)
    ensures s.ram == Splice(r.ram, t.buffer, data) && Due(r, b + |t.list|) == next && t.buffer + |data| <= |r.ram|
  {
    hide Laid, Splice, Placed, Due, Lengths, PacketLengths, PacketAt;
    SendingAlong(t, r, b, data, next, |t.list|);
    assert data[..t.cuts[|t.list|]] == data;
  }

  /** How many packets a device sends that ends with a short one. */
  function EndingPackets(data: seq<byte>, packetSize: nat): nat
    requires packetSize > 0
  {
    |data| / packetSize + 1
  }

  lemma EndingCount(data: seq<byte>, mps: nat)
    requires mps > 0
    ensures var m := EndingPackets(data, mps); m > 0 && mps * (m - 1) <= |data| < mps * m
  {
    var q, rem := |data| / mps, |data| % mps;
    assert |data| == mps * q + rem;
    assert mps * (q + 1) == mps * q + mps;
  }

  lemma LessByFactor(mps: nat, a: nat, b: nat)
    requires mps * a < mps * b
    ensures a < b
  {
    if a >= b {
      MulMonotone(b, a, mps);
    }
  }

  lemma LengthIsBounded(t: Transfer, mps: nat)
    requires Tiled(t, mps)
    ensures mps > 0 && t.cuts != [] && Length(t) <= mps * |t.list|
  {
    var n := |t.list|;
    assert Tile(t, mps, n - 1);
    CutsAt(t, mps, n - 1);
    assert mps * n == mps * (n - 1) + mps;
  }

  lemma EndingBounds(t: Transfer, mps: nat, data: seq<byte>)
    requires Tiled(t, mps) && |data| < Length(t)
    ensures mps > 0 && EndingPackets(data, mps) <= |t.list|
    ensures mps * (EndingPackets(data, mps) - 1) <= |data| < mps * EndingPackets(data, mps)
  {
    hide Tiled, EndingPackets;
    LengthIsBounded(t, mps);
    EndingCount(data, mps);
    LessByFactor(mps, EndingPackets(data, mps) - 1, |t.list|);
  }

  lemma NothingLaid(t: Transfer, r: Stream, b: nat)
    requires Awaits(t, r, b)
    ensures t.cuts[0] == 0 && Placed(t, r, b, 0) && Laid(t, r, b, 0) == Splice(r.ram, t.buffer, [])
  {
    assert Splice(r.ram, t.buffer, []) == r.ram;
  }

  /** A device with fewer bytes than asked for that ends with a short packet: all of its packets fit, and the rest of
      the buffer is not written. */
  lemma {:induction false} EndingAlong(t: Transfer, r: Stream, b: nat, data: seq<byte>, next: Phase, k: nat)
    requires Awaits(t, r, b) && Due(r, b) == Ending(data, next) && |data| < Length(t) && r.dev.packetSize > 0
    requires k <= EndingPackets(data, r.dev.packetSize)
    ensures EndingPackets(data, r.dev.packetSize) <= |t.list|
    ensures var ps := r.dev.packetSize;
      if k == EndingPackets(data, ps) then Due(r, b + k) == next
      else ps * k <= |data| && Due(r, b + k) == Ending(data[ps * k..], next)
    ensures Placed(t, r, b, k) && Laid(t, r, b, k) == Splice(r.ram, t.buffer, UpTo(data, r.dev.packetSize * k))
    decreases k
  {
    hide Splice, Ahead, Placed, Laid, EndingPackets;
    EndingBounds(t, r.dev.packetSize, data);
    if k == 0 {
      assert data[0..] == data && UpTo(data, 0) == [];
      NothingLaid(t, r, b);
    } else {
      EndingAlong(t, r, b, data, next, k - 1);
      EndingStep(t, r, b, data, next, k - 1);
    }
  }

  /** One packet of a device that ends short. */
  lemma EndsSlice(data: seq<byte>, next: Phase, packetSize: nat, from: nat, to: nat)
    requires from <= to <= |data| && to == (if from + packetSize <= |data| then from + packetSize else |data|)
    ensures Offered(Ending(data[from..], next), packetSize) == data[from..to]
    ensures AfterPacket(Ending(data[from..], next), packetSize) ==
      if to - from < packetSize then next else Ending(data[to..], next)
  {
    NextSlice(data, from, to);
  }

  lemma ShortPacketEnd(mps: nat, data: seq<byte>, k: nat) returns (to: nat)
    requires mps > 0 && k < EndingPackets(data, mps)
    ensures mps * k <= |data| && to == (if mps * k + mps <= |data| then mps * k + mps else |data|)
    ensures if k + 1 == EndingPackets(data, mps) then to - mps * k < mps else to - mps * k == mps && to == mps * (k + 1)
  {
    var q, rem := |data| / mps, |data| % mps;
    assert |data| == mps * q + rem;
    MulMonotone(k, q, mps);
    assert mps * (k + 1) == mps * k + mps;
    if k < q {
      MulMonotone(k + 1, q, mps);
    }
    to := if mps * k + mps <= |data| then mps * k + mps else |data|;
  }

  /** Where packet `k` of the short answer begins and ends, and that it fits. */
  lemma ShortPacketBounds(t: Transfer, mps: nat, data: seq<byte>, k: nat) returns (to: nat)
    requires Tiled(t, mps) && |data| < Length(t) && mps > 0 && k < EndingPackets(data, mps)
    ensures k < |t.list| && t.cuts[k] == mps * k <= to <= |data|
    ensures to - mps * k <= PacketSize(t, k) && to == (if mps * k + mps <= |data| then mps * k + mps else |data|)
    ensures UpTo(data, mps * k) == data[..mps * k] && UpTo(data, mps * (k + 1)) == data[..to]
    ensures if k + 1 == EndingPackets(data, mps) then to - mps * k < mps else to - mps * k == mps && to == mps * (k + 1)
  {
    hide EndingPackets;
    EndingBounds(t, mps, data);
    to := ShortPacketEnd(mps, data, k);
    CutsAt(t, mps, k);
    assert Tile(t, mps, k);
    assert mps * (k + 1) == mps * k + mps;
  }

  lemma EndingStep(t: Transfer, r: Stream, b: nat, data: seq<byte>, next: Phase, k: nat)
    requires Awaits(t, r, b) && |data| < Length(t) && r.dev.packetSize > 0
    requires k < EndingPackets(data, r.dev.packetSize) && r.dev.packetSize * k <= |data|
    requires Due(r, b + k) == Ending(data[r.dev.packetSize * k..], next)
    requires k <= |t.list| && Placed(t, r, b, k)
    requires Laid(t, r, b, k) == Splice(r.ram, t.buffer, UpTo(data, r.dev.packetSize * k))
    ensures k < |t.list| && Placed(t, r, b, k + 1)
    ensures Laid(t, r, b, k + 1) == Splice(r.ram, t.buffer, UpTo(data, r.dev.packetSize * (k + 1)))
    ensures var ps := r.dev.packetSize;
      if k + 1 == EndingPackets(data, ps) then Due(r, b + k + 1) == next
      else ps * (k + 1) <= |data| && Due(r, b + k + 1) == Ending(data[ps * (k + 1)..], next)
  {
    hide Ahead, Splice, UpTo, EndingPackets, Tile, PacketSize, Placed, Laid;
    var ps := r.dev.packetSize;
    var to := ShortPacketBounds(t, ps, data, k);
    EndsSlice(data, next, ps, ps * k, to);
    DueNext(r, b + k);
    TakesPacket(t, r, b, k, data, ps * k, to);
  }

  /** Where a short answer's packets end, and, if they just fill the descriptors, what is then in memory. */
  lemma ShortAnswerIsLaid(t: Transfer, r: Stream, b: nat, s: Sys, d: nat, data: seq<byte>, next: Phase)
    requires Following(t, r, b, s, |t.list|, d) && Due(r, b) == Ending(data, next) && |data| < Length(t)
    ensures r.dev.packetSize > 0 && EndingPackets(data, r.dev.packetSize) <= |t.list| && t.buffer + Length(t) <= |r.ram|
    ensures Due(r, b + EndingPackets(data, r.dev.packetSize)) == next
    ensures EndingPackets(data, r.dev.packetSize) == |t.list| ==> s.ram == Splice(r.ram, t.buffer, data)
  {
    hide Laid, Splice, Placed, Due, Lengths, PacketLengths, PacketAt, EndingPackets;
    EndingBounds(t, r.dev.packetSize, data);
    EndingAlong(t, r, b, data, next, EndingPackets(data, r.dev.packetSize));
    assert UpTo(data, r.dev.packetSize * EndingPackets(data, r.dev.packetSize)) == data;
  }

  /** A transfer begun in step from a device with exactly the bytes asked for, once completed, has put exactly these
      into the buffer. Driver and device are then in step exactly when the last handshake was heard. */
  lemma CompletedTransferIsExact(t: Transfer, r: Stream, b: nat, s: Sys, data: seq<byte>, next: Phase, fs: seq<Fault>)
      returns (k: nat, d: nat, failed: bool)
    requires Begins(t, r, b, s, b) && t.cuts != [] && Due(r, b) == Sending(data, next) && |data| == Length(t)
    ensures t.buffer + |data| <= |r.ram|
    ensures Following(t, r, b, Perform(s, t, fs), k, d) && Seen(t, r, b, Perform(s, t, fs), k, failed)
    ensures k == |t.list| ==> Perform(s, t, fs).ram == Splice(r.ram, t.buffer, data)
    ensures k == |t.list| ==>
      (Perform(s, t, fs).dev == Acked(r, b + k) <==> LastHeard(Publish(s, t.base, t.list), t, fs))
  {
    hide Due, Following, Seen, LastHeard, Publish, Perform;
    k, d, failed := TransferFollows(t, r, b, s, b, fs);
    if k == |t.list| {
      WholeAnswerIsLaid(t, r, b, Perform(s, t, fs), d, data, next);
      CountIsKnown(t, r, b, Perform(s, t, fs), k, d);
    }
  }

  lemma CountIsKnown(t: Transfer, r: Stream, b: nat, s: Sys, k: nat, d: nat)
    requires Following(t, r, b, s, k, d)
    ensures s.dev == Acked(r, b + k) <==> d == b + k
  {
    hide Due;
    FlipIsNext(r.dev.inToggle, d);
  }

  /** A device one packet behind repeats it to the next transfer's first descriptor. That is noticed, and puts the two
      back in step, exactly when the packet fits the descriptor; otherwise the transfer fails. */
  lemma NextTransferRecoversExactly(t: Transfer, r: Stream, b: nat, s: Sys)
    requires b > 0 && Begins(t, r, b, s, b - 1) && Offers(Due(r, b - 1))
    ensures |t.list| > 0 && |t.cuts| > 1
    ensures var e, fits := Exchange(s.dev, s.ram, t.list[0], Clear), |PacketAt(r, b - 1)| <= PacketSize(t, 0);
      if fits then e == Stays(Acked(r, b)) else e.Fails?
  {
    hide Exchange, AfterPacket, Offered, Offers, Ahead;
    DescriptorFields(t, r, b, 0);
    AckedNext(r, b - 1);
    InExchange(s.dev, s.ram, t.list[0], Clear);
  }
}
