/** Control transfers carried out: what every interleaving of the controller with a device's control pipe leaves in
    memory. */
module ControlRuns {
  import opened Bytes
  import opened ControlPipe
  import opened BulkDevice
  import opened Uhci
  import opened TransferRuns
  import opened BulkRuns
  import opened UhciControl

  // ---------------------------------------------------------------------------
  // The device's side
  // ---------------------------------------------------------------------------

  /** The stage once `j` more data packets have been acknowledged. */
  function Along(stage: Stage, packetSize: nat, j: nat): Stage
    decreases j
  {
    if j == 0 || !stage.Answering? then stage else Along(AfterPiece(stage, packetSize), packetSize, j - 1)
  }

  lemma {:induction false} AlongNext(stage: Stage, packetSize: nat, j: nat)
    ensures var now := Along(stage, packetSize, j);
      Along(stage, packetSize, j + 1) == if now.Answering? then AfterPiece(now, packetSize) else now
    decreases j
  {
    if j > 0 && stage.Answering? {
      AlongNext(AfterPiece(stage, packetSize), packetSize, j - 1);
    }
  }

  /** There is a packet that begins at `from`. */
  predicate Begins(data: seq<byte>, short: bool, from: nat) {
    if short then from <= |data| else from < |data| || from == 0
  }

  lemma PieceStep(data: seq<byte>, short: bool, packetSize: nat, from: nat, toggle: nat)
    requires packetSize > 0 && from <= |data| && Begins(data, short, from) && toggle < 2
    ensures AfterPiece(Answering(data[from..], short, toggle), packetSize) ==
      if Begins(data, short, from + packetSize) then Answering(UpFrom(data, from + packetSize), short, 1 - toggle)
      else Confirming
  {
    if from + packetSize <= |data| {
      assert data[from..][packetSize..] == data[from + packetSize..];
    }
  }

  function UpFrom(data: seq<byte>, from: nat): seq<byte> {
    if from <= |data| then data[from..] else []
  }

  /** Where the device stands in its answer: the packets go on from where the last one ended, the toggles alternate. */
  lemma {:induction false} AlongRest(data: seq<byte>, short: bool, packetSize: nat, j: nat)
    requires packetSize > 0
    ensures var now := Along(Answering(data, short, 1), packetSize, j);
      if Begins(data, short, packetSize * j)
      then packetSize * j <= |data| && now == Answering(data[packetSize * j..], short, (1 + j) % 2)
      else now == Confirming
    decreases j
  {
    hide AfterPiece, Along;
    if j == 0 {
      assert packetSize * 0 == 0 && data[0..] == data;
      AlongNone(Answering(data, short, 1), packetSize);
    } else {
      AlongRest(data, short, packetSize, j - 1);
      AlongNext(Answering(data, short, 1), packetSize, j - 1);
      var from := packetSize * (j - 1);
      assert packetSize * j == from + packetSize;
      if Begins(data, short, from) {
        PieceStep(data, short, packetSize, from, j % 2);
      }
    }
  }

  lemma AlongNone(stage: Stage, packetSize: nat)
    ensures Along(stage, packetSize, 0) == stage
  {
  }

  // ---------------------------------------------------------------------------
  // One transfer
  // ---------------------------------------------------------------------------

  /** The driver's list, and the device and memory it begins with. */
  datatype Call = Call(c: Control, dev: Device, ram: seq<byte>)

  function Request(x: Call): seq<byte>
    requires x.c.setup + REQUEST_LENGTH <= |x.ram|
  {
    x.ram[x.c.setup..x.c.setup + REQUEST_LENGTH]
  }

  /** The request is in memory and asks for as many bytes as the list provides for, the packets' buffers lie in memory,
      and the device answers at the address, with packets of the size the driver reckons with. */
  ghost predicate Served(x: Call) {
    && Sane(x.c) && x.c.address == x.dev.address && x.dev.inEndpoint != 0 && x.dev.outEndpoint != 0
    && x.dev.control.packetSize == x.c.mps && x.c.setup + REQUEST_LENGTH <= |x.ram|
    && Asked(Request(x)) == x.c.length && InMemory(x.c, |x.ram|)
  }

  predicate InMemory(c: Control, size: nat)
    requires Sane(c)
  {
    DataPackets(c) == 0 || c.buffer + STRIDE * (DataPackets(c) - 1) + c.mps <= size
  }

  /** What the device makes of the request. */
  function First(x: Call): Stage
    requires x.c.setup + REQUEST_LENGTH <= |x.ram|
  {
    StageAfter(x.dev.control.answers, Request(x))
  }

  function StageAt(x: Call, j: nat): Stage
    requires x.c.setup + REQUEST_LENGTH <= |x.ram|
  {
    Along(First(x), x.c.mps, j)
  }

  /** The first `k` data packets exist. */
  ghost predicate Sends(x: Call, k: nat)
    requires x.c.setup + REQUEST_LENGTH <= |x.ram|
  {
    forall j :: 0 <= j < k ==> StageAt(x, j).Answering?
  }

  lemma PlaceInside(c: Control, size: nat, i: nat)
    requires Sane(c) && InMemory(c, size) && i < DataPackets(c)
    ensures c.buffer + STRIDE * i + c.mps <= size
  {
  }

  /** Memory with the first `k` of them stored, each eight bytes after the one before. */
  ghost function Kept(x: Call, k: nat): (ram: seq<byte>)
    requires Served(x) && k <= DataPackets(x.c) && Sends(x, k)
    ensures |ram| == |x.ram|
  {
    if k == 0 then x.ram else
    PlaceInside(x.c, |x.ram|, k - 1);
    assert StageAt(x, k - 1).Answering?;
    Splice(Kept(x, k - 1), x.c.buffer + STRIDE * (k - 1), Piece(StageAt(x, k - 1).rest, x.c.mps))
  }

  /** `k` descriptors have been carried out. The device is where the driver is, or one data packet behind, or ahead of
      its status. */
  ghost predicate Calling(x: Call, s: Sys, k: nat) {
    && Served(x) && k <= DataPackets(x.c) + 2
    && s.dev == x.dev.(control := x.dev.control.(stage := s.dev.control.stage))
    && Sends(x, DataDone(x, k)) && s.ram == Kept(x, DataDone(x, k))
    && (k == 0 ==> s.dev.control.stage == x.dev.control.stage || s.dev.control.stage == First(x))
    && (1 <= k <= DataPackets(x.c) + 1 ==>
          || s.dev.control.stage == StageAt(x, k - 1)
          || (k >= 2 && s.dev.control.stage == StageAt(x, k - 2))
          || (k == DataPackets(x.c) + 1 && s.dev.control.stage == Waiting))
  }

  /** How many of them are data descriptors. */
  function DataDone(x: Call, k: nat): nat
    requires Sane(x.c)
  {
    if k == 0 then 0 else if k <= DataPackets(x.c) + 1 then k - 1 else DataPackets(x.c)
  }

  /** The device is not behind. */
  ghost predicate UpToDate(x: Call, s: Sys, k: nat)
    requires Served(x)
  {
    k == 0 || s.dev.control.stage == StageAt(x, k - 1)
  }

  // ---------------------------------------------------------------------------
  // One visit of the controller
  // ---------------------------------------------------------------------------

  lemma ToggleOfPiece(x: Call, j: nat)
    requires Served(x) && StageAt(x, j).Answering?
    ensures First(x).Answering? && StageAt(x, j).toggle == (1 + j) % 2
  {
    var first := First(x);
    if !first.Answering? {
      NotAnswering(first, x.c.mps, j);
    }
    PositivePackets(x);
    AlongRest(first.rest, first.short, x.c.mps, j);
  }

  lemma PositivePackets(x: Call)
    requires Served(x)
    ensures x.c.mps > 0
  {
  }

  lemma NotAnswering(stage: Stage, packetSize: nat, j: nat)
    requires !stage.Answering?
    ensures Along(stage, packetSize, j) == stage
  {
  }

  /** SETUP. */
  lemma RequestVisit(x: Call, s: Sys, f: Fault)
    requires Calling(x, s, 0)
    ensures var e := Exchange(s.dev, s.ram, SetupTd(x.c), f);
      && (e.Stays? ==> Calling(x, s.(dev := e.dev), 0))
      && (e.Retires? ==>
            Calling(x, Sys(s.tds, s.element, e.ram, e.dev), 1) && (!f.Unheard? ==> e.dev.control.stage == First(x)))
      && (f.Clear? ==> e.Retires?)
  {
    hide StageAfter, DataPackets, Asked;
    assert x.ram[x.c.setup..x.c.setup + 8] == Request(x);
    assert StageAt(x, 0) == First(x);
  }

  /** What a device that has packet `j` of its answer to send does with descriptor `k`. */
  lemma GivesPiece(x: Call, s: Sys, k: nat, j: nat, f: Fault)
    requires Served(x) && 1 <= k <= DataPackets(x.c) && |s.ram| == |x.ram|
    requires s.dev == x.dev.(control := x.dev.control.(stage := StageAt(x, j))) && StageAt(x, j).Answering?
    ensures var e, piece := Exchange(s.dev, s.ram, DataTd(x.c, k), f), Piece(StageAt(x, j).rest, x.c.mps);
      var after := if f.Unheard? then s.dev else x.dev.(control := x.dev.control.(stage := StageAt(x, j + 1)));
      && x.c.buffer + STRIDE * (k - 1) + |piece| <= |s.ram|
      && e == if f.NotReady? then Stays(s.dev) else if f.GivesUp? then Fails(f.actual)
              else if (1 + j) % 2 != k % 2 then Stays(after)
              else Retires(after, Splice(s.ram, x.c.buffer + STRIDE * (k - 1), piece), |piece|)
  {
    hide StageAfter, DataPackets, Asked, Along, AfterPiece, Request, Splice;
    PlaceInside(x.c, |x.ram|, k - 1);
    ToggleOfPiece(x, j);
    AlongNext(First(x), x.c.mps, j);
  }

  /** A data packet. */
  lemma DataVisit(x: Call, s: Sys, k: nat, f: Fault)
    requires Calling(x, s, k) && 1 <= k <= DataPackets(x.c)
    ensures var e := Exchange(s.dev, s.ram, DataTd(x.c, k), f);
      && (e.Stays? ==> Calling(x, s.(dev := e.dev), k))
      && (e.Retires? ==> Calling(x, Sys(s.tds, s.element, e.ram, e.dev), k + 1)
                         && (!f.Unheard? ==> e.dev.control.stage == StageAt(x, k))
                         && StageAt(x, k - 1).Answering? && e.bytes == |Piece(StageAt(x, k - 1).rest, x.c.mps)|)
      && (f.Clear? && UpToDate(x, s, k) && StageAt(x, k - 1).Answering? ==> e.Retires?)
  {
    hide StageAfter, DataPackets, Asked, Along, AfterPiece, Request, Splice, Piece, ControlPipe.Give, Exchange;
    if s.dev.control.stage == StageAt(x, k - 1) && StageAt(x, k - 1).Answering? {
      assert Sends(x, k);
      GivesPiece(x, s, k, k - 1, f);
    } else if s.dev.control.stage == StageAt(x, k - 1) {
      GivesNothing(x, s, k, f);
    } else {
      assert StageAt(x, k - 2).Answering?;
      GivesPiece(x, s, k, k - 2, f);
    }
  }

  /** Past its answer the device sends no data. */
  lemma GivesNothing(x: Call, s: Sys, k: nat, f: Fault)
    requires Served(x) && 1 <= k <= DataPackets(x.c) && |s.ram| == |x.ram|
    requires s.dev == x.dev.(control := x.dev.control.(stage := StageAt(x, k - 1))) && !StageAt(x, k - 1).Answering?
    ensures var e := Exchange(s.dev, s.ram, DataTd(x.c, k), f);
      !e.Retires? && (e.Stays? ==> e.dev == s.dev)
  {
    PlaceInside(x.c, |x.ram|, k - 1);
    NeverReports(x, k - 1);
  }

  /** A request for data is never answered by a report. */
  lemma NeverReports(x: Call, j: nat)
    requires Served(x) && DataPackets(x.c) > 0
    ensures !StageAt(x, j).Reporting? && !StageAt(x, j).Waiting?
    ensures StageAt(x, j).Refusing? <==> First(x).Refusing?
  {
    SomeData(x);
    NeverReportsFrom(First(x), x.c.mps, j);
  }

  lemma SomeData(x: Call)
    requires Served(x) && DataPackets(x.c) > 0
    ensures !First(x).Reporting? && !First(x).Waiting?
  {
    PacketsCover(x.c.length, x.c.mps);
  }

  lemma NoData(x: Call)
    requires Served(x) && DataPackets(x.c) == 0
    ensures StageAt(x, 0) == First(x) && (First(x).Reporting? || First(x).Refusing?)
  {
    PacketsCover(x.c.length, x.c.mps);
  }

  lemma {:induction false} NeverReportsFrom(stage: Stage, packetSize: nat, j: nat)
    requires !stage.Reporting? && !stage.Waiting?
    ensures !Along(stage, packetSize, j).Reporting? && !Along(stage, packetSize, j).Waiting?
    ensures Along(stage, packetSize, j).Refusing? <==> stage.Refusing?
    decreases j
  {
    if j > 0 && stage.Answering? {
      NeverReportsFrom(AfterPiece(stage, packetSize), packetSize, j - 1);
    }
  }

  /** The status packet. */
  lemma StatusVisit(x: Call, s: Sys, f: Fault)
    requires Served(x) && Calling(x, s, DataPackets(x.c) + 1)
    ensures var n := DataPackets(x.c);
      var e := Exchange(s.dev, s.ram, ControlTd(x.c, n + 1), f);
      && (e.Stays? ==> Calling(x, s.(dev := e.dev), n + 1))
      && (e.Retires? ==> Calling(x, Sys(s.tds, s.element, e.ram, e.dev), n + 2))
      && (f.Clear? && UpToDate(x, s, n + 1) && !First(x).Refusing? ==> e.Retires?)
  {
    hide StageAfter, Asked, Along, AfterPiece, Request;
    if DataPackets(x.c) == 0 {
      NoData(x);
      assert Splice(s.ram, 0, []) == s.ram;
    } else {
      NeverReports(x, DataPackets(x.c));
      NeverReports(x, DataPackets(x.c) - 1);
    }
  }

  /** One visit to the next descriptor, whichever it is. */
  lemma CallVisit(x: Call, s: Sys, k: nat, f: Fault)
    requires Served(x) && Calling(x, s, k) && k < DataPackets(x.c) + 2
    ensures var e := Exchange(s.dev, s.ram, ControlTd(x.c, k), f);
      && (e.Stays? ==> Calling(x, s.(dev := e.dev), k))
      && (e.Retires? ==> Calling(x, Sys(s.tds, s.element, e.ram, e.dev), k + 1))
      && (e.Retires? && 1 <= k <= DataPackets(x.c) ==>
            StageAt(x, k - 1).Answering? && e.bytes == |Piece(StageAt(x, k - 1).rest, x.c.mps)|)
      && (f.Clear? && UpToDate(x, s, k) && Willing(x) ==>
            e.Retires? && (k <= DataPackets(x.c) ==> e.dev.control.stage == StageAt(x, k)))
  {
    hide Exchange, Calling, UpToDate, StageAt, DataPackets;
    if k == 0 {
      RequestVisit(x, s, f);
      Starts(x);
    } else if k <= DataPackets(x.c) {
      DataVisit(x, s, k, f);
    } else {
      StatusVisit(x, s, f);
    }
  }

  lemma Starts(x: Call)
    requires Served(x)
    ensures StageAt(x, 0) == First(x)
  {
  }

  /** The device takes the request, and has a packet for each data descriptor. */
  ghost predicate Willing(x: Call)
    requires Served(x)
  {
    !First(x).Refusing? && Sends(x, DataPackets(x.c))
  }

  /** The data descriptors carried out report the lengths of their packets. */
  ghost predicate Reports(x: Call, tds: map<nat, Td>, k: nat)
    requires Served(x)
  {
    forall j {:trigger StageAt(x, j)} :: 0 <= j < DataDone(x, k) && StageAt(x, j).Answering? ==>
      && Addr(x.c.base, j + 1) in tds
      && tds[Addr(x.c.base, j + 1)].actualLength == LengthField(|Piece(StageAt(x, j).rest, x.c.mps)|)
  }

  lemma ReportsOneMore(x: Call, s: Sys, k: nat, e: Effect)
    requires Served(x) && k < |ControlList(x.c)| && Reports(x, s.tds, k)
    requires e.Retires? && 1 <= k <= DataPackets(x.c) ==>
      StageAt(x, k - 1).Answering? && e.bytes == |Piece(StageAt(x, k - 1).rest, x.c.mps)|
    ensures Reports(x, Apply(s, Addr(x.c.base, k), ControlList(x.c)[k], e).tds, if e.Retires? then k + 1 else k)
  {
    hide LinkWord, StageAt, DataPackets;
  }

  lemma CallStep(x: Call, s: Sys, k: nat, failed: bool, f: Fault)
    requires Served(x) && Progress(x.c.base, ControlList(x.c), s, k, failed) && Calling(x, s, k)
    requires Reports(x, s.tds, k)
    ensures var list := ControlList(x.c);
      && Calling(x, HcStep(s, f), NextDone(list, s, k, failed, f))
      && Reports(x, HcStep(s, f).tds, NextDone(list, s, k, failed, f))
      && (f.Clear? && !failed && k < |list| && UpToDate(x, s, k) && Willing(x) ==>
            && NextDone(list, s, k, failed, f) == k + 1 && !NextFailed(list, s, k, failed, f)
            && (k <= DataPackets(x.c) ==> UpToDate(x, HcStep(s, f), k + 1)))
  {
    hide Exchange, HcStep, DataPackets, LinkWord, StageAt, Progress, Reports;
    var list := ControlList(x.c);
    ControlIsLinked(x.c);
    Visit(x.c.base, list, s, k, failed, f);
    WithinCall(x, s, k, failed);
    if !failed && k < |list| {
      CallVisit(x, s, k, f);
      assert list[k] == ControlTd(x.c, k);
      AppliesTo(x, s, k, Exchange(s.dev, s.ram, list[k], f));
      ReportsOneMore(x, s, k, Exchange(s.dev, s.ram, list[k], f));
    }
  }

  lemma WithinCall(x: Call, s: Sys, k: nat, failed: bool)
    requires Served(x) && Progress(x.c.base, ControlList(x.c), s, k, failed)
    ensures k <= |ControlList(x.c)| == DataPackets(x.c) + 2
  {
  }

  /** Whether a call is under way does not depend on descriptor memory. */
  lemma AppliesTo(x: Call, s: Sys, k: nat, e: Effect)
    requires Served(x) && k < |ControlList(x.c)| && Calling(x, s, k)
    requires e.Stays? ==> Calling(x, s.(dev := e.dev), k)
    requires e.Retires? ==> Calling(x, Sys(s.tds, s.element, e.ram, e.dev), k + 1)
    ensures Calling(x, Apply(s, Addr(x.c.base, k), ControlList(x.c)[k], e), if e.Retires? then k + 1 else k)
  {
    hide LinkWord, Kept, StageAt;
  }

  /** Every run of a control transfer, with any number of lost handshakes, brings the device its request and stores the
      packets of its answer in order, each once, eight bytes apart. */
  lemma {:induction false} CallRun(x: Call, s: Sys, k: nat, failed: bool, fs: seq<Fault>)
      returns (k': nat, failed': bool)
    requires Served(x) && Progress(x.c.base, ControlList(x.c), s, k, failed) && Calling(x, s, k)
    requires Reports(x, s.tds, k)
    ensures Progress(x.c.base, ControlList(x.c), Run(s, fs), k', failed') && Calling(x, Run(s, fs), k')
    ensures Reports(x, Run(s, fs).tds, k')
    ensures AllClear(fs) && !failed && (UpToDate(x, s, k) || k == |ControlList(x.c)|) && Willing(x) ==>
      !failed' && k' == AtMostAll(k + |fs|, |ControlList(x.c)|)
    decreases |fs|
  {
    hide HcStep, Exchange, Calling, UpToDate, Progress, DataPackets, Willing, Reports;
    WithinCall(x, s, k, failed);
    if fs == [] {
      k', failed' := k, failed;
    } else {
      var list := ControlList(x.c);
      ControlIsLinked(x.c);
      ProgressStep(x.c.base, list, s, k, failed, fs[0]);
      CallStep(x, s, k, failed, fs[0]);
      k', failed' := CallRun(x, HcStep(s, fs[0]), NextDone(list, s, k, failed, fs[0]),
                             NextFailed(list, s, k, failed, fs[0]), fs[1..]);
    }
  }

  // ---------------------------------------------------------------------------
  // Whole transfers
  // ---------------------------------------------------------------------------

  function Carry(s: Sys, c: Control, fs: seq<Fault>): Sys
    requires Sane(c)
  {
    Unpublish(Run(Publish(s, c.base, ControlList(c)), fs))
  }

  /** All the driver looks at: the status descriptor is no longer active. */
  ghost predicate StatusDone(s: Sys, c: Control)
    requires Sane(c)
  {
    var last := Addr(c.base, DataPackets(c) + 1);
    last in s.tds && !s.tds[last].active
  }

  ghost predicate BeginsCall(x: Call, s: Sys) {
    Served(x) && s.dev == x.dev && s.ram == x.ram
  }

  lemma CallEnds(x: Call, s: Sys, fs: seq<Fault>) returns (k: nat, failed: bool)
    requires BeginsCall(x, s)
    ensures Calling(x, Carry(s, x.c, fs), k) && Reports(x, Carry(s, x.c, fs).tds, k)
    ensures StatusDone(Carry(s, x.c, fs), x.c)
       <==> k == DataPackets(x.c) + 2 || (failed && k == DataPackets(x.c) + 1)
    ensures AllClear(fs) && Willing(x) ==> !failed && k == AtMostAll(|fs|, DataPackets(x.c) + 2)
  {
    hide Run, HcStep, LinkWord, StageAt, DataPackets, Willing, Standing;
    ControlIsLinked(x.c);
    PublishedProgress(x.c.base, ControlList(x.c), s);
    k, failed := CallRun(x, Publish(s, x.c.base, ControlList(x.c)), 0, false, fs);
    LastInactive(x.c.base, ControlList(x.c), Run(Publish(s, x.c.base, ControlList(x.c)), fs), k, failed);
  }

  /** A control transfer whose status descriptor the driver sees inactive, with whatever error bits, has stored every
      packet of the device's answer, and nothing else. If it asked for data, the device has not refused it. */
  lemma ControlSuccessIsSound(x: Call, s: Sys, fs: seq<Fault>)
    requires BeginsCall(x, s) && StatusDone(Carry(s, x.c, fs), x.c)
    ensures Sends(x, DataPackets(x.c)) && Carry(s, x.c, fs).ram == Kept(x, DataPackets(x.c))
    ensures DataPackets(x.c) > 0 ==> First(x).Answering?
  {
    hide Carry, StageAfter, Kept, DataPackets, StatusDone;
    var k, failed := CallEnds(x, s, fs);
    if DataPackets(x.c) > 0 {
      assert StageAt(x, 0).Answering?;
      Starts(x);
    }
  }

  /** Without faults and with a visit for each descriptor it does succeed, if the device takes the request and its
      answer has a packet for each data descriptor. */
  lemma ClearCallSucceeds(x: Call, s: Sys, fs: seq<Fault>)
    requires BeginsCall(x, s) && Willing(x) && AllClear(fs)
    ensures StatusDone(Carry(s, x.c, fs), x.c) <==> |fs| >= DataPackets(x.c) + 2
  {
    hide Carry, StatusDone, Willing, DataPackets;
    var k, failed := CallEnds(x, s, fs);
  }

  /** When that is so: the answer is as long as asked for, or it ends with a short packet in the last descriptor. */
  lemma WillingExactly(x: Call)
    requires Served(x)
    ensures Willing(x) <==>
      match First(x)
      case Reporting => true
      case Answering(data, short, _) => short ==> x.c.mps * (DataPackets(x.c) - 1) <= |data|
      case _ => false
  {
    var n, first, mps := DataPackets(x.c), First(x), x.c.mps;
    PacketsCover(x.c.length, mps);
    if first.Answering? {
      forall j | 0 <= j < n
        ensures StageAt(x, j).Answering? <==> if first.short then mps * j <= |first.rest| else mps * j < |first.rest| {
        AlongRest(first.rest, first.short, mps, j);
        assert mps * 0 == 0;
      }
      forall j | 0 <= j < n ensures mps * j <= mps * (n - 1) {
        MulMonotone(j, n - 1, mps);
      }
      if !StageAt(x, n - 1).Answering? {
        assert !Sends(x, n);
      }
    }
  }

  /** The run in which a request without data is refused and the driver does not notice: the device stalls the status
      packet, and its descriptor is inactive all the same. */
  lemma RefusalUnnoticed(x: Call, s: Sys) returns (fs: seq<Fault>)
    requires BeginsCall(x, s) && DataPackets(x.c) == 0 && First(x).Refusing?
    ensures AllClear(fs) && StatusDone(Carry(s, x.c, fs), x.c)
  {
    hide LinkWord, StageAfter;
    fs := [Clear, Clear];
    var list, s0 := ControlList(x.c), Publish(s, x.c.base, ControlList(x.c));
    ControlIsLinked(x.c);
    PublishedProgress(x.c.base, list, s);
    Visit(x.c.base, list, s0, 0, false, Clear);
    RequestVisit(x, s0, Clear);
    ProgressStep(x.c.base, list, s0, 0, false, Clear);
    var s1 := HcStep(s0, Clear);
    Visit(x.c.base, list, s1, 1, false, Clear);
    assert Exchange(s1.dev, s1.ram, list[1], Clear) == Fails(NO_DATA);
    assert Run(s0, fs) == HcStep(s1, Clear) by {
      assert fs[1..] == [Clear];
    }
  }

  /** A request the device refuses fails in every run exactly when it asks for data. */
  lemma RefusalIsNoticedExactly(x: Call, s: Sys)
    requires BeginsCall(x, s) && First(x).Refusing?
    ensures (forall fs :: !StatusDone(Carry(s, x.c, fs), x.c)) <==> x.c.length > 0
  {
    hide Carry, StatusDone;
    PacketsCover(x.c.length, x.c.mps);
    if x.c.length > 0 {
      forall fs ensures !StatusDone(Carry(s, x.c, fs), x.c) {
        if StatusDone(Carry(s, x.c, fs), x.c) {
          ControlSuccessIsSound(x, s, fs);
        }
      }
    } else {
      var fs := RefusalUnnoticed(x, s);
    }
  }

  // ---------------------------------------------------------------------------
  // Where the packets go
  // ---------------------------------------------------------------------------

  /** Packet `j` of `data`. */
  function PieceOf(data: seq<byte>, mps: nat, j: nat): (piece: seq<byte>)
    ensures |piece| <= mps
  {
    if mps * j >= |data| then [] else if mps * j + mps <= |data| then data[mps * j..mps * j + mps] else data[mps * j..]
  }

  /** Memory once the first `k` packets of `data` have been stored by the list of `c`. */
  function Stored(ram: seq<byte>, c: Control, data: seq<byte>, k: nat): (r: seq<byte>)
    requires Sane(c) && InMemory(c, |ram|) && k <= DataPackets(c)
    ensures |r| == |ram|
  {
    if k == 0 then ram else
    PlaceInside(c, |ram|, k - 1);
    Splice(Stored(ram, c, data, k - 1), c.buffer + STRIDE * (k - 1), PieceOf(data, c.mps, k - 1))
  }

  lemma {:induction false} KeptIsStored(x: Call, k: nat)
    requires Served(x) && k <= DataPackets(x.c) && Sends(x, k) && First(x).Answering?
    ensures Kept(x, k) == Stored(x.ram, x.c, First(x).rest, k)
  {
    hide Splice, StageAfter, DataPackets;
    if k > 0 {
      KeptIsStored(x, k - 1);
      assert StageAt(x, k - 1).Answering?;
      PositivePackets(x);
      AlongRest(First(x).rest, First(x).short, x.c.mps, k - 1);
      AnswersFromOne(x);
      PieceIsPieceOf(First(x).rest, x.c.mps, k - 1);
    }
  }

  lemma AnswersFromOne(x: Call)
    requires Served(x) && First(x).Answering?
    ensures First(x) == Answering(First(x).rest, First(x).short, 1)
  {
  }

  lemma PieceIsPieceOf(data: seq<byte>, mps: nat, j: nat)
    requires mps * j <= |data|
    ensures Piece(data[mps * j..], mps) == PieceOf(data, mps, j)
  {
    var from := mps * j;
    if from + mps <= |data| {
      assert data[from..][..mps] == data[from..from + mps];
    }
  }

  /** In packets of eight bytes the data ends up in one piece. */
  lemma {:induction false} EightsAreContiguous(ram: seq<byte>, c: Control, data: seq<byte>, k: nat)
    requires Sane(c) && InMemory(c, |ram|) && k <= DataPackets(c) && c.mps == STRIDE && k > 0
    ensures c.buffer + |UpTo(data, STRIDE * k)| <= |ram|
    ensures Stored(ram, c, data, k) == Splice(ram, c.buffer, UpTo(data, STRIDE * k))
  {
    hide Splice, DataPackets;
    PlaceInside(c, |ram|, k - 1);
    var from := STRIDE * (k - 1);
    if k > 1 {
      EightsAreContiguous(ram, c, data, k - 1);
    } else {
      NothingSpliced(ram, c.buffer);
      assert UpTo(data, 0) == [];
      assert Stored(ram, c, data, 0) == ram;
    }
    assert UpTo(data, from) + PieceOf(data, STRIDE, k - 1) == UpTo(data, STRIDE * k);
    if from <= |data| {
      SpliceAppends(ram, c.buffer, UpTo(data, from), c.buffer + from, PieceOf(data, STRIDE, k - 1));
    } else {
      NothingSpliced(Stored(ram, c, data, k - 1), c.buffer + from);
    }
  }

  lemma NothingSpliced(ram: seq<byte>, at: nat)
    requires at <= |ram|
    ensures Splice(ram, at, []) == ram
  {
  }

  /** The buffer ends up with the data, from its first byte on. */
  ghost predicate Keeps(ram: seq<byte>, c: Control, data: seq<byte>)
    requires Sane(c) && InMemory(c, |ram|)
  {
    && c.buffer + |data| <= |ram|
    && Stored(ram, c, data, DataPackets(c))[c.buffer..c.buffer + |data|] == data
  }

  lemma PacketsOf(c: Control)
    requires Sane(c)
    ensures c.length <= c.mps * DataPackets(c) && (DataPackets(c) == 0 ==> c.length == 0)
    ensures DataPackets(c) >= 2 ==> c.length > c.mps
  {
    PacketsCover(c.length, c.mps);
    if DataPackets(c) >= 2 {
      MulMonotone(1, DataPackets(c) - 1, c.mps);
    }
  }

  lemma GoodStrideStores(ram: seq<byte>, c: Control, data: seq<byte>)
    requires Sane(c) && InMemory(c, |ram|) && |data| <= c.length && (c.mps == STRIDE || DataPackets(c) <= 1)
    requires c.buffer <= |ram|
    ensures c.buffer + |data| <= |ram|
    ensures Stored(ram, c, data, DataPackets(c)) == Splice(ram, c.buffer, data)
  {
    hide DataPackets, Splice, PieceOf, InMemory, Stored;
    PacketsOf(c);
    if DataPackets(c) == 0 {
      NothingSpliced(ram, c.buffer);
      NoneStored(ram, c, data);
    } else if c.mps == STRIDE {
      EightsStored(ram, c, data);
    } else {
      OneStored(ram, c, data);
    }
  }

  lemma EightsStored(ram: seq<byte>, c: Control, data: seq<byte>)
    requires Sane(c) && InMemory(c, |ram|) && |data| <= c.length && c.mps == STRIDE && DataPackets(c) > 0
    ensures c.buffer + |data| <= |ram|
    ensures Stored(ram, c, data, DataPackets(c)) == Splice(ram, c.buffer, data)
  {
    hide DataPackets, Splice, PieceOf, InMemory, Stored;
    EightsAreContiguous(ram, c, data, DataPackets(c));
    EightsCover(c);
    AllOf(data, STRIDE * DataPackets(c));
  }

  lemma EightsCover(c: Control)
    requires Sane(c) && c.mps == STRIDE
    ensures c.length <= STRIDE * DataPackets(c)
  {
    PacketsCover(c.length, STRIDE);
  }

  lemma AllOf(data: seq<byte>, n: nat)
    requires |data| <= n
    ensures UpTo(data, n) == data
  {
  }

  lemma NoneStored(ram: seq<byte>, c: Control, data: seq<byte>)
    requires Sane(c) && InMemory(c, |ram|)
    ensures Stored(ram, c, data, 0) == ram
  {
  }

  lemma OneStored(ram: seq<byte>, c: Control, data: seq<byte>)
    requires Sane(c) && InMemory(c, |ram|) && |data| <= c.mps && DataPackets(c) >= 1
    ensures c.buffer + |data| <= |ram| && Stored(ram, c, data, 1) == Splice(ram, c.buffer, data)
  {
    hide DataPackets, Splice, PieceOf, InMemory;
    PlaceInside(c, |ram|, 0);
    OnePiece(data, c.mps);
    NoneStored(ram, c, data);
  }

  lemma GoodStrideKeeps(ram: seq<byte>, c: Control, data: seq<byte>)
    requires Sane(c) && InMemory(c, |ram|) && |data| <= c.length && (c.mps == STRIDE || DataPackets(c) <= 1)
    requires c.buffer <= |ram|
    ensures Keeps(ram, c, data)
    ensures SameOutside(ram, Stored(ram, c, data, DataPackets(c)), c.buffer, c.buffer + |data|)
  {
    hide DataPackets, Splice, InMemory, Stored, SameOutside;
    GoodStrideStores(ram, c, data);
    InPlace(ram, c.buffer, data);
  }

  lemma InPlace(ram: seq<byte>, at: nat, data: seq<byte>)
    requires at + |data| <= |ram|
    ensures Splice(ram, at, data)[at..at + |data|] == data
    ensures SameOutside(ram, Splice(ram, at, data), at, at + |data|)
  {
  }

  lemma OnePiece(data: seq<byte>, mps: nat)
    requires |data| <= mps
    ensures PieceOf(data, mps, 0) == data
  {
    assert mps * 0 == 0;
  }

  /** With longer packets the second one overwrites the end of the first. */
  lemma {:induction false} LongPacketsOverlap(ram: seq<byte>, c: Control, data: seq<byte>, k: nat)
    requires Sane(c) && InMemory(c, |ram|) && 2 <= k <= DataPackets(c) && c.mps > STRIDE && c.mps < |data|
    ensures c.buffer + STRIDE < |ram| && Stored(ram, c, data, k)[c.buffer + STRIDE] == data[c.mps]
  {
    hide DataPackets, Splice, PieceOf, InMemory;
    PlaceInside(c, |ram|, k - 1);
    var was, piece := Stored(ram, c, data, k - 1), PieceOf(data, c.mps, k - 1);
    SplicedAt(was, c.buffer + STRIDE * (k - 1), piece, c.buffer + STRIDE);
    if k > 2 {
      LongPacketsOverlap(ram, c, data, k - 1);
    } else {
      SecondPiece(data, c.mps);
    }
  }

  lemma SplicedAt(ram: seq<byte>, at: nat, data: seq<byte>, i: nat)
    requires at + |data| <= |ram| && i < |ram|
    ensures Splice(ram, at, data)[i] == if at <= i < at + |data| then data[i - at] else ram[i]
  {
  }

  lemma SecondPiece(data: seq<byte>, mps: nat)
    requires 0 < mps < |data|
    ensures PieceOf(data, mps, 1) != [] && PieceOf(data, mps, 1)[0] == data[mps]
  {
    assert mps * 1 == mps;
  }

  /** With shorter ones there is a gap between them. */
  lemma {:induction false} ShortPacketsLeaveGap(ram: seq<byte>, c: Control, data: seq<byte>, k: nat)
    requires Sane(c) && InMemory(c, |ram|) && k <= DataPackets(c) && c.mps < STRIDE && DataPackets(c) >= 2
    ensures c.buffer + c.mps < |ram| && Stored(ram, c, data, k)[c.buffer + c.mps] == ram[c.buffer + c.mps]
  {
    hide DataPackets;
    PlaceInside(c, |ram|, 1);
    if k > 0 {
      PlaceInside(c, |ram|, k - 1);
      ShortPacketsLeaveGap(ram, c, data, k - 1);
    }
  }

  lemma BadStrideLoses(c: Control) returns (ram: seq<byte>, data: seq<byte>)
    requires Sane(c) && c.mps != STRIDE && DataPackets(c) >= 2
    ensures InMemory(c, |ram|) && |data| <= c.length && c.buffer <= |ram| && !Keeps(ram, c, data)
  {
    hide DataPackets;
    var n := DataPackets(c);
    PacketsOf(c);
    ram := Zeros(c.buffer + STRIDE * n + c.length + c.mps);
    if c.mps > STRIDE {
      data := Zeros(c.length)[STRIDE := 1];
      LongPacketsOverlap(ram, c, data, n);
      assert Stored(ram, c, data, n)[c.buffer + STRIDE] == 0;
      assert Stored(ram, c, data, n)[c.buffer..c.buffer + |data|][STRIDE] == 0;
    } else {
      data := Zeros(c.length)[c.mps := 1];
      ShortPacketsLeaveGap(ram, c, data, n);
      assert Stored(ram, c, data, n)[c.buffer..c.buffer + |data|][c.mps] == 0;
    }
  }

  /** The fixed stride of eight puts every answer into the buffer in one piece, whatever memory held, exactly when
      packets have eight bytes or there is at most one. */
  lemma StrideKeepsExactly(c: Control)
    requires Sane(c)
    ensures (forall ram: seq<byte>, data: seq<byte> ::
               InMemory(c, |ram|) && c.buffer <= |ram| && |data| <= c.length ==> Keeps(ram, c, data))
       <==> c.mps == STRIDE || DataPackets(c) <= 1
  {
    hide Keeps, DataPackets;
    if c.mps == STRIDE || DataPackets(c) <= 1 {
      forall ram: seq<byte>, data: seq<byte> | InMemory(c, |ram|) && c.buffer <= |ram| && |data| <= c.length
        ensures Keeps(ram, c, data) {
        GoodStrideKeeps(ram, c, data);
      }
    } else {
      var ram, data := BadStrideLoses(c);
    }
  }

  /** What a request for data that returns SUCCESS has put into memory: the device's whole answer, packet by packet; in
      packets of eight bytes, or in one, the answer as it is and nothing else. */
  lemma AnswerArrives(x: Call, s: Sys, fs: seq<Fault>)
    requires BeginsCall(x, s) && StatusDone(Carry(s, x.c, fs), x.c) && DataPackets(x.c) > 0
    ensures Request(x) in x.dev.control.answers
    ensures var answer, ram := UpTo(x.dev.control.answers[Request(x)], x.c.length), Carry(s, x.c, fs).ram;
      && ram == Stored(x.ram, x.c, answer, DataPackets(x.c))
      && (x.c.mps == STRIDE || DataPackets(x.c) <= 1 ==>
            && x.c.buffer + |answer| <= |ram| && ram[x.c.buffer..x.c.buffer + |answer|] == answer
            && SameOutside(x.ram, ram, x.c.buffer, x.c.buffer + |answer|))
  {
    hide Carry, Stored, DataPackets, StatusDone, Kept;
    ControlSuccessIsSound(x, s, fs);
    KeptIsStored(x, DataPackets(x.c));
    AnswerIsLimited(x);
    PlaceInside(x.c, |x.ram|, 0);
    if x.c.mps == STRIDE || DataPackets(x.c) <= 1 {
      GoodStrideKeeps(x.ram, x.c, First(x).rest);
    }
  }

  lemma AnswerIsLimited(x: Call)
    requires Served(x) && First(x).Answering?
    ensures Request(x) in x.dev.control.answers
    ensures First(x).rest == UpTo(x.dev.control.answers[Request(x)], x.c.length) && |First(x).rest| <= x.c.length
  {
  }

  /** The length of packet `j`, all but the last of which are full. */
  lemma PieceLength(x: Call, j: nat)
    requires Served(x) && DataPackets(x.c) > 0 && Sends(x, DataPackets(x.c)) && j < DataPackets(x.c)
    ensures First(x).Answering? && StageAt(x, j).Answering? && x.c.mps * j <= |First(x).rest| <= x.c.length
    ensures |Piece(StageAt(x, j).rest, x.c.mps)| ==
        if j + 1 < DataPackets(x.c) then x.c.mps else |First(x).rest| - x.c.mps * j
  {
    hide StageAfter, Asked, DataPackets, Request, Piece;
    assert StageAt(x, 0).Answering? && StageAt(x, j).Answering? && StageAt(x, DataPackets(x.c) - 1).Answering?;
    Starts(x);
    AnswersFromOne(x);
    AnswerIsLimited(x);
    PacketsOf(x.c);
    PieceLengthOf(First(x).rest, First(x).short, x.c.mps, DataPackets(x.c), j);
  }

  lemma PieceLengthOf(data: seq<byte>, short: bool, mps: nat, n: nat, j: nat)
    requires mps > 0 && j < n && |data| <= mps * n
    requires Along(Answering(data, short, 1), mps, j).Answering?
    requires Along(Answering(data, short, 1), mps, n - 1).Answering?
    ensures mps * j <= |data|
    ensures |Piece(Along(Answering(data, short, 1), mps, j).rest, mps)| == if j + 1 < n then mps else |data| - mps * j
  {
    hide Along;
    AlongRest(data, short, mps, j);
    AlongRest(data, short, mps, n - 1);
    if j + 1 < n {
      MulMonotone(j + 1, n - 1, mps);
      assert mps * (j + 1) == mps * j + mps;
    } else {
      assert mps * n == mps * (n - 1) + mps;
    }
  }
}
