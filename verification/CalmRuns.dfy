/** The other half of the contract: on a bus without faults, visited often enough, a willing device's commands do
    succeed. */
module CalmRuns {
  import opened Bytes
  import opened BulkDevice
  import opened Uhci
  import opened TransferRuns
  import opened BulkRuns
  import opened PacketStreams
  import opened BulkOnly
  import opened UhciDriver
  import opened UhciControl
  import opened ControlRuns

  /** No faults while the driver waits, and at least `n` visits before its last poll. */
  ghost predicate Calm(sch: Schedule, n: nat) {
    AllClear(Polled(sch, BULK_TIMEOUT)) && AllClear(sch.settle) && |Polled(sch, BULK_TIMEOUT - 1)| >= n
  }

  lemma {:induction false} PolledGrows(sch: Schedule, i: nat, j: nat)
    requires i <= j
    ensures Polled(sch, i) <= Polled(sch, j)
    decreases j
  {
    if i < j {
      PolledGrows(sch, i, j - 1);
    }
  }

  lemma ClearPrefix(fs: seq<Fault>, gs: seq<Fault>)
    requires fs <= gs && AllClear(gs)
    ensures AllClear(fs)
  {
    forall i | 0 <= i < |fs| ensures fs[i].Clear? {
      assert fs[i] == gs[i];
    }
  }

  lemma CalmPolls(sch: Schedule, n: nat, j: nat)
    requires Calm(sch, n) && j <= BULK_TIMEOUT
    ensures AllClear(Polled(sch, j)) && AllClear(Polled(sch, j) + sch.settle)
  {
    PolledGrows(sch, j, BULK_TIMEOUT);
    ClearPrefix(Polled(sch, j), Polled(sch, BULK_TIMEOUT));
  }

  lemma DoneIsInactive(s: Sys, t: Transfer, fs: seq<Fault>)
    requires t.list != []
    ensures LastDone(Perform(s, t, fs), t) <==> InactiveAt(Publish(s, t.base, t.list), LastTd(t), fs)
  {
  }

  /** An IN transfer from a device with just the bytes asked for, without faults. */
  lemma ClearReading(s: Sys, t: Transfer, data: seq<byte>, next: Phase, fs: seq<Fault>)
    requires s.dev.phase == Sending(data, next) && ReadsInto(t, s.dev, s.ram) && t.toggle == s.dev.inToggle
    requires |data| == Length(t) && AllClear(fs)
    ensures LastDone(Perform(s, t, fs), t) <==> |fs| >= |t.list|
    ensures |fs| >= |t.list| ==>
      && Accepted(Perform(s, t, fs), t) && t.buffer + |data| <= |s.ram|
      && Perform(s, t, fs).ram == Splice(s.ram, t.buffer, data)
      && Perform(s, t, fs).dev == s.dev.(inToggle := ToggleAt(t.toggle, |t.list|), phase := next)
  {
    hide Perform, Following, LastDone, Accepted, Due, Splice;
    var r := Stream(s.dev, s.ram);
    DueNow(r);
    FullAnswerFits(t, r, 0, s, 0, data, next);
    var k := ClearTransfer(t, r, 0, s, fs);
    if k == |t.list| {
      WholeAnswerIsLaid(t, r, 0, Perform(s, t, fs), k, data, next);
      CountedDevice(t, r, 0, Perform(s, t, fs), k, k);
    }
  }

  lemma CountedDevice(t: Transfer, r: Stream, b: nat, s: Sys, k: nat, d: nat)
    requires Following(t, r, b, s, k, d)
    ensures s.dev == Acked(r, d)
  {
  }

  /** An IN transfer under a calm schedule: the driver sees it finish, and it has had enough clear visits. */
  lemma CalmReading(s: Sys, b: Bulk, data: seq<byte>, next: Phase, sch: Schedule, trace: seq<Fault>)
    requires WellFormed(b) && s.dev.phase == Sending(data, next)
    requires ReadsInto(BulkTransfer(b), s.dev, s.ram) && b.toggle == s.dev.inToggle && |data| == Length(BulkTransfer(b))
    requires Calm(sch, |BulkList(b)|) && BulkList(b) != []
    requires Waited(Publish(s, b.base, BulkList(b)), LastTd(BulkTransfer(b)), BULK_TIMEOUT, sch, trace)
    ensures SeenInactive(Publish(s, b.base, BulkList(b)), LastTd(BulkTransfer(b)), BULK_TIMEOUT, sch)
    ensures AllClear(trace) && |trace| >= |BulkList(b)| && Accepted(Perform(s, BulkTransfer(b), trace), BulkTransfer(b))
  {
    hide Calm, Polled, BulkList, Accepted, SeenInactive, Perform, ReadsInto;
    var t := BulkTransfer(b);
    CalmPolls(sch, |t.list|, BULK_TIMEOUT - 1);
    CalmIsEnough(sch, |t.list|);
    ClearReading(s, t, data, next, Polled(sch, BULK_TIMEOUT - 1));
    SeenAt(s, t, sch, BULK_TIMEOUT - 1);
    var j := WaitedUntil(s, t, sch, trace);
    CalmPolls(sch, |t.list|, j);
    DoneIsInactive(s, t, Polled(sch, j));
    ClearReading(s, t, data, next, Polled(sch, j));
    ClearReading(s, t, data, next, trace);
  }

  /** The same for an OUT transfer of a command wrapper. */
  lemma CalmWriting(s: Sys, b: Bulk, cbw: seq<byte>, sch: Schedule, trace: seq<Fault>)
    requires WellFormed(b) && s.dev.phase == Idle([])
    requires CanWrite(BulkTransfer(b), b.mps, Writing(s.dev, s.ram, cbw))
    requires Calm(sch, |BulkList(b)|) && BulkList(b) != []
    requires Waited(Publish(s, b.base, BulkList(b)), LastTd(BulkTransfer(b)), BULK_TIMEOUT, sch, trace)
    ensures SeenInactive(Publish(s, b.base, BulkList(b)), LastTd(BulkTransfer(b)), BULK_TIMEOUT, sch)
    ensures AllClear(trace) && |trace| >= |BulkList(b)| && Accepted(Perform(s, BulkTransfer(b), trace), BulkTransfer(b))
  {
    hide Calm, Polled, BulkList, Accepted, SeenInactive, Perform, CanWrite, Execute;
    var t := BulkTransfer(b);
    CalmPolls(sch, |t.list|, BULK_TIMEOUT - 1);
    CalmIsEnough(sch, |t.list|);
    var d0 := WritingPhase(s, t, b.mps, cbw, Polled(sch, BULK_TIMEOUT - 1));
    SeenAt(s, t, sch, BULK_TIMEOUT - 1);
    var j := WaitedUntil(s, t, sch, trace);
    CalmPolls(sch, |t.list|, j);
    DoneIsInactive(s, t, Polled(sch, j));
    var d1 := WritingPhase(s, t, b.mps, cbw, Polled(sch, j));
    var d2 := WritingPhase(s, t, b.mps, cbw, trace);
  }

  lemma CalmIsEnough(sch: Schedule, n: nat)
    requires Calm(sch, n)
    ensures |Polled(sch, BULK_TIMEOUT - 1)| >= n
  {
  }

  lemma SeenAt(s: Sys, t: Transfer, sch: Schedule, j: nat)
    requires t.list != [] && j < BULK_TIMEOUT && Accepted(Perform(s, t, Polled(sch, j)), t)
    ensures SeenInactive(Publish(s, t.base, t.list), LastTd(t), BULK_TIMEOUT, sch)
  {
    DoneIsInactive(s, t, Polled(sch, j));
  }

  lemma WaitedUntil(s: Sys, t: Transfer, sch: Schedule, trace: seq<Fault>) returns (j: nat)
    requires t.list != [] && SeenInactive(Publish(s, t.base, t.list), LastTd(t), BULK_TIMEOUT, sch)
    requires Waited(Publish(s, t.base, t.list), LastTd(t), BULK_TIMEOUT, sch, trace)
    ensures j < BULK_TIMEOUT && InactiveAt(Publish(s, t.base, t.list), LastTd(t), Polled(sch, j))
    ensures trace == Polled(sch, j) + sch.settle
  {
    var i :| 0 <= i < BULK_TIMEOUT && InactiveAt(Publish(s, t.base, t.list), LastTd(t), Polled(sch, i))
      && trace == Polled(sch, i) + sch.settle;
    j := i;
  }

  /** The same for a control transfer and its shorter timeout. */
  ghost predicate ControlCalm(sch: Schedule, n: nat) {
    AllClear(Polled(sch, CONTROL_TIMEOUT)) && |Polled(sch, CONTROL_TIMEOUT - 1)| >= n
  }

  /** A control transfer under such a schedule, to a device that takes the request and has packets for all of it. */
  lemma CalmControl(x: Call, s: Sys, sch: Schedule)
    requires BeginsCall(x, s) && Willing(x) && ControlCalm(sch, DataPackets(x.c) + 2)
    ensures SeenInactive(Publish(s, x.c.base, ControlList(x.c)), Addr(x.c.base, DataPackets(x.c) + 1), CONTROL_TIMEOUT,
                         sch)
  {
    hide Polled, Willing, Request, Along;
    var fs := Polled(sch, CONTROL_TIMEOUT - 1);
    PolledGrows(sch, CONTROL_TIMEOUT - 1, CONTROL_TIMEOUT);
    ClearPrefix(fs, Polled(sch, CONTROL_TIMEOUT));
    ClearCallSucceeds(x, s, fs);
    assert InactiveAt(Publish(s, x.c.base, ControlList(x.c)), Addr(x.c.base, DataPackets(x.c) + 1), fs);
  }

  /** One fault-free visit in each poll interval. */
  ghost predicate VisitedOnce(sch: Schedule) {
    forall j :: 0 <= j < BULK_TIMEOUT ==> Interval(sch, j) == [Clear]
  }

  lemma {:induction false} OnceIsClears(sch: Schedule, j: nat)
    requires VisitedOnce(sch) && j <= BULK_TIMEOUT
    ensures Polled(sch, j) == Clears(j)
    decreases j
  {
    if j > 0 {
      OnceIsClears(sch, j - 1);
      assert Interval(sch, j - 1) == [Clear];
      assert Clears(j - 1) + [Clear] == Clears(j);
    }
  }

  /** If the controller makes one visit a poll, a transfer from the device is seen to finish exactly when it has fewer
      packets than there are polls: the driver's thousand. */
  lemma TimeoutExactly(s: Sys, b: Bulk, data: seq<byte>, next: Phase, sch: Schedule)
    requires WellFormed(b) && s.dev.phase == Sending(data, next) && VisitedOnce(sch)
    requires ReadsInto(BulkTransfer(b), s.dev, s.ram) && b.toggle == s.dev.inToggle && |data| == Length(BulkTransfer(b))
    ensures BulkList(b) != []
    ensures SeenInactive(Publish(s, b.base, BulkList(b)), LastTd(BulkTransfer(b)), BULK_TIMEOUT, sch)
       <==> Count(b.length, b.mps) < 1000
  {
    hide Perform, Polled, ReadsInto, LastDone, Accepted, InactiveAt;
    var t, n := BulkTransfer(b), Count(b.length, b.mps);
    SomePacket(b.length, b.mps);
    forall j | 0 <= j < BULK_TIMEOUT
      ensures InactiveAt(Publish(s, t.base, t.list), LastTd(t), Polled(sch, j)) <==> j >= n {
      OnceIsClears(sch, j);
      ClearReading(s, t, data, next, Polled(sch, j));
      DoneIsInactive(s, t, Polled(sch, j));
    }
    if n < BULK_TIMEOUT {
      assert InactiveAt(Publish(s, b.base, BulkList(b)), LastTd(t), Polled(sch, n));
    }
  }

  /** A control transfer is given half of them: it succeeds exactly if it has fewer than 500 packets in all. */
  lemma ControlTimeoutExactly(x: Call, s: Sys, sch: Schedule)
    requires BeginsCall(x, s) && Willing(x) && VisitedOnce(sch)
    ensures var s0, last := Publish(s, x.c.base, ControlList(x.c)), Addr(x.c.base, DataPackets(x.c) + 1);
      SeenInactive(s0, last, CONTROL_TIMEOUT, sch) <==> DataPackets(x.c) + 2 < 500
  {
    hide Polled, Willing, Request, Along, InactiveAt, VisitedOnce;
    var s0, last := Publish(s, x.c.base, ControlList(x.c)), Addr(x.c.base, DataPackets(x.c) + 1);
    forall j | 0 <= j < CONTROL_TIMEOUT ensures InactiveAt(s0, last, Polled(sch, j)) <==> j >= DataPackets(x.c) + 2 {
      OnceIsClears(sch, j);
      ClearCallSucceeds(x, s, Polled(sch, j));
      CarriedIsInactive(x, s, Polled(sch, j));
    }
    if DataPackets(x.c) + 2 < CONTROL_TIMEOUT {
      assert InactiveAt(s0, last, Polled(sch, DataPackets(x.c) + 2));
    }
  }

  lemma CarriedIsInactive(x: Call, s: Sys, fs: seq<Fault>)
    requires BeginsCall(x, s)
    ensures InactiveAt(Publish(s, x.c.base, ControlList(x.c)), Addr(x.c.base, DataPackets(x.c) + 1), fs)
       <==> StatusDone(Carry(s, x.c, fs), x.c)
  {
  }
}
