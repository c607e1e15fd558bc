/** Data toggles over whole runs: any number of transfers on the two endpoints, one after the other
    (USB 2.0, section 8.6). */
module ToggleSessions {
  import opened Bytes
  import opened BulkDevice
  import opened Uhci
  import opened TransferRuns
  import opened BulkRuns

  /** One transfer and what the bus did to it until it was unpublished. */
  datatype Turn = Turn(t: Transfer, mps: nat, faults: seq<Fault>)

  /** The toggles the driver keeps in its two endpoint structures. */
  datatype Toggles = Toggles(inward: nat, outward: nat)

  function ToggleOf(h: Toggles, pid: Pid): nat {
    if pid == OutPid then h.outward else h.inward
  }

  /** Building a list flips the endpoint's toggle once per descriptor, whatever happens to it later. */
  function Advance(h: Toggles, t: Transfer): Toggles {
    if t.pid == OutPid then h.(outward := ToggleAt(h.outward, |t.list|)) else h.(inward := ToggleAt(h.inward, |t.list|))
  }

  function AdvanceAll(h: Toggles, turns: seq<Turn>): Toggles
    decreases |turns|
  {
    if turns == [] then h else AdvanceAll(Advance(h, turns[0].t), turns[1..])
  }

  /** The driver built every list from the toggles it kept. */
  ghost predicate Driven(h: Toggles, turns: seq<Turn>)
    decreases |turns|
  {
    turns == [] ||
    (Tiled(turns[0].t, turns[0].mps) && turns[0].t.endpoint != 0 && turns[0].t.toggle == ToggleOf(h, turns[0].t.pid) < 2
     && Driven(Advance(h, turns[0].t), turns[1..]))
  }

  function After(s: Sys, turn: Turn): Sys {
    Perform(s, turn.t, turn.faults)
  }

  function AfterAll(s: Sys, turns: seq<Turn>): Sys
    decreases |turns|
  {
    if turns == [] then s else AfterAll(After(s, turns[0]), turns[1..])
  }

  /** Descriptor `i` was carried out. */
  ghost predicate Done(s: Sys, t: Transfer, i: nat) {
    var a := Addr(t.base, i);
    a in s.tds && !s.tds[a].active && !s.tds[a].errored
  }

  ghost predicate AllDone(s: Sys, t: Transfer) {
    forall i :: 0 <= i < |t.list| ==> Done(s, t, i)
  }

  ghost predicate Completes(s: Sys, turn: Turn) {
    AllDone(After(s, turn), turn.t)
  }

  /** The device knows that its last packet has arrived. */
  ghost predicate Acknowledged(s: Sys, turn: Turn) {
    turn.t.pid == OutPid || LastHeard(Publish(s, turn.t.base, turn.t.list), turn.t, turn.faults)
  }

  ghost predicate AllComplete(s: Sys, turns: seq<Turn>)
    decreases |turns|
  {
    turns == []
    || (Completes(s, turns[0]) && Acknowledged(s, turns[0]) && AllComplete(After(s, turns[0]), turns[1..]))
  }

  predicate Agree(h: Toggles, dev: Device) {
    h.inward == dev.inToggle && h.outward == dev.outToggle
  }

  lemma DoneIsPrefix(t: Transfer, s: Sys, k: nat, failed: bool)
    requires Linked(t.base, t.list) && Progress(t.base, t.list, s, k, failed)
    ensures forall i :: 0 <= i < |t.list| ==> (Done(Unpublish(s), t, i) <==> i < k)
    ensures AllDone(Unpublish(s), t) <==> k == |t.list|
  {
    forall i | 0 <= i < |t.list| ensures Done(Unpublish(s), t, i) <==> i < k {
      assert Addr(t.base, i) in s.tds && Standing(t.list[i], s.tds[Addr(t.base, i)], i < k, failed && i == k);
      assert t.list[i].active;
    }
    if k < |t.list| {
      assert !Done(Unpublish(s), t, k);
    }
  }

  /** A transfer begun in step flips the device's toggle once for each of the `d` packets the device counts. */
  lemma TurnFlips(s: Sys, turn: Turn) returns (k: nat, d: nat)
    requires Tiled(turn.t, turn.mps) && turn.t.toggle == DeviceToggle(turn.t.pid, s.dev) < 2
    requires OnBulk(turn.t.pid, turn.t.endpoint, s.dev)
    ensures k <= |turn.t.list| && forall i :: 0 <= i < |turn.t.list| ==> (Done(After(s, turn), turn.t, i) <==> i < k)
    ensures Completes(s, turn) <==> k == |turn.t.list|
    ensures Abreast(turn.t.pid, k, d) && (Heard(turn.faults) ==> d == k)
    ensures Completes(s, turn) ==> (d == k <==> Acknowledged(s, turn))
    ensures DeviceToggle(turn.t.pid, After(s, turn).dev) == ToggleAt(turn.t.toggle, d)
    ensures OtherToggle(turn.t.pid, After(s, turn).dev) == OtherToggle(turn.t.pid, s.dev)
  {
    hide LastHeard, Run, HcStep, Publish, Progress, LastDone, Tiled;
    var t, s0 := turn.t, Publish(s, turn.t.base, turn.t.list);
    TiledIsLinked(t, turn.mps);
    PublishedProgress(t.base, t.list, s);
    PublishKeepsDevice(s, t.base, t.list);
    var failed;
    k, d, failed := TogglesFollow(t, turn.mps, s0, 0, 0, false, turn.faults);
    DoneIsPrefix(t, Run(s0, turn.faults), k, failed);
  }

  lemma PublishKeepsDevice(s: Sys, base: nat, list: seq<Td>)
    ensures Publish(s, base, list).dev == s.dev
  {
  }

  /** After a transfer of `n` descriptors begun in step, of which the device has counted `d` packets, driver and device
      disagree about the endpoint exactly when `n - d` is odd, and agree about the other one. If every handshake was
      heard, `d` is the number of descriptors carried out. */
  lemma DisagreeWhenOdd(s: Sys, h: Toggles, turn: Turn) returns (k: nat, d: nat)
    requires Driven(h, [turn]) && Agree(h, s.dev)
    ensures k <= |turn.t.list| && forall i :: 0 <= i < |turn.t.list| ==> (Done(After(s, turn), turn.t, i) <==> i < k)
    ensures Completes(s, turn) <==> k == |turn.t.list|
    ensures Abreast(turn.t.pid, k, d) && (Heard(turn.faults) ==> d == k)
    ensures Completes(s, turn) ==> (d == k <==> Acknowledged(s, turn))
    ensures var h', dev, n := Advance(h, turn.t), After(s, turn).dev, |turn.t.list|;
      && (ToggleOf(h', turn.t.pid) != DeviceToggle(turn.t.pid, dev) <==> (n - d) % 2 == 1)
      && (if turn.t.pid == OutPid then h'.inward == dev.inToggle else h'.outward == dev.outToggle)
  {
    hide LastHeard, After, Done, Completes, Acknowledged, Tiled;
    k, d := TurnFlips(s, turn);
    ParityOfDifference(turn.t.toggle, |turn.t.list|, d);
  }

  lemma ParityOfDifference(toggle: nat, n: nat, d: nat)
    ensures ToggleAt(toggle, n) != ToggleAt(toggle, d) <==> (n - d) % 2 == 1
  {
  }

  /** After a completed transfer driver and device agree exactly when the device knows of its end. */
  lemma CompleteTurnStaysInStep(s: Sys, h: Toggles, turn: Turn)
    requires Driven(h, [turn]) && Agree(h, s.dev) && Completes(s, turn)
    ensures Agree(Advance(h, turn.t), After(s, turn).dev) <==> Acknowledged(s, turn)
  {
    hide LastHeard, After, Done, Completes, Acknowledged, Tiled;
    var k, d := DisagreeWhenOdd(s, h, turn);
  }

  /** Over any run in which every transfer completes and the device hears so, driver and device agree at every
      boundary. */
  lemma {:induction false} CompleteRunsStayInStep(s: Sys, h: Toggles, turns: seq<Turn>)
    requires Driven(h, turns) && Agree(h, s.dev) && AllComplete(s, turns)
    ensures Agree(AdvanceAll(h, turns), AfterAll(s, turns).dev)
    decreases |turns|
  {
    if turns != [] {
      var turn := turns[0];
      assert Driven(h, [turn]) by { assert [turn][1..] == []; }
      CompleteTurnStaysInStep(s, h, turn);
      CompleteRunsStayInStep(After(s, turn), Advance(h, turn.t), turns[1..]);
    }
  }

  /** The toggles of all descriptors ever built for one endpoint, in order. */
  function Built(pid: Pid, turns: seq<Turn>): seq<nat>
    decreases |turns|
  {
    if turns == [] then [] else
    var list := turns[0].t.list;
    (if turns[0].t.pid == pid then seq(|list|, i requires 0 <= i < |list| => list[i].toggle) else [])
    + Built(pid, turns[1..])
  }

  /** They alternate strictly, across all transfer boundaries and whatever happened in between. */
  lemma {:induction false} TogglesAlternate(pid: Pid, h: Toggles, turns: seq<Turn>)
    requires Driven(h, turns) && pid != SetupPid && ToggleOf(h, pid) < 2
    ensures forall j :: 0 <= j < |Built(pid, turns)| ==> Built(pid, turns)[j] == ToggleAt(ToggleOf(h, pid), j)
    decreases |turns|
  {
    if turns != [] {
      var t := turns[0].t;
      var h', rest := Advance(h, t), Built(pid, turns[1..]);
      TogglesAlternate(pid, h', turns[1..]);
      var first := seq(|t.list|, i requires 0 <= i < |t.list| => t.list[i].toggle);
      if t.pid == pid {
        forall j | 0 <= j < |first| + |rest| ensures (first + rest)[j] == ToggleAt(ToggleOf(h, pid), j) {
          if j < |first| {
            assert Tile(t, turns[0].mps, j);
          } else {
            ToggleShift(ToggleOf(h, pid), |first|, j - |first|);
          }
        }
      }
    }
  }
}
