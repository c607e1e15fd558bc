/** Transfers over one endpoint: their toggles stay in step with the device, and they carry exactly the bytes
    asked for, under every schedule and fault. */
module BulkRuns {
  import opened Bytes
  import opened BulkDevice
  import opened Uhci
  import opened TransferRuns

  /** A descriptor list together with the offsets at which it cuts its buffer into packets. */
  datatype Transfer = Transfer(base: nat, list: seq<Td>, cuts: seq<nat>,
                               pid: Pid, address: nat, endpoint: nat, toggle: nat, buffer: nat)

  function Length(t: Transfer): nat
    requires t.cuts != []
  {
    t.cuts[|t.cuts| - 1]
  }

  function PacketSize(t: Transfer, i: nat): int
    requires i + 1 < |t.cuts|
  {
    var from: int, to: int := t.cuts[i], t.cuts[i + 1];
    to - from
  }

  /** The list is well linked, its packets tile the buffer (full ones first), and its toggles alternate. */
  ghost predicate Tiled(t: Transfer, mps: nat) {
    && Linked(t.base, t.list) && t.pid != SetupPid
    && |t.cuts| == |t.list| + 1 && t.cuts[0] == 0
    && forall i :: 0 <= i < |t.list| ==> Tile(t, mps, i)
  }

  ghost predicate Tile(t: Transfer, mps: nat, i: nat)
    requires |t.cuts| == |t.list| + 1 && i < |t.list|
  {
    var td, size := t.list[i], PacketSize(t, i);
    && td.pid == t.pid && td.address == t.address && td.endpoint == t.endpoint
    && td.toggle == ToggleAt(t.toggle, i)
    && td.buffer == t.buffer + t.cuts[i] && FieldBytes(td.maxLength) == size
    && 0 < size <= mps && size < 0x800
    && (if i + 1 < |t.list| then size == mps && t.cuts[i + 1] < Length(t) else t.cuts[i + 1] == Length(t))
  }

  lemma TilesStayWithin(t: Transfer, mps: nat)
    requires Tiled(t, mps)
    ensures Within(t.list, t.buffer, t.buffer + Length(t))
  {
    forall i | 0 <= i < |t.list|
      ensures t.buffer <= t.list[i].buffer && t.list[i].buffer + FieldBytes(t.list[i].maxLength) <= t.buffer + Length(t)
    {
      assert Tile(t, mps, i);
    }
  }

  function Perform(s: Sys, t: Transfer, fs: seq<Fault>): Sys {
    Unpublish(Run(Publish(s, t.base, t.list), fs))
  }

  /** Whatever the device, the schedule and the faults, a transfer writes only to its own buffer, and once it has been
      unpublished nothing more happens. */
  lemma OnlyBufferChanges(s: Sys, t: Transfer, mps: nat, fs: seq<Fault>, later: seq<Fault>)
    requires Tiled(t, mps)
    ensures SameOutside(s.ram, Perform(s, t, fs).ram, t.buffer, t.buffer + Length(t))
    ensures Run(Perform(s, t, fs), later) == Perform(s, t, fs)
  {
    TilesStayWithin(t, mps);
    PublishedProgress(t.base, t.list, s);
    var k, failed := RetiredIsPrefix(t.base, t.list, Publish(s, t.base, t.list), 0, false, fs, t.buffer,
      t.buffer + Length(t));
    TerminatedIsStill(Perform(s, t, fs), later);
  }

  function LastTd(t: Transfer): nat
    requires t.list != []
  {
    Addr(t.base, |t.list| - 1)
  }

  /** The last descriptor is no longer active. */
  ghost predicate LastDone(s: Sys, t: Transfer) {
    t.list != [] && LastTd(t) in s.tds && !s.tds[LastTd(t)].active
  }

  /** All the driver looks at before it calls a transfer a success. */
  ghost predicate Accepted(s: Sys, t: Transfer) {
    LastDone(s, t) && Addr(t.base, 0) in s.tds && s.tds[Addr(t.base, 0)].actualLength != NO_DATA
  }

  /** The error bit of the last descriptor, which the driver does not look at. */
  ghost predicate Errored(s: Sys, t: Transfer) {
    t.list != [] && LastTd(t) in s.tds && s.tds[LastTd(t)].errored
  }

  lemma AcceptedIsDone(s: Sys, t: Transfer)
    ensures Accepted(s, t) ==> LastDone(s, t)
  {
  }

  lemma LastSeen(t: Transfer, mps: nat, s: Sys, k: nat, failed: bool)
    requires Progress(t.base, t.list, s, k, failed) && Tiled(t, mps)
    ensures LastDone(s, t) <==> k == |t.list| || (failed && k == |t.list| - 1)
    ensures Errored(s, t) <==> failed && k == |t.list| - 1
  {
    hide Standing, PointsAt, LinkWord;
    LastInactive(t.base, t.list, s, k, failed);
  }

  /** The handshake of the visit that makes the last descriptor inactive arrives. */
  ghost predicate LastHeard(s: Sys, t: Transfer, fs: seq<Fault>)
    decreases |fs|
  {
    fs != [] && var s' := HcStep(s, fs[0]); if LastDone(s', t) then !fs[0].Unheard? else LastHeard(s', t, fs[1..])
  }

  // ---------------------------------------------------------------------------
  // Data toggles
  // ---------------------------------------------------------------------------

  function DeviceToggle(pid: Pid, dev: Device): nat {
    if pid == OutPid then dev.outToggle else dev.inToggle
  }

  function OtherToggle(pid: Pid, dev: Device): nat {
    if pid == OutPid then dev.inToggle else dev.outToggle
  }

  /** The transfer is not for the control pipe. */
  predicate OnBulk(pid: Pid, endpoint: nat, dev: Device) {
    endpoint != 0 || endpoint == if pid == OutPid then dev.outEndpoint else dev.inEndpoint
  }

  lemma FlipIsNext(toggle: nat, k: nat)
    ensures Flip(ToggleAt(toggle, k)) == ToggleAt(toggle, k + 1) != ToggleAt(toggle, k)
  {
  }

  lemma ToggleShift(toggle: nat, n: nat, m: nat)
    ensures ToggleAt(ToggleAt(toggle, n), m) == ToggleAt(toggle, n + m)
  {
  }

  /** No handshake is lost. */
  ghost predicate Heard(fs: seq<Fault>) {
    forall i :: 0 <= i < |fs| ==> !fs[i].Unheard?
  }

  ghost predicate AllClear(fs: seq<Fault>) {
    forall i :: 0 <= i < |fs| ==> fs[i].Clear?
  }

  /** After `k` retired descriptors the device counts `d` packets: of an OUT transfer it may have taken one more, and of
      an IN transfer it may not have heard of the last one. */
  predicate Abreast(pid: Pid, k: nat, d: nat) {
    if pid == OutPid then k <= d <= k + 1 else d <= k <= d + 1
  }

  /** A packet with the expected toggle flips the device's toggle, unless its handshake is lost on the way to the side
      that would have flipped; with the other toggle it is a repeat. */
  lemma ExchangeFlips(dev: Device, ram: seq<byte>, td: Td, f: Fault)
    requires td.pid != SetupPid && OnBulk(td.pid, td.endpoint, dev)
    ensures var same, flips := td.toggle == DeviceToggle(td.pid, dev), Flip(DeviceToggle(td.pid, dev));
      match Exchange(dev, ram, td, f)
      case Fails(_) => true
      case Stays(dev') => (
        && dev'.inEndpoint == dev.inEndpoint && dev'.outEndpoint == dev.outEndpoint
        && OtherToggle(td.pid, dev') == OtherToggle(td.pid, dev)
        && (dev' == dev || DeviceToggle(td.pid, dev') == flips)
        && (dev' == dev || (if td.pid == OutPid then same && f.Unheard? else !same)))
      case Retires(dev', _, _) => (
        && dev'.inEndpoint == dev.inEndpoint && dev'.outEndpoint == dev.outEndpoint
        && OtherToggle(td.pid, dev') == OtherToggle(td.pid, dev)
        && (td.pid == OutPid && !same ==> dev' == dev)
        && (td.pid == OutPid && same ==> DeviceToggle(td.pid, dev') == flips)
        && (td.pid == InPid ==> same && (if f.Unheard? then dev' == dev else DeviceToggle(td.pid, dev') == flips)))
  {
  }

  lemma ToggleVisit(t: Transfer, mps: nat, s: Sys, k: nat, d: nat, f: Fault) returns (d': nat)
    requires Tiled(t, mps) && k < |t.list| && Abreast(t.pid, k, d) && OnBulk(t.pid, t.endpoint, s.dev)
    requires DeviceToggle(t.pid, s.dev) == ToggleAt(t.toggle, d)
    ensures var e := Exchange(s.dev, s.ram, t.list[k], f);
      var dev, k' := if e.Fails? then s.dev else e.dev, if e.Retires? then k + 1 else k;
      && DeviceToggle(t.pid, dev) == ToggleAt(t.toggle, d') && OtherToggle(t.pid, dev) == OtherToggle(t.pid, s.dev)
      && OnBulk(t.pid, t.endpoint, dev)
      && d <= d' && Abreast(t.pid, k', d') && (d == k && !f.Unheard? ==> d' == k')
      && (e.Retires? ==> (d' == k' <==> t.pid == OutPid || !f.Unheard?))
  {
    hide Exchange;
    assert Tile(t, mps, k);
    ExchangeFlips(s.dev, s.ram, t.list[k], f);
    FlipIsNext(t.toggle, d);
    FlipIsNext(t.toggle, k);
    var e := Exchange(s.dev, s.ram, t.list[k], f);
    d' := if !e.Fails? && DeviceToggle(t.pid, e.dev) != ToggleAt(t.toggle, d) then d + 1 else d;
  }

  lemma ToggleStep(t: Transfer, mps: nat, s: Sys, k: nat, d: nat, failed: bool, f: Fault) returns (d': nat)
    requires Tiled(t, mps) && Progress(t.base, t.list, s, k, failed) && Abreast(t.pid, k, d)
    requires DeviceToggle(t.pid, s.dev) == ToggleAt(t.toggle, d) && OnBulk(t.pid, t.endpoint, s.dev)
    ensures DeviceToggle(t.pid, HcStep(s, f).dev) == ToggleAt(t.toggle, d') && d <= d'
    ensures OnBulk(t.pid, t.endpoint, HcStep(s, f).dev)
    ensures Abreast(t.pid, NextDone(t.list, s, k, failed, f), d')
    ensures d == k && !f.Unheard? ==> d' == NextDone(t.list, s, k, failed, f)
    ensures failed || k == |t.list| ==> d' == d
    ensures NextDone(t.list, s, k, failed, f) > k ==> (d' == k + 1 <==> t.pid == OutPid || !f.Unheard?)
    ensures OtherToggle(t.pid, HcStep(s, f).dev) == OtherToggle(t.pid, s.dev)
  {
    hide Exchange, HcStep;
    Visit(t.base, t.list, s, k, failed, f);
    d' := d;
    if !failed && k < |t.list| {
      d' := ToggleVisit(t, mps, s, k, d, f);
    }
  }

  /** A transfer begun in step flips the device's toggle once for each packet, whatever the device, the schedule and
      the faults, and leaves the other endpoint's toggle alone. The device's count differs from the driver's by at most
      one; not at all if every handshake is heard, nor, once the transfer is completed, if the last one is. */
  lemma {:induction false} TogglesFollow(t: Transfer, mps: nat, s: Sys, k: nat, d: nat, failed: bool, fs: seq<Fault>)
      returns (k': nat, d': nat, failed': bool)
    requires Tiled(t, mps) && Progress(t.base, t.list, s, k, failed) && Abreast(t.pid, k, d)
    requires DeviceToggle(t.pid, s.dev) == ToggleAt(t.toggle, d) && OnBulk(t.pid, t.endpoint, s.dev)
    ensures Progress(t.base, t.list, Run(s, fs), k', failed') && Abreast(t.pid, k', d')
    ensures DeviceToggle(t.pid, Run(s, fs).dev) == ToggleAt(t.toggle, d')
    ensures OtherToggle(t.pid, Run(s, fs).dev) == OtherToggle(t.pid, s.dev)
    ensures d == k && Heard(fs) ==> d' == k'
    ensures failed || k == |t.list| ==> k' == k && d' == d
    ensures k < |t.list| == k' ==> (d' == k' <==> t.pid == OutPid || LastHeard(s, t, fs))
    decreases |fs|
  {
    hide HcStep, Exchange, LastDone, Tiled, ToggleAt;
    TiledIsLinked(t, mps);
    WithinProgress(t, s, k, failed);
    if fs == [] {
      k', d', failed' := k, d, failed;
    } else {
      var s', k1 := HcStep(s, fs[0]), NextDone(t.list, s, k, failed, fs[0]);
      var failed1 := NextFailed(t.list, s, k, failed, fs[0]);
      ProgressStep(t.base, t.list, s, k, failed, fs[0]);
      var e := ToggleStep(t, mps, s, k, d, failed, fs[0]);
      LastSeen(t, mps, s', k1, failed1);
      k', d', failed' := TogglesFollow(t, mps, s', k1, e, failed1, fs[1..]);
    }
  }

  lemma TiledIsLinked(t: Transfer, mps: nat)
    requires Tiled(t, mps)
    ensures Linked(t.base, t.list)
  {
  }

  lemma WithinProgress(t: Transfer, s: Sys, k: nat, failed: bool)
    requires Progress(t.base, t.list, s, k, failed)
    ensures k <= |t.list|
  {
  }

  // ---------------------------------------------------------------------------
  // Command wrappers on their way to the device
  // ---------------------------------------------------------------------------

  /** The device answers at the address and endpoint the driver uses, and is in step with it. */
  predicate Connected(t: Transfer, dev: Device) {
    && t.address == dev.address
    && t.endpoint == (if t.pid == OutPid then dev.outEndpoint else dev.inEndpoint)
    && t.toggle == DeviceToggle(t.pid, dev) && t.toggle < 2
  }

  /** The first `k` descriptors report these numbers of bytes. */
  ghost predicate Lengths(t: Transfer, tds: map<nat, Td>, bytes: seq<nat>) {
    forall i {:trigger Addr(t.base, i)} :: 0 <= i < |bytes| ==>
      Addr(t.base, i) in tds && tds[Addr(t.base, i)].actualLength == LengthField(bytes[i])
  }

  lemma LengthsGrow(t: Transfer, s: Sys, k: nat, e: Effect, bytes: seq<nat>)
    requires k < |t.list| && Lengths(t, s.tds, bytes) && |bytes| == k
    ensures Lengths(t, Apply(s, Addr(t.base, k), t.list[k], e).tds, if e.Retires? then bytes + [e.bytes] else bytes)
  {
  }

  function AtMostAll(k: nat, n: nat): nat {
    if k <= n then k else n
  }

  /** An OUT transfer that carries the command wrapper `cbw` to an idle device. */
  datatype Writing = Writing(dev: Device, ram: seq<byte>, cbw: seq<byte>)

  ghost predicate CanWrite(t: Transfer, mps: nat, w: Writing) {
    && Tiled(t, mps) && t.pid == OutPid && Connected(t, w.dev)
    && |w.cbw| == Length(t) == CBW_LENGTH && t.buffer + Length(t) <= |w.ram|
    && w.ram[t.buffer..t.buffer + Length(t)] == w.cbw
  }

  /** The sizes of the first `k` packets. */
  function Sizes(t: Transfer, mps: nat, k: nat): (bytes: seq<nat>)
    requires Tiled(t, mps) && k <= |t.list|
    ensures |bytes| == k
  {
    if k == 0 then [] else
    assert Tile(t, mps, k - 1);
    Sizes(t, mps, k - 1) + [PacketSize(t, k - 1)]
  }

  /** The device after taking `d` packets of the wrapper; the last one makes it act. */
  function Taken(t: Transfer, mps: nat, w: Writing, d: nat): Device
    requires CanWrite(t, mps, w) && d <= |t.list| && t.cuts[d] <= |w.cbw|
  {
    w.dev.(outToggle := ToggleAt(t.toggle, d),
           phase := if d == |t.list| then Execute(w.dev.units, w.dev.verdict, w.cbw) else Idle(w.cbw[..t.cuts[d]]))
  }

  /** The device has taken exactly the packets the controller counts as sent, or one more. */
  ghost predicate Carried(t: Transfer, mps: nat, w: Writing, s: Sys, k: nat, d: nat) {
    && CanWrite(t, mps, w) && k <= d <= |t.list| && d <= k + 1
    && t.cuts[d] <= Length(t)
    && s.dev == Taken(t, mps, w, d) && s.ram == w.ram && Lengths(t, s.tds, Sizes(t, mps, k))
  }

  /** What the bus does to a packet for the device. */
  lemma OutExchange(dev: Device, ram: seq<byte>, td: Td, f: Fault)
    requires td.pid == OutPid && td.address == dev.address && td.endpoint == dev.outEndpoint
    requires td.buffer + FieldBytes(td.maxLength) <= |ram|
    ensures var bytes := FieldBytes(td.maxLength);
      Exchange(dev, ram, td, f) ==
        if f.NotReady? then Stays(dev) else if f.GivesUp? then Fails(f.actual) else
        match AcceptOut(dev, td.toggle, ram[td.buffer..td.buffer + bytes])
        case Ack(after) => if f.Unheard? then Stays(after) else Retires(after, ram, bytes)
        case OutNak => Stays(dev)
        case OutStall => Fails(NO_DATA)
  {
  }

  /** The device takes the next packet of the wrapper. */
  lemma TakesNext(t: Transfer, mps: nat, w: Writing, k: nat)
    requires CanWrite(t, mps, w) && k < |t.list| && t.cuts[k] <= Length(t)
    ensures t.cuts[k] <= t.cuts[k + 1] <= Length(t)
    ensures AcceptOut(Taken(t, mps, w, k), t.list[k].toggle, w.cbw[t.cuts[k]..t.cuts[k + 1]]) ==
        Ack(Taken(t, mps, w, k + 1))
  {
    hide Execute;
    assert Tile(t, mps, k);
    FlipIsNext(t.toggle, k);
    var from, to := t.cuts[k], t.cuts[k + 1];
    assert w.cbw[..from] + w.cbw[from..to] == w.cbw[..to];
    assert w.cbw[..Length(t)] == w.cbw;
  }

  lemma WrapperSlice(t: Transfer, mps: nat, w: Writing, k: nat)
    requires CanWrite(t, mps, w) && k < |t.list| && t.cuts[k] <= t.cuts[k + 1] <= Length(t)
    ensures var td := t.list[k];
      && td.buffer + FieldBytes(td.maxLength) <= |w.ram|
      && w.ram[td.buffer..td.buffer + FieldBytes(td.maxLength)] == w.cbw[t.cuts[k]..t.cuts[k + 1]]
  {
    assert Tile(t, mps, k);
    var at, from, to, length := t.buffer, t.cuts[k], t.cuts[k + 1], Length(t);
    SliceOfSlice(w.ram, at, length, from, to);
  }

  lemma SendExchange(t: Transfer, mps: nat, w: Writing, s: Sys, k: nat, f: Fault)
    requires k < |t.list| && Carried(t, mps, w, s, k, k)
    ensures t.cuts[k + 1] <= Length(t)
    ensures match Exchange(s.dev, s.ram, t.list[k], f)
      case Stays(dev) => (f.NotReady? && dev == s.dev) || (f.Unheard? && dev == Taken(t, mps, w, k + 1))
      case Fails(_) => f.GivesUp?
      case Retires(dev, ram, bytes) => (
        f.Clear? && dev == Taken(t, mps, w, k + 1) && ram == w.ram && bytes == PacketSize(t, k))
  {
    hide Exchange, AcceptOut, Execute;
    assert Tile(t, mps, k);
    TakesNext(t, mps, w, k);
    WrapperSlice(t, mps, w, k);
    OutExchange(s.dev, s.ram, t.list[k], f);
  }

  /** A packet the device already has is acknowledged again and dropped, unless it has made the device halt. */
  lemma ResendExchange(t: Transfer, mps: nat, w: Writing, s: Sys, k: nat, f: Fault)
    requires k < |t.list| && Carried(t, mps, w, s, k, k + 1)
    ensures match Exchange(s.dev, s.ram, t.list[k], f)
      case Stays(dev) => dev == s.dev && !f.Clear?
      case Fails(_) => f.GivesUp? || s.dev.phase.Halted?
      case Retires(dev, ram, bytes) => dev == s.dev && ram == w.ram && bytes == PacketSize(t, k)
  {
    hide Exchange, Execute;
    assert Tile(t, mps, k);
    FlipIsNext(t.toggle, k);
    OutExchange(s.dev, s.ram, t.list[k], f);
  }

  /** One visit to the next descriptor, by what it does. */
  lemma CarriedVisit(t: Transfer, mps: nat, w: Writing, s: Sys, k: nat, d: nat, f: Fault) returns (d': nat)
    requires k < |t.list| && Carried(t, mps, w, s, k, d)
    ensures var e := Exchange(s.dev, s.ram, t.list[k], f);
      && Carried(t, mps, w, Apply(s, Addr(t.base, k), t.list[k], e), if e.Retires? then k + 1 else k, d') && d <= d'
      && (d == k && !f.Unheard? ==> d' == if e.Retires? then k + 1 else k)
      && (f.Clear? && d == k ==> e.Retires?)
  {
    hide Exchange, Execute, LinkWord;
    var e := Exchange(s.dev, s.ram, t.list[k], f);
    LengthsGrow(t, s, k, e, Sizes(t, mps, k));
    d' := d;
    if d == k {
      SendExchange(t, mps, w, s, k, f);
      d' := if e.Retires? || f.Unheard? then k + 1 else k;
    } else {
      ResendExchange(t, mps, w, s, k, f);
    }
  }

  lemma CarriedStep(t: Transfer, mps: nat, w: Writing, s: Sys, k: nat, d: nat, failed: bool, f: Fault) returns (d': nat)
    requires Progress(t.base, t.list, s, k, failed) && Carried(t, mps, w, s, k, d)
    ensures Carried(t, mps, w, HcStep(s, f), NextDone(t.list, s, k, failed, f), d') && d <= d'
    ensures d == k && !f.Unheard? ==> d' == NextDone(t.list, s, k, failed, f)
    ensures f.Clear? && !failed && d == k < |t.list| ==>
      NextDone(t.list, s, k, failed, f) == k + 1 && !NextFailed(t.list, s, k, failed, f)
  {
    hide Exchange, HcStep;
    Visit(t.base, t.list, s, k, failed, f);
    d' := d;
    if !failed && k < |t.list| {
      d' := CarriedVisit(t, mps, w, s, k, d, f);
    }
  }

  /** Every run of an OUT transfer of a command wrapper begun in step brings the device the wrapper packet by packet,
      each exactly once, however many handshakes are lost: it holds the packets of the retired descriptors, or one
      more, and acts on the whole wrapper, once, when the last packet has arrived. */
  lemma {:induction false} WriteRun(t: Transfer, mps: nat, w: Writing, s: Sys, k: nat, d: nat, failed: bool,
                                    fs: seq<Fault>)
      returns (k': nat, d': nat, failed': bool)
    requires Progress(t.base, t.list, s, k, failed) && Carried(t, mps, w, s, k, d)
    ensures Progress(t.base, t.list, Run(s, fs), k', failed') && Carried(t, mps, w, Run(s, fs), k', d')
    ensures d == k && Heard(fs) ==> d' == k'
    ensures AllClear(fs) && !failed && d == k ==> !failed' && k' == AtMostAll(k + |fs|, |t.list|)
    decreases |fs|
  {
    hide HcStep, Exchange;
    if fs == [] {
      k', d', failed' := k, d, failed;
    } else {
      ProgressStep(t.base, t.list, s, k, failed, fs[0]);
      var e := CarriedStep(t, mps, w, s, k, d, failed, fs[0]);
      k', d', failed' := WriteRun(t, mps, w, HcStep(s, fs[0]), NextDone(t.list, s, k, failed, fs[0]), e,
                                  NextFailed(t.list, s, k, failed, fs[0]), fs[1..]);
    }
  }

  // ---------------------------------------------------------------------------
  // The lists the bulk driver builds
  // ---------------------------------------------------------------------------

  function BulkTransfer(b: Bulk): (t: Transfer)
    requires WellFormed(b)
    ensures |t.cuts| == |t.list| + 1 == Count(b.length, b.mps) + 1
  {
    var n := Count(b.length, b.mps);
    Transfer(b.base, BulkList(b), seq(n + 1, i requires 0 <= i <= n => Covered(b.length, b.mps, i)),
             b.pid, b.address, b.endpoint, b.toggle, b.buffer)
  }

  lemma FieldHoldsSize(length: nat, mps: nat, k: nat)
    requires length > 0 && 0 < mps < 0x100 && k < Count(length, mps)
    ensures FieldBytes(Size(length, mps, k) - 1) == Size(length, mps, k)
  {
    PacketsTile(length, mps, k);
  }

  /** Because descriptors are 16-aligned, the 28-bit link field shifted back is the next one's address. */
  lemma BulkTdLeadsOn(b: Bulk, i: nat)
    requires WellFormed(b) && i < Count(b.length, b.mps)
    ensures LeadsOn(b.base, BulkTd(b, i), i + 1, Count(b.length, b.mps))
  {
    if i + 1 < Count(b.length, b.mps) {
      AddrAligned(b.base, i + 1);
      LinkSurvives(Addr(b.base, i + 1));
    }
  }

  lemma BulkTile(b: Bulk, i: nat)
    requires WellFormed(b) && i < Count(b.length, b.mps)
    ensures Tile(BulkTransfer(b), b.mps, i)
  {
    PacketsTile(b.length, b.mps, i);
    FieldHoldsSize(b.length, b.mps, i);
    if i + 1 < Count(b.length, b.mps) {
      PacketsTile(b.length, b.mps, i + 1);
    }
  }

  /** The descriptors of a bulk transaction are well linked and tile exactly `[0, length)` of the buffer. */
  lemma BulkIsTiled(b: Bulk)
    requires WellFormed(b)
    ensures Tiled(BulkTransfer(b), b.mps) && Length(BulkTransfer(b)) == b.length
  {
    SomePacket(b.length, b.mps);
    var list := BulkList(b);
    forall i | 0 <= i < |list|
      ensures list[i].active && !list[i].errored && LeadsOn(b.base, list[i], i + 1, |list|)
    {
      BulkTdLeadsOn(b, i);
    }
    forall i | 0 <= i < |list| ensures Tile(BulkTransfer(b), b.mps, i) {
      BulkTile(b, i);
    }
    assert b.mps * 0 == 0;
  }
}
