/** Control transfers: the SETUP / data / status lists of `uhci_execute_transaction` and of the second phase of
    the device-descriptor fetch (USB 2.0, section 8.5.3). */
module UhciControl {
  import opened Bytes
  import opened Uhci
  import opened TransferRuns

  /** Both builders step through the buffer eight bytes at a time. */
  const STRIDE: nat := 8

  datatype Control = Control(base: nat, setup: nat, buffer: nat, length: nat, mps: nat, address: nat, lowSpeed: bool)

  predicate Sane(c: Control) {
    0 < c.mps < 0x100 && c.base % 16 == 0
  }

  function DataPackets(c: Control): nat
    requires Sane(c)
  {
    Count(c.length, c.mps)
  }

  function SetupTd(c: Control): Td {
    Td(Addr(c.base, 1) / 16, false, true, true, false, 0, 3, c.lowSpeed, SetupPid, c.address, 0, 0, 7, c.setup)
  }

  function DataTd(c: Control, i: nat): Td
    requires Sane(c) && 0 < i
  {
    Td(Addr(c.base, i + 1) / 16, false, true, true, false, 0, 3, c.lowSpeed,
       InPid, c.address, 0, i % 2, c.mps - 1, c.buffer + STRIDE * (i - 1))
  }

  function StatusTd(c: Control, pid: Pid): Td {
    Td(0, true, true, true, false, 0, 3, c.lowSpeed, pid, c.address, 0, 1, NO_DATA, 0)
  }

  function ControlTd(c: Control, i: nat): Td
    requires Sane(c)
  {
    if i == 0 then SetupTd(c)
    else if i <= DataPackets(c) then DataTd(c, i)
    else StatusTd(c, if DataPackets(c) > 0 then OutPid else InPid)
  }

  function ControlList(c: Control): (list: seq<Td>)
    requires Sane(c)
    ensures |list| == DataPackets(c) + 2
  {
    seq(DataPackets(c) + 2, i requires 0 <= i => ControlTd(c, i))
  }

  /** Setting one descriptor's common fields after it has been zeroed. */
  function Fill(next: nat, c: Control, pid: Pid, toggle: nat, maxLength: nat, buffer: nat): Td {
    Td(Shr(next, 4), false, true, true, false, 0, 3, c.lowSpeed, pid, c.address, 0, toggle, maxLength, buffer)
  }

  /** The list of the device-descriptor fetch: its status packet is always OUT. */
  function FetchList(c: Control): seq<Td>
    requires Sane(c)
  {
    ControlList(c)[DataPackets(c) + 1 := StatusTd(c, OutPid)]
  }

  /** What the builders fill in, descriptor by descriptor. */
  lemma SetupFilled(c: Control)
    requires Sane(c)
    ensures |FetchList(c)| == |ControlList(c)| == DataPackets(c) + 2
    ensures Fill(Addr(c.base, 1), c, SetupPid, 0, 7, c.setup) == ControlList(c)[0] == FetchList(c)[0]
  {
    ParagraphOf(Addr(c.base, 1));
  }

  lemma DataFilled(c: Control, i: nat)
    requires Sane(c) && 1 <= i <= DataPackets(c)
    ensures |FetchList(c)| == |ControlList(c)| == DataPackets(c) + 2
    ensures Fill(Addr(c.base, i + 1), c, InPid, i % 2, c.mps - 1, c.buffer + 8 * (i - 1))
         == ControlList(c)[i] == FetchList(c)[i]
  {
    ParagraphOf(Addr(c.base, i + 1));
  }

  lemma StatusFilled(c: Control)
    requires Sane(c)
    ensures |FetchList(c)| == |ControlList(c)| == DataPackets(c) + 2
    ensures ControlList(c)[DataPackets(c) + 1] == StatusTd(c, if DataPackets(c) > 0 then OutPid else InPid)
    ensures FetchList(c)[DataPackets(c) + 1] == StatusTd(c, OutPid)
  {
  }

  /** The list is well linked, so the controller carries it out in order (`RetiredIsPrefix`) and stops. */
  lemma ControlIsLinked(c: Control)
    requires Sane(c)
    ensures Linked(c.base, ControlList(c))
  {
    var list := ControlList(c);
    forall i | 0 <= i < |list|
      ensures list[i].active && !list[i].errored && LeadsOn(c.base, list[i], i + 1, |list|)
    {
      ControlTdLeadsOn(c, i);
    }
  }

  lemma ControlTdLeadsOn(c: Control, i: nat)
    requires Sane(c) && i < DataPackets(c) + 2
    ensures LeadsOn(c.base, ControlTd(c, i), i + 1, DataPackets(c) + 2)
  {
    if i <= DataPackets(c) {
      AddrAligned(c.base, i + 1);
      LinkSurvives(Addr(c.base, i + 1));
    }
  }

  /** Where everything goes: the request from its own memory, data packet `i` eight bytes after the one before from the
      buffer's start on, and all of it to endpoint 0 of the device. */
  lemma ControlPlaces(c: Control, i: nat)
    requires Sane(c) && i < DataPackets(c) + 2
    ensures var td := ControlList(c)[i];
      && td.address == c.address && td.endpoint == 0 && td.lowSpeed == c.lowSpeed && td.errorCount == 3 && td.depthFirst
      && (i == 0 ==> td.buffer == c.setup)
      && (1 <= i <= DataPackets(c) ==> td.buffer + STRIDE == c.buffer + STRIDE * i && FieldBytes(td.maxLength) == c.mps)
  {
  }

  /** A device that has been asked for data is told so the same way by both builders. */
  lemma FetchIsControl(c: Control)
    requires Sane(c) && c.length > 0
    ensures FetchList(c) == ControlList(c)
  {
    PacketsCover(c.length, c.mps);
  }

  /** The data stage: enough packets for the request and no more, toggles 1, 0, 1, ..., and a status stage in
      the opposite direction with toggle 1. */
  lemma ControlStages(c: Control)
    requires Sane(c)
    ensures var list, d := ControlList(c), DataPackets(c);
      && c.mps * d >= c.length && (d > 0 ==> c.mps * (d - 1) < c.length)
      && list[0].pid == SetupPid && list[0].toggle == 0 && FieldBytes(list[0].maxLength) == 8
      && (forall i :: 1 <= i <= d ==> list[i].pid == InPid && list[i].toggle != list[i - 1].toggle)
      && list[d + 1].toggle == 1 && FieldBytes(list[d + 1].maxLength) == 0
      && (list[d + 1].pid == OutPid <==> c.length > 0) && (list[d + 1].pid == InPid <==> c.length == 0)
  {
    hide Count;
    PacketsCover(c.length, c.mps);
  }

  lemma PacketsCover(length: nat, mps: nat)
    requires mps > 0
    ensures length <= mps * Count(length, mps) && (Count(length, mps) > 0 <==> length > 0)
    ensures Count(length, mps) > 0 ==> mps * (Count(length, mps) - 1) < length
  {
    var q, r := length / mps, length % mps;
    assert length == mps * q + r;
    assert mps * (q + 1) == mps * q + mps;
    assert mps * (q - 1) == mps * q - mps;
  }
}
