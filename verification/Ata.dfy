/** The address half of `ata_read`: what the driver writes to the registers, and what the drive makes of it. */
module Ata {
  import opened Bytes
  import opened DiskAddress

  // ---------------------------------------------------------------------------
  // The drive
  // ---------------------------------------------------------------------------

  datatype Register = SectorCount | Lba0 | Lba1 | Lba2 | Select

  datatype RegisterWrite = RegisterWrite(register: Register, value: byte)

  /** The count and address registers are two writes deep. */
  datatype TwoDeep = TwoDeep(previous: byte, latest: byte)

  datatype Drive = Drive(count: TwoDeep, lba0: TwoDeep, lba1: TwoDeep, lba2: TwoDeep, select: byte)

  datatype Command = ReadPio | ReadPioExt

  function Push(r: TwoDeep, value: byte): TwoDeep {
    TwoDeep(r.latest, value)
  }

  function Accept(d: Drive, w: RegisterWrite): Drive {
    match w.register
    case SectorCount => d.(count := Push(d.count, w.value))
    case Lba0 => d.(lba0 := Push(d.lba0, w.value))
    case Lba1 => d.(lba1 := Push(d.lba1, w.value))
    case Lba2 => d.(lba2 := Push(d.lba2, w.value))
    case Select => d.(select := w.value)
  }

  function AcceptAll(d: Drive, ws: seq<RegisterWrite>): Drive
    decreases |ws|
  {
    if ws == [] then d else AcceptAll(Accept(d, ws[0]), ws[1..])
  }

  const CHS_HEADS: nat := 16
  const CHS_SECTORS: nat := 63

  /** The sector a drive reads first. */
  function Target(d: Drive, cmd: Command): int {
    var low: int, mid: int, high: int := d.lba0.latest, d.lba1.latest, d.lba2.latest;
    match cmd
    case ReadPioExt =>
      var low': int, mid': int, high': int := d.lba0.previous, d.lba1.previous, d.lba2.previous;
      low + 0x100 * mid + 0x1_0000 * high + 0x100_0000 * (low' + 0x100 * mid' + 0x1_0000 * high')
    case ReadPio =>
      if d.select / 0x40 % 2 == 1 then low + 0x100 * mid + 0x1_0000 * high + 0x100_0000 * (d.select % 0x10)
      else LbaOf(Chs(mid + 0x100 * high, d.select % 0x10, low), CHS_HEADS, CHS_SECTORS)
  }

  /** How many sectors, as the register says it; 0 stands for the largest count. */
  function Count(d: Drive, cmd: Command): nat {
    var latest: int, previous: int := d.count.latest, d.count.previous;
    if cmd == ReadPioExt then latest + 0x100 * previous else latest
  }

  /** Master or slave. */
  function Unit(d: Drive): nat {
    d.select / 0x10 % 2
  }

  // ---------------------------------------------------------------------------
  // The driver
  // ---------------------------------------------------------------------------

  datatype Mode = ChsMode | Lba28 | Lba48

  /** The byte `k` places up: masked where it stands, then shifted down. */
  function ByteAt(x: nat, k: nat): nat {
    Shr(And(x, Shl(0xFF, k)), k)
  }

  lemma Pow8s()
    ensures Pow2(4) == 0x10 && Pow2(8) == 0x100 && Pow2(16) == 0x1_0000 && Pow2(24) == 0x100_0000
  {
    assert Pow2(4) == 0x10;
    assert Pow2(8) == 0x100;
    assert Pow2(12) == 0x1000;
    assert Pow2(16) == 0x1_0000;
    assert Pow2(20) == 0x10_0000;
  }

  lemma ByteIsDigit(x: nat, k: nat)
    ensures ByteAt(x, k) == x / Pow2(k) % 0x100
  {
    MaskHighBits(x, 0xFF, k);
    ShiftsAreMulDiv(x, k);
    Pow8s();
    MaskIsMod(x / Pow2(k), 8);
  }

  /** `0xE0 | (slavebit << 4) | head`, and the same with 0xA0. */
  lemma SelectBits(top: nat, slave: nat, head: nat)
    requires top == 5 || top == 7
    requires slave < 2 && head < 0x10
    ensures Or(Or(Shl(top, 5), Shl(slave, 4)), head) == 0x20 * top + 0x10 * slave + head
  {
    Pow8s();
    assert Pow2(5) == 0x20;
    ShiftsAreMulDiv(top, 5);
    ShiftsAreMulDiv(slave, 4);
    OrDisjoint(top, Shl(slave, 4), 5);
    ShiftsAreMulDiv(2 * top + slave, 4);
    OrDisjoint(2 * top + slave, head, 4);
  }

  /** The largest address each mode can pass on. */
  predicate Reachable(mode: Mode, lba: uint32) {
    match mode
    case ChsMode => lba / (CHS_HEADS * CHS_SECTORS) < 0x1_0000
    case Lba28 => lba < 0x1000_0000
    case Lba48 => true
  }

  /** The four bytes of a word, each masked and shifted. */
  method WordBytes(lba: uint32) returns (b0: byte, b1: byte, b2: byte, b3: byte)
    ensures [b0, b1, b2, b3] == ToLE32(lba)
  {
    Pow8s();
    ByteIsDigit(lba, 0);
    ByteIsDigit(lba, 8);
    ByteIsDigit(lba, 16);
    ByteIsDigit(lba, 24);
    DigitsOfWord(lba);
    b0, b1, b2, b3 := ByteAt(lba, 0), ByteAt(lba, 8), ByteAt(lba, 16), ByteAt(lba, 24);
  }

  lemma DigitsOfWord(lba: uint32)
    ensures ToLE32(lba) == [lba / 1 % 0x100, lba / 0x100 % 0x100, lba / 0x1_0000 % 0x100, lba / 0x100_0000 % 0x100]
  {
    var l: int := lba;
    assert l / 0x100 / 0x100 == l / 0x1_0000;
    assert l / 0x1_0000 / 0x100 == l / 0x100_0000;
  }

  /** What `lba_io` and the head hold in each mode. */
  ghost predicate Addresses(mode: Mode, lba: uint32, io: seq<byte>, head: byte) {
    |io| == 6 &&
    match mode
    case Lba48 => io == ToLE32(lba) + [0, 0]
    case Lba28 => io[..3] == ToLE32(lba)[..3] && head == ToLE32(lba)[3] % 0x10
    case ChsMode =>
      var chs := ChsOf(lba, CHS_HEADS, CHS_SECTORS);
      io[0] == chs.sector && LE16(io[1..3]) == chs.cylinder % 0x1_0000 && head == chs.head
  }

  method AddressBytes(mode: Mode, lba: uint32) returns (io: seq<byte>, head: byte)
    ensures Addresses(mode, lba, io, head) && head < 0x10
  {
    var b0, b1, b2, b3 := WordBytes(lba);
    hide ByteAt;
    match mode
    case Lba48 =>
      io, head := [b0, b1, b2, b3, 0, 0], 0;
    case Lba28 =>
      HighNibbleOfWord(lba);
      io, head := [b0, b1, b2, 0, 0, 0], Shr(And(lba, Shl(0xF, 24)), 24);
    case ChsMode =>
      io, head := ChsRegisters(lba);
  }

  method ChsRegisters(lba: uint32) returns (io: seq<byte>, head: byte)
    ensures Addresses(ChsMode, lba, io, head) && head < 0x10
  {
    ChsBytes(lba);
    var l: int := lba;
    var sect: int := l % 63 + 1;
    var cyl: uint16 := (l + 1 - sect) / (16 * 63) % 0x1_0000;
    var bytes := ToLE16(cyl);
    LoadStore16(cyl);
    io := [sect, bytes[0], bytes[1], 0, 0, 0];
    assert io[1..3] == bytes;
    head := (l + 1 - sect) % (16 * 63) / 63;
  }

  lemma NibbleOfByte(y: nat)
    ensures y % 0x100 % 0x10 == y % 0x10
  {
    var q, r := y / 0x10, y % 0x10;
    ModUnique(y, 0x100, q / 0x10, 0x10 * (q % 0x10) + r);
    ModUnique(0x10 * (q % 0x10) + r, 0x10, q % 0x10, r);
  }

  lemma HighNibbleOfWord(lba: uint32)
    ensures Shr(And(lba, Shl(0xF, 24)), 24) == ToLE32(lba)[3] % 0x10
  {
    Pow8s();
    DigitsOfWord(lba);
    hide ToLE32;
    MaskHighBits(lba, 0xF, 24);
    ShiftsAreMulDiv(lba, 24);
    MaskIsMod(lba / 0x100_0000, 4);
    NibbleOfByte(lba / 0x100_0000);
    hide And, Shr, Shl;
  }

  /** The driver's form of the 16-head, 63-sector mapping. */
  lemma ChsBytes(lba: nat)
    ensures var chs := ChsOf(lba, CHS_HEADS, CHS_SECTORS);
      var sect := lba % 63 + 1;
      sect == chs.sector && (lba + 1 - sect) / (16 * 63) == chs.cylinder
      && (lba + 1 - sect) % (16 * 63) / 63 == chs.head < 0x10
  {
    var t := lba / 63;
    assert lba == t * 63 + lba % 63;
    var c, h := t / 16, t % 16;
    assert t == c * 16 + h;
    assert t * 63 == c * (16 * 63) + h * 63;
    ModUnique(t * 63, 16 * 63, c, h * 63);
  }

  function HighHalves(io: seq<byte>): seq<RegisterWrite>
    requires |io| == 6
  {
    [RegisterWrite(SectorCount, 0), RegisterWrite(Lba0, io[3]), RegisterWrite(Lba1, io[4]), RegisterWrite(Lba2, io[5])]
  }

  function LowHalves(io: seq<byte>, numSectors: uint32): seq<RegisterWrite>
    requires |io| == 6
  {
    [RegisterWrite(SectorCount, numSectors % 0x100), RegisterWrite(Lba0, io[0]), RegisterWrite(Lba1, io[1]),
     RegisterWrite(Lba2, io[2])]
  }

  /** The writes of `ata_read`: the drive and head, in LBA48 mode the high halves, then the low ones. */
  function Program(mode: Mode, select: byte, io: seq<byte>, numSectors: uint32): (ws: seq<RegisterWrite>)
    requires |io| == 6
  {
    [RegisterWrite(Select, select)] + (if mode == Lba48 then HighHalves(io) else []) + LowHalves(io, numSectors)
  }

  lemma FourAccepted(d: Drive, a: RegisterWrite, b: RegisterWrite, c: RegisterWrite, e: RegisterWrite,
                     rest: seq<RegisterWrite>)
    ensures AcceptAll(d, [a, b, c, e] + rest) == AcceptAll(Accept(Accept(Accept(Accept(d, a), b), c), e), rest)
  {
    assert ([a, b, c, e] + rest)[1..] == [b, c, e] + rest;
    assert ([b, c, e] + rest)[1..] == [c, e] + rest;
    assert ([c, e] + rest)[1..] == [e] + rest;
    assert ([e] + rest)[1..] == rest;
    var d1 := Accept(d, a);
    var d2 := Accept(d1, b);
    var d3 := Accept(d2, c);
    assert AcceptAll(d, [a, b, c, e] + rest) == AcceptAll(d1, [b, c, e] + rest);
    assert AcceptAll(d1, [b, c, e] + rest) == AcceptAll(d2, [c, e] + rest);
    assert AcceptAll(d2, [c, e] + rest) == AcceptAll(d3, [e] + rest);
  }

  /** What the drive's registers hold once the writes have been made, whatever they held before. */
  lemma ProgramAccepted(d: Drive, mode: Mode, select: byte, io: seq<byte>, numSectors: uint32)
    requires |io| == 6
    ensures var r, n := AcceptAll(d, Program(mode, select, io, numSectors)), numSectors % 0x100;
      && r.select == select && r.count.latest == n && r.lba0.latest == io[0] && r.lba1.latest == io[1]
      && r.lba2.latest == io[2]
      && (mode == Lba48 ==>
            r.count.previous == 0 && r.lba0.previous == io[3] && r.lba1.previous == io[4] && r.lba2.previous == io[5])
  {
    var ws, s := Program(mode, select, io, numSectors), Accept(d, RegisterWrite(Select, select));
    var low := LowHalves(io, numSectors);
    assert low == low + [];
    if mode == Lba48 {
      var high := HighHalves(io);
      assert ws[1..] == high + low;
      FourAccepted(s, high[0], high[1], high[2], high[3], low);
      var h := Accept(Accept(Accept(Accept(s, high[0]), high[1]), high[2]), high[3]);
      FourAccepted(h, low[0], low[1], low[2], low[3], []);
    } else {
      assert ws[1..] == low;
      FourAccepted(s, low[0], low[1], low[2], low[3], []);
    }
  }

  /** The address half of `ata_read`. */
  method ProgramRead(mode: Mode, slavebit: nat, lba: uint32, offset: uint32, numSectors: uint32)
      returns (ws: seq<RegisterWrite>, cmd: Command)
    requires slavebit < 2
    ensures var absolute := (lba + offset) % WORD_SPAN;
      forall d :: Target(AcceptAll(d, ws), cmd) == absolute <==> Reachable(mode, absolute)
    ensures forall d :: Count(AcceptAll(d, ws), cmd) == numSectors % 0x100 && Unit(AcceptAll(d, ws)) == slavebit
  {
    var absolute := (lba + offset) % WORD_SPAN;
    var io, head := AddressBytes(mode, absolute);
    var top := if mode == ChsMode then 5 else 7;
    SelectBits(top, slavebit, head);
    var select := Or(Or(Shl(top, 5), Shl(slavebit, 4)), head);
    ws := Program(mode, select, io, numSectors);
    cmd := if mode == Lba48 then ReadPioExt else ReadPio;
    forall d
      ensures Target(AcceptAll(d, ws), cmd) == absolute <==> Reachable(mode, absolute)
      ensures Count(AcceptAll(d, ws), cmd) == numSectors % 0x100 && Unit(AcceptAll(d, ws)) == slavebit
    {
      TargetExactly(d, mode, slavebit, head, select, io, absolute, numSectors);
    }
  }

  lemma TargetExactly(d: Drive, mode: Mode, slavebit: nat, head: byte, select: byte, io: seq<byte>, lba: uint32,
                      numSectors: uint32)
    requires slavebit < 2 && head < 0x10 && Addresses(mode, lba, io, head)
    requires select == 0x20 * (if mode == ChsMode then 5 else 7) + 0x10 * slavebit + head
    ensures var cmd := if mode == Lba48 then ReadPioExt else ReadPio;
      var r := AcceptAll(d, Program(mode, select, io, numSectors));
      && (Target(r, cmd) == lba <==> Reachable(mode, lba)) && Count(r, cmd) == numSectors % 0x100 && Unit(r) == slavebit
  {
    ProgramAccepted(d, mode, select, io, numSectors);
    hide AcceptAll, Program, ToLE32, ChsOf;
    SelectFields(if mode == ChsMode then 5 else 7, slavebit, head);
    match mode
    case ChsMode => CutCylinderExactly(lba, CHS_HEADS, CHS_SECTORS, 0x1_0000);
    case Lba28 => LowBitsOfWord(lba, io, head);
    case Lba48 => LoadStore32(lba);
  }

  lemma SelectFields(top: nat, slavebit: nat, head: nat)
    requires (top == 5 || top == 7) && slavebit < 2 && head < 0x10
    ensures var select := 0x20 * top + 0x10 * slavebit + head;
      select / 0x10 % 2 == slavebit && select % 0x10 == head && select / 0x40 % 2 == if top == 5 then 0 else 1
  {
  }

  lemma LowBitsOfWord(lba: uint32, io: seq<byte>, head: byte)
    requires |io| == 6 && io[..3] == ToLE32(lba)[..3] && head == ToLE32(lba)[3] % 0x10
    ensures var b0: int, b1: int, b2: int, h: int := io[0], io[1], io[2], head;
      b0 + 0x100 * b1 + 0x1_0000 * b2 + 0x100_0000 * h == lba <==> lba < 0x1000_0000
  {
    LoadStore32(lba);
    var b := ToLE32(lba);
    assert io[0] == b[0] && io[1] == b[1] && io[2] == b[2];
  }
}
