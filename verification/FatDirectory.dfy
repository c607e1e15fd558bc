/** Root directories: the 8.3 name copy and the listing of the root. */
module FatDirectory {
  import opened Bytes
  import opened Kernel
  import opened FatTable
  import opened FatVolume
  import opened FatReader

  const ENTRIES_PER_SECTOR: nat := 16
  const PAD: byte := SPACE
  const DOT: byte := FULL_STOP
  const DIRECTORY_FLAG: nat := 0x10

  /** A 32-byte directory entry. */
  type RawEntry = e: seq<byte> | |e| == DIR_ENTRY_SIZE witness Zeros(32)

  predicate IsPad(b: byte) {
    b == PAD || b == 0
  }

  predicate Flag(raw: RawEntry, weight: nat)
    requires weight > 0
  {
    raw[11] / weight % 2 == 1
  }

  predicate IsDirectory(raw: RawEntry) {
    Flag(raw, DIRECTORY_FLAG)
  }

  // ---------------------------------------------------------------------------
  // File names
  // ---------------------------------------------------------------------------

  /** The first pad byte at or after `from`, or the end. */
  function PadAt(mem: seq<byte>, from: nat): (end: nat)
    requires from <= |mem|
    ensures from <= end <= |mem|
    ensures forall i :: from <= i < end ==> !IsPad(mem[i])
    ensures end < |mem| ==> IsPad(mem[end])
    decreases |mem| - from
  {
    if from == |mem| || IsPad(mem[from]) then from else PadAt(mem, from + 1)
  }

  /** The name the driver copies out of the entry at the start of `mem`: neither loop knows how long its field is. None
      when a loop finds no pad byte at all. */
  function FileName(mem: seq<byte>): Option<seq<byte>>
    requires |mem| >= DIR_ENTRY_SIZE
  {
    var name, extension := PadAt(mem, 0), PadAt(mem, 8);
    if name == |mem| then None
    else if IsDirectory(mem[..DIR_ENTRY_SIZE]) then Some(mem[..name])
    else if extension == |mem| then None
    else Some(mem[..name] + [DOT] + mem[8..extension])
  }

  /** A field's text: what precedes its padding. */
  function Field(field: seq<byte>): seq<byte> {
    field[..PadAt(field, 0)]
  }

  /** The 8.3 name of an entry. */
  function ShortName(raw: RawEntry): seq<byte> {
    if IsDirectory(raw) then Field(raw[..8]) else Field(raw[..8]) + [DOT] + Field(raw[8..11])
  }

  lemma {:induction false} PadFrom(mem: seq<byte>, from: nat, end: nat)
    requires from <= end < |mem| && IsPad(mem[end]) && forall i :: from <= i < end ==> !IsPad(mem[i])
    ensures PadAt(mem, from) == end
    decreases end - from
  {
    if from < end {
      PadFrom(mem, from + 1, end);
    }
  }

  /** A field of `n` bytes is copied whole and no further exactly when there is a pad in it or right after it. */
  lemma FieldCopied(mem: seq<byte>, from: nat, n: nat)
    requires from + n < |mem|
    ensures PadAt(mem, from) <= from + n <==> (exists i :: from <= i <= from + n && IsPad(mem[i]))
    ensures PadAt(mem, from) <= from + n ==> mem[from..PadAt(mem, from)] == Field(mem[from..from + n])
    ensures |Field(mem[from..from + n])| <= n
  {
    var end := PadAt(mem, from);
    var field := mem[from..from + n];
    if i :| from <= i <= from + n && IsPad(mem[i]) {
      assert end <= i;
    }
    if end < from + n {
      assert forall k :: 0 <= k < end - from ==> field[k] == mem[from + k];
      PadFrom(field, 0, end - from);
    } else if end == from + n {
      NoPad(field, 0);
    }
  }

  lemma {:induction false} NoPad(field: seq<byte>, from: nat)
    requires from <= |field| && forall i :: from <= i < |field| ==> !IsPad(field[i])
    ensures PadAt(field, from) == |field|
    decreases |field| - from
  {
    if from < |field| {
      NoPad(field, from + 1);
    }
  }

  /** A pad byte bounds the name and, for a file, the extension. The byte after the extension is the attributes,
      which bound it when they are 0 or just "archive". */
  predicate Bounded(mem: seq<byte>)
    requires |mem| >= DIR_ENTRY_SIZE
  {
    && (exists i :: 0 <= i <= 8 && IsPad(mem[i]))
    && (IsDirectory(mem[..DIR_ENTRY_SIZE]) || exists i :: 8 <= i <= 11 && IsPad(mem[i]))
  }

  /** The unbounded copy gives the 8.3 name exactly when pad bytes happen to bound both fields. */
  lemma NameCopiedExactly(mem: seq<byte>)
    requires |mem| >= DIR_ENTRY_SIZE
    ensures FileName(mem) == Some(ShortName(mem[..DIR_ENTRY_SIZE])) <==> Bounded(mem)
  {
    var raw := mem[..DIR_ENTRY_SIZE];
    assert raw[..8] == mem[0..8] && raw[8..11] == mem[8..11];
    FieldCopied(mem, 0, 8);
    FieldCopied(mem, 8, 3);
    var name, extension := PadAt(mem, 0), PadAt(mem, 8);
    assert mem[..name] == mem[0..name];
    if !IsDirectory(raw) {
      if name > 8 && name < |mem| {
        PadFrom(mem, 8, name);
      }
      CopiedLength(mem, raw);
    }
  }

  lemma CopiedLength(mem: seq<byte>, raw: RawEntry)
    requires |mem| >= DIR_ENTRY_SIZE && raw == mem[..DIR_ENTRY_SIZE] && !IsDirectory(raw)
    ensures FileName(mem).Some? ==> |FileName(mem).value| == PadAt(mem, 0) + 1 + (PadAt(mem, 8) - 8)
    ensures |ShortName(raw)| == |Field(raw[..8])| + 1 + |Field(raw[8..11])|
  {
  }

  /** One of the two copy loops of `fat_parse_dir_entries`. */
  method CopyField(mem: seq<byte>, from: nat, filename: array<byte>, at: nat) returns (length: nat)
    requires from <= |mem| && PadAt(mem, from) < |mem| && at + PadAt(mem, from) - from <= filename.Length
    modifies filename
    ensures length == at + PadAt(mem, from) - from
    ensures filename[..length] == old(filename[..at]) + mem[from..PadAt(mem, from)]
  {
    ghost var stem := filename[..at];
    var index := from;
    length := at;
    while mem[index] != PAD && mem[index] != 0
      invariant from <= index <= PadAt(mem, from) && length == at + index - from
      invariant filename[..length] == stem + mem[from..index]
      decreases PadAt(mem, from) - index
    {
      filename[length] := mem[index];
      length, index := length + 1, index + 1;
    }
  }

  /** The name, a dot and the extension unless it is a directory, and a NUL. */
  method CopyFileName(mem: seq<byte>, filename: array<byte>) returns (length: nat)
    requires |mem| >= DIR_ENTRY_SIZE && FileName(mem).Some? && |FileName(mem).value| < filename.Length
    modifies filename
    ensures length == |FileName(mem).value| < filename.Length
    ensures filename[..length] == FileName(mem).value && filename[length] == 0
  {
    length := CopyField(mem, 0, filename, 0);
    if !IsDirectory(mem[..DIR_ENTRY_SIZE]) {
      filename[length] := DOT;
      length := CopyField(mem, 8, filename, length + 1);
    }
    filename[length] := 0;
  }

  // ---------------------------------------------------------------------------
  // Parsing a sector of entries
  // ---------------------------------------------------------------------------

  datatype DirEntry = DirEntry(filename: seq<byte>, locationOnDisk: uint32, fileSize: uint32, readOnly: bool,
                               hidden: bool, system: bool, directory: bool, archive: bool)

  /** Entry `i` of a sector or cluster. */
  function RawAt(buffer: seq<byte>, i: nat): RawEntry
    requires DIR_ENTRY_SIZE * (i + 1) <= |buffer|
  {
    buffer[DIR_ENTRY_SIZE * i..DIR_ENTRY_SIZE * i + DIR_ENTRY_SIZE]
  }

  /** An entry as the rest of the kernel sees it. `stack` is the memory after the driver's copy of the entry. */
  function Parsed(raw: RawEntry, stack: seq<byte>, fatType: FatType): DirEntry
    requires FileName(raw + stack).Some?
  {
    var high: int := if fatType == FAT32 then LE16(raw[20..22]) else 0;
    DirEntry(FileName(raw + stack).value, Wrap(LE16(raw[26..28]) + high * 0x1_0000), LE32(raw[28..32]),
             Flag(raw, 1), Flag(raw, 2), Flag(raw, 4), Flag(raw, DIRECTORY_FLAG), Flag(raw, 0x20))
  }

  /** The fields of an entry on disk ("FAT Directory Structure" of the FAT specification). */
  datatype DiskEntry = DiskEntry(stem: seq<byte>, extension: seq<byte>, readOnly: bool, hidden: bool, system: bool,
                                 volumeLabel: bool, directory: bool, archive: bool, others: nat, reserved: seq<byte>,
                                 clusterHigh: uint16, writeTime: uint16, writeDate: uint16, clusterLow: uint16,
                                 fileSize: uint32)

  /** Both parts of a name are padded with spaces, and hold none themselves. */
  predicate Formed(e: DiskEntry) {
    && |e.stem| <= 8 && |e.extension| <= 3 && |e.reserved| == 8 && e.others < 4
    && forall c :: c in e.stem + e.extension ==> c != 0 && c != ' ' as int
  }

  function Blanks(n: nat): (r: seq<byte>)
    ensures |r| == n
  {
    seq(n, _ => ' ' as int)
  }

  function NameField(e: DiskEntry): (name: seq<byte>)
    requires Formed(e)
    ensures |name| == 11
  {
    e.stem + Blanks(8 - |e.stem|) + e.extension + Blanks(3 - |e.extension|)
  }

  function Attributes(e: DiskEntry): byte
    requires Formed(e)
  {
    Bit(e.readOnly) + 0x02 * Bit(e.hidden) + 0x04 * Bit(e.system) + 0x08 * Bit(e.volumeLabel) + 0x10 * Bit(e.directory)
    + 0x20 * Bit(e.archive) + 0x40 * e.others
  }

  function Bit(flag: bool): (bit: nat)
    ensures bit < 2
  {
    if flag then 1 else 0
  }

  /** Its 32 bytes: every number with its low byte first. */
  function OnDisk(e: DiskEntry): (raw: RawEntry)
    requires Formed(e)
  {
    NameField(e) + [Attributes(e)] + e.reserved + LowFirst(e.clusterHigh, 2) + LowFirst(e.writeTime, 2)
    + LowFirst(e.writeDate, 2) + LowFirst(e.clusterLow, 2) + LowFirst(e.fileSize, 4)
  }

  lemma FieldsOf(e: DiskEntry)
    requires Formed(e)
    ensures var raw := OnDisk(e);
      && raw[..11] == NameField(e) && raw[11] == Attributes(e) && LE16(raw[20..22]) == e.clusterHigh
      && LE16(raw[26..28]) == e.clusterLow && LE32(raw[28..32]) == e.fileSize
  {
    hide LowFirst, LE16, LE32, Attributes, NameField;
    var raw := OnDisk(e);
    assert raw[20..22] == LowFirst(e.clusterHigh, 2);
    assert raw[26..28] == LowFirst(e.clusterLow, 2);
    assert raw[28..32] == LowFirst(e.fileSize, 4);
    LoadsLowFirst(e.clusterHigh);
    LoadsLowFirst(e.clusterLow);
    LoadsLowFirst(e.fileSize);
  }

  lemma FlagsOf(e: DiskEntry, raw: RawEntry)
    requires Formed(e) && raw[11] == Attributes(e)
    ensures Flag(raw, 0x01) == e.readOnly && Flag(raw, 0x02) == e.hidden && Flag(raw, 0x04) == e.system
    ensures Flag(raw, 0x10) == e.directory && Flag(raw, 0x20) == e.archive
  {
    FlagBits(raw[11], Bit(e.readOnly), Bit(e.hidden), Bit(e.system), Bit(e.volumeLabel), Bit(e.directory),
             Bit(e.archive), e.others);
  }

  lemma FlagBits(x: nat, r: nat, h: nat, s: nat, v: nat, d: nat, a: nat, others: nat)
    requires r < 2 && h < 2 && s < 2 && v < 2 && d < 2 && a < 2
    requires x == r + 0x02 * h + 0x04 * s + 0x08 * v + 0x10 * d + 0x20 * a + 0x40 * others
    ensures x / 0x01 % 2 == r && x / 0x02 % 2 == h && x / 0x04 % 2 == s && x / 0x10 % 2 == d && x / 0x20 % 2 == a
  {
    BitOf(x, 0x01, r, 0, h + 2 * s + 4 * v + 8 * d + 0x10 * a + 0x20 * others);
    BitOf(x, 0x02, h, r, s + 2 * v + 4 * d + 8 * a + 0x10 * others);
    BitOf(x, 0x04, s, r + 2 * h, v + 2 * d + 4 * a + 8 * others);
    BitOf(x, 0x10, d, r + 2 * h + 4 * s + 8 * v, a + 2 * others);
    BitOf(x, 0x20, a, r + 2 * h + 4 * s + 8 * v + 0x10 * d, others);
  }

  lemma BitOf(x: nat, weight: nat, bit: nat, low: nat, high: nat)
    requires bit < 2 && low < weight && x == low + weight * (bit + 2 * high)
    ensures x / weight % 2 == bit
  {
    var q := bit + 2 * high;
    assert x == q * weight + low;
    ModUnique(x, weight, q, low);
  }

  /** Parsing an entry returns the fields it was made from: the flags, the size, and the first cluster, the high half of
      which counts on FAT32 alone. Its name is the 8.3 name if the copy is bounded (`NameCopiedExactly`). */
  lemma ParsesWhatIsOnDisk(e: DiskEntry, stack: seq<byte>, fatType: FatType)
    requires Formed(e) && FileName(OnDisk(e) + stack).Some?
    ensures var entry := Parsed(OnDisk(e), stack, fatType);
      && entry.locationOnDisk == (if fatType == FAT32 then e.clusterLow + 0x1_0000 * e.clusterHigh else e.clusterLow)
      && entry.fileSize == e.fileSize && entry.readOnly == e.readOnly && entry.hidden == e.hidden
      && entry.system == e.system && entry.directory == e.directory && entry.archive == e.archive
      && (Bounded(OnDisk(e) + stack) ==>
            entry.filename == if e.directory then e.stem else e.stem + ['.' as int] + e.extension)
  {
    hide LE16, LE32, Flag, Attributes, FileName, Bounded, Field, OnDisk, NameField;
    var raw, mem := OnDisk(e), OnDisk(e) + stack;
    FieldsOf(e);
    FlagsOf(e, raw);
    NameCopiedExactly(mem);
    NameReads(e);
    assert mem[..DIR_ENTRY_SIZE] == raw && raw[..8] == NameField(e)[..8] && raw[8..11] == NameField(e)[8..] by {
      assert raw[..11][..8] == raw[..8] && raw[..11][8..] == raw[8..11];
    }
  }

  /** A padded field reads back as its text. */
  lemma FieldReads(text: seq<byte>, n: nat)
    requires forall c :: c in text ==> c != 0 && c != ' ' as int
    ensures Field(text + Blanks(n)) == text
  {
    var field := text + Blanks(n);
    forall i | 0 <= i < |text| ensures !IsPad(field[i]) {
      assert field[i] == text[i] && text[i] in text;
    }
    if n > 0 {
      assert IsPad(field[|text|]);
      PadFrom(field, 0, |text|);
    } else {
      NoPad(field, 0);
    }
  }

  lemma NameReads(e: DiskEntry)
    requires Formed(e)
    ensures Field(NameField(e)[..8]) == e.stem && Field(NameField(e)[8..]) == e.extension
  {
    hide Field;
    assert NameField(e)[..8] == e.stem + Blanks(8 - |e.stem|);
    assert NameField(e)[8..] == e.extension + Blanks(3 - |e.extension|);
    forall c | c in e.stem ensures c != 0 && c != ' ' as int {
      assert c in e.stem + e.extension;
    }
    forall c | c in e.extension ensures c != 0 && c != ' ' as int {
      assert c in e.stem + e.extension;
    }
    FieldReads(e.stem, 8 - |e.stem|);
    FieldReads(e.extension, 3 - |e.extension|);
  }

  /** The entries before the first empty one, among the first `max`. */
  function Live(buffer: seq<byte>, max: nat): (n: nat)
    requires DIR_ENTRY_SIZE * max <= |buffer|
    ensures n <= max
    ensures n < max ==> RawAt(buffer, n)[0] == 0
    ensures forall i :: 0 <= i < n ==> RawAt(buffer, i)[0] != 0
  {
    if max == 0 then 0 else
    var before := Live(buffer, max - 1);
    if before == max - 1 && RawAt(buffer, max - 1)[0] != 0 then max else before
  }

  lemma LiveEndsAtEmpty(buffer: seq<byte>, max: nat)
    requires DIR_ENTRY_SIZE * max <= |buffer|
    ensures Live(buffer, max) <= max
    ensures forall i :: 0 <= i < Live(buffer, max) ==> RawAt(buffer, i)[0] != 0
    ensures Live(buffer, max) < max ==> RawAt(buffer, Live(buffer, max))[0] == 0
  {
  }

  /** The copy loop ends for every live entry. */
  ghost predicate Named(buffer: seq<byte>, n: nat, stack: seq<byte>)
    requires DIR_ENTRY_SIZE * n <= |buffer|
  {
    forall i :: 0 <= i < n ==> FileName(RawAt(buffer, i) + stack).Some?
  }

  function Listing(buffer: seq<byte>, n: nat, stack: seq<byte>, fatType: FatType): (list: seq<DirEntry>)
    requires DIR_ENTRY_SIZE * n <= |buffer| && Named(buffer, n, stack)
    ensures |list| == n && forall i :: 0 <= i < n ==> list[i] == Parsed(RawAt(buffer, i), stack, fatType)
  {
    seq(n, i requires 0 <= i < n => Parsed(RawAt(buffer, i), stack, fatType))
  }

  /** `fat_parse_dir_entries`. */
  method ParseDirEntries(buffer: seq<byte>, max: nat, stack: seq<byte>, fatType: FatType, out: array<DirEntry>)
      returns (n: nat)
    requires DIR_ENTRY_SIZE * max <= |buffer| && Live(buffer, max) <= out.Length
    requires Named(buffer, Live(buffer, max), stack)
    modifies out
    ensures n == Live(buffer, max) <= out.Length
    ensures out[..] == Listing(buffer, n, stack, fatType) + old(out[n..])
  {
    hide Parsed, FileName, Listing, Live, RawAt;
    ghost var live := Live(buffer, max);
    ghost var list, was := Listing(buffer, live, stack, fatType), out[..];
    LiveEndsAtEmpty(buffer, max);
    n := 0;
    while n < max
      invariant 0 <= n <= live
      invariant forall i :: 0 <= i < n ==> out[i] == list[i]
      invariant forall i :: n <= i < out.Length ==> out[i] == was[i]
    {
      var raw := RawAt(buffer, n);
      if raw[0] == 0 {
        break;
      }
      out[n] := Parsed(raw, stack, fatType);
      n := n + 1;
    }
    assert n == live;
  }

  // ---------------------------------------------------------------------------
  // The root directory
  // ---------------------------------------------------------------------------

  lemma SectorLength(disk: Disk, lba: nat)
    requires Formatted(disk)
    ensures |Sector(disk, lba)| == DIR_ENTRY_SIZE * ENTRIES_PER_SECTOR
  {
  }

  /** Entry `i` of a directory whose sectors begin at `first`. */
  function Slot(disk: Disk, first: nat, i: nat): RawEntry
    requires Formatted(disk)
  {
    SectorLength(disk, first + i / ENTRIES_PER_SECTOR);
    RawAt(Sector(disk, first + i / ENTRIES_PER_SECTOR), i % ENTRIES_PER_SECTOR)
  }

  function LiveIn(disk: Disk, lba: nat): (n: nat)
    requires Formatted(disk)
    ensures n <= ENTRIES_PER_SECTOR
  {
    SectorLength(disk, lba);
    Live(Sector(disk, lba), ENTRIES_PER_SECTOR)
  }

  /** The entries of a directory before its first empty one. */
  function LiveEntries(disk: Disk, first: nat, sectors: nat): (n: nat)
    requires Formatted(disk)
    ensures n <= ENTRIES_PER_SECTOR * sectors
    decreases sectors
  {
    if sectors == 0 then 0
    else if LiveIn(disk, first) < ENTRIES_PER_SECTOR then LiveIn(disk, first)
    else ENTRIES_PER_SECTOR + LiveEntries(disk, first + 1, sectors - 1)
  }

  lemma SlotInFirst(disk: Disk, first: nat, i: nat)
    requires Formatted(disk) && i < ENTRIES_PER_SECTOR
    ensures |Sector(disk, first)| == BYTES_PER_SECTOR && Slot(disk, first, i) == RawAt(Sector(disk, first), i)
  {
    SectorLength(disk, first);
  }

  lemma SlotInRest(disk: Disk, first: nat, i: nat)
    requires Formatted(disk) && i >= ENTRIES_PER_SECTOR
    ensures Slot(disk, first, i) == Slot(disk, first + 1, i - ENTRIES_PER_SECTOR)
  {
    assert first + i / ENTRIES_PER_SECTOR == first + 1 + (i - ENTRIES_PER_SECTOR) / ENTRIES_PER_SECTOR;
    assert i % ENTRIES_PER_SECTOR == (i - ENTRIES_PER_SECTOR) % ENTRIES_PER_SECTOR;
  }

  lemma {:induction false} LiveUpToFirstEmpty(disk: Disk, first: nat, sectors: nat, i: nat)
    requires Formatted(disk) && i < ENTRIES_PER_SECTOR * sectors
    ensures i < LiveEntries(disk, first, sectors) ==> Slot(disk, first, i)[0] != 0
    ensures i == LiveEntries(disk, first, sectors) ==> Slot(disk, first, i)[0] == 0
    decreases sectors
  {
    hide Slot, RawAt, Live;
    if i < ENTRIES_PER_SECTOR {
      SlotInFirst(disk, first, i);
    } else {
      SlotInRest(disk, first, i);
      LiveUpToFirstEmpty(disk, first + 1, sectors - 1, i - ENTRIES_PER_SECTOR);
    }
  }

  /** Every name the listing copies out of the sector ends. */
  ghost predicate SectorNamed(disk: Disk, lba: nat, stack: seq<byte>)
    requires Formatted(disk)
  {
    SectorLength(disk, lba);
    Named(Sector(disk, lba), LiveIn(disk, lba), stack)
  }

  ghost predicate AllNamed(disk: Disk, first: nat, sectors: nat, stack: seq<byte>)
    requires Formatted(disk)
    decreases sectors
  {
    sectors == 0 ||
    (SectorNamed(disk, first, stack) &&
     (LiveIn(disk, first) == ENTRIES_PER_SECTOR ==> AllNamed(disk, first + 1, sectors - 1, stack)))
  }

  function SectorListing(disk: Disk, lba: nat, stack: seq<byte>, fatType: FatType): (list: seq<DirEntry>)
    requires Formatted(disk) && SectorNamed(disk, lba, stack)
    ensures |list| == LiveIn(disk, lba)
  {
    SectorLength(disk, lba);
    Listing(Sector(disk, lba), LiveIn(disk, lba), stack, fatType)
  }

  /** The listing a directory ought to have. */
  function FullListing(disk: Disk, first: nat, sectors: nat, stack: seq<byte>, fatType: FatType): (list: seq<DirEntry>)
    requires Formatted(disk) && AllNamed(disk, first, sectors, stack)
    ensures |list| == LiveEntries(disk, first, sectors)
    decreases sectors
  {
    if sectors == 0 then []
    else if LiveIn(disk, first) < ENTRIES_PER_SECTOR then SectorListing(disk, first, stack, fatType)
    else SectorListing(disk, first, stack, fatType) + FullListing(disk, first + 1, sectors - 1, stack, fatType)
  }

  /** What `fat12_list_root` leaves in the caller's list: every sector is parsed to its beginning. */
  function LeftIn(disk: Disk, first: nat, sectors: nat, stack: seq<byte>, fatType: FatType,
                  out: seq<DirEntry>): (r: seq<DirEntry>)
    requires Formatted(disk) && AllNamed(disk, first, sectors, stack) && |out| >= ENTRIES_PER_SECTOR
    ensures |r| == |out|
    decreases sectors
  {
    if sectors == 0 then out else
    var next := SectorListing(disk, first, stack, fatType) + out[LiveIn(disk, first)..];
    if LiveIn(disk, first) < ENTRIES_PER_SECTOR then next
    else LeftIn(disk, first + 1, sectors - 1, stack, fatType, next)
  }

  lemma {:induction false} OnlyFirstSlotsWritten(disk: Disk, first: nat, sectors: nat, stack: seq<byte>,
                                                 fatType: FatType, out: seq<DirEntry>, k: nat)
    requires Formatted(disk) && AllNamed(disk, first, sectors, stack) && ENTRIES_PER_SECTOR <= k < |out|
    ensures LeftIn(disk, first, sectors, stack, fatType, out)[k] == out[k]
    decreases sectors
  {
    hide RawAt, Live, Listing, Named, LiveEntries, SectorListing;
    if sectors > 0 && LiveIn(disk, first) == ENTRIES_PER_SECTOR {
      var next := SectorListing(disk, first, stack, fatType) + out[LiveIn(disk, first)..];
      OnlyFirstSlotsWritten(disk, first + 1, sectors - 1, stack, fatType, next, k);
    }
  }

  lemma SmallDirectoryListed(disk: Disk, first: nat, sectors: nat, stack: seq<byte>, fatType: FatType,
                             out: seq<DirEntry>)
    requires Formatted(disk) && AllNamed(disk, first, sectors, stack) && |out| >= ENTRIES_PER_SECTOR
    requires LiveEntries(disk, first, sectors) <= ENTRIES_PER_SECTOR
    ensures FullListing(disk, first, sectors, stack, fatType) <= LeftIn(disk, first, sectors, stack, fatType, out)
  {
    hide RawAt, Live, Listing, Named, SectorListing;
    if sectors > 0 && LiveIn(disk, first) == ENTRIES_PER_SECTOR {
      assert LiveEntries(disk, first + 1, sectors - 1) == 0;
      var rest := FullListing(disk, first + 1, sectors - 1, stack, fatType);
      assert SectorListing(disk, first, stack, fatType) + rest == SectorListing(disk, first, stack, fatType);
    }
  }

  lemma LargeDirectoryMislisted(disk: Disk, first: nat, sectors: nat, stack: seq<byte>, fatType: FatType,
                                out: seq<DirEntry>)
    requires Formatted(disk) && AllNamed(disk, first, sectors, stack)
    requires ENTRIES_PER_SECTOR < LiveEntries(disk, first, sectors) <= |out|
    requires out[ENTRIES_PER_SECTOR] != FullListing(disk, first, sectors, stack, fatType)[ENTRIES_PER_SECTOR]
    ensures !(FullListing(disk, first, sectors, stack, fatType) <= LeftIn(disk, first, sectors, stack, fatType, out))
  {
    OnlyFirstSlotsWritten(disk, first, sectors, stack, fatType, out, ENTRIES_PER_SECTOR);
  }

  function Another(d: DirEntry): (other: DirEntry)
    ensures other != d
  {
    d.(hidden := !d.hidden)
  }

  /** The listing is right, whatever the caller's list held before, exactly when the directory has at most one sector's
      worth of entries. */
  lemma RootListedExactly(disk: Disk, first: nat, sectors: nat, stack: seq<byte>, fatType: FatType)
    requires Formatted(disk) && AllNamed(disk, first, sectors, stack)
    ensures (forall out: seq<DirEntry> :: |out| >= ENTRIES_PER_SECTOR + LiveEntries(disk, first, sectors) ==>
               FullListing(disk, first, sectors, stack, fatType) <= LeftIn(disk, first, sectors, stack, fatType, out))
       <==> LiveEntries(disk, first, sectors) <= ENTRIES_PER_SECTOR
  {
    hide LiveEntries, FullListing, LeftIn, AllNamed, Formatted;
    var live, list := LiveEntries(disk, first, sectors), FullListing(disk, first, sectors, stack, fatType);
    if live <= ENTRIES_PER_SECTOR {
      forall out: seq<DirEntry> | |out| >= ENTRIES_PER_SECTOR + live
        ensures list <= LeftIn(disk, first, sectors, stack, fatType, out)
      {
        SmallDirectoryListed(disk, first, sectors, stack, fatType, out);
      }
    } else {
      var out := seq(ENTRIES_PER_SECTOR + live, _ => Another(list[ENTRIES_PER_SECTOR]));
      LargeDirectoryMislisted(disk, first, sectors, stack, fatType, out);
    }
  }

  /** The sectors up to and including the one with the first empty entry can all be read. */
  ghost predicate DirectoryReadable(disk: Disk, first: nat, sectors: nat)
    requires Formatted(disk)
    decreases sectors
  {
    sectors == 0 ||
    (Readable(disk, first, 1)
     && (LiveIn(disk, first) == ENTRIES_PER_SECTOR ==> DirectoryReadable(disk, first + 1, sectors - 1)))
  }

  lemma OneSector(disk: Disk, lba: nat, was: seq<byte>)
    requires Formatted(disk) && |was| == BYTES_PER_SECTOR
    ensures Splice(was, 0, SectorBytes(disk, lba, 1)) == Sector(disk, lba)
  {
    assert SectorBytes(disk, lba, 0) == [];
    assert SectorBytes(disk, lba, 1) == Sector(disk, lba);
  }

  /** What is left of a listing, and the answers it will give. */
  datatype Outcome = Outcome(fine: bool, live: nat, left: seq<DirEntry>)

  ghost predicate RootAhead(disk: Disk, first: nat, sectors: nat, stack: seq<byte>, fatType: FatType,
                            out: seq<DirEntry>, soFar: nat, goal: Outcome)
    requires Formatted(disk)
  {
    && AllNamed(disk, first, sectors, stack) && |out| >= ENTRIES_PER_SECTOR
    && DirectoryReadable(disk, first, sectors) == goal.fine
    && soFar + LiveEntries(disk, first, sectors) == goal.live
    && LeftIn(disk, first, sectors, stack, fatType, out) == goal.left
  }

  lemma RootBegins(disk: Disk, first: nat, sectors: nat, stack: seq<byte>, fatType: FatType, out: seq<DirEntry>,
                   soFar: nat, goal: Outcome)
    requires Formatted(disk) && RootAhead(disk, first, sectors, stack, fatType, out, soFar, goal)
    ensures sectors > 0 ==> SectorNamed(disk, first, stack) && (!Readable(disk, first, 1) ==> !goal.fine)
    ensures sectors == 0 ==> goal == Outcome(true, soFar, out)
  {
  }

  lemma RootNext(disk: Disk, first: nat, sectors: nat, stack: seq<byte>, fatType: FatType, before: seq<DirEntry>,
                 after: seq<DirEntry>, soFar: nat, goal: Outcome)
    requires Formatted(disk) && sectors > 0 && Readable(disk, first, 1) && SectorNamed(disk, first, stack)
    requires RootAhead(disk, first, sectors, stack, fatType, before, soFar, goal)
    requires after == SectorListing(disk, first, stack, fatType) + before[LiveIn(disk, first)..]
    ensures if LiveIn(disk, first) < ENTRIES_PER_SECTOR then goal == Outcome(true, soFar + LiveIn(disk, first), after)
            else RootAhead(disk, first + 1, sectors - 1, stack, fatType, after, soFar + ENTRIES_PER_SECTOR, goal)
  {
  }

  /** One turn of the loop of `fat12_list_root`: read a sector, and parse it to the beginning of the list. */
  method ListSector(disk: Disk, lba: uint32, ghost sectors: nat, stack: seq<byte>, fatType: FatType,
                    buffer: array<byte>, out: array<DirEntry>, ghost soFar: nat,
                    ghost goal: Outcome) returns (ok: bool, entries: nat)
    requires Formatted(disk) && buffer.Length == BYTES_PER_SECTOR && sectors > 0
    requires RootAhead(disk, lba, sectors, stack, fatType, out[..], soFar, goal)
    modifies buffer, out
    ensures !ok ==> !goal.fine
    ensures ok && entries < ENTRIES_PER_SECTOR ==> goal == Outcome(true, soFar + entries, out[..])
    ensures ok && entries >= ENTRIES_PER_SECTOR ==>
      entries == ENTRIES_PER_SECTOR
      && RootAhead(disk, lba + 1, sectors - 1, stack, fatType, out[..], soFar + entries, goal)
  {
    ghost var before := out[..];
    RootBegins(disk, lba, sectors, stack, fatType, before, soFar, goal);
    SectorLength(disk, lba);
    entries := 0;
    var result := ReadSectorsLba(disk, lba, 1, buffer, 0);
    if result == FAILURE {
      return false, 0;
    }
    OneSector(disk, lba, old(buffer[..]));
    hide Splice, Readable, Formatted, RootAhead;
    entries := ParseDirEntries(buffer[..], ENTRIES_PER_SECTOR, stack, fatType, out);
    RootNext(disk, lba, sectors, stack, fatType, before, out[..], soFar, goal);
    ok := true;
  }

  /** `fat12_list_root` on FAT12 and FAT16, from the root region found by `ListRoot`. */
  method ScanRoot(disk: Disk, rootDirStart: uint32, sectors: nat, stack: seq<byte>, fatType: FatType,
                  out: array<DirEntry>, ghost goal: Outcome) returns (ok: bool, numEntries: nat)
    requires Formatted(disk) && rootDirStart + sectors <= WORD_SPAN
    requires RootAhead(disk, rootDirStart, sectors, stack, fatType, out[..], 0, goal)
    modifies out
    ensures ok == goal.fine && (ok ==> numEntries == goal.live && out[..] == goal.left)
  {
    hide RootAhead, Formatted;
    var buffer := new byte[BYTES_PER_SECTOR];
    numEntries := 0;
    for i := 0 to sectors
      invariant RootAhead(disk, rootDirStart + i, sectors - i, stack, fatType, out[..], numEntries, goal)
    {
      var entries;
      ok, entries := ListSector(disk, rootDirStart + i, sectors - i, stack, fatType, buffer, out, numEntries, goal);
      numEntries := numEntries + entries;
      if !ok || entries < ENTRIES_PER_SECTOR {
        return;
      }
    }
    RootBegins(disk, rootDirStart + sectors, 0, stack, fatType, out[..], numEntries, goal);
    ok := true;
  }

  // ---------------------------------------------------------------------------
  // Directories stored as files
  // ---------------------------------------------------------------------------

  /** The entries of one cluster. */
  function ClusterEntries(v: Volume): nat {
    v.sectorsPerCluster * ENTRIES_PER_SECTOR
  }

  /** What `fat12_list_dir` parses: a buffer for one cluster on its stack, which held `was`, after the read. */
  function DirBytes(v: Volume, disk: Disk, cluster: nat, was: seq<byte>): (data: seq<byte>)
    requires Formatted(disk) && v.sectorsPerCluster > 0 && |was| == DIR_ENTRY_SIZE * ClusterEntries(v)
    ensures |data| == |was|
  {
    Fetched(disk, v, [cluster], was, 0)
  }

  /** The directory is a chain of one cluster, as more would run past the buffer, its names end, and the caller's list
      holds its entries. */
  ghost predicate OneCluster(v: Volume, disk: Disk, cluster: nat, stack: seq<byte>, was: seq<byte>, room: nat) {
    && Formatted(disk) && v.sectorsPerCluster > 0 && |was| == DIR_ENTRY_SIZE * ClusterEntries(v)
    && IsChain(v, [cluster])
    && var data := DirBytes(v, disk, cluster, was);
    && Live(data, ClusterEntries(v)) <= room && Named(data, Live(data, ClusterEntries(v)), stack)
  }

  /** A directory cluster that can be read is what gets parsed. */
  lemma ReadableDirectory(v: Volume, disk: Disk, cluster: nat, was: seq<byte>)
    requires Formatted(disk) && v.sectorsPerCluster > 0 && |was| == DIR_ENTRY_SIZE * ClusterEntries(v)
    requires Readable(disk, ClusterSector(v, cluster), v.sectorsPerCluster)
    ensures DirBytes(v, disk, cluster, was) == ClusterBytes(disk, v, cluster)
  {
    hide ClusterSector, Got, SectorBytes, Splice;
    GotAllExactly(disk, ClusterSector(v, cluster), v.sectorsPerCluster);
    var data := ClusterBytes(disk, v, cluster);
    assert ClusterGot(disk, v, cluster) == data && |data| == |was|;
    FetchNext(disk, v, [cluster], was, Splice(was, 0, data), 0);
    WholeSplice(was, data);
  }

  lemma WholeSplice(was: seq<byte>, data: seq<byte>)
    requires |data| == |was|
    ensures Splice(was, 0, data) == data
  {
  }

  /** `fat12_list_dir`: the directory is read like a file, and fails like one. */
  method ListDir(v: Volume, disk: Disk, cluster: uint32, stack: seq<byte>, was: seq<byte>, out: array<DirEntry>)
      returns (ok: bool, numEntries: nat)
    requires OneCluster(v, disk, cluster, stack, was, out.Length)
    modifies out
    ensures ok == EndOfChain(v, NextCluster(v, cluster))
    ensures ok ==>
      var data := DirBytes(v, disk, cluster, was);
      numEntries == Live(data, ClusterEntries(v)) <= out.Length
      && out[..] == Listing(data, numEntries, stack, v.fatType) + old(out[numEntries..])
    ensures !ok ==> out[..] == old(out[..])
  {
    hide Fetched, Live, Named, Listing, NextCluster, InTable;
    var buffer := new byte[|was|](i requires 0 <= i < |was| => was[i]);
    assert buffer[..] == was;
    ghost var before := out[..];
    var clustersRead;
    ok, clustersRead := ReadChain(v, disk, cluster, buffer, [cluster]);
    numEntries := 0;
    if ok {
      assert out[..] == before;
      numEntries := ParseDirEntries(buffer[..], clustersRead * ClusterEntries(v), stack, v.fatType, out);
    }
  }

  /** `fat12_list_root`: a FAT32 root directory is read like a file, the others sector by sector. */
  method ListRoot(v: Volume, disk: Disk, stack: seq<byte>, was: seq<byte>, out: array<DirEntry>)
      returns (ok: bool, numEntries: nat)
    requires v.fatType == FAT32 ==> OneCluster(v, disk, v.rootDirStart, stack, was, out.Length)
    requires v.fatType != FAT32 ==>
      && Formatted(disk) && v.rootDirStart + RootDirectorySectors(v) <= WORD_SPAN
      && AllNamed(disk, v.rootDirStart, RootDirectorySectors(v), stack) && out.Length >= ENTRIES_PER_SECTOR
    modifies out
    ensures ok ==
      if v.fatType == FAT32 then EndOfChain(v, NextCluster(v, v.rootDirStart))
      else DirectoryReadable(disk, v.rootDirStart, RootDirectorySectors(v))
    ensures ok && v.fatType == FAT32 ==>
      var data := DirBytes(v, disk, v.rootDirStart, was);
      numEntries == Live(data, ClusterEntries(v)) <= out.Length
      && out[..] == Listing(data, numEntries, stack, v.fatType) + old(out[numEntries..])
    ensures ok && v.fatType != FAT32 ==>
      numEntries == LiveEntries(disk, v.rootDirStart, RootDirectorySectors(v))
      && out[..] == LeftIn(disk, v.rootDirStart, RootDirectorySectors(v), stack, v.fatType, old(out[..]))
  {
    hide DirBytes, Live, Listing, LeftIn, LiveEntries, DirectoryReadable, NextCluster, AllNamed;
    if v.fatType == FAT32 {
      ok, numEntries := ListDir(v, disk, v.rootDirStart, stack, was, out);
      return;
    }
    var sectors := RootDirectorySectors(v);
    ghost var first: nat := v.rootDirStart;
    ghost var goal := Outcome(DirectoryReadable(disk, first, sectors), LiveEntries(disk, first, sectors),
                              LeftIn(disk, first, sectors, stack, v.fatType, out[..]));
    ok, numEntries := ScanRoot(disk, v.rootDirStart, sectors, stack, v.fatType, out, goal);
  }
}
