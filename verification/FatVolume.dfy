/** A mounted FAT volume: its layout arithmetic and its cluster chains. */
module FatVolume {
  import opened Bytes
  import opened Kernel
  import opened FatTable

  const BYTES_PER_SECTOR: nat := 512
  const DIR_ENTRY_SIZE: nat := 32

  datatype FatType = FAT12 | FAT16 | FAT32

  /** The parts of the parameter block that the driver copies. */
  datatype BiosParameterBlock = BiosParameterBlock(
    sectorsPerCluster: uint8, numReservedSectors: uint16, numFats: uint8, maxRootDirectoryEntries: uint16,
    numSectors: uint16, totalLogicalSectorsLarge: uint32, sectorsPerFat16: uint16,
    sectorsPerFat32: uint32, rootDirStart32: uint32)

  datatype Volume = Volume(
    fat: seq<byte>, fatType: FatType, sectorsPerCluster: uint8, numReservedSectors: uint16, numFats: uint8,
    sectorsPerFat: uint32, maxRootDirectoryEntries: uint16, totalSectors: uint32, rootDirStart: uint32)

  /** A 32-bit C result. */
  function Wrap(x: int): uint32 {
    x % WORD_SPAN
  }

  /** `fat12_init`: the layout fields taken or computed from the parameter block. */
  function Init(bpb: BiosParameterBlock, fatType: FatType, fat: seq<byte>): Option<Volume> {
    if bpb.numSectors == 0 && bpb.totalLogicalSectorsLarge == 0 then None else
    var total: uint32 := if bpb.numSectors > 0 then bpb.numSectors else bpb.totalLogicalSectorsLarge;
    var spf: uint32 := if fatType == FAT32 then bpb.sectorsPerFat32 else bpb.sectorsPerFat16;
    var fats, nf: int := spf, bpb.numFats;
    var rootDirStart := if fatType == FAT32 then bpb.rootDirStart32 else Wrap(bpb.numReservedSectors + fats * nf);
    Some(Volume(fat, fatType, bpb.sectorsPerCluster, bpb.numReservedSectors, bpb.numFats, spf,
                bpb.maxRootDirectoryEntries, total, rootDirStart))
  }

  function RootDirectorySectors(v: Volume): nat {
    v.maxRootDirectoryEntries * DIR_ENTRY_SIZE / BYTES_PER_SECTOR
  }

  /** The sectors of all copies of the table, before any wrap-around. */
  function FatSectors(v: Volume): nat {
    var spf: int, nf: int := v.sectorsPerFat, v.numFats;
    spf * nf
  }

  function FirstDataSector(v: Volume): uint32 {
    Wrap(v.numReservedSectors + FatSectors(v) + RootDirectorySectors(v))
  }

  /** The first sector of a cluster, in the driver's 32-bit arithmetic. */
  function ClusterSector(v: Volume, cluster: int): uint32 {
    var spc: int := v.sectorsPerCluster;
    Wrap((cluster - 2) * spc + FirstDataSector(v))
  }

  // ---------------------------------------------------------------------------
  // Layout
  // ---------------------------------------------------------------------------

  lemma ProductBound(a: nat, b: nat, m: nat, n: nat)
    requires a <= m && b <= n
    ensures 0 <= a * b <= m * n
  {
    assert m * n - a * b == (m - a) * n + a * (n - b);
  }

  /** On FAT12 and FAT16 nothing wraps, and the root region read by `fat12_list_root` ends exactly where the
      data region begins. */
  lemma RootEndsAtData(bpb: BiosParameterBlock, fatType: FatType, fat: seq<byte>)
    requires fatType != FAT32 && Init(bpb, fatType, fat).Some?
    ensures var v := Init(bpb, fatType, fat).value;
      && v.rootDirStart == v.numReservedSectors + FatSectors(v)
      && v.rootDirStart + RootDirectorySectors(v) == FirstDataSector(v)
  {
    var v := Init(bpb, fatType, fat).value;
    ProductBound(v.sectorsPerFat, v.numFats, 0xFFFF, 0xFF);
  }

  /** Where the FAT specification puts the data region: the root directory's sectors are rounded up. */
  function SpecifiedFirstDataSector(v: Volume): nat {
    v.numReservedSectors + FatSectors(v)
    + (v.maxRootDirectoryEntries * DIR_ENTRY_SIZE + BYTES_PER_SECTOR - 1) / BYTES_PER_SECTOR
  }

  /** The driver rounds down, so it finds the data region exactly when root entries fill whole sectors. */
  lemma DataRegionFoundExactly(bpb: BiosParameterBlock, fatType: FatType, fat: seq<byte>)
    requires fatType != FAT32 && Init(bpb, fatType, fat).Some?
    ensures var v := Init(bpb, fatType, fat).value;
      FirstDataSector(v) == SpecifiedFirstDataSector(v) <==> v.maxRootDirectoryEntries % 16 == 0
  {
    RootEndsAtData(bpb, fatType, fat);
    RoundingAgrees(bpb.maxRootDirectoryEntries);
  }

  lemma RoundingAgrees(entries: nat)
    ensures entries * 32 / 512 == (entries * 32 + 511) / 512 <==> entries % 16 == 0
  {
    var q, r := entries / 16, entries % 16;
    assert entries * 32 == 512 * q + 32 * r;
    assert entries * 32 / 512 == q;
    if r > 0 {
      assert (entries * 32 + 511) / 512 == q + 1;
    }
  }

  /** All of a cluster's sectors have 32-bit numbers. */
  predicate Addressable(v: Volume, cluster: nat) {
    var spc: int := v.sectorsPerCluster;
    2 <= cluster && v.numReservedSectors + FatSectors(v) + RootDirectorySectors(v) + (cluster - 1) * spc <= WORD_SPAN
  }

  lemma ClusterSectorUnwrapped(v: Volume, cluster: nat)
    requires Addressable(v, cluster) && v.sectorsPerCluster > 0
    ensures var spc: int := v.sectorsPerCluster;
      ClusterSector(v, cluster) == FirstDataSector(v) + (cluster - 2) * spc
      && FirstDataSector(v) == v.numReservedSectors + FatSectors(v) + RootDirectorySectors(v)
  {
    var spc: int := v.sectorsPerCluster;
    assert (cluster - 1) * spc == (cluster - 2) * spc + spc;
    assert (cluster - 2) * spc >= 0;
  }

  /** Distinct clusters occupy disjoint sector ranges, all of them past the reserved, table and root regions. */
  lemma ClustersAreDisjoint(v: Volume, c: nat, d: nat)
    requires Addressable(v, c) && Addressable(v, d) && c < d && v.sectorsPerCluster > 0
    ensures ClusterSector(v, c) + v.sectorsPerCluster <= ClusterSector(v, d)
    ensures v.numReservedSectors + FatSectors(v) + RootDirectorySectors(v) <= ClusterSector(v, c)
    ensures ClusterSector(v, d) + v.sectorsPerCluster <= WORD_SPAN
  {
    var spc: int := v.sectorsPerCluster;
    ClusterSectorUnwrapped(v, c);
    ClusterSectorUnwrapped(v, d);
    assert (d - 2) * spc == (c - 2) * spc + (d - c) * spc;
    MulAtLeast(d - c, spc);
    assert (d - 1) * spc == (d - 2) * spc + spc;
    assert (c - 2) * spc >= 0;
  }

  // ---------------------------------------------------------------------------
  // Cluster chains
  // ---------------------------------------------------------------------------

  predicate InTable(v: Volume, n: nat) {
    match v.fatType
    case FAT12 => InTable12(v.fat, n)
    case FAT16 => 2 * n + 2 <= |v.fat|
    case FAT32 => 4 * n + 4 <= |v.fat|
  }

  /** `fat12_decode_fat_entry`, with the FAT12 bytes read as `EntryAt` (see `DecodersAgree`). */
  function NextCluster(v: Volume, n: nat): uint32
    requires InTable(v, n)
  {
    match v.fatType
    case FAT12 => EntryAt(v.fat, n)
    case FAT16 => LE16(v.fat[2 * n..2 * n + 2])
    case FAT32 => LE32(v.fat[4 * n..4 * n + 4])
  }

  predicate EndOfChain(v: Volume, cluster: uint32) {
    match v.fatType
    case FAT12 => cluster >= 0xFF8
    case FAT16 => cluster >= 0xFFF8
    case FAT32 => cluster % 0x1000_0000 >= 0x0FFF_FFF8
  }

  /** How many bits of an entry are a cluster number, or a mark. */
  function EntryBits(fatType: FatType): nat {
    match fatType
    case FAT12 => 12
    case FAT16 => 16
    case FAT32 => 28
  }

  predicate EntryFits(fatType: FatType, entry: nat) {
    match fatType
    case FAT12 => entry < 0x1000
    case FAT16 => entry < 0x1_0000
    case FAT32 => entry < WORD_SPAN
  }

  function Narrow(entries: seq<nat>): (r: seq<Entry12>)
    requires forall i :: 0 <= i < |entries| ==> EntryFits(FAT12, entries[i])
    ensures |r| == |entries| && forall i :: 0 <= i < |entries| ==> r[i] == entries[i]
  {
    if entries == [] then [] else
    assert EntryFits(FAT12, entries[|entries| - 1]);
    Narrow(entries[..|entries| - 1]) + [entries[|entries| - 1]]
  }

  /** A table as it is laid out on disk. */
  function PackedTable(fatType: FatType, entries: seq<nat>): seq<byte>
    requires forall i :: 0 <= i < |entries| ==> EntryFits(fatType, entries[i])
  {
    match fatType
    case FAT12 => Pack12(Narrow(entries))
    case FAT16 => PackWide(entries, 2)
    case FAT32 => PackWide(entries, 4)
  }

  /** On each of the three kinds of volume the entry read for a cluster is the one its table was made from. */
  lemma NextIsEntry(v: Volume, entries: seq<nat>, n: nat)
    requires forall i :: 0 <= i < |entries| ==> EntryFits(v.fatType, entries[i])
    requires v.fat == PackedTable(v.fatType, entries) && n < |entries|
    ensures InTable(v, n) && NextCluster(v, n) == entries[n]
  {
    assert EntryFits(v.fatType, entries[n]);
    match v.fatType
    case FAT12 => DecodePacked(Narrow(entries), n);
    case FAT16 =>
      WideEntryAt(entries, 2, n);
      LoadsLowFirst(entries[n]);
    case FAT32 =>
      WideEntryAt(entries, 4, n);
      LoadsLowFirst(entries[n]);
  }

  /** The end marks are the eight highest values of an entry; on FAT32 its top four bits are reserved. */
  lemma EndMarksAreHighest(v: Volume, entry: uint32)
    requires EntryFits(v.fatType, entry)
    ensures EndOfChain(v, entry) <==> entry % Pow2(EntryBits(v.fatType)) >= Pow2(EntryBits(v.fatType)) - 8
  {
    assert Pow2(4) == 0x10;
    assert Pow2(8) == 0x100;
    assert Pow2(12) == 0x1000;
    assert Pow2(16) == 0x1_0000;
    assert Pow2(20) == 0x10_0000;
    assert Pow2(24) == 0x100_0000;
    assert Pow2(28) == 0x1000_0000;
  }

  /** The reader stops at `next`: the chain has ended, or the value cannot be a cluster. */
  predicate Stops(v: Volume, next: uint32) {
    EndOfChain(v, next) || next < 2
  }

  /** Apart from end marks, the values it stops at are those whose sectors would begin before the data region. */
  lemma StopsBeforeData(v: Volume, next: uint32)
    requires !EndOfChain(v, next) && v.sectorsPerCluster > 0
    ensures var spc: int := v.sectorsPerCluster;
      Stops(v, next) <==> FirstDataSector(v) + (next - 2) * spc < FirstDataSector(v)
  {
    hide FirstDataSector;
    var spc: int, d: int := v.sectorsPerCluster, next - 2;
    SignOfProduct(d, spc);
  }

  lemma SignOfProduct(d: int, spc: int)
    requires spc > 0
    ensures d * spc < 0 <==> d < 0
  {
    if d >= 0 {
      assert d * spc >= 0;
    } else {
      MulAtLeast(-d, spc);
      assert d * spc == -(-d * spc);
    }
  }

  /** The clusters the reader visits from `chain[0]` until it stops. */
  ghost predicate IsChain(v: Volume, chain: seq<nat>)
    decreases |chain|
  {
    && chain != [] && InTable(v, chain[0])
    && if |chain| == 1 then Stops(v, NextCluster(v, chain[0]))
       else chain[1] == NextCluster(v, chain[0]) && !Stops(v, chain[1]) && IsChain(v, chain[1..])
  }

  lemma {:induction false} ChainTail(v: Volume, chain: seq<nat>, i: nat)
    requires IsChain(v, chain) && i < |chain|
    ensures IsChain(v, chain[i..]) && InTable(v, chain[i])
    ensures if i + 1 < |chain| then chain[i + 1] == NextCluster(v, chain[i]) && !Stops(v, chain[i + 1])
            else Stops(v, NextCluster(v, chain[i]))
    decreases i
  {
    if i == 0 {
      assert chain[0..] == chain;
    } else {
      ChainTail(v, chain[1..], i - 1);
      assert chain[1..][i - 1..] == chain[i..];
    }
  }

  /** The table determines the chain. */
  lemma {:induction false} ChainIsUnique(v: Volume, a: seq<nat>, b: seq<nat>)
    requires IsChain(v, a) && IsChain(v, b) && a[0] == b[0]
    ensures a == b
    decreases |a|
  {
    if |a| > 1 && |b| > 1 {
      ChainIsUnique(v, a[1..], b[1..]);
      assert a == [a[0]] + a[1..] && b == [b[0]] + b[1..];
    }
  }

  /** A chain that stops never visits a cluster twice. */
  lemma ChainNeverRepeats(v: Volume, chain: seq<nat>, i: nat, j: nat)
    requires IsChain(v, chain) && i < j < |chain|
    ensures chain[i] != chain[j]
  {
    if chain[i] == chain[j] {
      ChainTail(v, chain, i);
      ChainTail(v, chain, j);
      ChainIsUnique(v, chain[i..], chain[j..]);
    }
  }

  /** An upper bound on the clusters the table describes. */
  function TableEntries(v: Volume): nat {
    match v.fatType
    case FAT12 => 2 * |v.fat| / 3
    case FAT16 => |v.fat| / 2
    case FAT32 => |v.fat| / 4
  }

  lemma InTableIsBelow(v: Volume, n: nat)
    ensures InTable(v, n) <==> n < TableEntries(v)
  {
    if v.fatType == FAT12 {
      var m := n / 2;
      assert n == 2 * m + n % 2;
    }
  }

  lemma {:induction false} DistinctBelow(s: seq<nat>, bound: nat)
    requires forall i :: 0 <= i < |s| ==> s[i] < bound
    requires forall i, j :: 0 <= i < j < |s| ==> s[i] != s[j]
    ensures |s| <= bound
    decreases bound
  {
    if s != [] {
      assert s[0] < bound;
      if bound - 1 in s {
        var k :| 0 <= k < |s| && s[k] == bound - 1;
        var rest := s[..k] + s[k + 1..];
        forall i | 0 <= i < |rest| ensures rest[i] < bound - 1 {
          assert rest[i] == s[if i < k then i else i + 1];
        }
        DistinctBelow(rest, bound - 1);
      } else {
        DistinctBelow(s, bound - 1);
      }
    }
  }

  /** Termination: the clusters of a chain are at most the entries of the table. */
  lemma ChainFitsTable(v: Volume, chain: seq<nat>)
    requires IsChain(v, chain)
    ensures |chain| <= TableEntries(v)
  {
    forall i | 0 <= i < |chain| ensures chain[i] < TableEntries(v) {
      ChainTail(v, chain, i);
      InTableIsBelow(v, chain[i]);
    }
    forall i, j | 0 <= i < j < |chain| ensures chain[i] != chain[j] {
      ChainNeverRepeats(v, chain, i, j);
    }
    DistinctBelow(chain, TableEntries(v));
  }

  /** The reader, started at `cluster`, stops after visiting at most `n` clusters, all in the table. */
  predicate StopsWithin(v: Volume, cluster: nat, n: nat)
    decreases n
  {
    n > 0 && InTable(v, cluster) &&
    (Stops(v, NextCluster(v, cluster)) || StopsWithin(v, NextCluster(v, cluster), n - 1))
  }

  /** The clusters it visits. */
  ghost function ChainOf(v: Volume, cluster: nat, n: nat): (chain: seq<nat>)
    requires StopsWithin(v, cluster, n)
    ensures IsChain(v, chain) && chain[0] == cluster && |chain| <= n
    decreases n
  {
    var next := NextCluster(v, cluster);
    if Stops(v, next) then [cluster] else
    var tail := ChainOf(v, next, n - 1);
    var chain := [cluster] + tail;
    assert chain[1..] == tail;
    chain
  }

  /** The table value that stops the reader. */
  ghost function ChainEnd(v: Volume, chain: seq<nat>): uint32
    requires IsChain(v, chain)
    decreases |chain|
  {
    if |chain| == 1 then NextCluster(v, chain[0]) else ChainEnd(v, chain[1..])
  }

  lemma {:induction false} ChainStops(v: Volume, chain: seq<nat>, n: nat)
    requires IsChain(v, chain) && |chain| <= n
    ensures StopsWithin(v, chain[0], n)
    decreases |chain|
  {
    if |chain| > 1 {
      ChainStops(v, chain[1..], n - 1);
    }
  }

  /** If the reader has not stopped after as many clusters as the table has entries, it never will. */
  lemma StopsWithinTable(v: Volume, cluster: nat)
    ensures (exists n :: StopsWithin(v, cluster, n)) <==> StopsWithin(v, cluster, TableEntries(v))
  {
    if n :| StopsWithin(v, cluster, n) {
      var chain := ChainOf(v, cluster, n);
      ChainFitsTable(v, chain);
      ChainStops(v, chain, TableEntries(v));
    }
  }
}
