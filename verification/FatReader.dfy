/** Three readers of the same chains: the 32-bit driver, the 16-bit kernel and the boot loader. */
module FatReader {
  import opened Bytes
  import opened Kernel
  import opened FatTable
  import opened FatVolume

  // ---------------------------------------------------------------------------
  // Disks
  // ---------------------------------------------------------------------------

  /** A medium of 512-byte sectors, some of which cannot be read, behind a floppy or a hard-disk driver. */
  datatype Disk = Disk(floppy: bool, sectors: seq<seq<byte>>, bad: set<nat>)

  ghost predicate Formatted(disk: Disk) {
    |disk.sectors| < WORD_SPAN && forall i :: 0 <= i < |disk.sectors| ==> |disk.sectors[i]| == BYTES_PER_SECTOR
  }

  predicate Readable(disk: Disk, lba: nat, count: nat) {
    lba + count <= |disk.sectors| && forall i :: lba <= i < lba + count ==> i !in disk.bad
  }

  function Sector(disk: Disk, lba: nat): seq<byte> {
    if lba < |disk.sectors| then disk.sectors[lba] else Zeros(BYTES_PER_SECTOR)
  }

  function SectorBytes(disk: Disk, lba: nat, count: nat): (data: seq<byte>)
    ensures Formatted(disk) ==> |data| == BYTES_PER_SECTOR * count
  {
    if count == 0 then [] else SectorBytes(disk, lba, count - 1) + Sector(disk, lba + count - 1)
  }

  method Store(buffer: array<byte>, at: nat, data: seq<byte>)
    requires at + |data| <= buffer.Length
    modifies buffer
    ensures buffer[..] == Splice(old(buffer[..]), at, data)
  {
    for i := 0 to |data|
      invariant forall a :: 0 <= a < buffer.Length ==>
        buffer[a] == if at <= a < at + i then data[a - at] else old(buffer[a])
    {
      buffer[at + i] := data[i];
    }
  }

  /** The device driver: all of the sectors or none of them. */
  method DriverRead(disk: Disk, lba: nat, count: nat, buffer: array<byte>, at: nat) returns (result: int)
    requires Formatted(disk) && (Readable(disk, lba, count) ==> at + BYTES_PER_SECTOR * count <= buffer.Length)
    modifies buffer
    ensures result == if Readable(disk, lba, count) then SUCCESS else FAILURE
    ensures buffer[..] ==
      if Readable(disk, lba, count) then Splice(old(buffer[..]), at, SectorBytes(disk, lba, count)) else old(buffer[..])
  {
    if Readable(disk, lba, count) {
      Store(buffer, at, SectorBytes(disk, lba, count));
      result := SUCCESS;
    } else {
      result := FAILURE;
    }
  }

  /** The sectors from `lba` on that can be read one after the other, up to `count`. */
  function GoodSectors(disk: Disk, lba: nat, count: nat): (n: nat)
    ensures n <= count
  {
    if count == 0 then 0 else
    var n := GoodSectors(disk, lba, count - 1);
    if n == count - 1 && Readable(disk, lba + n, 1) then count else n
  }

  /** How many sectors a read of `count` stores: a floppy is read sector by sector until one fails. */
  function Got(disk: Disk, lba: nat, count: nat): (n: nat)
    ensures n <= count
  {
    if disk.floppy then GoodSectors(disk, lba, count) else if Readable(disk, lba, count) then count else 0
  }

  lemma {:induction false} GoodSectorsAre(disk: Disk, lba: nat, count: nat, i: nat)
    requires i <= count && (i > 0 ==> Readable(disk, lba, i)) && (i < count ==> !Readable(disk, lba + i, 1))
    ensures GoodSectors(disk, lba, count) == i
    decreases count
  {
    if count > 0 {
      if i == count {
        assert Readable(disk, lba + (count - 1), 1);
        GoodSectorsAre(disk, lba, count - 1, count - 1);
      } else if i < count - 1 {
        GoodSectorsAre(disk, lba, count - 1, i);
      } else {
        GoodSectorsAre(disk, lba, count - 1, i);
      }
    }
  }

  /** All of the sectors are stored exactly when all can be read. */
  lemma {:induction false} GotAllExactly(disk: Disk, lba: nat, count: nat)
    requires count > 0
    ensures Got(disk, lba, count) == count <==> Readable(disk, lba, count)
  {
    if disk.floppy {
      if Readable(disk, lba, count) {
        GoodSectorsAre(disk, lba, count, count);
      } else if count > 1 {
        GotAllExactly(disk, lba, count - 1);
      }
    }
  }

  /** `read_sectors_lba`: sector by sector on a floppy, one call otherwise. The outcome is the same; what a failed read
      leaves in the buffer is not. */
  method ReadSectorsLba(disk: Disk, lba: uint32, count: nat, buffer: array<byte>, at: nat) returns (result: int)
    requires Formatted(disk) && count > 0 && at + BYTES_PER_SECTOR * count <= buffer.Length
    modifies buffer
    ensures result == if Readable(disk, lba, count) then SUCCESS else FAILURE
    ensures buffer[..] == Splice(old(buffer[..]), at, SectorBytes(disk, lba, Got(disk, lba, count)))
    ensures Got(disk, lba, count) == count <==> Readable(disk, lba, count)
  {
    hide Splice, Formatted, GoodSectors;
    GotAllExactly(disk, lba, count);
    ghost var was := buffer[..];
    NothingRead(disk, lba, was, at);
    if !disk.floppy {
      result := DriverRead(disk, lba, count, buffer, at);
      return;
    }
    var i := 0;
    while i < count
      invariant 0 <= i <= count && (i > 0 ==> Readable(disk, lba, i))
      invariant buffer[..] == Splice(was, at, SectorBytes(disk, lba, i))
    {
      NextSector(disk, lba, i, was, at);
      result := DriverRead(disk, lba + i, 1, buffer, at + BYTES_PER_SECTOR * i);
      if result == FAILURE {
        GoodSectorsAre(disk, lba, count, i);
        return;
      }
      i := i + 1;
    }
    result := SUCCESS;
  }

  lemma NothingRead(disk: Disk, lba: nat, was: seq<byte>, at: nat)
    requires at <= |was|
    ensures SectorBytes(disk, lba, 0) == [] && Splice(was, at, SectorBytes(disk, lba, 0)) == was
  {
  }

  lemma NextSector(disk: Disk, lba: nat, i: nat, was: seq<byte>, at: nat)
    requires Formatted(disk) && at + BYTES_PER_SECTOR * (i + 1) <= |was|
    ensures Splice(Splice(was, at, SectorBytes(disk, lba, i)), at + BYTES_PER_SECTOR * i, SectorBytes(disk, lba + i, 1))
         == Splice(was, at, SectorBytes(disk, lba, i + 1))
  {
    assert SectorBytes(disk, lba + i, 0) == [];
    assert SectorBytes(disk, lba + i, 1) == Sector(disk, lba + i);
    SpliceAppends(was, at, SectorBytes(disk, lba, i), at + BYTES_PER_SECTOR * i, Sector(disk, lba + i));
  }

  // ---------------------------------------------------------------------------
  // The 32-bit driver
  // ---------------------------------------------------------------------------

  function ClusterBytes(disk: Disk, v: Volume, cluster: nat): seq<byte> {
    SectorBytes(disk, ClusterSector(v, cluster), v.sectorsPerCluster)
  }

  ghost predicate ChainReadable(disk: Disk, v: Volume, chain: seq<nat>)
    decreases |chain|
  {
    chain == [] ||
    (Readable(disk, ClusterSector(v, chain[0]), v.sectorsPerCluster) && ChainReadable(disk, v, chain[1..]))
  }

  /** The buffer after the clusters of `chain` have been read, one sector's length apart. */
  function Loaded(disk: Disk, v: Volume, chain: seq<nat>, buf: seq<byte>, at: nat): (r: seq<byte>)
    requires Formatted(disk) && v.sectorsPerCluster > 0
    requires chain != [] ==> at + BYTES_PER_SECTOR * (|chain| - 1 + v.sectorsPerCluster) <= |buf|
    ensures |r| == |buf|
    decreases |chain|
  {
    if chain == [] then buf else
    Loaded(disk, v, chain[1..], Splice(buf, at, ClusterBytes(disk, v, chain[0])), at + BYTES_PER_SECTOR)
  }

  /** One more cluster has been read into place. */
  lemma LoadNext(disk: Disk, v: Volume, rest: seq<nat>, before: seq<byte>, after: seq<byte>, at: nat)
    requires Formatted(disk) && v.sectorsPerCluster > 0 && rest != []
    requires at + BYTES_PER_SECTOR * (|rest| - 1 + v.sectorsPerCluster) <= |before|
    requires after == Splice(before, at, SectorBytes(disk, ClusterSector(v, rest[0]), v.sectorsPerCluster))
    ensures |rest| > 1 ==> Loaded(disk, v, rest[1..], after, at + BYTES_PER_SECTOR) == Loaded(disk, v, rest, before, at)
    ensures |rest| == 1 ==> after == Loaded(disk, v, rest, before, at)
  {
    if |rest| == 1 {
      assert rest[1..] == [];
    }
  }

  /** What a read of a cluster really stores. */
  function ClusterGot(disk: Disk, v: Volume, cluster: nat): (data: seq<byte>)
    ensures Formatted(disk) ==> |data| <= BYTES_PER_SECTOR * v.sectorsPerCluster
  {
    SectorBytes(disk, ClusterSector(v, cluster), Got(disk, ClusterSector(v, cluster), v.sectorsPerCluster))
  }

  /** The buffer after the clusters of `chain` have been asked for, whether or not they could be read. */
  function Fetched(disk: Disk, v: Volume, chain: seq<nat>, buf: seq<byte>, at: nat): (r: seq<byte>)
    requires Formatted(disk) && v.sectorsPerCluster > 0
    requires chain != [] ==> at + BYTES_PER_SECTOR * (|chain| - 1 + v.sectorsPerCluster) <= |buf|
    ensures |r| == |buf|
    decreases |chain|
  {
    if chain == [] then buf else
    Fetched(disk, v, chain[1..], Splice(buf, at, ClusterGot(disk, v, chain[0])), at + BYTES_PER_SECTOR)
  }

  lemma FetchNext(disk: Disk, v: Volume, rest: seq<nat>, before: seq<byte>, after: seq<byte>, at: nat)
    requires Formatted(disk) && v.sectorsPerCluster > 0 && rest != []
    requires at + BYTES_PER_SECTOR * (|rest| - 1 + v.sectorsPerCluster) <= |before|
    requires after == Splice(before, at, ClusterGot(disk, v, rest[0]))
    ensures |rest| > 1 ==>
      Fetched(disk, v, rest[1..], after, at + BYTES_PER_SECTOR) == Fetched(disk, v, rest, before, at)
    ensures |rest| == 1 ==> after == Fetched(disk, v, rest, before, at)
  {
    if |rest| == 1 {
      assert rest[1..] == [];
    }
  }

  /** The loop of `fat12_read_file`, along the clusters it is going to visit. Its test for a failed read never fires,
      because reads return 1 or -1. */
  method ReadChain(v: Volume, disk: Disk, start: nat, buffer: array<byte>, ghost chain: seq<nat>)
      returns (ok: bool, clustersRead: nat)
    requires Formatted(disk) && v.sectorsPerCluster > 0 && IsChain(v, chain) && chain[0] == start
    requires BYTES_PER_SECTOR * (|chain| - 1 + v.sectorsPerCluster) <= buffer.Length
    modifies buffer
    ensures ok == EndOfChain(v, ChainEnd(v, chain)) && (ok ==> clustersRead == |chain|)
    ensures buffer[..] == Fetched(disk, v, chain, old(buffer[..]), 0)
  {
    hide NextCluster, ClusterSector, Splice, Got, SectorBytes, Fetched;
    ghost var rest, at := chain, 0;
    ghost var goal := Fetched(disk, v, chain, buffer[..], 0);
    var cluster := start;
    var clusterIndex := 0;
    ok, clustersRead := false, 0;
    while true
      invariant clusterIndex + |rest| == |chain| && IsChain(v, rest) && rest[0] == cluster
      invariant ChainEnd(v, rest) == ChainEnd(v, chain)
      invariant at == BYTES_PER_SECTOR * clusterIndex
      invariant Fetched(disk, v, rest, buffer[..], at) == goal
      decreases |rest|
    {
      ghost var before := buffer[..];
      var lba := ClusterSector(v, cluster);
      var result := ReadSectorsLba(disk, lba, v.sectorsPerCluster, buffer, BYTES_PER_SECTOR * clusterIndex);
      if result == 0 {
        return;
      }
      FetchNext(disk, v, rest, before, buffer[..], at);
      cluster := NextCluster(v, cluster);
      if EndOfChain(v, cluster) {
        break;
      }
      if cluster < 2 {
        return;
      }
      rest, at := rest[1..], at + BYTES_PER_SECTOR;
      clusterIndex := clusterIndex + 1;
    }
    clustersRead := clusterIndex + 1;
    ok := true;
  }

  /** `fat12_read_file`: whatever the reads did, it succeeds exactly when the chain ends properly. A cluster that
      cannot be read keeps its place in the buffer as it was (see `FileIsWholeExactly`). */
  method ReadFile(v: Volume, disk: Disk, start: nat, buffer: array<byte>) returns (ok: bool, clustersRead: nat)
    requires Formatted(disk) && v.sectorsPerCluster > 0 && StopsWithin(v, start, TableEntries(v))
    requires BYTES_PER_SECTOR * (|ChainOf(v, start, TableEntries(v))| - 1 + v.sectorsPerCluster) <= buffer.Length
    modifies buffer
    ensures var chain := ChainOf(v, start, TableEntries(v));
      && ok == EndOfChain(v, ChainEnd(v, chain))
      && (ok ==> clustersRead == |chain|)
      && buffer[..] == Fetched(disk, v, chain, old(buffer[..]), 0)
  {
    ok, clustersRead := ReadChain(v, disk, start, buffer, ChainOf(v, start, TableEntries(v)));
  }

  // ---------------------------------------------------------------------------
  // What ends up in the buffer
  // ---------------------------------------------------------------------------

  /** The sectors of `n` clusters. */
  function SectorsOf(v: Volume, n: nat): nat {
    var spc: nat := v.sectorsPerCluster;
    spc * n
  }

  lemma SectorsOfNext(v: Volume, n: nat)
    requires n > 0
    ensures SectorsOf(v, n) == v.sectorsPerCluster + SectorsOf(v, n - 1)
  {
    var spc: nat := v.sectorsPerCluster;
    assert spc * n == spc + spc * (n - 1);
  }

  /** The file as stored: the clusters of its chain, one after the other. */
  function Concatenation(disk: Disk, v: Volume, chain: seq<nat>): (data: seq<byte>)
    ensures Formatted(disk) ==> |data| == BYTES_PER_SECTOR * SectorsOf(v, |chain|)
    decreases |chain|
  {
    if chain == [] then [] else
    SectorsOfNext(v, |chain|);
    ClusterBytes(disk, v, chain[0]) + Concatenation(disk, v, chain[1..])
  }

  /** With one sector per cluster the buffer holds the concatenation, and nothing past it has changed. */
  lemma {:induction false} OneSectorClustersConcatenate(disk: Disk, v: Volume, chain: seq<nat>, buf: seq<byte>, at: nat)
    requires Formatted(disk) && v.sectorsPerCluster == 1 && at + BYTES_PER_SECTOR * |chain| <= |buf|
    ensures Loaded(disk, v, chain, buf, at) == Splice(buf, at, Concatenation(disk, v, chain))
    decreases |chain|
  {
    if chain == [] {
      assert Splice(buf, at, []) == buf;
    } else {
      SectorsOfNext(v, |chain|);
      var first := ClusterBytes(disk, v, chain[0]);
      OneSectorClustersConcatenate(disk, v, chain[1..], Splice(buf, at, first), at + BYTES_PER_SECTOR);
      SpliceAppends(buf, at, first, at + BYTES_PER_SECTOR, Concatenation(disk, v, chain[1..]));
    }
  }

  /** When every cluster can be read, that is what ends up in the buffer. */
  lemma {:induction false} FetchedIsLoaded(disk: Disk, v: Volume, chain: seq<nat>, buf: seq<byte>, at: nat)
    requires Formatted(disk) && v.sectorsPerCluster > 0 && ChainReadable(disk, v, chain)
    requires chain != [] ==> at + BYTES_PER_SECTOR * (|chain| - 1 + v.sectorsPerCluster) <= |buf|
    ensures Fetched(disk, v, chain, buf, at) == Loaded(disk, v, chain, buf, at)
    decreases |chain|
  {
    hide Splice, SectorBytes, Got;
    if chain != [] {
      GotAllExactly(disk, ClusterSector(v, chain[0]), v.sectorsPerCluster);
      var after := Splice(buf, at, ClusterBytes(disk, v, chain[0]));
      FetchedIsLoaded(disk, v, chain[1..], after, at + BYTES_PER_SECTOR);
    }
  }

  /** A read never reaches past one sector per earlier cluster plus the whole last one, nor before its own place. */
  lemma {:induction false} FetchedStaysInside(disk: Disk, v: Volume, chain: seq<nat>, buf: seq<byte>, at: nat, a: nat)
    requires Formatted(disk) && v.sectorsPerCluster > 0 && a < |buf|
    requires chain != [] ==> at + BYTES_PER_SECTOR * (|chain| - 1 + v.sectorsPerCluster) <= |buf|
    requires chain != [] ==> a < at || at + BYTES_PER_SECTOR * (|chain| - 1 + v.sectorsPerCluster) <= a
    ensures Fetched(disk, v, chain, buf, at)[a] == buf[a]
    decreases |chain|
  {
    hide ClusterGot;
    if chain != [] {
      FetchedStaysInside(disk, v, chain[1..], Splice(buf, at, ClusterGot(disk, v, chain[0])), at + BYTES_PER_SECTOR, a);
    }
  }

  /** A one-sector cluster that cannot be read leaves its 512 bytes as they were. */
  lemma {:induction false} UnreadableStaysStale(disk: Disk, v: Volume, chain: seq<nat>, buf: seq<byte>, at: nat)
      returns (a: nat)
    requires Formatted(disk) && v.sectorsPerCluster == 1 && !ChainReadable(disk, v, chain)
    requires at + BYTES_PER_SECTOR * |chain| <= |buf|
    ensures at <= a < at + BYTES_PER_SECTOR * |chain| && Fetched(disk, v, chain, buf, at)[a] == buf[a]
    decreases |chain|
  {
    var sector := ClusterSector(v, chain[0]);
    var after := Splice(buf, at, ClusterGot(disk, v, chain[0]));
    if Readable(disk, sector, 1) {
      hide ClusterSector, SectorBytes, Got;
      a := UnreadableStaysStale(disk, v, chain[1..], after, at + BYTES_PER_SECTOR);
    } else {
      GotAllExactly(disk, sector, 1);
      NothingRead(disk, sector, buf, at);
      a := at;
      FetchedStaysInside(disk, v, chain[1..], after, at + BYTES_PER_SECTOR, a);
    }
  }

  lemma SingleClusterConcatenates(disk: Disk, v: Volume, chain: seq<nat>, buf: seq<byte>)
    requires Formatted(disk) && v.sectorsPerCluster > 0 && |chain| == 1
    requires BYTES_PER_SECTOR * v.sectorsPerCluster <= |buf|
    ensures |Concatenation(disk, v, chain)| <= |buf|
    ensures Loaded(disk, v, chain, buf, 0) == Splice(buf, 0, Concatenation(disk, v, chain))
  {
    assert chain[1..] == [];
    assert Concatenation(disk, v, chain) == ClusterBytes(disk, v, chain[0]);
  }

  lemma SectorsOverlap(v: Volume, n: nat)
    requires v.sectorsPerCluster > 0 && n > 0
    ensures n - 1 + v.sectorsPerCluster <= SectorsOf(v, n)
    ensures n - 1 + v.sectorsPerCluster == SectorsOf(v, n) <==> (v.sectorsPerCluster == 1 || n == 1)
  {
    var m: int, spc: int := n, v.sectorsPerCluster;
    assert spc * m == (m - 1) * (spc - 1) + m + spc - 1;
    if m > 1 && spc > 1 {
      MulAtLeast(m - 1, spc - 1);
    } else {
      assert (m - 1) * (spc - 1) == 0;
    }
  }

  /** `fat12_read_file` puts the whole file into the buffer. */
  ghost predicate WholeFile(disk: Disk, v: Volume, chain: seq<nat>, buf: seq<byte>)
    requires Formatted(disk) && v.sectorsPerCluster > 0 && chain != []
    requires |buf| == BYTES_PER_SECTOR * SectorsOf(v, |chain|)
  {
    SectorsOverlap(v, |chain|);
    Fetched(disk, v, chain, buf, 0) == Concatenation(disk, v, chain)
  }

  /** If a byte is left as it was, a buffer that was wrong everywhere is not the file. */
  lemma StaleByteShows(disk: Disk, v: Volume, chain: seq<nat>, buf: seq<byte>, a: nat)
    requires Formatted(disk) && v.sectorsPerCluster > 0 && chain != [] && a < |buf|
    requires |buf| == BYTES_PER_SECTOR * SectorsOf(v, |chain|)
    requires |chain| - 1 + v.sectorsPerCluster <= SectorsOf(v, |chain|)
    requires buf[a] != Concatenation(disk, v, chain)[a] && Fetched(disk, v, chain, buf, 0)[a] == buf[a]
    ensures !WholeFile(disk, v, chain, buf)
  {
  }

  lemma OverlappingClustersLoseData(disk: Disk, v: Volume, chain: seq<nat>, buf: seq<byte>)
    requires Formatted(disk) && v.sectorsPerCluster > 1 && |chain| > 1
    requires |buf| == BYTES_PER_SECTOR * SectorsOf(v, |chain|)
    requires forall i :: 0 <= i < |buf| ==> buf[i] != Concatenation(disk, v, chain)[i]
    ensures !WholeFile(disk, v, chain, buf)
  {
    hide ClusterSector, ClusterBytes, SectorsOf, Splice, WholeFile, Fetched, Concatenation;
    SectorsOverlap(v, |chain|);
    FetchedStaysInside(disk, v, chain, buf, 0, |buf| - 1);
    StaleByteShows(disk, v, chain, buf, |buf| - 1);
  }

  /** A single cluster that cannot be read leaves at least its last sector's place as it was. */
  lemma PartialClusterIsShort(disk: Disk, v: Volume, chain: seq<nat>, buf: seq<byte>)
    requires Formatted(disk) && v.sectorsPerCluster > 0 && |chain| == 1 && !ChainReadable(disk, v, chain)
    requires |buf| == BYTES_PER_SECTOR * v.sectorsPerCluster
    ensures Fetched(disk, v, chain, buf, 0)[|buf| - 1] == buf[|buf| - 1]
  {
    hide ClusterSector, SectorBytes, Got;
    assert chain[1..] == [];
    GotAllExactly(disk, ClusterSector(v, chain[0]), v.sectorsPerCluster);
  }

  lemma UnreadableClustersShow(disk: Disk, v: Volume, chain: seq<nat>, buf: seq<byte>)
    requires Formatted(disk) && v.sectorsPerCluster > 0 && chain != [] && !ChainReadable(disk, v, chain)
    requires v.sectorsPerCluster == 1 || |chain| == 1
    requires |buf| == BYTES_PER_SECTOR * SectorsOf(v, |chain|)
    requires forall i :: 0 <= i < |buf| ==> buf[i] != Concatenation(disk, v, chain)[i]
    ensures !WholeFile(disk, v, chain, buf)
  {
    hide ClusterSector, Splice, WholeFile, Fetched, Concatenation, ChainReadable;
    SectorsOverlap(v, |chain|);
    if v.sectorsPerCluster == 1 {
      var a := UnreadableStaysStale(disk, v, chain, buf, 0);
      StaleByteShows(disk, v, chain, buf, a);
    } else {
      PartialClusterIsShort(disk, v, chain, buf);
      StaleByteShows(disk, v, chain, buf, |buf| - 1);
    }
  }

  lemma SmallFilesAreWhole(disk: Disk, v: Volume, chain: seq<nat>, buf: seq<byte>)
    requires Formatted(disk) && v.sectorsPerCluster > 0 && chain != [] && ChainReadable(disk, v, chain)
    requires |buf| == BYTES_PER_SECTOR * SectorsOf(v, |chain|)
    requires v.sectorsPerCluster == 1 || |chain| == 1
    ensures WholeFile(disk, v, chain, buf)
  {
    SectorsOverlap(v, |chain|);
    FetchedIsLoaded(disk, v, chain, buf, 0);
    if |chain| == 1 {
      SingleClusterConcatenates(disk, v, chain, buf);
    } else {
      OneSectorClustersConcatenate(disk, v, chain, buf, 0);
    }
    assert Splice(buf, 0, Concatenation(disk, v, chain)) == Concatenation(disk, v, chain);
  }

  /** `fat12_read_file` fills every buffer of the file's size with the file exactly when all of its clusters can be
      read, and clusters are one sector or there is only one of them. Its result depends on neither. */
  lemma FileIsWholeExactly(disk: Disk, v: Volume, chain: seq<nat>)
    requires Formatted(disk) && v.sectorsPerCluster > 0 && chain != []
    ensures (forall buf: seq<byte> ::
               |buf| == BYTES_PER_SECTOR * SectorsOf(v, |chain|) ==> WholeFile(disk, v, chain, buf))
       <==> ChainReadable(disk, v, chain) && (v.sectorsPerCluster == 1 || |chain| == 1)
  {
    hide WholeFile, SectorsOf, Concatenation, ChainReadable;
    if ChainReadable(disk, v, chain) && (v.sectorsPerCluster == 1 || |chain| == 1) {
      forall buf: seq<byte> | |buf| == BYTES_PER_SECTOR * SectorsOf(v, |chain|) ensures WholeFile(disk, v, chain, buf) {
        SmallFilesAreWhole(disk, v, chain, buf);
      }
    } else {
      var file := Concatenation(disk, v, chain);
      var buf := seq(|file|, i requires 0 <= i < |file| => if file[i] == 0 then 1 else 0);
      ConcatenationLength(disk, v, chain);
      if v.sectorsPerCluster == 1 || |chain| == 1 {
        UnreadableClustersShow(disk, v, chain, buf);
      } else {
        OverlappingClustersLoseData(disk, v, chain, buf);
      }
    }
  }

  lemma ConcatenationLength(disk: Disk, v: Volume, chain: seq<nat>)
    requires Formatted(disk)
    ensures |Concatenation(disk, v, chain)| == BYTES_PER_SECTOR * SectorsOf(v, |chain|)
  {
  }

  // ---------------------------------------------------------------------------
  // The 16-bit kernel and the boot loader
  // ---------------------------------------------------------------------------

  /** A 1.44 MB floppy: two tables of nine sectors and 224 root entries. */
  function Floppy(fat: seq<byte>, numReservedSectors: uint16): Volume {
    Volume(fat, FAT12, 1, numReservedSectors, 2, 9, 224, 2880, numReservedSectors + 18)
  }

  /** That is what the driver makes of its parameter block. */
  lemma FloppyIsMounted(fat: seq<byte>, numReservedSectors: uint16)
    ensures Init(BiosParameterBlock(1, numReservedSectors, 2, 224, 2880, 0, 9, 0, 0), FAT12, fat)
         == Some(Floppy(fat, numReservedSectors))
  {
  }

  /** The 16-bit kernel's `cluster + 31` and the boot loader's `cluster + 33` are the driver's sector numbers
      on their respective disks. */
  lemma LoaderSectors(fat: seq<byte>, cluster: nat)
    requires cluster < 0x1000
    ensures ClusterSector(Floppy(fat, 1), cluster) == cluster + 31
    ensures ClusterSector(Floppy(fat, 3), cluster) == cluster + 33
  {
    FloppyDataStart(fat, 1);
    FloppyDataStart(fat, 3);
    hide FirstDataSector;
  }

  lemma FloppyDataStart(fat: seq<byte>, reserved: uint16)
    requires reserved < 10
    ensures FirstDataSector(Floppy(fat, reserved)) == reserved + 32
  {
    var v := Floppy(fat, reserved);
    assert FatSectors(v) == 18 && RootDirectorySectors(v) == 14;
  }

  /** The 16-bit kernel stops only at 0xFFF. */
  predicate Stops16(next: uint32) {
    next == 0xFFF
  }

  /** The 16-bit kernel's sector for a cluster number of any kind. */
  predicate Readable16(disk: Disk, cluster: nat) {
    Readable(disk, cluster + 31, 1)
  }

  /** The entries the 16-bit kernel visits, until a sector cannot be read or it meets 0xFFF. */
  ghost predicate Walk16(disk: Disk, fat: seq<byte>, walk: seq<nat>)
    decreases |walk|
  {
    && walk != [] && walk[0] < 0x1000
    && if !Readable16(disk, walk[0]) then |walk| == 1 else
       && InTable(Floppy(fat, 1), walk[0])
       && var next := NextCluster(Floppy(fat, 1), walk[0]);
       && if Stops16(next) then |walk| == 1 else |walk| > 1 && walk[1] == next && Walk16(disk, fat, walk[1..])
  }

  ghost predicate Finishes16(disk: Disk, walk: seq<nat>)
    requires walk != []
  {
    Readable16(disk, walk[|walk| - 1])
  }

  /** All clusters of a chain are at least 2, as all but the first always are. */
  ghost predicate RealClusters(v: Volume, chain: seq<nat>) {
    IsChain(v, chain) && chain[0] >= 2
  }

  /** One sector of a one-sector cluster, at the loader's own sector number. */
  method ReadLoaderSector(fat: seq<byte>, reserved: uint16, disk: Disk, lba: nat, ghost cluster: nat,
                          buffer: array<byte>, at: nat)
      returns (ok: bool)
    requires Formatted(disk) && cluster < 0x1000
    requires Readable(disk, lba, 1) ==> at + BYTES_PER_SECTOR <= buffer.Length
    requires (reserved == 1 && lba == cluster + 31) || (reserved == 3 && lba == cluster + 33)
    modifies buffer
    ensures ok == Readable(disk, ClusterSector(Floppy(fat, reserved), cluster), 1)
    ensures ok ==>
      buffer[..] == Splice(old(buffer[..]), at, SectorBytes(disk, ClusterSector(Floppy(fat, reserved), cluster), 1))
  {
    LoaderSectors(fat, cluster);
    var result := DriverRead(disk, lba, 1, buffer, at);
    ok := result == SUCCESS;
  }

  /** `getFATEntry`. */
  method GetFatEntry(fat: seq<byte>, reserved: uint16, cluster: nat) returns (next: uint16)
    requires InTable(Floppy(fat, reserved), cluster)
    ensures next == NextCluster(Floppy(fat, reserved), cluster) < 0x1000
  {
    BytesDecode(fat, cluster);
    next := DecodeBytes(fat, cluster);
  }

  /** The 16-bit loader still has to read `rest` from its sector `index` on, which will give `goal` if it is `good`. */
  ghost predicate Ahead16(disk: Disk, fat: seq<byte>, rest: seq<nat>, buf: seq<byte>, index: nat, goal: seq<byte>,
                          good: bool)
    requires Formatted(disk)
  {
    && Walk16(disk, fat, rest) && Finishes16(disk, rest) == good
    && BYTES_PER_SECTOR * (index + if good then |rest| else |rest| - 1) <= |buf|
    && (good ==> Loaded(disk, Floppy(fat, 1), rest, buf, BYTES_PER_SECTOR * index) == goal)
  }

  /** It has read the first of them. */
  ghost predicate Read16(disk: Disk, fat: seq<byte>, rest: seq<nat>, buf: seq<byte>, index: nat, goal: seq<byte>,
                         good: bool)
    requires Formatted(disk)
  {
    && Walk16(disk, fat, rest) && Readable16(disk, rest[0]) && Finishes16(disk, rest) == good
    && BYTES_PER_SECTOR * (index + if good then |rest| else |rest| - 1) <= |buf|
    && (good && |rest| == 1 ==> buf == goal)
    && (good && |rest| > 1 ==> Loaded(disk, Floppy(fat, 1), rest[1..], buf, BYTES_PER_SECTOR * (index + 1)) == goal)
  }

  lemma Walk16Room(disk: Disk, fat: seq<byte>, rest: seq<nat>, buf: seq<byte>, index: nat, goal: seq<byte>, good: bool)
    requires Formatted(disk) && Ahead16(disk, fat, rest, buf, index, goal, good)
    ensures rest != [] && rest[0] < 0x1000
    ensures if Readable16(disk, rest[0]) then BYTES_PER_SECTOR * (index + 1) <= |buf| else |rest| == 1 && !good
  {
  }

  lemma Walk16Reads(disk: Disk, fat: seq<byte>, rest: seq<nat>, before: seq<byte>, after: seq<byte>, index: nat,
                    goal: seq<byte>, good: bool)
    requires Formatted(disk) && Ahead16(disk, fat, rest, before, index, goal, good) && rest != []
    requires Readable16(disk, rest[0])
    requires BYTES_PER_SECTOR * (index + 1) <= |before|
    requires after ==
        Splice(before, BYTES_PER_SECTOR * index, SectorBytes(disk, ClusterSector(Floppy(fat, 1), rest[0]), 1))
    ensures Read16(disk, fat, rest, after, index, goal, good)
  {
    hide Splice, SectorBytes, ClusterSector, Walk16, NextCluster;
    assert Floppy(fat, 1).sectorsPerCluster == 1;
    if good {
      LoadNext(disk, Floppy(fat, 1), rest, before, after, BYTES_PER_SECTOR * index);
    }
  }

  lemma Walk16Follows(disk: Disk, fat: seq<byte>, rest: seq<nat>, buf: seq<byte>, index: nat, goal: seq<byte>,
                      good: bool)
    requires Formatted(disk) && Read16(disk, fat, rest, buf, index, goal, good)
    ensures rest != [] && InTable(Floppy(fat, 1), rest[0])
    ensures Stops16(NextCluster(Floppy(fat, 1), rest[0])) ==> good && buf == goal
    ensures !Stops16(NextCluster(Floppy(fat, 1), rest[0])) ==>
      |rest| > 1 && rest[1] == NextCluster(Floppy(fat, 1), rest[0])
      && Ahead16(disk, fat, rest[1..], buf, index + 1, goal, good)
  {
    hide NextCluster, Loaded, Floppy;
  }

  /** One read of `loadFile`: the sector of entry `cluster` to the `index`-th place. */
  method ReadNext16(fat: seq<byte>, disk: Disk, cluster: nat, index: nat, buffer: array<byte>, ghost rest: seq<nat>,
                    ghost goal: seq<byte>, ghost good: bool) returns (ok: bool)
    requires Formatted(disk) && Ahead16(disk, fat, rest, buffer[..], index, goal, good) && rest != []
    requires rest[0] == cluster
    modifies buffer
    ensures ok == Readable16(disk, cluster) && (!ok ==> !good)
    ensures ok ==> Read16(disk, fat, rest, buffer[..], index, goal, good)
  {
    hide Ahead16, Read16, Splice, SectorBytes, Floppy;
    ghost var before := buffer[..];
    Walk16Room(disk, fat, rest, before, index, goal, good);
    LoaderSectors(fat, cluster);
    ok := ReadLoaderSector(fat, 1, disk, cluster + 31, cluster, buffer, BYTES_PER_SECTOR * index);
    if ok {
      Walk16Reads(disk, fat, rest, before, buffer[..], index, goal, good);
    }
  }

  /** `loadFile` from the first cluster on: one sector read before the loop, then one per entry. A nonzero BIOS status
      is returned negated. `walk` is what it visits until it stops, whatever it meets on the way. */
  method LoadFile16(fat: seq<byte>, disk: Disk, start: nat, status: int, buffer: array<byte>, ghost walk: seq<nat>)
      returns (result: int)
    requires Formatted(disk) && status > 0 && Walk16(disk, fat, walk) && walk[0] == start
    requires BYTES_PER_SECTOR * (if Finishes16(disk, walk) then |walk| else |walk| - 1) <= buffer.Length
    modifies buffer
    ensures result == if Finishes16(disk, walk) then 0 else -status
    ensures result == 0 ==> buffer[..] == Loaded(disk, Floppy(fat, 1), walk, old(buffer[..]), 0)
  {
    ghost var rest, good := walk, Finishes16(disk, walk);
    ghost var goal := if good then Loaded(disk, Floppy(fat, 1), walk, buffer[..], 0) else [];
    assert Ahead16(disk, fat, rest, buffer[..], 0, goal, good);
    hide NextCluster, Floppy, Readable, InTable, Loaded, Walk16, Ahead16, Read16;
    var cluster, clusterIndex := start, 1;
    var ok := ReadNext16(fat, disk, cluster, 0, buffer, rest, goal, good);
    if !ok {
      return -status;
    }
    while true
      invariant clusterIndex > 0 && rest != [] && rest[0] == cluster
      invariant Read16(disk, fat, rest, buffer[..], clusterIndex - 1, goal, good)
      decreases |rest|
    {
      Walk16Follows(disk, fat, rest, buffer[..], clusterIndex - 1, goal, good);
      cluster := GetFatEntry(fat, 1, cluster);
      if cluster == 0xFFF {
        break;
      }
      rest := rest[1..];
      ok := ReadNext16(fat, disk, cluster, clusterIndex, buffer, rest, goal, good);
      if !ok {
        return -status;
      }
      clusterIndex := clusterIndex + 1;
    }
    result := 0;
  }

  const FLOPPY_SECTORS: nat := 2880

  /** The loader's own stopping rule costs it every file whose chain ends in a lesser mark: on a floppy the sector of
      such a mark does not exist. Of any chain with an end mark that the driver accepts, it loads exactly those that
      are readable and end in 0xFFF. */
  lemma {:induction false} LoaderFinishesExactly(disk: Disk, fat: seq<byte>, chain: seq<nat>, walk: seq<nat>)
    requires Formatted(disk) && |disk.sectors| <= FLOPPY_SECTORS
    requires IsChain(Floppy(fat, 1), chain) && EndOfChain(Floppy(fat, 1), ChainEnd(Floppy(fat, 1), chain))
    requires Walk16(disk, fat, walk) && walk[0] == chain[0]
    ensures Finishes16(disk, walk) <==>
      ChainReadable(disk, Floppy(fat, 1), chain) && ChainEnd(Floppy(fat, 1), chain) == 0xFFF
    ensures Finishes16(disk, walk) ==> walk == chain
    decreases |chain|
  {
    hide NextCluster, InTable, ClusterSector;
    var v := Floppy(fat, 1);
    LoaderSectors(fat, chain[0]);
    if Readable16(disk, walk[0]) {
      if |chain| == 1 {
        if |walk| > 1 {
          MarkIsOffTheDisk(disk, fat, walk[1..]);
        }
      } else {
        LoaderFinishesExactly(disk, fat, chain[1..], walk[1..]);
      }
    }
  }

  lemma MarkIsOffTheDisk(disk: Disk, fat: seq<byte>, walk: seq<nat>)
    requires |disk.sectors| <= FLOPPY_SECTORS && Walk16(disk, fat, walk) && walk[0] >= 0xFF8
    ensures |walk| == 1 && !Finishes16(disk, walk)
  {
  }

  /** For every such chain the loader does stop. */
  lemma {:induction false} LoaderStops(disk: Disk, fat: seq<byte>, chain: seq<nat>) returns (walk: seq<nat>)
    requires Formatted(disk) && |disk.sectors| <= FLOPPY_SECTORS && chain != [] && chain[0] < 0x1000
    requires IsChain(Floppy(fat, 1), chain) && EndOfChain(Floppy(fat, 1), ChainEnd(Floppy(fat, 1), chain))
    ensures Walk16(disk, fat, walk) && walk[0] == chain[0]
    decreases |chain|
  {
    hide InTable;
    var next := NextCluster(Floppy(fat, 1), chain[0]);
    if !Readable16(disk, chain[0]) || Stops16(next) {
      walk := [chain[0]];
    } else if |chain| == 1 {
      walk := [chain[0], next];
      assert walk[1..] == [next];
    } else {
      var rest := LoaderStops(disk, fat, chain[1..]);
      walk := [chain[0]] + rest;
      assert walk[1..] == rest;
    }
  }

  /** A file of one readable cluster whose entry is 0xFF8: the driver reads it, the 16-bit loader fails. */
  lemma LesserMarkIsRefused() returns (disk: Disk, fat: seq<byte>, chain: seq<nat>, walk: seq<nat>)
    ensures Formatted(disk) && IsChain(Floppy(fat, 1), chain) && ChainReadable(disk, Floppy(fat, 1), chain)
    ensures ChainEnd(Floppy(fat, 1), chain) == 0xFF8 && EndOfChain(Floppy(fat, 1), ChainEnd(Floppy(fat, 1), chain))
    ensures Walk16(disk, fat, walk) && walk[0] == chain[0] && !Finishes16(disk, walk)
  {
    disk := Disk(true, seq(FLOPPY_SECTORS, _ => Zeros(BYTES_PER_SECTOR)), {});
    fat := [0xF0, 0xFF, 0xFF, 0xF8, 0x0F, 0x00];
    chain := [2];
    assert EntryAt(fat, 2) == 0xFF8;
    LoaderSectors(fat, 2);
    assert chain[1..] == [];
    walk := LoaderStops(disk, fat, chain);
    LoaderFinishesExactly(disk, fat, chain, walk);
  }

  const KERNEL_SEGMENT: nat := 0x2000
  const PARAGRAPH: nat := 16
  /** Clusters that fit between the kernel segment and the end of the segment range. */
  const BOOT_LIMIT: nat := 0x700

  /** The boot loader's table lookup: multiply by three, divide by two, load a word, shift or mask. */
  method BootNextCluster(fat: seq<byte>, cluster: uint16) returns (ax: uint16)
    requires InTable(Floppy(fat, 3), cluster)
    ensures ax == NextCluster(Floppy(fat, 3), cluster) < 0x1000
  {
    WordDecodes(fat, cluster);
    WordOffset(cluster);
    var product: int := cluster * 3;
    var dx := product % 2;
    var si := product / 2;
    var word := LE16(fat[si..si + 2]);
    WordMask(word);
    assert dx == cluster % 2;
    if dx == 0 {
      ax := And(word, 0xFFF);
    } else {
      ax := Shr(word, 4);
    }
  }

  /** The address of the `i`-th sector loaded. */
  function BootPlace(i: nat): nat {
    0x2_0000 + BYTES_PER_SECTOR * i
  }

  /** One turn of the read part of the loop: the sector number is `cluster + 33`, and the buffer is at the segment
      `KERNEL_SEGMENT + pointer`, in 16-bit registers. */
  method BootReadCluster(fat: seq<byte>, disk: Disk, cluster: uint16, pointer: uint16, mem: array<byte>, ghost i: nat)
      returns (ok: bool)
    requires Formatted(disk) && 2 <= cluster < 0x1000 && pointer == 0x20 * i && i < BOOT_LIMIT
    requires BootPlace(i) + BYTES_PER_SECTOR <= mem.Length
    modifies mem
    ensures ok == Readable(disk, ClusterSector(Floppy(fat, 3), cluster), 1)
    ensures ok ==>
      mem[..] == Splice(old(mem[..]), BootPlace(i), SectorBytes(disk, ClusterSector(Floppy(fat, 3), cluster), 1))
  {
    hide ClusterSector, Splice, Floppy, Readable, SectorBytes;
    var ax := (cluster + 33) % 0x1_0000;
    var es := (KERNEL_SEGMENT + pointer) % 0x1_0000;
    ok := ReadLoaderSector(fat, 3, disk, ax, cluster, mem, PARAGRAPH * es);
  }

  /** A loader still has to read `rest`, the remainder of `chain`, and that will give `goal`. */
  ghost predicate Ahead(disk: Disk, v: Volume, chain: seq<nat>, rest: seq<nat>, buf: seq<byte>, at: nat,
                        goal: seq<byte>)
    requires Formatted(disk) && v.sectorsPerCluster == 1 && IsChain(v, chain)
  {
    && RealClusters(v, rest) && ChainEnd(v, rest) == ChainEnd(v, chain)
    && ChainReadable(disk, v, chain) == ChainReadable(disk, v, rest)
    && at + BYTES_PER_SECTOR * |rest| <= |buf| && Loaded(disk, v, rest, buf, at) == goal
  }

  lemma BootAheadNext(disk: Disk, v: Volume, chain: seq<nat>, rest: seq<nat>, before: seq<byte>, after: seq<byte>,
                      i: nat, goal: seq<byte>)
    requires Formatted(disk) && v.sectorsPerCluster == 1 && IsChain(v, chain)
    requires Ahead(disk, v, chain, rest, before, BootPlace(i), goal) && Readable(disk, ClusterSector(v, rest[0]), 1)
    requires after == Splice(before, BootPlace(i), SectorBytes(disk, ClusterSector(v, rest[0]), 1))
    ensures NextCluster(v, rest[0]) == (if |rest| == 1 then ChainEnd(v, chain) else rest[1])
    ensures |rest| == 1 ==> after == goal && ChainReadable(disk, v, chain)
    ensures |rest| > 1 ==> Ahead(disk, v, chain, rest[1..], after, BootPlace(i + 1), goal)
    ensures v.fatType == FAT12 && EndOfChain(v, ChainEnd(v, chain)) ==>
      (|rest| == 1 <==> NextCluster(v, rest[0]) >= 0xFF8)
  {
    hide NextCluster, ClusterSector, Splice, Readable, SectorBytes, InTable, Loaded;
    LoadNext(disk, v, rest, before, after, BootPlace(i));
    assert |rest| == 1 ==> ChainReadable(disk, v, rest[1..]);
  }

  lemma AheadInTable(disk: Disk, v: Volume, chain: seq<nat>, rest: seq<nat>, buf: seq<byte>, at: nat, goal: seq<byte>)
    requires Formatted(disk) && v.sectorsPerCluster == 1 && IsChain(v, chain)
    requires Ahead(disk, v, chain, rest, buf, at, goal)
    ensures rest != [] && rest[0] >= 2 && InTable(v, rest[0]) && at + BYTES_PER_SECTOR * |rest| <= |buf|
    ensures !Readable(disk, ClusterSector(v, rest[0]), 1) ==> !ChainReadable(disk, v, chain)
  {
  }

  /** `load_file_sector` up to the end-of-file test: read the cluster, then look up the next. */
  method BootTurn(fat: seq<byte>, disk: Disk, cluster: uint16, pointer: uint16, mem: array<byte>, ghost chain: seq<nat>,
                  ghost rest: seq<nat>, ghost i: nat, ghost goal: seq<byte>)
      returns (ok: bool, next: uint16)
    requires Formatted(disk) && IsChain(Floppy(fat, 3), chain)
    requires EndOfChain(Floppy(fat, 3), ChainEnd(Floppy(fat, 3), chain))
    requires Ahead(disk, Floppy(fat, 3), chain, rest, mem[..], BootPlace(i), goal)
    requires rest != [] && rest[0] == cluster < 0x1000 && pointer == 0x20 * i && i < BOOT_LIMIT
    modifies mem
    ensures next < 0x1000 && (!ok ==> !ChainReadable(disk, Floppy(fat, 3), chain))
    ensures ok && next >= 0xFF8 ==> ChainReadable(disk, Floppy(fat, 3), chain) && mem[..] == goal
    ensures ok && next < 0xFF8 ==>
      |rest| > 1 && rest[1] == next && Ahead(disk, Floppy(fat, 3), chain, rest[1..], mem[..], BootPlace(i + 1), goal)
  {
    ghost var v, before := Floppy(fat, 3), mem[..];
    assert v.sectorsPerCluster == 1 && v.fatType == FAT12;
    hide NextCluster, ClusterSector, Splice, Floppy, Readable, InTable, Loaded, SectorBytes, Ahead, IsChain,
      ChainReadable, ChainEnd, Stops, EndOfChain, RealClusters, BootPlace;
    AheadInTable(disk, v, chain, rest, before, BootPlace(i), goal);
    ok := BootReadCluster(fat, disk, cluster, pointer, mem, i);
    next := 0;
    if ok {
      BootAheadNext(disk, v, chain, rest, before, mem[..], i, goal);
      next := BootNextCluster(fat, cluster);
    }
  }

  /** The buffer pointer moves on by a sector's paragraphs, in 16 bits. */
  method BumpPointer(pointer: uint16, ghost i: nat) returns (next: uint16)
    requires pointer == 0x20 * i && i < BOOT_LIMIT
    ensures next == 0x20 * (i + 1)
  {
    next := (pointer + 0x20) % 0x1_0000;
  }

  /** The boot loader's jump loop: the buffer moves by bumping the segment 0x20 paragraphs a sector. A failed read
      is fatal. */
  method BootLoad(fat: seq<byte>, disk: Disk, first: uint16, mem: array<byte>, ghost chain: seq<nat>) returns (ok: bool)
    requires Formatted(disk)
    requires RealClusters(Floppy(fat, 3), chain) && chain[0] == first < 0x1000
    requires EndOfChain(Floppy(fat, 3), ChainEnd(Floppy(fat, 3), chain))
    requires |chain| <= BOOT_LIMIT && BootPlace(|chain|) <= mem.Length
    modifies mem
    ensures ok == ChainReadable(disk, Floppy(fat, 3), chain)
    ensures ok ==> mem[..] == Loaded(disk, Floppy(fat, 3), chain, old(mem[..]), BootPlace(0))
  {
    ghost var rest, i, goal := chain, 0, Loaded(disk, Floppy(fat, 3), chain, mem[..], BootPlace(0));
    assert chain != [] && Ahead(disk, Floppy(fat, 3), chain, chain, mem[..], BootPlace(0), goal);
    hide Floppy, Loaded, Ahead, IsChain, ChainReadable, ChainEnd, EndOfChain, RealClusters, BootPlace, Formatted,
      NextCluster, ClusterSector, Splice, Readable, SectorBytes, InTable;
    var cluster: uint16, pointer: uint16 := first, 0;
    while true
      invariant i + |rest| == |chain| && pointer == 0x20 * i && rest != [] && rest[0] == cluster < 0x1000
      invariant Ahead(disk, Floppy(fat, 3), chain, rest, mem[..], BootPlace(i), goal)
      decreases |rest|
    {
      ok, cluster := BootTurn(fat, disk, cluster, pointer, mem, chain, rest, i, goal);
      if !ok || cluster >= 0xFF8 {
        return;
      }
      pointer := BumpPointer(pointer, i);
      rest, i := rest[1..], i + 1;
    }
  }

  /** The loaders agree: on their own disks, reading the same readable chain, the 32-bit driver, the 16-bit
      kernel and the boot loader leave the same bytes, namely the file, at the place each loads to. */
  lemma LoadersAgree(disk: Disk, fat: seq<byte>, reserved: uint16, chain: seq<nat>, driverBuf: seq<byte>,
                     loaderBuf: seq<byte>, at: nat)
    requires Formatted(disk) && chain != []
    requires BYTES_PER_SECTOR * |chain| <= |driverBuf| && at + BYTES_PER_SECTOR * |chain| <= |loaderBuf|
    ensures var v, length := Floppy(fat, reserved), BYTES_PER_SECTOR * |chain|;
      && Loaded(disk, v, chain, driverBuf, 0)[..length] == Loaded(disk, v, chain, loaderBuf, at)[at..at + length]
      && Loaded(disk, v, chain, driverBuf, 0)[..length] == Concatenation(disk, v, chain)
  {
    var v := Floppy(fat, reserved);
    var file := Concatenation(disk, v, chain);
    OneSectorClustersConcatenate(disk, v, chain, driverBuf, 0);
    OneSectorClustersConcatenate(disk, v, chain, loaderBuf, at);
    SpliceHolds(driverBuf, 0, file);
    SpliceHolds(loaderBuf, at, file);
  }
}
