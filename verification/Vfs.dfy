/** Mount points, paths and file handles. */
module Vfs {
  import opened Bytes
  import opened Kernel

  const MAX_MOUNTPOINTS: nat := 16
  const MAX_FILES: nat := 16

  // ---------------------------------------------------------------------------
  // Mounting
  // ---------------------------------------------------------------------------

  /** The names after mounting file systems of the given types one after the other. The index a mount gets is the
      number of mounts so far, because the new slot is compared with the type it was just filled with. */
  function Mounted(kinds: seq<seq<byte>>): (names: seq<seq<byte>>)
    requires |kinds| <= MAX_MOUNTPOINTS
    ensures |names| == |kinds|
  {
    if kinds == [] then [] else
    Mounted(kinds[..|kinds| - 1]) + [kinds[|kinds| - 1] + [ZERO + |kinds| - 1]]
  }

  lemma {:induction false} MountNames(kinds: seq<seq<byte>>, i: nat)
    requires |kinds| <= MAX_MOUNTPOINTS && i < |kinds|
    ensures Mounted(kinds)[i] == kinds[i] + [ZERO + i]
    decreases |kinds|
  {
    var front := kinds[..|kinds| - 1];
    if i < |front| {
      MountNames(front, i);
    }
  }

  /** Mount points never share a name. */
  lemma MountsAreDistinct(kinds: seq<seq<byte>>, i: nat, j: nat)
    requires |kinds| <= MAX_MOUNTPOINTS && i < j < |kinds|
    ensures Mounted(kinds)[i] != Mounted(kinds)[j]
  {
    MountNames(kinds, i);
    MountNames(kinds, j);
    var a, b := Mounted(kinds)[i], Mounted(kinds)[j];
    assert a[|a| - 1] != b[|b| - 1];
  }

  // ---------------------------------------------------------------------------
  // Paths
  // ---------------------------------------------------------------------------

  /** Where the first slash at or after `from` is, or the end. */
  function SlashAt(path: seq<byte>, from: nat): (at: nat)
    requires from <= |path|
    ensures from <= at <= |path| && (at < |path| ==> path[at] == SLASH)
    ensures forall k :: from <= k < at ==> path[k] != SLASH
    decreases |path| - from
  {
    if from == |path| || path[from] == SLASH then from else SlashAt(path, from + 1)
  }

  /** Which mount a path leads to, and the rest of the path. */
  datatype Target = NoMount | Target(mount: nat, rest: seq<byte>)

  function FindMount(names: seq<seq<byte>>, name: seq<byte>, from: nat): (at: nat)
    requires from <= |names|
    ensures from <= at <= |names| && (at < |names| ==> names[at] == name)
    ensures forall k :: from <= k < at ==> names[k] != name
    decreases |names| - from
  {
    if from == |names| || names[from] == name then from else FindMount(names, name, from + 1)
  }

  /** `get_fs_for_path`. */
  function Resolve(names: seq<seq<byte>>, path: seq<byte>): Target {
    if path == [] || path[0] != SLASH then NoMount else
    var end := SlashAt(path, 1);
    if end == |path| then NoMount else
    var at := FindMount(names, path[1..end], 0);
    if at == |names| then NoMount else Target(at, path[end + 1..])
  }

  /** `normalise_path`. */
  function Normalised(cwd: seq<byte>, path: seq<byte>): seq<byte> {
    if path != [] && path[0] == SLASH then path
    else if path == [] && cwd == [SLASH] then cwd
    else cwd + [SLASH] + path
  }

  /** Normalising a second time changes nothing. */
  lemma NormalisedIsAbsolute(cwd: seq<byte>, path: seq<byte>)
    requires cwd != [] && cwd[0] == SLASH
    ensures Normalised(cwd, path)[0] == SLASH
    ensures Normalised(cwd, Normalised(cwd, path)) == Normalised(cwd, path)
  {
  }

  lemma {:induction false} SlashAfter(path: seq<byte>, from: nat, at: nat)
    requires from <= at < |path| && path[at] == SLASH && forall k :: from <= k < at ==> path[k] != SLASH
    ensures SlashAt(path, from) == at
    decreases at - from
  {
    if from < at {
      SlashAfter(path, from + 1, at);
    }
  }

  lemma PathSplits(name: seq<byte>, rest: seq<byte>)
    requires SLASH !in name
    ensures var path := [SLASH] + name + [SLASH] + rest;
      SlashAt(path, 1) == 1 + |name| < |path| && path[0] == SLASH && path[1..1 + |name|] == name
      && path[|name| + 2..] == rest
  {
    var path := [SLASH] + name + [SLASH] + rest;
    forall k | 1 <= k < 1 + |name| ensures path[k] != SLASH {
      assert path[k] == name[k - 1];
    }
    SlashAfter(path, 1, 1 + |name|);
  }

  lemma MountIsFound(kinds: seq<seq<byte>>, i: nat)
    requires |kinds| <= MAX_MOUNTPOINTS && i < |kinds|
    ensures FindMount(Mounted(kinds), Mounted(kinds)[i], 0) == i
  {
    var at := FindMount(Mounted(kinds), Mounted(kinds)[i], 0);
    if at < i {
      MountsAreDistinct(kinds, at, i);
    }
  }

  /** A path leads to a mount, with a rest, exactly when it is that mount's name between slashes, and the rest. */
  lemma ResolvesExactly(kinds: seq<seq<byte>>, path: seq<byte>, i: nat, rest: seq<byte>)
    requires |kinds| <= MAX_MOUNTPOINTS && i < |kinds| && SLASH !in kinds[i]
    ensures Resolve(Mounted(kinds), path) == Target(i, rest) <==> path == [SLASH] + Mounted(kinds)[i] + [SLASH] + rest
  {
    var name := Mounted(kinds)[i];
    MountNames(kinds, i);
    hide Mounted, SlashAt, FindMount;
    if path == [SLASH] + name + [SLASH] + rest {
      PathSplits(name, rest);
      MountIsFound(kinds, i);
    } else if Resolve(Mounted(kinds), path) == Target(i, rest) {
      var end := SlashAt(path, 1);
      Rejoined(path, end);
    }
  }

  lemma Rejoined(path: seq<byte>, end: nat)
    requires 1 <= end < |path| && path[0] == SLASH && path[end] == SLASH
    ensures path == [SLASH] + path[1..end] + [SLASH] + path[end + 1..]
  {
  }

  /** From a directory `/mount`, a relative path leads to the same mount. */
  lemma RelativePathsResolve(kinds: seq<seq<byte>>, i: nat, path: seq<byte>)
    requires |kinds| <= MAX_MOUNTPOINTS && i < |kinds| && SLASH !in kinds[i] && (path == [] || path[0] != SLASH)
    ensures Resolve(Mounted(kinds), Normalised([SLASH] + Mounted(kinds)[i], path)) == Target(i, path)
  {
    MountNames(kinds, i);
    ResolvesExactly(kinds, Normalised([SLASH] + Mounted(kinds)[i], path), i, path);
  }

  lemma NoMountIsNameless(kinds: seq<seq<byte>>)
    requires |kinds| <= MAX_MOUNTPOINTS
    ensures FindMount(Mounted(kinds), [], 0) == |kinds|
  {
    var at := FindMount(Mounted(kinds), [], 0);
    if at < |kinds| {
      MountNames(kinds, at);
    }
  }

  /** From the root no relative path leads anywhere: the slash is doubled, and no mount point has an empty name. */
  lemma NoRelativePathFromRoot(kinds: seq<seq<byte>>, path: seq<byte>)
    requires |kinds| <= MAX_MOUNTPOINTS && (path == [] || path[0] != SLASH)
    ensures Resolve(Mounted(kinds), Normalised([SLASH], path)) == NoMount
  {
    NoMountIsNameless(kinds);
    if path != [] {
      DoubledSlash(Mounted(kinds), Normalised([SLASH], path));
    }
  }

  lemma DoubledSlash(names: seq<seq<byte>>, path: seq<byte>)
    requires |path| >= 2 && path[0] == path[1] == SLASH && FindMount(names, [], 0) == |names|
    ensures Resolve(names, path) == NoMount
  {
    assert SlashAt(path, 1) == 1 && path[1..1] == [];
    hide FindMount, SlashAt;
  }

  // ---------------------------------------------------------------------------
  // The mount table
  // ---------------------------------------------------------------------------

  class MountTable {
    const mountPoints: array<seq<byte>>
    var count: nat
    /** The types mounted so far. */
    ghost var kinds: seq<seq<byte>>

    ghost predicate Valid()
      reads this, mountPoints
    {
      && mountPoints.Length == MAX_MOUNTPOINTS && count == |kinds| <= MAX_MOUNTPOINTS
      && forall i :: 0 <= i < count ==> mountPoints[i] == Mounted(kinds)[i]
    }

    constructor ()
      ensures Valid() && count == 0 && fresh(mountPoints)
    {
      mountPoints := new seq<byte>[MAX_MOUNTPOINTS](_ => []);
      count := 0;
      kinds := [];
    }

    /** `get_next_index_for_mount_type`, whose loop compares the type with the new slot every time. */
    method NextIndexFor(kind: seq<byte>) returns (n: nat)
      requires Valid() && count < MAX_MOUNTPOINTS
      ensures n == if kind <= mountPoints[count] then count else 0
    {
      n := 0;
      for i := 0 to count
        invariant n == if kind <= mountPoints[count] then i else 0
      {
        if kind <= mountPoints[count] {
          n := n + 1;
        }
      }
    }

    /** `mount_fs`, while the table has room. */
    method Mount(kind: seq<byte>) returns (result: int)
      requires Valid() && count < MAX_MOUNTPOINTS
      modifies this, mountPoints
      ensures Valid() && result == SUCCESS && kinds == old(kinds) + [kind] && count == old(count) + 1
      ensures forall i :: 0 <= i < old(count) ==> mountPoints[i] == old(mountPoints[i])
    {
      mountPoints[count] := kind;
      var index := NextIndexFor(kind);
      if index >= MAX_MOUNTPOINTS {
        return FAILURE;
      }
      mountPoints[count] := kind + [ZERO + index];
      count := count + 1;
      kinds := kinds + [kind];
      assert kinds[..|kinds| - 1] == old(kinds);
      result := SUCCESS;
    }
  }

  // ---------------------------------------------------------------------------
  // File handles
  // ---------------------------------------------------------------------------

  /** What `open_file` does about a handle: refuse, use a slot, or write before the table. */
  datatype Handle = Refused | Slot(i: nat) | OutsideTable

  /** The open-file table, by which handles are in use. */
  method ChooseHandle(used: array<bool>) returns (h: Handle)
    requires used.Length == MAX_FILES
    ensures h.Slot? <==> used[0] && exists i :: 0 <= i < MAX_FILES && !used[i]
    ensures h.Slot? ==> h.i < MAX_FILES && !used[h.i] && forall k :: 0 <= k < h.i ==> used[k]
    ensures h.OutsideTable? <==> forall i :: 0 <= i < MAX_FILES ==> used[i]
  {
    var fp := NextFileHandle(used);
    if fp == 0 {
      return Refused;
    }
    h := if fp == -1 then OutsideTable else Slot(fp);
  }

  /** `next_file_handle`. */
  method NextFileHandle(used: array<bool>) returns (fp: int)
    requires used.Length == MAX_FILES
    ensures -1 <= fp < MAX_FILES
    ensures fp >= 0 ==> !used[fp] && forall k :: 0 <= k < fp ==> used[k]
    ensures fp == -1 ==> forall k :: 0 <= k < MAX_FILES ==> used[k]
  {
    for i := 0 to MAX_FILES
      invariant forall k :: 0 <= k < i ==> used[k]
    {
      if !used[i] {
        return i;
      }
    }
    fp := -1;
  }
}
