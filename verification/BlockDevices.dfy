/** Names for block devices: any run of registrations gives every device a name of its own. */
module BlockDevices {
  import opened Bytes
  import opened Kernel
  import opened Numbers

  const MAX_BLOCK_DEVICES: nat := 16

  // ---------------------------------------------------------------------------
  // Names
  // ---------------------------------------------------------------------------

  /** `strcmp_wl(name, type, strlen(type)) > 0`. */
  predicate HasPrefix(name: seq<byte>, kind: seq<byte>) {
    kind <= name
  }

  /** `get_next_index_for_block_dev_type`: every name that begins with the type is counted. */
  function NextIndex(names: seq<seq<byte>>, kind: seq<byte>): (n: nat)
    ensures n <= |names|
  {
    if names == [] then 0 else
    NextIndex(names[..|names| - 1], kind) + if HasPrefix(names[|names| - 1], kind) then 1 else 0
  }

  function NameOf(kind: seq<byte>, index: nat): seq<byte>
    requires index < MAX_BLOCK_DEVICES
  {
    kind + [ZERO + index]
  }

  /** The last character of a name is its index as a digit exactly for the first ten of a type. */
  lemma SuffixIsDigitExactly(kind: seq<byte>, index: nat)
    requires index < MAX_BLOCK_DEVICES
    ensures NameOf(kind, index)[..|kind|] == kind && |NameOf(kind, index)| == |kind| + 1
    ensures CharValue(NameOf(kind, index)[|kind|]) == Some(index) <==> index < 10
  {
  }

  /** Which earlier names count for a type: those whose own type begins with it, or that are themselves its
      beginning. */
  lemma CountedExactly(other: seq<byte>, index: nat, kind: seq<byte>)
    requires index < MAX_BLOCK_DEVICES
    ensures HasPrefix(NameOf(other, index), kind) <==> kind <= other || kind == NameOf(other, index)
  {
    var name := NameOf(other, index);
    if kind <= name && |kind| <= |other| {
      assert kind == name[..|kind|] == other[..|kind|];
    }
    if kind <= other {
      assert kind == other[..|kind|] == name[..|kind|];
    }
  }

  /** The names after registering devices of the given types one after the other. */
  function Registered(kinds: seq<seq<byte>>): (names: seq<seq<byte>>)
    requires |kinds| <= MAX_BLOCK_DEVICES
    ensures |names| == |kinds|
  {
    if kinds == [] then [] else
    var before := Registered(kinds[..|kinds| - 1]);
    var kind := kinds[|kinds| - 1];
    before + [NameOf(kind, NextIndex(before, kind))]
  }

  lemma {:induction false} NamesByPlace(kinds: seq<seq<byte>>, i: nat)
    requires |kinds| <= MAX_BLOCK_DEVICES && i < |kinds|
    ensures NextIndex(Registered(kinds[..i]), kinds[i]) < MAX_BLOCK_DEVICES
    ensures Registered(kinds)[i] == NameOf(kinds[i], NextIndex(Registered(kinds[..i]), kinds[i]))
    ensures Registered(kinds)[..i] == Registered(kinds[..i])
    decreases |kinds|
  {
    var front := kinds[..|kinds| - 1];
    if i < |front| {
      NamesByPlace(front, i);
      assert front[..i] == kinds[..i];
    }
  }

  lemma {:induction false} IndexGrows(names: seq<seq<byte>>, more: nat, kind: seq<byte>)
    requires more <= |names|
    ensures NextIndex(names[..more], kind) <= NextIndex(names, kind)
    ensures more < |names| && HasPrefix(names[more], kind) ==> NextIndex(names[..more], kind) < NextIndex(names, kind)
    decreases |names|
  {
    if more < |names| {
      var front := names[..|names| - 1];
      IndexGrows(front, more, kind);
      assert front[..more] == names[..more];
    } else {
      assert names[..more] == names;
    }
  }

  /** The suffix of the device registered `i`-th. */
  function SuffixAt(kinds: seq<seq<byte>>, i: nat): nat
    requires |kinds| <= MAX_BLOCK_DEVICES && i < |kinds|
  {
    NextIndex(Registered(kinds[..i]), kinds[i])
  }

  /** Per type, suffixes strictly increase. */
  lemma SuffixesIncrease(kinds: seq<seq<byte>>, i: nat, j: nat)
    requires |kinds| <= MAX_BLOCK_DEVICES && i < j < |kinds| && kinds[i] == kinds[j]
    ensures SuffixAt(kinds, i) < SuffixAt(kinds, j)
  {
    NamesByPlace(kinds, i);
    NamesByPlace(kinds, j);
    var names := Registered(kinds[..j]);
    NamesByPlace(kinds[..j], i);
    assert kinds[..j][..i] == kinds[..i];
    IndexGrows(names, i, kinds[j]);
  }

  /** Names of different devices differ, whatever the types are, even when one type begins with another. */
  lemma NamesAreDistinct(kinds: seq<seq<byte>>, i: nat, j: nat)
    requires |kinds| <= MAX_BLOCK_DEVICES && i < j < |kinds|
    ensures Registered(kinds)[i] != Registered(kinds)[j]
  {
    NamesByPlace(kinds, i);
    NamesByPlace(kinds, j);
    var a, b := Registered(kinds)[i], Registered(kinds)[j];
    if a == b {
      assert kinds[i] == a[..|a| - 1] == b[..|b| - 1] == kinds[j];
      SuffixesIncrease(kinds, i, j);
    }
  }

  /** How often a type was registered. */
  function Times(kinds: seq<seq<byte>>, kind: seq<byte>): nat {
    if kinds == [] then 0 else Times(kinds[..|kinds| - 1], kind) + if kinds[|kinds| - 1] == kind then 1 else 0
  }

  /** No name begins with the type but those of its own devices. */
  ghost predicate OnlyItsOwn(kinds: seq<seq<byte>>, names: seq<seq<byte>>, kind: seq<byte>)
    requires |kinds| == |names|
  {
    forall i :: 0 <= i < |kinds| && HasPrefix(names[i], kind) ==> kinds[i] == kind
  }

  lemma OnlyItsOwnGrows(kinds: seq<seq<byte>>, names: seq<seq<byte>>, last: seq<byte>, name: seq<byte>, kind: seq<byte>)
    requires |kinds| == |names|
    ensures OnlyItsOwn(kinds + [last], names + [name], kind) <==>
      OnlyItsOwn(kinds, names, kind) && (HasPrefix(name, kind) ==> last == kind)
  {
    var ks, ns := kinds + [last], names + [name];
    assert ks[|kinds|] == last && ns[|kinds|] == name;
    assert forall i :: 0 <= i < |kinds| ==> ks[i] == kinds[i] && ns[i] == names[i];
  }

  lemma RegisteredNext(kinds: seq<seq<byte>>, kind: seq<byte>)
    requires |kinds| < MAX_BLOCK_DEVICES
    ensures Registered(kinds + [kind]) == Registered(kinds) + [NameOf(kind, NextIndex(Registered(kinds), kind))]
  {
    assert (kinds + [kind])[..|kinds|] == kinds;
  }

  lemma {:induction false} IndexCounts(kinds: seq<seq<byte>>, kind: seq<byte>)
    requires |kinds| <= MAX_BLOCK_DEVICES
    ensures Times(kinds, kind) <= NextIndex(Registered(kinds), kind)
    ensures Times(kinds, kind) == NextIndex(Registered(kinds), kind) <==> OnlyItsOwn(kinds, Registered(kinds), kind)
    decreases |kinds|
  {
    if kinds != [] {
      var front, last := kinds[..|kinds| - 1], kinds[|kinds| - 1];
      var before := Registered(front);
      var name := NameOf(last, NextIndex(before, last));
      IndexCounts(front, kind);
      OnlyItsOwnGrows(front, before, last, name, kind);
      IndexOfLast(before, name, kind);
      assert kinds == front + [last];
      RegisteredNext(front, last);
      assert last == kind ==> HasPrefix(name, kind);
      hide OnlyItsOwn, NextIndex, HasPrefix, Registered, NameOf;
    }
  }

  lemma IndexOfLast(names: seq<seq<byte>>, name: seq<byte>, kind: seq<byte>)
    ensures NextIndex(names + [name], kind) == NextIndex(names, kind) + if HasPrefix(name, kind) then 1 else 0
  {
    assert (names + [name])[..|names|] == names;
  }

  /** A new device of a type is numbered by the devices of that type before it exactly when no other device's name
      begins with the type. */
  lemma NumberedConsecutivelyExactly(kinds: seq<seq<byte>>, i: nat)
    requires |kinds| <= MAX_BLOCK_DEVICES && i < |kinds|
    ensures SuffixAt(kinds, i) == Times(kinds[..i], kinds[i])
       <==> OnlyItsOwn(kinds[..i], Registered(kinds)[..i], kinds[i])
  {
    NamesByPlace(kinds, i);
    IndexCounts(kinds[..i], kinds[i]);
  }

  // ---------------------------------------------------------------------------
  // The table
  // ---------------------------------------------------------------------------

  datatype BlockDevice = BlockDevice(name: seq<byte>, device: nat)

  class DeviceTable {
    const devices: array<BlockDevice>
    var count: nat
    /** The types registered so far. */
    ghost var kinds: seq<seq<byte>>

    ghost predicate Valid()
      reads this, devices
    {
      && devices.Length == MAX_BLOCK_DEVICES && count == |kinds| <= MAX_BLOCK_DEVICES
      && forall i :: 0 <= i < count ==> devices[i].name == Registered(kinds)[i]
    }

    constructor ()
      ensures Valid() && count == 0 && fresh(devices)
    {
      devices := new BlockDevice[MAX_BLOCK_DEVICES](_ => BlockDevice([], 0));
      count := 0;
      kinds := [];
    }

    /** `get_next_index_for_block_dev_type`. */
    method NextIndexFor(kind: seq<byte>) returns (n: nat)
      requires Valid()
      ensures n == NextIndex(Registered(kinds), kind) <= count
    {
      n := 0;
      ghost var names := Registered(kinds);
      for i := 0 to count
        invariant n == NextIndex(names[..i], kind)
      {
        assert names[..i + 1][..i] == names[..i];
        if kind <= devices[i].name {
          n := n + 1;
        }
      }
      assert names[..count] == names;
    }

    /** `register_block_device`, while the table has room. Its own test for too large an index never fires; past the
        16th device it has already written outside the table. */
    method Register(device: nat, kind: seq<byte>) returns (result: int)
      requires Valid() && count < MAX_BLOCK_DEVICES
      modifies this, devices
      ensures Valid() && result == SUCCESS && kinds == old(kinds) + [kind] && count == old(count) + 1
      ensures forall i :: 0 <= i < old(count) ==> devices[i] == old(devices[i])
      ensures devices[old(count)].device == device
    {
      hide NextIndex, Registered;
      var index := NextIndexFor(kind);
      if index >= MAX_BLOCK_DEVICES {
        return FAILURE;
      }
      devices[count] := BlockDevice(kind + [ZERO + index], device);
      count := count + 1;
      RegisteredNext(kinds, kind);
      kinds := kinds + [kind];
      result := SUCCESS;
    }

    /** The search of `open_file`: the first device of that name, -1 if there is none. */
    method Find(name: seq<byte>) returns (at: int)
      requires Valid()
      ensures -1 <= at < count
      ensures at >= 0 ==> devices[at].name == name
      ensures at == -1 ==> forall i :: 0 <= i < count ==> devices[i].name != name
      ensures forall i :: 0 <= i < count && devices[i].name == name ==> at == i
    {
      at := 0;
      while at < count
        invariant 0 <= at <= count && forall i :: 0 <= i < at ==> devices[i].name != name
      {
        if devices[at].name == name {
          ghost var found := at;
          forall i | 0 <= i < count && i > found ensures devices[i].name != name {
            NamesAreDistinct(kinds, found, i);
          }
          return;
        }
        at := at + 1;
      }
      at := -1;
    }
  }
}
