/** What every interleaving of the host controller with a published descriptor list leads to. */
module TransferRuns {
  import opened Bytes
  import opened BulkDevice
  import opened Uhci

  /** Following the links from `base` visits the list in order and ends at the terminate bit. */
  ghost predicate Linked(base: nat, list: seq<Td>) {
    && base % 16 == 0 && list != []
    && forall i :: 0 <= i < |list| ==> list[i].active && !list[i].errored && LeadsOn(base, list[i], i + 1, |list|)
  }

  ghost predicate LeadsOn(base: nat, td: Td, i: nat, n: nat) {
    if i == n then LinkWord(td) % 4 == 1 else PointsAt(LinkWord(td), Addr(base, i))
  }

  /** How the controller reads a link dword that names a descriptor. */
  predicate PointsAt(word: nat, a: nat) {
    word % 4 == 0 && word / 16 * 16 == a
  }

  /** Every descriptor's buffer lies in `[lo, hi)`. */
  ghost predicate Within(list: seq<Td>, lo: nat, hi: nat) {
    forall i :: 0 <= i < |list| ==> lo <= list[i].buffer && list[i].buffer + FieldBytes(list[i].maxLength) <= hi
  }

  ghost predicate Standing(original: Td, td: Td, done: bool, failed: bool) {
    if done then td == original.(active := false, actualLength := td.actualLength)
    else if failed then td == original.(active := false, errored := true, actualLength := td.actualLength)
    else td == original
  }

  /** `k` descriptors retired in order; if `failed`, the next one was given up on; the rest untouched, and the
      queue head pointing at the first one not retired. */
  ghost predicate Progress(base: nat, list: seq<Td>, s: Sys, k: nat, failed: bool) {
    && k <= |list| && (failed ==> k < |list|)
    && (forall i {:trigger Addr(base, i)} :: 0 <= i < |list| ==>
          Addr(base, i) in s.tds && Standing(list[i], s.tds[Addr(base, i)], i < k, failed && i == k))
    && (if k == |list| then s.element % 4 == 1 else PointsAt(s.element, Addr(base, k)))
  }

  // ---------------------------------------------------------------------------
  // One visit of the controller
  // ---------------------------------------------------------------------------

  lemma Visit(base: nat, list: seq<Td>, s: Sys, k: nat, failed: bool, f: Fault)
    requires Progress(base, list, s, k, failed) && Linked(base, list)
    ensures HcStep(s, f) ==
      if failed || k == |list| then s else Apply(s, Addr(base, k), list[k], Exchange(s.dev, s.ram, list[k], f))
  {
    if k < |list| {
      assert Addr(base, k) in s.tds && Standing(list[k], s.tds[Addr(base, k)], false, failed);
    }
  }

  lemma AfterFail(base: nat, list: seq<Td>, s: Sys, k: nat, actual: nat)
    requires Linked(base, list) && Progress(base, list, s, k, false) && k < |list|
    ensures Progress(base, list, Apply(s, Addr(base, k), list[k], Fails(actual)), k, true)
  {
  }

  lemma AfterRetire(base: nat, list: seq<Td>, s: Sys, k: nat, dev: Device, ram: seq<byte>, bytes: nat)
    requires Linked(base, list) && Progress(base, list, s, k, false) && k < |list|
    ensures Progress(base, list, Apply(s, Addr(base, k), list[k], Retires(dev, ram, bytes)), k + 1, false)
  {
    assert LeadsOn(base, list[k], k + 1, |list|);
  }

  lemma ExchangeStaysInside(dev: Device, ram: seq<byte>, td: Td, f: Fault)
    ensures var e := Exchange(dev, ram, td, f);
      e.Retires? ==> SameOutside(ram, e.ram, td.buffer, td.buffer + FieldBytes(td.maxLength))
  {
  }

  function NextDone(list: seq<Td>, s: Sys, k: nat, failed: bool, f: Fault): nat
    requires k <= |list|
  {
    if failed || k == |list| || !Exchange(s.dev, s.ram, list[k], f).Retires? then k else k + 1
  }

  predicate NextFailed(list: seq<Td>, s: Sys, k: nat, failed: bool, f: Fault)
    requires k <= |list|
  {
    failed || (k < |list| && Exchange(s.dev, s.ram, list[k], f).Fails?)
  }

  /** Each visit retires at most the next descriptor in link order, or gives up on it. */
  lemma ProgressStep(base: nat, list: seq<Td>, s: Sys, k: nat, failed: bool, f: Fault)
    requires Linked(base, list) && Progress(base, list, s, k, failed)
    ensures Progress(base, list, HcStep(s, f), NextDone(list, s, k, failed, f), NextFailed(list, s, k, failed, f))
  {
    Visit(base, list, s, k, failed, f);
    if !failed && k < |list| {
      match Exchange(s.dev, s.ram, list[k], f)
      case Stays(_) =>
      case Fails(actual) => AfterFail(base, list, s, k, actual);
      case Retires(dev, ram, bytes) => AfterRetire(base, list, s, k, dev, ram, bytes);
    }
  }

  /** The retired descriptors are always a prefix of the list, for every device, schedule and fault, and
      nothing outside the descriptors' buffers is written. */
  lemma {:induction false} RetiredIsPrefix(base: nat, list: seq<Td>, s: Sys, k: nat, failed: bool, fs: seq<Fault>,
                                           lo: nat, hi: nat)
      returns (k': nat, failed': bool)
    requires Linked(base, list) && Progress(base, list, s, k, failed) && Within(list, lo, hi)
    ensures Progress(base, list, Run(s, fs), k', failed') && k <= k' && (failed ==> failed' && k' == k)
    ensures SameOutside(s.ram, Run(s, fs).ram, lo, hi)
    decreases |fs|
  {
    if fs == [] {
      k', failed' := k, failed;
    } else {
      ProgressStep(base, list, s, k, failed, fs[0]);
      Visit(base, list, s, k, failed, fs[0]);
      if k < |list| {
        ExchangeStaysInside(s.dev, s.ram, list[k], fs[0]);
      }
      k', failed' := RetiredIsPrefix(base, list, HcStep(s, fs[0]), NextDone(list, s, k, failed, fs[0]),
                                     NextFailed(list, s, k, failed, fs[0]), fs[1..], lo, hi);
    }
  }

  /** Seeing the last descriptor inactive means that all earlier ones were carried out, and that the last one
      was carried out or given up on; its error bit tells which. */
  lemma LastInactive(base: nat, list: seq<Td>, s: Sys, k: nat, failed: bool)
    requires Progress(base, list, s, k, failed) && Linked(base, list)
    ensures var last := s.tds[Addr(base, |list| - 1)];
      && (!last.active <==> k == |list| || (failed && k == |list| - 1))
      && (last.errored <==> failed && k == |list| - 1)
  {
    assert Standing(list[|list| - 1], s.tds[Addr(base, |list| - 1)], |list| - 1 < k, failed && |list| - 1 == k);
  }

  /** Publishing a linked list gives the controller all of it to do. */
  lemma PublishedProgress(base: nat, list: seq<Td>, s: Sys)
    requires Linked(base, list)
    ensures Progress(base, list, Publish(s, base, list), 0, false)
  {
    var tds := Install(s.tds, base, list);
    InstallHolds(s.tds, base, list);
    forall i {:trigger Addr(base, i)} | 0 <= i < |list|
      ensures Addr(base, i) in tds && Standing(list[i], tds[Addr(base, i)], false, false)
    {
    }
    AlignedPointsAt(base);
  }

  lemma AddrAligned(base: nat, i: nat)
    requires base % 16 == 0
    ensures Addr(base, i) % 16 == 0
  {
    assert base == 16 * (base / 16);
    assert Addr(base, i) == 16 * (base / 16 + 2 * i);
  }

  /** A 16-aligned address survives the 28-bit link field: shifted down, stored, and shifted back. */
  lemma LinkSurvives(a: nat)
    requires a % 16 == 0
    ensures PointsAt(4 + 16 * (a / 16), a)
  {
    var q := a / 16;
    assert a == 16 * q;
    assert (4 + 16 * q) / 16 == q;
  }

  lemma AlignedPointsAt(a: nat)
    requires a % 16 == 0
    ensures PointsAt(a, Addr(a, 0))
  {
    var q := a / 16;
    assert a == 16 * q;
    assert Addr(a, 0) == a;
    assert a == 4 * (4 * q);
  }

  // ---------------------------------------------------------------------------
  // Reachability from the queue head
  // ---------------------------------------------------------------------------

  /** The addresses met by following element and link pointers for at most `fuel` descriptors. */
  function Reach(tds: map<nat, Td>, word: nat, fuel: nat): (visited: seq<nat>)
    decreases fuel
  {
    var a := word / 16 * 16;
    if fuel == 0 || word % 4 != 0 || a !in tds then [] else [a] + Reach(tds, LinkWord(tds[a]), fuel - 1)
  }

  /** From a fresh queue head the controller can reach exactly the list's descriptors, once each and in order,
      however far it follows the links. */
  lemma {:induction false} LinksVisitEachOnce(base: nat, list: seq<Td>, tds: map<nat, Td>, word: nat, i: nat, fuel: nat)
    requires Linked(base, list) && i < |list| && |list| - i <= fuel
    requires forall j {:trigger Addr(base, j)} :: 0 <= j < |list| ==>
      Addr(base, j) in tds && tds[Addr(base, j)] == list[j]
    requires PointsAt(word, Addr(base, i))
    ensures var visited := Reach(tds, word, fuel);
      |visited| == |list| - i && forall j :: 0 <= j < |visited| ==> visited[j] == Addr(base, i + j)
    decreases |list| - i
  {
    assert tds[Addr(base, i)] == list[i] && LeadsOn(base, list[i], i + 1, |list|);
    if i + 1 < |list| {
      LinksVisitEachOnce(base, list, tds, LinkWord(list[i]), i + 1, fuel - 1);
    } else {
      assert Reach(tds, LinkWord(list[i]), fuel - 1) == [];
    }
  }
}
