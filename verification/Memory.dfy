/** The kernel's memory primitives: the watermark allocator and the dword-fast copy. */
module Memory {
  import opened Bytes

  const HEAP_START: nat := 0x100_0000

  // ---------------------------------------------------------------------------
  // Watermark allocator
  // ---------------------------------------------------------------------------

  datatype Request = Plain(size: nat) | Aligned(alignment: nat, size: nat)

  /** What `memalign` steps over before the block it returns. */
  function Waste(free: nat, alignment: nat): nat
    requires alignment > 0
  {
    var diff := And(free, alignment - 1);
    if diff == 0 then 0 else alignment - diff
  }

  ghost predicate Sound(r: Request) {
    r.Aligned? ==> IsPowerOfTwo(r.alignment)
  }

  /** The block handed out for `r` when the watermark is `free`. */
  function Block(free: nat, r: Request): nat
    requires r.Aligned? ==> r.alignment > 0
  {
    match r
    case Plain(_) => free
    case Aligned(alignment, _) => free + Waste(free, alignment)
  }

  /** The watermark moves to the end of the block. */
  function Advance(free: nat, r: Request): nat
    requires r.Aligned? ==> r.alignment > 0
  {
    Block(free, r) + r.size
  }

  function Blocks(free: nat, rs: seq<Request>): (blocks: seq<nat>)
    requires forall r :: r in rs ==> r.Aligned? ==> r.alignment > 0
    ensures |blocks| == |rs|
    decreases |rs|
  {
    if rs == [] then [] else [Block(free, rs[0])] + Blocks(Advance(free, rs[0]), rs[1..])
  }

  /** For a power of two the allocator's mask is the remainder. */
  lemma MaskBelow(x: nat, alignment: nat)
    requires IsPowerOfTwo(alignment)
    ensures alignment > 0 && And(x, alignment - 1) == x % alignment < alignment
  {
    var k: nat :| alignment == Pow2(k);
    MaskIsMod(x, k);
  }

  lemma RoundUp(x: nat, alignment: nat)
    requires alignment > 0 && x % alignment != 0
    ensures (x + (alignment - x % alignment)) % alignment == 0
  {
    var q := x / alignment;
    assert x == q * alignment + x % alignment;
    assert (q + 1) * alignment == q * alignment + alignment;
    ModUnique(x + (alignment - x % alignment), alignment, q + 1, 0);
  }

  lemma WasteAligns(free: nat, alignment: nat)
    requires IsPowerOfTwo(alignment)
    ensures alignment > 0 && (free + Waste(free, alignment)) % alignment == 0
    ensures Waste(free, alignment) < alignment
  {
    MaskBelow(free, alignment);
    if free % alignment != 0 {
      RoundUp(free, alignment);
    }
  }

  /** The first multiple of the alignment from the watermark on. */
  ghost predicate FirstMultiple(block: nat, free: nat, alignment: nat)
    requires alignment > 0
  {
    block % alignment == 0 && free <= block < free + alignment
  }

  lemma BlockAligns(free: nat, alignment: nat, size: nat)
    requires alignment > 0
    ensures IsPowerOfTwo(alignment) ==> FirstMultiple(Block(free, Aligned(alignment, size)), free, alignment)
  {
    if IsPowerOfTwo(alignment) {
      WasteAligns(free, alignment);
    }
  }

  /** Over any run of requests the returned blocks lie one after the other, each aligned as asked and
      starting less than one alignment above the watermark it was cut from. */
  lemma {:induction false} BlocksAreDisjointAndAligned(free: nat, rs: seq<Request>)
    requires forall r :: r in rs ==> Sound(r)
    ensures forall r :: r in rs ==> r.Aligned? ==> r.alignment > 0
    ensures var blocks := Blocks(free, rs);
      && (forall i :: 0 <= i < |rs| ==> free <= blocks[i])
      && (forall i, j :: 0 <= i < j < |rs| ==> blocks[i] + rs[i].size <= blocks[j])
      && (forall i :: 0 <= i < |rs| && rs[i].Aligned? ==> blocks[i] % rs[i].alignment == 0)
    decreases |rs|
  {
    forall r | r in rs && r.Aligned? ensures r.alignment > 0 { assert Sound(r); }
    if rs != [] {
      assert Sound(rs[0]);
      var next := Advance(free, rs[0]);
      BlocksAreDisjointAndAligned(next, rs[1..]);
      var blocks, rest := Blocks(free, rs), Blocks(next, rs[1..]);
      assert forall i :: 0 < i < |rs| ==> blocks[i] == rest[i - 1] && rs[i] == rs[1..][i - 1];
      if rs[0].Aligned? {
        WasteAligns(free, rs[0].alignment);
      }
    }
  }

  /** The allocator as the kernel keeps it: one 32-bit watermark. */
  class Heap {
    var freeMemoryStart: nat

    ghost predicate Valid()
      reads this
    {
      freeMemoryStart < WORD_SPAN
    }

    constructor ()
      ensures Valid() && freeMemoryStart == HEAP_START
    {
      freeMemoryStart := HEAP_START;
    }

    /** The pointer addition wraps at 32 bits; without wrap-around this is `Advance`. */
    method Malloc(size: uint32) returns (block: nat)
      requires Valid()
      modifies this
      ensures Valid() && block == old(freeMemoryStart)
      ensures freeMemoryStart == Advance(old(freeMemoryStart), Plain(size)) % WORD_SPAN
    {
      block := freeMemoryStart;
      freeMemoryStart := (freeMemoryStart + size) % WORD_SPAN;
    }

    /** As the source notes, the block is cut large enough to step over `waste`; the mask only finds the
        boundary when the alignment is a power of two (see `MemalignAlignsExactly`). */
    method Memalign(alignment: uint32, size: uint32) returns (block: nat)
      requires Valid() && alignment > 0
      requires Advance(freeMemoryStart, Aligned(alignment, size)) < WORD_SPAN
      modifies this
      ensures Valid() && block == Block(old(freeMemoryStart), Aligned(alignment, size))
      ensures freeMemoryStart == Advance(old(freeMemoryStart), Aligned(alignment, size)) == block + size
      ensures old(freeMemoryStart) <= block
      ensures IsPowerOfTwo(alignment) ==> FirstMultiple(block, old(freeMemoryStart), alignment)
    {
      hide And, IsPowerOfTwo, FirstMultiple;
      BlockAligns(freeMemoryStart, alignment, size);
      ghost var goal := Block(freeMemoryStart, Aligned(alignment, size));
      var diff := And(freeMemoryStart, alignment - 1);
      if diff == 0 {
        block := Malloc(size);
        return;
      }
      var waste := alignment - diff;
      var allocation := Malloc(size + waste);
      assert allocation + waste == goal < WORD_SPAN;
      block := (allocation + waste) % WORD_SPAN;
      assert block == goal;
    }
  }

  /** A power of two shares no bit with anything below it. */
  lemma {:induction false} MaskMissesPower(k: nat, y: nat)
    requires y < Pow2(k)
    ensures And(Pow2(k), y) == 0
  {
    if k > 0 {
      MaskMissesPower(k - 1, y / 2);
    }
  }

  lemma ProductOne(a: nat, m: nat)
    requires a * m == 1
    ensures a == 1
  {
    if m > 0 {
      MulAtLeast(m, a);
    }
  }

  lemma OddTimesOdd(a: nat, m: nat)
    requires a % 2 == 1 && m % 2 == 1
    ensures a * m % 2 == 1
  {
    var x, y := a / 2, m / 2;
    assert a * m == (2 * x + 1) * (2 * y + 1) == 2 * (2 * (x * y) + x + y) + 1;
  }

  lemma {:induction false} DivisorsOfPowers(a: nat, m: nat, k: nat)
    requires a * m == Pow2(k)
    ensures IsPowerOfTwo(a)
  {
    if k == 0 {
      ProductOne(a, m);
      assert a == Pow2(0);
    } else if m % 2 == 0 {
      assert a * m == 2 * (a * (m / 2));
      DivisorsOfPowers(a, m / 2, k - 1);
    } else if a % 2 == 0 {
      assert a * m == 2 * ((a / 2) * m);
      DivisorsOfPowers(a / 2, m, k - 1);
      var j: nat :| a / 2 == Pow2(j);
      assert a == Pow2(j + 1);
    } else {
      OddTimesOdd(a, m);
      assert false;
    }
  }

  lemma {:induction false} PowerAbove(a: nat, bound: nat) returns (k: nat)
    requires 0 < a <= Pow2(bound)
    ensures a <= Pow2(k) < 2 * a
    decreases bound
  {
    if bound == 0 || Pow2(bound - 1) < a {
      k := bound;
    } else {
      k := PowerAbove(a, bound - 1);
    }
  }

  lemma MultipleOf(x: nat, a: nat)
    requires a > 0 && x % a == 0
    ensures a * (x / a) == x
  {
  }

  lemma PowerAboveMisaligns(alignment: nat, size: nat, k: nat)
    requires 0 < alignment <= Pow2(k) && !IsPowerOfTwo(alignment)
    ensures Block(Pow2(k), Aligned(alignment, size)) == Pow2(k) && Pow2(k) % alignment != 0
  {
    MaskMissesPower(k, alignment - 1);
    if Pow2(k) % alignment == 0 {
      MultipleOf(Pow2(k), alignment);
      DivisorsOfPowers(alignment, Pow2(k) / alignment, k);
    }
  }

  /** `memalign` returns an aligned block at every watermark exactly when the alignment is a power of two. */
  lemma MemalignAlignsExactly(alignment: nat, size: nat)
    requires 0 < alignment <= Pow2(31)
    ensures (forall free: nat :: free <= Pow2(32) ==> Block(free, Aligned(alignment, size)) % alignment == 0)
       <==> IsPowerOfTwo(alignment)
  {
    if IsPowerOfTwo(alignment) {
      forall free: nat ensures Block(free, Aligned(alignment, size)) % alignment == 0 {
        BlockAligns(free, alignment, size);
      }
    } else {
      var k := PowerAbove(alignment, 31);
      PowerAboveMisaligns(alignment, size, k);
      assert Pow2(k) <= Pow2(32);
    }
  }

  // ---------------------------------------------------------------------------
  // memcpy
  // ---------------------------------------------------------------------------

  /** The bytewise loop of the userland library, the reference for copying. */
  function CopyBytes(mem: seq<byte>, src: nat, dst: nat, n: nat): (r: seq<byte>)
    requires src + n <= |mem| && dst + n <= |mem|
    ensures |r| == |mem|
  {
    if n == 0 then mem else
    var m := CopyBytes(mem, src, dst, n - 1);
    m[dst + n - 1 := m[src + n - 1]]
  }

  /** The dword loop: each step loads four bytes and then stores them. */
  function CopyDwords(mem: seq<byte>, src: nat, dst: nat, n: nat): (r: seq<byte>)
    requires src + 4 * n <= |mem| && dst + 4 * n <= |mem|
    ensures |r| == |mem|
  {
    if n == 0 then mem else
    var m := CopyDwords(mem, src, dst, n - 1);
    Splice(m, dst + 4 * (n - 1), m[src + 4 * (n - 1)..src + 4 * n])
  }

  function KernelCopy(mem: seq<byte>, src: nat, dst: nat, length: nat): (r: seq<byte>)
    requires src + length <= |mem| && dst + length <= |mem|
    ensures |r| == |mem|
  {
    DwordsThenBytes(mem, src, dst, length / 4, length % 4)
  }

  function DwordsThenBytes(mem: seq<byte>, src: nat, dst: nat, q: nat, t: nat): (r: seq<byte>)
    requires src + 4 * q + t <= |mem| && dst + 4 * q + t <= |mem|
    ensures |r| == |mem|
  {
    CopyBytes(CopyDwords(mem, src, dst, q), src + 4 * q, dst + 4 * q, t)
  }

  /** What a caller of a copy expects to find afterwards. */
  function Moved(mem: seq<byte>, src: nat, dst: nat, length: nat): (r: seq<byte>)
    requires src + length <= |mem| && dst + length <= |mem|
  {
    Splice(mem, dst, mem[src..src + length])
  }

  method MemcpyBytewise(mem: array<byte>, source: nat, dest: nat, length: nat)
    requires source + length <= mem.Length && dest + length <= mem.Length
    modifies mem
    ensures mem[..] == CopyBytes(old(mem[..]), source, dest, length)
  {
    for i := 0 to length
      invariant mem[..] == CopyBytes(old(mem[..]), source, dest, i)
    {
      assert mem[source + i] == mem[..][source + i];
      mem[dest + i] := mem[source + i];
    }
  }

  /** One iteration of the dword loop: a four-byte load, then a four-byte store. */
  method MoveDword(mem: array<byte>, s: nat, d: nat)
    requires s + 4 <= mem.Length && d + 4 <= mem.Length
    modifies mem
    ensures mem[..] == Splice(old(mem[..]), d, old(mem[..])[s..s + 4])
  {
    ghost var before := mem[..];
    var b0, b1, b2, b3 := mem[s], mem[s + 1], mem[s + 2], mem[s + 3];
    mem[d], mem[d + 1], mem[d + 2], mem[d + 3] := b0, b1, b2, b3;
    assert before[s..s + 4] == [b0, b1, b2, b3];
    assert mem[..] == before[..d] + [b0, b1, b2, b3] + before[d + 4..];
  }

  method MoveDwords(mem: array<byte>, source: nat, dest: nat, dwords: nat)
    requires source + 4 * dwords <= mem.Length && dest + 4 * dwords <= mem.Length
    modifies mem
    ensures mem[..] == CopyDwords(old(mem[..]), source, dest, dwords)
  {
    for i := 0 to dwords
      invariant mem[..] == CopyDwords(old(mem[..]), source, dest, i)
    {
      MoveDword(mem, source + 4 * i, dest + 4 * i);
    }
  }

  /** The kernel's copy: dwords first, then the zero to three bytes left over. */
  method Memcpy(mem: array<byte>, source: nat, dest: nat, length: nat)
    requires source + length <= mem.Length && dest + length <= mem.Length
    modifies mem
    ensures mem[..] == KernelCopy(old(mem[..]), source, dest, length)
  {
    var dwords, bytes := length / 4, length % 4;
    var src8, dest8 := source + dwords * 4, dest + dwords * 4;
    MoveDwords(mem, source, dest, dwords);
    MemcpyBytewise(mem, src8, dest8, bytes);
  }

  /** A bytewise copy writes each byte once, with what its source held at that moment. */
  lemma {:induction false} CopyBytesAt(mem: seq<byte>, src: nat, dst: nat, n: nat, a: nat)
    requires src + n <= |mem| && dst + n <= |mem| && a < |mem|
    ensures var r := CopyBytes(mem, src, dst, n);
      r[a] == if dst <= a < dst + n then CopyBytes(mem, src, dst, a - dst)[src + (a - dst)] else mem[a]
  {
    if n > 0 {
      CopyBytesAt(mem, src, dst, n - 1, a);
    }
  }

  /** Ascending bytewise copying is a true move when it never reads what it has written. */
  lemma {:induction false} CopyBytesMoves(mem: seq<byte>, src: nat, dst: nat, n: nat)
    requires src + n <= |mem| && dst + n <= |mem|
    requires dst <= src || src + n <= dst
    ensures CopyBytes(mem, src, dst, n) == Moved(mem, src, dst, n)
  {
    if n > 0 {
      CopyBytesMoves(mem, src, dst, n - 1);
      SpliceExtends(mem, dst, mem[src..src + n - 1], mem[src + n - 1]);
      assert mem[src..src + n] == mem[src..src + n - 1] + [mem[src + n - 1]];
    }
  }

  lemma {:induction false} CopyBytesSplit(mem: seq<byte>, src: nat, dst: nat, n: nat, more: nat)
    requires src + n + more <= |mem| && dst + n + more <= |mem|
    ensures CopyBytes(CopyBytes(mem, src, dst, n), src + n, dst + n, more) == CopyBytes(mem, src, dst, n + more)
  {
    if more > 0 {
      CopyBytesSplit(mem, src, dst, n, more - 1);
    }
  }

  /** One dword step and four byte steps agree when no byte step reads a byte of the same dword just written. */
  lemma DwordStep(m: seq<byte>, s: nat, d: nat)
    requires s + 4 <= |m| && d + 4 <= |m| && !(s < d < s + 4)
    ensures Splice(m, d, m[s..s + 4]) == CopyBytes(m, s, d, 4)
  {
    var m1 := m[d := m[s]];
    var m2 := m1[d + 1 := m1[s + 1]];
    var m3 := m2[d + 2 := m2[s + 2]];
    var m4 := m3[d + 3 := m3[s + 3]];
    assert CopyBytes(m, s, d, 1) == m1;
    assert CopyBytes(m, s, d, 2) == m2;
    assert CopyBytes(m, s, d, 3) == m3;
    assert CopyBytes(m, s, d, 4) == m4;
    assert m1[s + 1] == m[s + 1] && m2[s + 2] == m[s + 2] && m3[s + 3] == m[s + 3];
    assert m4 == Splice(m, d, m[s..s + 4]);
  }

  lemma {:induction false} DwordsAreBytes(mem: seq<byte>, src: nat, dst: nat, n: nat)
    requires src + 4 * n <= |mem| && dst + 4 * n <= |mem| && !(src < dst < src + 4)
    ensures CopyDwords(mem, src, dst, n) == CopyBytes(mem, src, dst, 4 * n)
  {
    if n > 0 {
      DwordsAreBytes(mem, src, dst, n - 1);
      var m := CopyBytes(mem, src, dst, 4 * (n - 1));
      var s, d := src + 4 * (n - 1), dst + 4 * (n - 1);
      assert CopyDwords(mem, src, dst, n) == Splice(m, d, m[s..s + 4]);
      DwordStep(m, s, d);
      CopyBytesSplit(mem, src, dst, 4 * (n - 1), 4);
      assert 4 * (n - 1) + 4 == 4 * n;
    }
  }

  lemma DwordsThenBytesAreBytes(mem: seq<byte>, src: nat, dst: nat, q: nat, t: nat)
    requires src + 4 * q + t <= |mem| && dst + 4 * q + t <= |mem|
    requires !(src < dst < src + 4) || q == 0
    ensures DwordsThenBytes(mem, src, dst, q, t) == CopyBytes(mem, src, dst, 4 * q + t)
  {
    if q > 0 {
      DwordsAreBytes(mem, src, dst, q);
      CopyBytesSplit(mem, src, dst, 4 * q, t);
    }
  }

  lemma KernelIsBytewise(mem: seq<byte>, src: nat, dst: nat, length: nat)
    requires src + length <= |mem| && dst + length <= |mem|
    requires !(src < dst < src + 4) || length < 4
    ensures KernelCopy(mem, src, dst, length) == CopyBytes(mem, src, dst, length)
  {
    var q, t := length / 4, length % 4;
    assert length == 4 * q + t;
    DwordsThenBytesAreBytes(mem, src, dst, q, t);
  }

  /** After at least one dword, the first dword copied stays as it was loaded. */
  lemma {:induction false} FirstDwordStays(mem: seq<byte>, src: nat, dst: nat, n: nat, j: nat)
    requires n > 0 && src + 4 * n <= |mem| && dst + 4 * n <= |mem| && j < 4
    ensures CopyDwords(mem, src, dst, n)[dst + j] == mem[src + j]
  {
    var m := CopyDwords(mem, src, dst, n - 1);
    var r := Splice(m, dst + 4 * (n - 1), m[src + 4 * (n - 1)..src + 4 * n]);
    assert CopyDwords(mem, src, dst, n) == r;
    if n > 1 {
      FirstDwordStays(mem, src, dst, n - 1, j);
    } else {
      assert r[dst..dst + 4][j] == mem[src..src + 4][j];
    }
  }

  lemma KernelFirstDword(mem: seq<byte>, src: nat, dst: nat, length: nat, j: nat)
    requires src + length <= |mem| && dst + length <= |mem| && length >= 4 && j < 4
    ensures KernelCopy(mem, src, dst, length)[dst + j] == mem[src + j]
  {
    var q := length / 4;
    FirstDwordStays(mem, src, dst, q, j);
    CopyBytesAt(CopyDwords(mem, src, dst, q), src + 4 * q, dst + 4 * q, length % 4, dst + j);
  }

  /** The dword copy and the bytewise copy agree on every memory exactly when the destination does not lie
      one to three bytes above the source, or no dword is moved at all. */
  lemma MemcpyAgreesExactly(size: nat, src: nat, dst: nat, length: nat)
    requires src + length <= size && dst + length <= size
    ensures (forall mem: seq<byte> :: |mem| == size ==>
               KernelCopy(mem, src, dst, length) == CopyBytes(mem, src, dst, length))
       <==> (!(src < dst < src + 4) || length < 4)
  {
    if src < dst < src + 4 && length >= 4 {
      var d := dst - src;
      var mem := OneAt(size, dst);
      KernelFirstDword(mem, src, dst, length, d);
      assert mem[src + d] == 1;
      CopyBytesAt(mem, src, dst, length, dst + d);
      CopyBytesAt(mem, src, dst, d, dst);
      assert CopyBytes(mem, src, dst, 0)[src] == 0;
      assert KernelCopy(mem, src, dst, length) != CopyBytes(mem, src, dst, length);
    } else {
      forall mem: seq<byte> | |mem| == size
        ensures KernelCopy(mem, src, dst, length) == CopyBytes(mem, src, dst, length)
      {
        KernelIsBytewise(mem, src, dst, length);
      }
    }
  }

  lemma {:induction false} FifthByteOfDwords(mem: seq<byte>, src: nat, dst: nat, n: nat)
    requires n >= 2 && src + 4 * n <= |mem| && dst + 4 * n <= |mem| && src < dst < src + 4
    ensures CopyDwords(mem, src, dst, n)[dst + 4] == mem[src + (4 - (dst - src))]
  {
    var m := CopyDwords(mem, src, dst, n - 1);
    var r := Splice(m, dst + 4 * (n - 1), m[src + 4 * (n - 1)..src + 4 * n]);
    assert CopyDwords(mem, src, dst, n) == r;
    if n > 2 {
      FifthByteOfDwords(mem, src, dst, n - 1);
    } else {
      FirstDwordStays(mem, src, dst, 1, 4 - (dst - src));
      assert r[dst + 4..dst + 8][0] == m[src + 4..src + 8][0];
    }
  }

  lemma KernelFifthByte(mem: seq<byte>, src: nat, dst: nat, length: nat)
    requires src + length <= |mem| && dst + length <= |mem| && length >= 5 && src < dst < src + 4
    ensures KernelCopy(mem, src, dst, length)[dst + 4] == mem[src + (4 - (dst - src))]
  {
    var q := length / 4;
    var m := CopyDwords(mem, src, dst, q);
    CopyBytesAt(m, src + 4 * q, dst + 4 * q, length % 4, dst + 4);
    if q == 1 {
      FirstDwordStays(mem, src, dst, 1, 4 - (dst - src));
      assert CopyBytes(m, src + 4, dst + 4, 0) == m;
    } else {
      FifthByteOfDwords(mem, src, dst, q);
    }
  }

  lemma SingleDwordMoves(mem: seq<byte>, src: nat, dst: nat)
    requires src + 4 <= |mem| && dst + 4 <= |mem|
    ensures KernelCopy(mem, src, dst, 4) == Moved(mem, src, dst, 4)
  {
    assert CopyDwords(mem, src, dst, 0) == mem;
    assert CopyDwords(mem, src, dst, 1) == Splice(mem, dst, mem[src..src + 4]);
  }

  /** A move carries the byte at `src + j` to `dst + j`. */
  lemma MovedAt(mem: seq<byte>, src: nat, dst: nat, length: nat, j: nat)
    requires src + length <= |mem| && dst + length <= |mem| && j < length
    ensures Moved(mem, src, dst, length)[dst + j] == mem[src + j]
  {
    assert Moved(mem, src, dst, length)[dst..dst + length][j] == mem[src..src + length][j];
  }

  function OneAt(size: nat, a: nat): (mem: seq<byte>)
    requires a < size
    ensures |mem| == size && forall i :: 0 <= i < size ==> mem[i] == if i == a then 1 else 0
  {
    seq(size, i => if i == a then 1 else 0)
  }

  lemma ShortOverlapBreaksMove(mem: seq<byte>, src: nat, dst: nat, length: nat)
    requires src + length <= |mem| && dst + length <= |mem|
    requires src < dst < src + 4 && length >= 5 && mem == OneAt(|mem|, src + 4)
    ensures KernelCopy(mem, src, dst, length) != Moved(mem, src, dst, length)
  {
    KernelFifthByte(mem, src, dst, length);
    MovedAt(mem, src, dst, length, 4);
  }

  lemma OverlapBreaksMove(mem: seq<byte>, src: nat, dst: nat, length: nat)
    requires src + length <= |mem| && dst + length <= |mem|
    requires src < dst < src + length && (src + 4 <= dst || length < 4) && mem == OneAt(|mem|, dst)
    ensures KernelCopy(mem, src, dst, length) != Moved(mem, src, dst, length)
  {
    var d := dst - src;
    KernelIsBytewise(mem, src, dst, length);
    CopyBytesAt(mem, src, dst, length, dst + d);
    CopyBytesAt(mem, src, dst, d, dst);
    assert CopyBytes(mem, src, dst, 0) == mem;
    MovedAt(mem, src, dst, length, d);
  }

  /** The kernel's `memcpy` is a true move, for every memory, exactly when the regions do not overlap upwards,
      or when the whole copy is a single dword. */
  lemma MemcpyMovesExactly(size: nat, src: nat, dst: nat, length: nat)
    requires src + length <= size && dst + length <= size
    ensures (forall mem: seq<byte> :: |mem| == size ==>
               KernelCopy(mem, src, dst, length) == Moved(mem, src, dst, length))
       <==> (dst <= src || src + length <= dst || length == 4)
  {
    if dst <= src || src + length <= dst || length == 4 {
      forall mem: seq<byte> | |mem| == size
        ensures KernelCopy(mem, src, dst, length) == Moved(mem, src, dst, length)
      {
        if length == 4 {
          SingleDwordMoves(mem, src, dst);
        } else {
          KernelIsBytewise(mem, src, dst, length);
          CopyBytesMoves(mem, src, dst, length);
        }
      }
    } else if dst < src + 4 && length >= 5 {
      ShortOverlapBreaksMove(OneAt(size, src + 4), src, dst, length);
    } else {
      OverlapBreaksMove(OneAt(size, dst), src, dst, length);
    }
  }
}
