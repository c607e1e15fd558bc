/** Bytes, little- and big-endian integers, and C's bitwise operators on unsigned values. */
module Bytes {

  type byte = x: int | 0 <= x < 0x100
  type uint8 = x: int | 0 <= x < 0x100
  type uint16 = x: int | 0 <= x < 0x1_0000
  type uint32 = x: int | 0 <= x < 0x1_0000_0000

  const WORD_SPAN: int := 0x1_0000_0000

  /** The memory `ram` after `data` has been stored at address `at`. */
  function Splice(ram: seq<byte>, at: nat, data: seq<byte>): (r: seq<byte>)
    requires at + |data| <= |ram|
    ensures |r| == |ram|
  {
    seq(|ram|, a requires 0 <= a < |ram| => if at <= a < at + |data| then data[a - at] else ram[a])
  }

  lemma SpliceHolds(ram: seq<byte>, at: nat, data: seq<byte>)
    requires at + |data| <= |ram|
    ensures Splice(ram, at, data)[at..at + |data|] == data
  {
  }

  lemma SpliceExtends(ram: seq<byte>, at: nat, data: seq<byte>, x: byte)
    requires at + |data| < |ram|
    ensures Splice(ram, at, data + [x]) == Splice(ram, at, data)[at + |data| := x]
  {
  }

  /** Two stores one after the other are one store. */
  lemma SpliceAppends(ram: seq<byte>, at: nat, first: seq<byte>, mid: nat, second: seq<byte>)
    requires at + |first| == mid && mid + |second| <= |ram|
    ensures Splice(Splice(ram, at, first), mid, second) == Splice(ram, at, first + second)
  {
  }

  /** Two memories differ at most inside `[from, to)`. */
  ghost predicate SameOutside(before: seq<byte>, after: seq<byte>, from: nat, to: nat) {
    |after| == |before| && forall a :: 0 <= a < |before| && !(from <= a < to) ==> after[a] == before[a]
  }

  function Zeros(n: nat): (r: seq<byte>)
    ensures |r| == n && forall i :: 0 <= i < n ==> r[i] == 0
  {
    seq(n, _ => 0)
  }

  /** A little-endian load of four bytes. */
  function LE32(b: seq<byte>): uint32
    requires |b| == 4
  {
    var b0: int, b1: int, b2: int, b3: int := b[0], b[1], b[2], b[3];
    b0 + 0x100 * b1 + 0x1_0000 * b2 + 0x100_0000 * b3
  }

  function LE16(b: seq<byte>): uint16
    requires |b| == 2
  {
    var lo: int, hi: int := b[0], b[1];
    lo + 0x100 * hi
  }

  function ToLE32(x: uint32): (b: seq<byte>)
    ensures |b| == 4
  {
    [x % 0x100, x / 0x100 % 0x100, x / 0x100 / 0x100 % 0x100, x / 0x100 / 0x100 / 0x100]
  }

  function ToLE16(x: uint16): (b: seq<byte>)
    ensures |b| == 2
  {
    [x % 0x100, x / 0x100]
  }

  /** A big-endian load of four bytes, as a SCSI device reads its command block. */
  function BE32(b: seq<byte>): uint32
    requires |b| == 4
  {
    LE32([b[3], b[2], b[1], b[0]])
  }

  function BE16(b: seq<byte>): uint16
    requires |b| == 2
  {
    LE16([b[1], b[0]])
  }

  function ToBE32(x: uint32): (b: seq<byte>)
    ensures |b| == 4
  {
    var b := ToLE32(x);
    [b[3], b[2], b[1], b[0]]
  }

  /** The byte-order builtins behind `bswap_32` and `bswap_16`. */
  function BSwap32(x: uint32): uint32 {
    var b := ToLE32(x);
    LE32([b[3], b[2], b[1], b[0]])
  }

  function BSwap16(x: uint16): uint16 {
    var b := ToLE16(x);
    LE16([b[1], b[0]])
  }

  lemma LoadStore32(x: uint32)
    ensures LE32(ToLE32(x)) == x
  {
    var q1, q2, q3 := x / 0x100, x / 0x100 / 0x100, x / 0x100 / 0x100 / 0x100;
    assert x == x % 0x100 + 0x100 * q1;
    assert q1 == q1 % 0x100 + 0x100 * q2;
    assert q2 == q2 % 0x100 + 0x100 * q3;
  }

  lemma LoadStore16(x: uint16)
    ensures LE16(ToLE16(x)) == x
  {
  }

  lemma StoreLoad32(b: seq<byte>)
    requires |b| == 4
    ensures ToLE32(LE32(b)) == b
  {
    var b0: int, b1: int, b2: int, b3: int := b[0], b[1], b[2], b[3];
    var x: int := LE32(b);
    assert x / 0x100 == b1 + 0x100 * (b2 + 0x100 * b3);
    assert x / 0x100 / 0x100 == b2 + 0x100 * b3;
    assert x / 0x100 / 0x100 / 0x100 == b3;
  }

  lemma StoreLoad16(b: seq<byte>)
    requires |b| == 2
    ensures ToLE16(LE16(b)) == b
  {
  }

  /** Storing the swapped value little-endian is what makes it big-endian on the wire. */
  lemma SwappedStoreIsBigEndian(x: uint32, y: uint16)
    ensures ToLE32(BSwap32(x)) == ToBE32(x) && BE32(ToBE32(x)) == x
    ensures BE16(ToLE16(BSwap16(y))) == y
  {
    var b, c := ToLE32(x), ToLE16(y);
    StoreLoad32([b[3], b[2], b[1], b[0]]);
    StoreLoad16([c[1], c[0]]);
    LoadStore32(x);
    LoadStore16(y);
    assert [c[0], c[1]] == c;
    assert [b[0], b[1], b[2], b[3]] == b;
  }

  /** Loading big-endian bytes with a little-endian load and swapping recovers the value. */
  lemma SwappedLoad(x: uint32)
    ensures BSwap32(LE32(ToBE32(x))) == x
  {
    StoreLoad32(ToBE32(x));
    LoadStore32(x);
    var b := ToLE32(x);
    assert [b[0], b[1], b[2], b[3]] == b;
  }

  // ---------------------------------------------------------------------------
  // Bitwise operators on unsigned integers
  // ---------------------------------------------------------------------------

  function Pow2(k: nat): (p: nat)
    ensures p > 0
  {
    if k == 0 then 1 else 2 * Pow2(k - 1)
  }

  ghost predicate IsPowerOfTwo(n: nat) {
    exists k: nat :: n == Pow2(k)
  }

  /** C's `x & y`. */
  function And(x: nat, y: nat): (r: nat)
    ensures r <= x && r <= y
  {
    if x == 0 || y == 0 then 0
    else (if x % 2 == 1 && y % 2 == 1 then 1 else 0) + 2 * And(x / 2, y / 2)
  }

  /** C's `x | y`. */
  function Or(x: nat, y: nat): nat
    decreases x + y
  {
    if x == 0 && y == 0 then 0
    else (if x % 2 == 1 || y % 2 == 1 then 1 else 0) + 2 * Or(x / 2, y / 2)
  }

  /** Masking with `2^k - 1` is the remainder modulo `2^k`. */
  lemma {:induction false} MaskIsMod(x: nat, k: nat)
    ensures And(x, Pow2(k) - 1) == x % Pow2(k)
  {
    if k == 0 {
      assert x % 1 == 0;
    } else if x != 0 {
      MaskIsMod(x / 2, k - 1);
      var h := Pow2(k - 1);
      assert (2 * h - 1) / 2 == h - 1 && (2 * h - 1) % 2 == 1;
      HalveMod(x, h);
    } else {
      assert 0 % Pow2(k) == 0;
    }
  }

  lemma HalveMod(x: nat, h: nat)
    requires h > 0
    ensures x % (2 * h) == x % 2 + 2 * (x / 2 % h)
  {
    var q, r := x / 2 / h, x / 2 % h;
    assert x / 2 == q * h + r;
    assert x == 2 * (q * h + r) + x % 2;
    assert x == q * (2 * h) + (2 * r + x % 2);
    assert 0 <= 2 * r + x % 2 < 2 * h;
    ModUnique(x, 2 * h, q, 2 * r + x % 2);
  }

  lemma SliceOfSlice(ram: seq<byte>, at: nat, length: nat, from: nat, to: nat)
    requires at + length <= |ram| && from <= to <= length
    ensures ram[at + from..at + to] == ram[at..at + length][from..to]
  {
    var whole := ram[at..at + length];
    forall i | 0 <= i < to - from ensures ram[at + from..at + to][i] == whole[from..to][i] {
      assert whole[from..to][i] == whole[from + i];
    }
  }

  lemma ModUnique(x: int, d: int, q: int, r: int)
    requires d > 0 && 0 <= r < d && x == q * d + r
    ensures x / d == q && x % d == r
  {
    var q', r' := x / d, x % d;
    assert x == q' * d + r';
    var k := q - q';
    assert k * d == q * d - q' * d;
    if k > 0 {
      MulAtLeast(k, d);
    } else if k < 0 {
      MulAtLeast(-k, d);
    }
  }

  lemma MulAtLeast(k: int, d: int)
    requires k >= 1 && d >= 0
    ensures k * d >= d
  {
    assert (k - 1) * d >= 0;
    assert k * d == (k - 1) * d + d;
  }

  lemma DivDiv(x: nat, h: nat)
    requires h > 0
    ensures x / 2 / h == x / (2 * h)
  {
    HalveMod(x, h);
    var q, r := x / 2 / h, x / 2 % h;
    assert x / 2 == q * h + r;
    assert x == q * (2 * h) + (2 * r + x % 2);
    ModUnique(x, 2 * h, q, 2 * r + x % 2);
  }

  /** C's `x << k` before it is cut to a width. */
  function Shl(x: nat, k: nat): nat {
    if k == 0 then x else 2 * Shl(x, k - 1)
  }

  /** C's `x >> k` on an unsigned value. */
  function Shr(x: nat, k: nat): nat {
    if k == 0 then x else Shr(x / 2, k - 1)
  }

  lemma {:induction false} ShiftsAreMulDiv(x: nat, k: nat)
    ensures Shl(x, k) == x * Pow2(k)
    ensures Shr(x, k) == x / Pow2(k)
  {
    if k == 0 {
      assert x / 1 == x && x * 1 == x;
    } else {
      ShiftsAreMulDiv(x, k - 1);
      ShiftsAreMulDiv(x / 2, k - 1);
      DivDiv(x, Pow2(k - 1));
      Reassociate(x, Pow2(k - 1));
    }
  }

  lemma Reassociate(m: nat, h: nat)
    ensures m * (2 * h) == 2 * (m * h)
  {
  }

  /** A mask with `k` low zeros sees only the bits above them. */
  lemma {:induction false} AndShifted(x: nat, m: nat, k: nat)
    ensures And(x, Shl(m, k)) == Shl(And(Shr(x, k), m), k)
  {
    if k > 0 {
      AndShifted(x / 2, m, k - 1);
      AndEven(x, Shl(m, k - 1));
    }
  }

  lemma AndEven(x: nat, y: nat)
    ensures And(x, 2 * y) == 2 * And(x / 2, y)
  {
    if x != 0 && y != 0 {
      assert 2 * y / 2 == y && 2 * y % 2 == 0;
    }
  }

  /** Or-ing a value below `2^k` into `k` low zeros is addition. */
  lemma {:induction false} OrDisjoint(hi: nat, lo: nat, k: nat)
    requires lo < Pow2(k)
    ensures Or(Shl(hi, k), lo) == Shl(hi, k) + lo
  {
    if k == 0 {
      OrZero(hi);
    } else {
      OrDisjoint(hi, lo / 2, k - 1);
      OrEven(Shl(hi, k - 1), lo);
    }
  }

  lemma OrEven(x: nat, y: nat)
    ensures Or(2 * x, y) == y % 2 + 2 * Or(x, y / 2)
  {
  }

  lemma {:induction false} OrZero(x: nat)
    ensures Or(x, 0) == x
  {
    if x != 0 {
      OrZero(x / 2);
    }
  }

  lemma {:induction false} ShlThenShr(x: nat, k: nat)
    ensures Shr(Shl(x, k), k) == x
  {
    if k > 0 {
      ShlThenShr(x, k - 1);
    }
  }

  /** Masking `k` places up and shifting back down is masking after the shift. */
  lemma MaskHighBits(b: nat, m: nat, k: nat)
    ensures Shr(And(b, Shl(m, k)), k) == And(Shr(b, k), m)
  {
    AndShifted(b, m, k);
    ShlThenShr(And(Shr(b, k), m), k);
  }
}
