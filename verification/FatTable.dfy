/** The file allocation table: packed entries, three decoders, and where a volume keeps its regions. */
module FatTable {
  import opened Bytes

  type Entry12 = x: int | 0 <= x < 0x1000

  // ---------------------------------------------------------------------------
  // 12-bit entries
  // ---------------------------------------------------------------------------

  /** Entry `n` lies wholly inside the table. */
  predicate InTable12(fat: seq<byte>, n: nat) {
    3 * (n / 2) + 2 + n % 2 <= |fat|
  }

  /** An even entry: all of the first byte, the low half of the second. */
  function EvenEntry(lo: int, hi: int): int {
    lo + 0x100 * (hi % 0x10)
  }

  /** An odd entry: the high half of the first byte, all of the second. */
  function OddEntry(lo: int, hi: int): int {
    lo / 0x10 + 0x10 * hi
  }

  /** Entry `n` as the format defines it. */
  function EntryAt(fat: seq<byte>, n: nat): (e: Entry12)
    requires InTable12(fat, n)
  {
    var o := 3 * (n / 2);
    if n % 2 == 0 then EvenEntry(fat[o], fat[o + 1]) else OddEntry(fat[o + 1], fat[o + 2])
  }

  /** The byte-pair decoder shared by the 32-bit driver and the 16-bit kernel. */
  function DecodeBytes(fat: seq<byte>, n: nat): nat
    requires InTable12(fat, n)
  {
    var offset := 3 * (n / 2);
    if n % 2 == 0 then
      var b1, b2 := fat[offset], fat[offset + 1];
      Or(Shl(And(b2, 0x0F), 8), b1)
    else
      var b1, b2 := fat[offset + 1], fat[offset + 2];
      Or(Shl(b2, 4), Shr(And(b1, 0xF0), 4))
  }

  /** The boot loader's decoder: load the word at `3n / 2`, then shift or mask. */
  function DecodeWord(fat: seq<byte>, n: nat): nat
    requires InTable12(fat, n)
  {
    var ax := n * 3 / 2;
    var word := LE16(fat[ax..ax + 2]);
    if n % 2 == 1 then Shr(word, 4) else And(word, 0xFFF)
  }

  /** Two 12-bit entries share three bytes. */
  function Pack12(entries: seq<Entry12>): (fat: seq<byte>)
  {
    if |entries| == 0 then []
    else if |entries| == 1 then [entries[0] % 0x100, entries[0] / 0x100]
    else Triple(entries[0], entries[1]) + Pack12(entries[2..])
  }

  function Triple(a: Entry12, b: Entry12): seq<byte> {
    [a % 0x100, a / 0x100 + 0x10 * (b % 0x10), b / 0x10]
  }

  lemma PowersOfTwo()
    ensures Pow2(4) == 0x10 && Pow2(8) == 0x100 && Pow2(12) == 0x1000
  {
    assert Pow2(2) == 4;
    assert Pow2(6) == 64;
    assert Pow2(10) == 0x400;
  }

  lemma EvenBits(lo: byte, hi: byte)
    ensures Or(Shl(And(hi, 0x0F), 8), lo) == EvenEntry(lo, hi)
  {
    PowersOfTwo();
    MaskIsMod(hi, 4);
    ShiftsAreMulDiv(And(hi, 0x0F), 8);
    OrDisjoint(And(hi, 0x0F), lo, 8);
  }

  lemma OddBits(lo: byte, hi: byte)
    ensures Or(Shl(hi, 4), Shr(And(lo, 0xF0), 4)) == OddEntry(lo, hi)
  {
    PowersOfTwo();
    HighNibble(lo);
    ShiftsAreMulDiv(hi, 4);
    OrDisjoint(hi, lo / 0x10, 4);
  }

  lemma HighNibble(b: byte)
    ensures Shr(And(b, 0xF0), 4) == b / 0x10
  {
    PowersOfTwo();
    MaskHighBits(b, 0x0F, 4);
    ShiftsAreMulDiv(0x0F, 4);
    ShiftsAreMulDiv(b, 4);
    MaskIsMod(b / 0x10, 4);
  }

  lemma LowTwelve(lo: byte, hi: byte)
    ensures LE16([lo, hi]) % 0x1000 == EvenEntry(lo, hi)
  {
    var l: int, h: int := lo, hi;
    var q, r := h / 0x10, h % 0x10;
    assert h == 0x10 * q + r;
    assert l + 0x100 * h == 0x1000 * q + (l + 0x100 * r);
  }

  lemma HighTwelve(lo: byte, hi: byte)
    ensures LE16([lo, hi]) / 0x10 == OddEntry(lo, hi)
  {
    var l: int, h: int := lo, hi;
    assert l == 0x10 * (l / 0x10) + l % 0x10;
  }

  /** The byte-pair decoders return the entry. */
  lemma BytesDecode(fat: seq<byte>, n: nat)
    requires InTable12(fat, n)
    ensures DecodeBytes(fat, n) == EntryAt(fat, n)
  {
    var o := 3 * (n / 2);
    if n % 2 == 0 {
      EvenBits(fat[o], fat[o + 1]);
    } else {
      OddBits(fat[o + 1], fat[o + 2]);
    }
  }

  lemma WordMask(word: uint16)
    ensures And(word, 0xFFF) == word % 0x1000 && Shr(word, 4) == word / 0x10
  {
    PowersOfTwo();
    MaskIsMod(word, 12);
    ShiftsAreMulDiv(word, 4);
  }

  lemma WordOffset(n: nat)
    ensures n * 3 / 2 == 3 * (n / 2) + n % 2
  {
    var m := n / 2;
    assert n == 2 * m + n % 2;
  }

  lemma WordDecodes(fat: seq<byte>, n: nat)
    requires InTable12(fat, n)
    ensures DecodeWord(fat, n) == EntryAt(fat, n)
  {
    var ax := n * 3 / 2;
    WordOffset(n);
    var lo, hi := fat[ax], fat[ax + 1];
    assert fat[ax..ax + 2] == [lo, hi];
    WordMask(LE16([lo, hi]));
    LowTwelve(lo, hi);
    HighTwelve(lo, hi);
  }

  /** All three decoders agree on every table and every cluster. */
  lemma DecodersAgree(fat: seq<byte>, n: nat)
    requires InTable12(fat, n)
    ensures DecodeBytes(fat, n) == DecodeWord(fat, n) == EntryAt(fat, n)
  {
    BytesDecode(fat, n);
    WordDecodes(fat, n);
  }

  lemma {:induction false} PackLength(entries: seq<Entry12>)
    ensures 2 * |Pack12(entries)| == 3 * |entries| + |entries| % 2
    decreases |entries|
  {
    if |entries| >= 2 {
      PackLength(entries[2..]);
    }
  }

  /** Packing and then decoding returns every entry. */
  lemma {:induction false} DecodePacked(entries: seq<Entry12>, i: nat)
    requires i < |entries|
    ensures InTable12(Pack12(entries), i) && EntryAt(Pack12(entries), i) == entries[i]
    decreases i
  {
    PackLength(entries);
    if i < 2 {
      if |entries| >= 2 {
        EntriesOfTriple(entries[0], entries[1], Pack12(entries[2..]));
      }
    } else {
      DecodePacked(entries[2..], i - 2);
      EntryAfterTriple(Triple(entries[0], entries[1]), Pack12(entries[2..]), i - 2);
    }
  }

  lemma EntriesOfTriple(a: Entry12, b: Entry12, rest: seq<byte>)
    ensures InTable12(Triple(a, b) + rest, 1)
    ensures EntryAt(Triple(a, b) + rest, 0) == a && EntryAt(Triple(a, b) + rest, 1) == b
  {
    var fat := Triple(a, b) + rest;
    var hi := a / 0x100 + 0x10 * (b % 0x10);
    assert fat[0] == a % 0x100 && fat[1] == hi && fat[2] == b / 0x10;
    assert hi % 0x10 == a / 0x100 && hi / 0x10 == b % 0x10;
  }

  lemma EntryAfterTriple(triple: seq<byte>, rest: seq<byte>, i: nat)
    requires |triple| == 3 && InTable12(rest, i)
    ensures InTable12(triple + rest, i + 2) && EntryAt(triple + rest, i + 2) == EntryAt(rest, i)
  {
    assert (i + 2) / 2 == i / 2 + 1 && (i + 2) % 2 == i % 2;
  }

  /** All entries of a table of whole triples. */
  function Entries(fat: seq<byte>): (entries: seq<Entry12>)
    requires |fat| % 3 == 0
    ensures |entries| == 2 * (|fat| / 3)
    decreases |fat|
  {
    if fat == [] then [] else [EntryAt(fat, 0), EntryAt(fat, 1)] + Entries(fat[3..])
  }

  lemma {:induction false} EntriesAreDecoded(fat: seq<byte>, i: nat)
    requires |fat| % 3 == 0 && i < |Entries(fat)|
    ensures InTable12(fat, i) && Entries(fat)[i] == EntryAt(fat, i)
    decreases i
  {
    if i >= 2 {
      EntriesAreDecoded(fat[3..], i - 2);
      EntryAfterTriple(fat[..3], fat[3..], i - 2);
      assert fat == fat[..3] + fat[3..];
    }
  }

  /** Decoding every entry of a table and packing them again returns the table. */
  lemma {:induction false} PackDecoded(fat: seq<byte>)
    requires |fat| % 3 == 0
    ensures Pack12(Entries(fat)) == fat
    decreases |fat|
  {
    if fat != [] {
      var es := Entries(fat);
      TripleOfEntries(fat[0], fat[1], fat[2]);
      PackDecoded(fat[3..]);
      assert es[2..] == Entries(fat[3..]);
      assert fat == [fat[0], fat[1], fat[2]] + fat[3..];
    }
  }

  lemma TripleOfEntries(x: byte, y: byte, z: byte)
    ensures var a, b := EvenEntry(x, y), OddEntry(y, z);
      a < 0x1000 && b < 0x1000 && Triple(a, b) == [x, y, z]
  {
    var y': int := y;
    assert y' == 0x10 * (y' / 0x10) + y' % 0x10;
  }

  // ---------------------------------------------------------------------------
  // 16-bit and 32-bit entries
  // ---------------------------------------------------------------------------

  /** The base-256 digits of `x`, the lowest first. */
  function LowFirst(x: nat, width: nat): (b: seq<byte>)
    ensures |b| == width
  {
    if width == 0 then [] else [x % 0x100] + LowFirst(x / 0x100, width - 1)
  }

  /** Wide entries one after the other. */
  function PackWide(entries: seq<nat>, width: nat): seq<byte> {
    if entries == [] then [] else LowFirst(entries[0], width) + PackWide(entries[1..], width)
  }

  lemma {:induction false} WideEntryAt(entries: seq<nat>, width: nat, i: nat)
    requires i < |entries|
    ensures |PackWide(entries, width)| == width * |entries| && width * i + width <= width * |entries|
    ensures PackWide(entries, width)[width * i..width * i + width] == LowFirst(entries[i], width)
    decreases |entries|
  {
    var first, rest := LowFirst(entries[0], width), PackWide(entries[1..], width);
    WideLength(entries[1..], width);
    assert width * |entries| == width + width * (|entries| - 1);
    if i == 0 {
      assert width * 0 == 0 && (first + rest)[..width] == first;
    } else {
      WideEntryAt(entries[1..], width, i - 1);
      var at := width * (i - 1);
      assert width * i == width + at;
      assert (first + rest)[width + at..width + at + width] == rest[at..at + width];
    }
  }

  lemma {:induction false} WideLength(entries: seq<nat>, width: nat)
    ensures |PackWide(entries, width)| == width * |entries|
    decreases |entries|
  {
    if entries != [] {
      WideLength(entries[1..], width);
      assert width * |entries| == width + width * (|entries| - 1);
    } else {
      assert width * 0 == 0;
    }
  }

  lemma LoadsLowFirst(x: nat)
    ensures x < 0x1_0000 ==> LE16(LowFirst(x, 2)) == x
    ensures x < WORD_SPAN ==> LE32(LowFirst(x, 4)) == x
  {
    var q1, q2, q3 := x / 0x100, x / 0x100 / 0x100, x / 0x100 / 0x100 / 0x100;
    assert LowFirst(q3, 1) == [q3 % 0x100];
    assert LowFirst(q2, 2) == [q2 % 0x100, q3 % 0x100];
    assert LowFirst(x, 4) == [x % 0x100, q1 % 0x100, q2 % 0x100, q3 % 0x100];
    assert LowFirst(q1, 1) == [q1 % 0x100];
    assert LowFirst(x, 2) == [x % 0x100, q1 % 0x100];
    assert x == x % 0x100 + 0x100 * q1;
    assert q1 == q1 % 0x100 + 0x100 * q2;
    assert q2 == q2 % 0x100 + 0x100 * q3;
  }
}
