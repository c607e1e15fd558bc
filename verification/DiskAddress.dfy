/** Sector addresses: three cylinder-head-sector forms on floppies, and three register layouts on ATA disks. */
module DiskAddress {
  import opened Bytes

  datatype Chs = Chs(cylinder: nat, head: nat, sector: nat)

  const HEADS: nat := 2
  const FLOPPY_SECTORS_PER_TRACK: nat := 18

  /** The linear address a drive of `heads` by `spt` gives a triple. */
  function LbaOf(chs: Chs, heads: nat, spt: nat): int {
    (chs.cylinder * heads + chs.head) * spt + chs.sector - 1
  }

  predicate OnTrack(chs: Chs, heads: nat, spt: nat) {
    chs.head < heads && 1 <= chs.sector <= spt
  }

  /** The triple of a linear address, computed without truncation by dividing by the sectors, then the heads. */
  function ChsOf(lba: nat, heads: nat, spt: nat): Chs
    requires heads > 0 && spt > 0
  {
    Chs(lba / spt / heads, lba / spt % heads, lba % spt + 1)
  }

  lemma DivMod(x: nat, d: nat)
    requires d > 0
    ensures x == x / d * d + x % d && 0 <= x % d < d
  {
  }

  /** The triple recomposes to its address, with its head and sector in range, and no other triple does. */
  lemma ChsIsBijective(lba: nat, heads: nat, spt: nat, other: Chs)
    requires heads > 0 && spt > 0
    ensures LbaOf(ChsOf(lba, heads, spt), heads, spt) == lba && OnTrack(ChsOf(lba, heads, spt), heads, spt)
    ensures OnTrack(other, heads, spt) && LbaOf(other, heads, spt) == lba ==> other == ChsOf(lba, heads, spt)
  {
    DivMod(lba, spt);
    DivMod(lba / spt, heads);
    if OnTrack(other, heads, spt) && LbaOf(other, heads, spt) == lba {
      ModUnique(lba, spt, other.cylinder * heads + other.head, other.sector - 1);
      ModUnique(lba / spt, heads, other.cylinder, other.head);
    }
  }

  // ---------------------------------------------------------------------------
  // Floppies
  // ---------------------------------------------------------------------------

  /** `lba_2_chs`, before its results are stored: divide by a whole cylinder first. */
  function DivideByCylinder(lba: nat, spt: nat): Chs
    requires spt > 0
  {
    Chs(lba / (2 * spt), lba % (2 * spt) / spt, lba % (2 * spt) % spt + 1)
  }

  /** `readSectorsLBA`, which takes the sector from the address itself. */
  function DivideByTrack(lba: nat, spt: nat): Chs
    requires spt > 0
  {
    Chs(lba / (spt * 2), lba % (spt * 2) / spt, lba % spt + 1)
  }

  lemma TwoSides(c: nat, h: nat, s: nat, spt: nat, lba: nat)
    requires h < 2 && s < spt && lba == (c * 2 + h) * spt + s
    ensures lba / (2 * spt) == c && lba % (2 * spt) == h * spt + s
  {
    assert (c * 2 + h) * spt == c * (2 * spt) + h * spt;
    assert h * spt <= spt;
    ModUnique(lba, 2 * spt, c, h * spt + s);
  }

  lemma CylinderSplit(lba: nat, spt: nat)
    requires spt > 0
    ensures lba / (2 * spt) == lba / spt / 2
    ensures lba % (2 * spt) / spt == lba / spt % 2
    ensures lba % (2 * spt) % spt == lba % spt
  {
    var t, s := lba / spt, lba % spt;
    DivMod(lba, spt);
    DivMod(t, 2);
    var h := t % 2;
    TwoSides(t / 2, h, s, spt, lba);
    ModUnique(h * spt + s, spt, h, s);
  }

  /** All three forms are the same mapping, whatever the sectors per track. */
  lemma FormsAgree(lba: nat, spt: nat)
    requires spt > 0
    ensures DivideByCylinder(lba, spt) == DivideByTrack(lba, spt) == ChsOf(lba, HEADS, spt)
  {
    CylinderSplit(lba, spt);
    assert 2 * spt == spt * 2;
  }

  /** A value stored in a byte register or a C `char`. */
  function Low8(x: nat): (r: uint8) {
    x % 0x100
  }

  lemma LowPlusOne(x: nat)
    ensures (Low8(x) + 1) % 0x100 == Low8(x + 1)
  {
    DivMod(x, 0x100);
  }

  lemma DivisionShrinks(x: nat, d: nat)
    requires d > 0
    ensures x / d <= x
  {
    DivMod(x, d);
    if x / d > 0 {
      MulAtLeast(d, x / d);
    }
  }

  /** The processor's `div` of a 16-bit value. */
  method Div(ax: uint16, divisor: uint16) returns (quotient: uint16, dx: uint16)
    requires divisor > 0
    ensures var x: int, d: int := ax, divisor; quotient == x / d && dx == x % d
  {
    var x: int, d: int := ax, divisor;
    DivisionShrinks(x, d);
    DivMod(x, d);
    quotient, dx := x / d, x % d;
  }

  /** `l2hts`: the sector in CL, then the head in DH and the track in CH after two more divisions. */
  method L2hts(ax: uint16, sectorsPerTrack: uint16) returns (ch: uint8, dh: uint8, cl: uint8)
    requires sectorsPerTrack > 0
    ensures var chs := ChsOf(ax, HEADS, sectorsPerTrack);
      ch == Low8(chs.cylinder) && dh == chs.head && cl == Low8(chs.sector)
  {
    var bx := ax;
    var a, dx := Div(ax, sectorsPerTrack);
    LowPlusOne(dx);
    cl := (Low8(dx) + 1) % 0x100;
    a, dx := Div(bx, sectorsPerTrack);
    a, dx := Div(a, HEADS);
    dh := Low8(dx);
    ch := Low8(a);
  }

  /** `readSectorsLBA`'s three `char`s. */
  method BiosAddress(lba: nat, sectorsPerTrack: uint8) returns (head: uint8, cylinder: uint8, sector: uint8)
    requires sectorsPerTrack > 0
    ensures var chs := ChsOf(lba, HEADS, sectorsPerTrack);
      cylinder == Low8(chs.cylinder) && head == chs.head && sector == Low8(chs.sector)
  {
    FormsAgree(lba, sectorsPerTrack);
    var spt: nat := sectorsPerTrack;
    DivMod(lba / spt, HEADS);
    head := Low8(lba % (spt * 2) / spt);
    cylinder := Low8(lba / (spt * 2));
    sector := Low8(lba % spt + 1);
  }

  /** `lba_2_chs`, whose results are 16 bits wide. */
  method Lba2Chs(lba: uint32) returns (cyl: uint16, head: uint16, sector: uint16)
    ensures var chs := ChsOf(lba, HEADS, FLOPPY_SECTORS_PER_TRACK);
      cyl == chs.cylinder % 0x1_0000 && head == chs.head && sector == chs.sector
  {
    FormsAgree(lba, FLOPPY_SECTORS_PER_TRACK);
    var l: int := lba;
    cyl := l / (2 * FLOPPY_SECTORS_PER_TRACK) % 0x1_0000;
    head := l % (2 * FLOPPY_SECTORS_PER_TRACK) / FLOPPY_SECTORS_PER_TRACK;
    sector := l % (2 * FLOPPY_SECTORS_PER_TRACK) % FLOPPY_SECTORS_PER_TRACK + 1;
  }

  lemma SmallerCylinder(a: nat, b: nat, head: nat, sector: nat, heads: nat, spt: nat)
    requires heads > 0 && spt > 0
    ensures LbaOf(Chs(a, head, sector), heads, spt) == LbaOf(Chs(b, head, sector), heads, spt) <==> a == b
  {
    assert (a * heads + head) * spt - (b * heads + head) * spt == (a - b) * heads * spt;
    if a > b {
      MulAtLeast(a - b, heads);
      MulAtLeast((a - b) * heads, spt);
    } else if a < b {
      assert (b - a) * heads * spt == -((a - b) * heads * spt);
      MulAtLeast(b - a, heads);
      MulAtLeast((b - a) * heads, spt);
    }
  }

  /** A cylinder cut to `range` values still addresses the sector exactly when it was below `range`. */
  lemma CutCylinderExactly(lba: nat, heads: nat, spt: nat, range: nat)
    requires heads > 0 && spt > 0 && range > 0
    ensures var chs := ChsOf(lba, heads, spt);
      LbaOf(chs.(cylinder := chs.cylinder % range), heads, spt) == lba <==> chs.cylinder < range
  {
    var chs := ChsOf(lba, heads, spt);
    ChsIsBijective(lba, heads, spt, chs);
    SmallerCylinder(chs.cylinder % range, chs.cylinder, chs.head, chs.sector, heads, spt);
    DivMod(chs.cylinder, range);
    if chs.cylinder < range {
      ModUnique(chs.cylinder, range, 0, chs.cylinder);
    }
  }

  /** The last sector of a 1.44 MB floppy is the last one of its last track. */
  lemma LastOfFloppy()
    ensures ChsOf(2879, HEADS, FLOPPY_SECTORS_PER_TRACK) == Chs(79, 1, 18)
  {
  }

  /** On a 1.44 MB floppy all three forms address every sector. */
  lemma FloppyIsAddressed(lba: nat)
    requires lba < 2880
    ensures var chs := ChsOf(lba, HEADS, FLOPPY_SECTORS_PER_TRACK);
      chs.cylinder < 80
      && LbaOf(Chs(Low8(chs.cylinder), chs.head, Low8(chs.sector)), HEADS, FLOPPY_SECTORS_PER_TRACK) == lba
  {
  }
}
