/** Numbers as text: the kernel's printer and parser, and the userland printer. */
module Numbers {
  import opened Bytes
  import opened Kernel

  type int32 = x: int | -0x8000_0000 <= x < 0x8000_0000

  const SCRATCH: nat := 32

  // ---------------------------------------------------------------------------
  // Positional notation
  // ---------------------------------------------------------------------------

  function Power(base: nat, k: nat): (p: nat)
    ensures base > 0 ==> p > 0
  {
    if k == 0 then 1 else base * Power(base, k - 1)
  }

  /** What a sequence of digits denotes, most significant first. */
  function ValueOf(digits: seq<nat>, base: nat): nat {
    if digits == [] then 0 else ValueOf(digits[..|digits| - 1], base) * base + digits[|digits| - 1]
  }

  predicate Below(digits: seq<nat>, base: nat) {
    forall k :: 0 <= k < |digits| ==> digits[k] < base
  }

  function Quotient(i: nat, base: nat): (q: nat)
    requires base >= 2
    ensures i > 0 ==> q < i
    ensures q <= i / 2
  {
    if i > 0 then Shrinks(i, base); i / base else 0
  }

  function LowDigit(i: nat, base: nat): (d: nat)
    requires base >= 2
    ensures d < base && i == Quotient(i, base) * base + d
  {
    assert i > 0 ==> i == i / base * base + i % base;
    i % base
  }

  lemma Shrinks(i: nat, base: nat)
    requires base >= 2 && i > 0
    ensures i / base < i && i / base <= i / 2
  {
    var q := i / base;
    assert i == q * base + i % base;
    assert q * base == 2 * q + q * (base - 2);
    assert q * (base - 2) >= 0;
  }

  /** The digits of `i`, most significant first; none for zero. */
  function DigitsOf(i: nat, base: nat): (digits: seq<nat>)
    requires base >= 2
    ensures Below(digits, base)
    ensures digits == [] <==> i == 0
    decreases i
  {
    if i == 0 then [] else DigitsOf(Quotient(i, base), base) + [LowDigit(i, base)]
  }

  lemma {:induction false} DigitsDenote(i: nat, base: nat)
    requires base >= 2
    ensures ValueOf(DigitsOf(i, base), base) == i
    decreases i
  {
    hide Quotient, LowDigit;
    if i > 0 {
      DigitsDenote(Quotient(i, base), base);
      ValueOfLast(DigitsOf(Quotient(i, base), base), LowDigit(i, base), base);
    }
  }

  lemma ValueOfLast(front: seq<nat>, last: nat, base: nat)
    ensures ValueOf(front + [last], base) == ValueOf(front, base) * base + last
  {
    assert (front + [last])[..|front|] == front;
  }

  lemma {:induction false} NoLeadingZero(i: nat, base: nat)
    requires base >= 2 && i > 0
    ensures DigitsOf(i, base)[0] > 0
    decreases i
  {
    hide Quotient, LowDigit;
    if Quotient(i, base) > 0 {
      NoLeadingZero(Quotient(i, base), base);
    }
  }

  lemma DivisionUnique(q: nat, d: nat, base: nat)
    requires base >= 2 && d < base
    ensures Quotient(q * base + d, base) == q && LowDigit(q * base + d, base) == d
    ensures q * base + d == 0 <==> q == 0 && d == 0
  {
    ModUnique(q * base + d, base, q, d);
    PositiveTimes(q, base);
  }

  /** Digits without a leading zero are the only ones for their value. */
  lemma {:induction false} DigitsAreUnique(digits: seq<nat>, base: nat)
    requires base >= 2 && Below(digits, base) && (digits != [] ==> digits[0] > 0)
    ensures DigitsOf(ValueOf(digits, base), base) == digits
    decreases |digits|
  {
    hide Quotient, LowDigit;
    if digits != [] {
      var front, last := digits[..|digits| - 1], digits[|digits| - 1];
      DigitsAreUnique(front, base);
      DivisionUnique(ValueOf(front, base), last, base);
      assert digits == front + [last];
    }
  }

  lemma PositiveTimes(v: nat, base: nat)
    requires base >= 2
    ensures v > 0 ==> v * base > 0
  {
    if v > 0 {
      MulAtLeast(v, base);
    }
  }

  /** The number of digits: at most `k` exactly below `base` to the `k`. */
  lemma {:induction false} DigitCountExactly(i: nat, base: nat, k: nat)
    requires base >= 2
    ensures |DigitsOf(i, base)| <= k <==> i < Power(base, k)
    decreases k
  {
    if k > 0 && i > 0 {
      DigitCountExactly(Quotient(i, base), base, k - 1);
      BelowTimes(Quotient(i, base), LowDigit(i, base), base, Power(base, k - 1));
      hide Quotient, LowDigit;
    }
  }

  lemma BelowTimes(q: nat, d: nat, base: nat, p: nat)
    requires d < base
    ensures q < p <==> q * base + d < base * p
  {
    if q < p {
      assert base * p == q * base + (p - q) * base;
      MulAtLeast(p - q, base);
    } else {
      assert q * base == base * p + (q - p) * base;
      assert (q - p) * base >= 0;
    }
  }

  lemma ProductsGrow(base: nat, p: nat, h: nat)
    requires base >= 2 && p >= h
    ensures base * p >= 2 * h
  {
    assert base * p == 2 * p + (base - 2) * p;
    assert (base - 2) * p >= 0;
  }

  lemma {:induction false} PowerGrows(base: nat, k: nat)
    requires base >= 2
    ensures Power(base, k) >= Pow2(k)
  {
    if k > 0 {
      PowerGrows(base, k - 1);
      ProductsGrow(base, Power(base, k - 1), Pow2(k - 1));
    }
  }

  lemma WordSpan()
    ensures Pow2(32) == WORD_SPAN
  {
    assert Pow2(8) == 0x100;
    assert Pow2(16) == 0x1_0000;
    assert Pow2(24) == 0x100_0000;
  }

  /** The scratch buffer is never too small. */
  lemma FitsScratch(i: uint32, base: nat)
    requires base >= 2
    ensures |DigitsOf(i, base)| <= SCRATCH
  {
    WordSpan();
    PowerGrows(base, 32);
    DigitCountExactly(i, base, 32);
  }

  // ---------------------------------------------------------------------------
  // `int_to_string`
  // ---------------------------------------------------------------------------

  /** What a character is worth as a digit. */
  function CharValue(c: byte): Option<nat> {
    if '0' as int <= c <= '9' as int then Some(c - '0' as int)
    else if 'A' as int <= c <= 'F' as int then Some(10 + c - 'A' as int)
    else None
  }

  /** Every character is a digit in `base`. */
  predicate IsNumeral(text: seq<byte>, base: nat) {
    text != [] && forall k :: 0 <= k < |text| ==> CharValue(text[k]).Some? && CharValue(text[k]).value < base
  }

  /** The number a numeral stands for. */
  function Read(text: seq<byte>, base: nat): nat
    requires IsNumeral(text, base)
  {
    ValueOf(seq(|text|, k requires 0 <= k < |text| => CharValue(text[k]).value), base)
  }

  /** `bchars`. */
  function DigitChar(d: nat): (c: byte)
    requires d < 16
  {
    if d < 10 then ZERO + d else 55 + d
  }

  function Chars(digits: seq<nat>): (text: seq<byte>)
    requires Below(digits, 16)
    ensures |text| == |digits|
    ensures forall k :: 0 <= k < |digits| ==> text[k] == DigitChar(digits[k])
  {
    seq(|digits|, k requires 0 <= k < |digits| => DigitChar(digits[k]))
  }

  /** The text of a number; an unsupported base prints 0. */
  function Text(i: uint32, base: uint8): (text: seq<byte>)
    requires base >= 2
  {
    if i == 0 || base > 16 then [ZERO] else Chars(DigitsOf(i, base))
  }

  /** Read as a numeral in its base, the text of a number is that number. */
  lemma TextReadsBack(number: uint32, base: uint8)
    requires 2 <= base <= 16
    ensures IsNumeral(Text(number, base), base) && Read(Text(number, base), base) == number
  {
    var text := Text(number, base);
    if number == 0 {
      assert seq(|text|, k requires 0 <= k < |text| => CharValue(text[k]).value) == [] + [0];
      ValueOfLast([], 0, base);
    } else {
      DigitsDenote(number, base);
      assert seq(|text|, k requires 0 <= k < |text| => CharValue(text[k]).value) == DigitsOf(number, base);
    }
  }

  function Reversed(s: seq<byte>): (r: seq<byte>)
    ensures |r| == |s|
  {
    seq(|s|, k requires 0 <= k < |s| => s[|s| - 1 - k])
  }

  lemma ReversedOnto(done: seq<byte>, c: byte)
    ensures Reversed(done + [c]) == [c] + Reversed(done)
  {
  }

  lemma CharsOnto(digits: seq<nat>, d: nat)
    requires Below(digits, 16) && d < 16
    ensures Chars(digits + [d]) == Chars(digits) + [DigitChar(d)]
  {
  }

  lemma NextDigit(i: uint32, base: uint8, done: seq<byte>)
    requires 2 <= base <= 16 && i > 0
    ensures Chars(DigitsOf(Quotient(i, base), base)) + Reversed(done + [DigitChar(LowDigit(i, base))])
         == Chars(DigitsOf(i, base)) + Reversed(done)
    ensures |DigitsOf(i, base)| == |DigitsOf(Quotient(i, base), base)| + 1
  {
    ReversedOnto(done, DigitChar(LowDigit(i, base)));
    CharsOnto(DigitsOf(Quotient(i, base), base), LowDigit(i, base));
    assert DigitsOf(i, base) == DigitsOf(Quotient(i, base), base) + [LowDigit(i, base)];
    hide Chars, Reversed, DigitsOf, Quotient, LowDigit;
  }

  /** The first loop of `int_to_string`: digits into the scratch buffer, least significant first. */
  method FillScratch(number: uint32, base: uint8, tbuf: array<byte>) returns (pos: nat)
    requires 2 <= base <= 16 && tbuf.Length == SCRATCH
    modifies tbuf
    ensures pos <= SCRATCH && Reversed(tbuf[..pos]) == Chars(DigitsOf(number, base))
  {
    FitsScratch(number, base);
    var i: uint32 := number;
    pos := 0;
    hide Chars, Reversed, DigitsOf, Quotient, LowDigit;
    while i != 0
      invariant pos + |DigitsOf(i, base)| == |DigitsOf(number, base)|
      invariant Chars(DigitsOf(i, base)) + Reversed(tbuf[..pos]) == Chars(DigitsOf(number, base))
    {
      ghost var done := tbuf[..pos];
      NextDigit(i, base, done);
      tbuf[pos] := DigitChar(LowDigit(i, base));
      assert tbuf[..pos + 1] == done + [DigitChar(LowDigit(i, base))];
      pos := pos + 1;
      i := Quotient(i, base);
    }
  }

  /** `int_to_string`. */
  method IntToString(number: uint32, base: uint8, buffer: array<byte>) returns (length: nat)
    requires base >= 2 && |Text(number, base)| < buffer.Length
    modifies buffer
    ensures length == |Text(number, base)| < buffer.Length
    ensures buffer[..length] == Text(number, base) && buffer[length] == 0
  {
    if number == 0 || base > 16 {
      buffer[0], buffer[1] := ZERO, 0;
      return 1;
    }
    var tbuf := new byte[SCRATCH];
    var pos := FillScratch(number, base, tbuf);
    length := CopyBack(tbuf, pos, buffer);
    buffer[length] := 0;
  }

  /** Its second loop. */
  method CopyBack(tbuf: array<byte>, top: nat, buffer: array<byte>) returns (opos: nat)
    requires top <= tbuf.Length && top <= buffer.Length && tbuf != buffer
    modifies buffer
    ensures opos == top && buffer[..opos] == Reversed(tbuf[..top])
  {
    ghost var back := Reversed(tbuf[..top]);
    var pos := top - 1;
    opos := 0;
    while opos < top
      invariant 0 <= opos <= top && pos == top - 1 - opos
      invariant forall k :: 0 <= k < opos ==> buffer[k] == back[k]
    {
      buffer[opos] := tbuf[pos];
      pos, opos := pos - 1, opos + 1;
    }
  }

  // ---------------------------------------------------------------------------
  // The userland printer
  // ---------------------------------------------------------------------------

  /** C's remainder by ten, which keeps the sign. */
  function Remainder10(n: int): (r: int)
    ensures -9 <= r <= 9
  {
    if n >= 0 then n % 10 else -(-n % 10)
  }

  function Quotient10(n: int): int {
    if n >= 0 then n / 10 else -(-n / 10)
  }

  /** They truncate towards zero (C99, section 6.5.5). */
  lemma DivisionTruncates(n: int)
    ensures n == 10 * Quotient10(n) + Remainder10(n)
    ensures (Remainder10(n) > 0 ==> n > 0) && (Remainder10(n) < 0 ==> n < 0)
  {
  }

  /** What `intToString` prints: below zero, one character. */
  function UserText(n: int32): (text: seq<byte>) {
    if n <= 0 then [ZERO + Remainder10(n)] else Chars(DigitsOf(n, 10))
  }

  /** `intToString`, with its reversal. */
  method UserIntToString(number: int32, text: array<byte>) returns (length: nat)
    requires |UserText(number)| < text.Length
    modifies text
    ensures length == |UserText(number)| < text.Length
    ensures text[..length] == UserText(number) && text[length] == 0
  {
    var buffer := new byte[16];
    var index := FillUserBuffer(number, buffer);
    length := CopyBack(buffer, index, text);
    text[length] := 0;
  }

  lemma TenDigits(i: uint32)
    ensures |DigitsOf(i, 10)| <= 10
    ensures i >= 0x8000_0000 ==> |DigitsOf(i, 10)| == 10
  {
    assert Power(10, 5) == 100000;
    assert Power(10, 9) == 1000000000;
    DigitCountExactly(i, 10, 10);
    DigitCountExactly(i, 10, 9);
  }

  lemma UserStep(n: int32)
    requires n > 0
    ensures Quotient10(n) == Quotient(n, 10) && Remainder10(n) == LowDigit(n, 10)
    ensures DigitChar(LowDigit(n, 10)) == ZERO + Remainder10(n)
  {
  }

  method FillUserBuffer(number: int32, buffer: array<byte>) returns (index: nat)
    requires buffer.Length == 16
    modifies buffer
    ensures index <= 16 && Reversed(buffer[..index]) == UserText(number)
  {
    buffer[0] := ZERO + Remainder10(number);
    index := 1;
    if number <= 0 {
      assert buffer[..1] == [ZERO + Remainder10(number)];
      return;
    }
    TenDigits(number);
    UserStep(number);
    NextDigit(number, 10, []);
    assert buffer[..1] == [] + [DigitChar(LowDigit(number, 10))];
    var rest: int := Quotient10(number);
    assert Chars(DigitsOf(rest, 10)) + Reversed(buffer[..1]) == UserText(number);
    hide Chars, Reversed, DigitsOf, Quotient, LowDigit, Quotient10;
    while rest > 0
      invariant 0 <= rest <= number && 1 <= index && index + |DigitsOf(rest, 10)| <= 10
      invariant Chars(DigitsOf(rest, 10)) + Reversed(buffer[..index]) == UserText(number)
      decreases rest
    {
      ghost var done := buffer[..index];
      NextDigit(rest, 10, done);
      UserStep(rest);
      buffer[index] := ZERO + Remainder10(rest);
      assert buffer[..index + 1] == done + [DigitChar(LowDigit(rest, 10))];
      index := index + 1;
      rest := Quotient10(rest);
    }
  }

  /** Read as a decimal, the userland text is the number exactly if that is not negative. Below zero it is the one
      character that comes before the zero by the last digit. */
  lemma UserTextReadsBackExactly(n: int32)
    ensures IsNumeral(UserText(n), 10) && Read(UserText(n), 10) == n <==> n >= 0
    ensures var m: int := n; m < 0 ==> UserText(n) == ['0' as int - (-m) % 10]
  {
    if n >= 0 {
      TextReadsBack(n, 10);
      assert UserText(n) == Text(n, 10);
    } else if IsNumeral(UserText(n), 10) {
      assert Read(UserText(n), 10) >= 0;
    }
  }

  /** The userland printer and the kernel's decimal printer agree exactly on the numbers that are not negative. */
  lemma PrintersAgreeExactly(n: int32)
    ensures UserText(n) == Text(n % WORD_SPAN, 10) <==> n >= 0
  {
    if n < 0 {
      TenDigits(n % WORD_SPAN);
    }
  }

  // ---------------------------------------------------------------------------
  // `string_to_int`
  // ---------------------------------------------------------------------------

  /** A 32-bit two's complement value. */
  function Signed32(x: int): int32 {
    (x + 0x8000_0000) % WORD_SPAN - 0x8000_0000
  }

  lemma SignedShift(x: int, k: int)
    ensures Signed32(x + k * WORD_SPAN) == Signed32(x)
    ensures -0x8000_0000 <= x < 0x8000_0000 ==> Signed32(x) == x
  {
    var y := x + 0x8000_0000;
    var q, r := y / WORD_SPAN, y % WORD_SPAN;
    assert y == q * WORD_SPAN + r;
    assert y + k * WORD_SPAN == (q + k) * WORD_SPAN + r;
    ModUnique(y + k * WORD_SPAN, WORD_SPAN, q + k, r);
  }

  /** Two values with the same low 32 bits. */
  ghost predicate Same32(a: int, b: int) {
    exists k: int :: a == b + k * WORD_SPAN
  }

  lemma SignedIsSame(x: int)
    ensures Same32(Signed32(x), x)
  {
    var y := x + 0x8000_0000;
    assert y == y / WORD_SPAN * WORD_SPAN + y % WORD_SPAN;
    assert Signed32(x) == x + (-(y / WORD_SPAN)) * WORD_SPAN;
  }

  lemma SameAddMul(a: int, b: int, c: int, d: int, m: int)
    requires Same32(a, b) && Same32(c, d)
    ensures Same32(a + m * c, b + m * d)
  {
    var k: int :| a == b + k * WORD_SPAN;
    var l: int :| c == d + l * WORD_SPAN;
    assert m * c == m * d + (m * l) * WORD_SPAN;
    assert a + m * c == b + m * d + (k + m * l) * WORD_SPAN;
  }

  lemma SameTrans(a: int, b: int, c: int)
    requires Same32(a, b) && Same32(b, c)
    ensures Same32(a, c)
  {
    var k: int :| a == b + k * WORD_SPAN;
    var l: int :| b == c + l * WORD_SPAN;
    assert a == c + (k + l) * WORD_SPAN;
  }

  lemma SameSigned(a: int, b: int)
    requires Same32(a, b)
    ensures Signed32(a) == Signed32(b)
  {
    var k: int :| a == b + k * WORD_SPAN;
    SignedShift(b, k);
  }

  /** `chr - '0'` in a `uint8_t`. */
  function DigitValue(c: byte): (d: nat)
    ensures d < 0x100
    ensures d == if c >= '0' as int then c - '0' as int else 0x100 - ('0' as int - c)
  {
    (c - ZERO) % 0x100
  }

  function DigitValues(text: seq<byte>): (ds: seq<nat>)
    ensures |ds| == |text| && forall k :: 0 <= k < |text| ==> ds[k] == DigitValue(text[k])
  {
    seq(|text|, k requires 0 <= k < |text| => DigitValue(text[k]))
  }

  lemma {:induction false} ValueOfFirst(d: nat, rest: seq<nat>, base: nat)
    ensures ValueOf([d] + rest, base) == d * Power(base, |rest|) + ValueOf(rest, base)
    decreases |rest|
  {
    if rest == [] {
      assert [d] + rest == [] + [d];
      ValueOfLast([], d, base);
    } else {
      var front, last := rest[..|rest| - 1], rest[|rest| - 1];
      ValueOfFirst(d, front, base);
      assert [d] + rest == ([d] + front) + [last] && rest == front + [last];
      ValueOfLast([d] + front, last, base);
      ValueOfLast(front, last, base);
      Distribute(d, Power(base, |front|), ValueOf(front, base), base);
    }
  }

  lemma Distribute(d: nat, p: nat, v: nat, base: nat)
    ensures (d * p + v) * base == d * (base * p) + v * base
  {
  }

  /** `string_to_int`: from the last character back, in 32-bit arithmetic that wraps. */
  method StringToInt(text: seq<byte>) returns (value: int32)
    ensures value == Signed32(ValueOf(DigitValues(text), 10))
  {
    value := 0;
    var multiplier: int32, i := 1, 0;
    assert Same32(0, 0) && Same32(1, 1) by { assert 0 == 0 + 0 * WORD_SPAN && 1 == 1 + 0 * WORD_SPAN; }
    assert DigitValues(text)[|text|..] == [];
    while i < |text|
      invariant 0 <= i <= |text|
      invariant Same32(value, ValueOf(DigitValues(text)[|text| - i..], 10))
      invariant Same32(multiplier, Power(10, i))
      invariant -0x8000_0000 <= value < 0x8000_0000
    {
      var chr := text[|text| - (i + 1)];
      var digitVal := DigitValue(chr);
      AccumulateDigit(DigitValues(text), |text| - (i + 1), value, multiplier);
      value := Signed32(value + digitVal * multiplier);
      multiplier := Signed32(multiplier * 10);
      i := i + 1;
    }
    assert DigitValues(text)[0..] == DigitValues(text);
    SameSigned(value, ValueOf(DigitValues(text), 10));
    SignedShift(value, 0);
  }

  lemma AccumulateDigit(ds: seq<nat>, at: nat, value: int32, multiplier: int32)
    requires at < |ds|
    requires Same32(value, ValueOf(ds[at + 1..], 10)) && Same32(multiplier, Power(10, |ds| - at - 1))
    ensures Same32(Signed32(value + ds[at] * multiplier), ValueOf(ds[at..], 10))
    ensures Same32(Signed32(multiplier * 10), Power(10, |ds| - at))
  {
    var p := Power(10, |ds| - at - 1);
    assert ds[at..] == [ds[at]] + ds[at + 1..];
    ValueOfFirst(ds[at], ds[at + 1..], 10);
    SameAddMul(value, ValueOf(ds[at + 1..], 10), multiplier, p, ds[at]);
    SignedIsSame(value + ds[at] * multiplier);
    SameTrans(Signed32(value + ds[at] * multiplier), value + ds[at] * multiplier, ValueOf(ds[at..], 10));
    assert Same32(0, 0) by { assert 0 == 0 + 0 * WORD_SPAN; }
    SameAddMul(0, 0, multiplier, p, 10);
    SignedIsSame(multiplier * 10);
    SameTrans(Signed32(multiplier * 10), multiplier * 10, Power(10, |ds| - at));
  }
}
