/** The kernel's `vsprintf`: zero-padded numbers, strings and percent signs. */
module Format {
  import opened Bytes
  import opened Kernel
  import opened Numbers

  /** Digits that fit the buffers for a width or a precision. */
  const FIELD_DIGITS: nat := 7

  // ---------------------------------------------------------------------------
  // Zero padding
  // ---------------------------------------------------------------------------

  function ZeroChars(n: nat): (text: seq<byte>)
    ensures |text| == n
  {
    seq(n, _ => ZERO)
  }

  function Padded(width: nat, text: seq<byte>): (r: seq<byte>)
    ensures |r| == if width > |text| then width else |text|
  {
    if width > |text| then ZeroChars(width - |text|) + text else text
  }

  lemma {:induction false} LeadingZeros(n: nat, ds: seq<nat>, base: nat)
    ensures ValueOf(seq(n, _ => 0) + ds, base) == ValueOf(ds, base)
    decreases n
  {
    var zeros := seq(n, _ => 0);
    if n == 0 {
      assert zeros + ds == ds;
    } else {
      var fewer := seq(n - 1, _ => 0);
      assert zeros + ds == [0] + (fewer + ds);
      ValueOfFirst(0, fewer + ds, base);
      LeadingZeros(n - 1, ds, base);
    }
  }

  /** A zero-padded number still reads as that number, in every base. */
  lemma PaddedReadsBack(number: uint32, width: nat, base: uint8)
    requires 2 <= base <= 16
    ensures IsNumeral(Padded(width, Text(number, base)), base)
    ensures Read(Padded(width, Text(number, base)), base) == number
  {
    hide Text, ValueOf;
    var text := Text(number, base);
    TextReadsBack(number, base);
    if width > |text| {
      var zeros, padded := width - |text|, Padded(width, text);
      forall k | 0 <= k < |padded| ensures CharValue(padded[k]).Some? && CharValue(padded[k]).value < base {
        if k >= zeros {
          assert padded[k] == text[k - zeros];
        }
      }
      var digits := seq(|text|, k requires 0 <= k < |text| => CharValue(text[k]).value);
      assert seq(|padded|, k requires 0 <= k < |padded| => CharValue(padded[k]).value) == seq(zeros, _ => 0) + digits;
      LeadingZeros(zeros, digits, base);
    }
  }

  lemma DecimalDigitsBack(digits: seq<nat>)
    requires Below(digits, 10)
    ensures Below(digits, 16) && DigitValues(Chars(digits)) == digits
  {
  }

  /** The parser reads a zero-padded decimal as the number it was printed from, in two's complement. */
  lemma PaddedNumberParses(n: uint32, width: nat)
    ensures ValueOf(DigitValues(Padded(width, Text(n, 10))), 10) == n
    ensures n < 0x8000_0000 ==> Signed32(ValueOf(DigitValues(Padded(width, Text(n, 10))), 10)) == n
  {
    var text := Text(n, 10);
    if n == 0 {
      assert DigitValues(text) == [] + [0];
      ValueOfLast([], 0, 10);
    } else {
      DigitsDenote(n, 10);
      DecimalDigitsBack(DigitsOf(n, 10));
    }
    if width > |text| {
      LeadingZeros(width - |text|, DigitValues(text), 10);
      assert DigitValues(Padded(width, text)) == seq(width - |text|, _ => 0) + DigitValues(text);
    }
    SignedShift(n, 0);
  }

  // ---------------------------------------------------------------------------
  // `vsprintf`
  // ---------------------------------------------------------------------------

  predicate IsDigit(c: byte) {
    ZERO <= c < ZERO + 10
  }

  /** Where a run of digits ends. */
  function DigitsEnd(fmt: seq<byte>, from: nat): (end: nat)
    requires from <= |fmt|
    ensures from <= end <= |fmt|
    ensures forall k :: from <= k < end ==> IsDigit(fmt[k])
    ensures end < |fmt| ==> !IsDigit(fmt[end])
    decreases |fmt| - from
  {
    if from == |fmt| || !IsDigit(fmt[from]) then from else DigitsEnd(fmt, from + 1)
  }

  /** A width or a precision is kept in a `uint8_t`. */
  function FieldValue(digits: seq<byte>): (w: uint8) {
    Signed32(ValueOf(DigitValues(digits), 10)) % 0x100
  }

  /** A width or a precision is the number its digits stand for, cut to a byte. */
  lemma FieldIsRead(digits: seq<byte>)
    requires digits != [] && |digits| <= FIELD_DIGITS
    ensures IsNumeral(digits, 10) <==> forall c :: c in digits ==> IsDigit(c)
    ensures IsNumeral(digits, 10) ==> FieldValue(digits) == Read(digits, 10) % 0x100
  {
    if forall c :: c in digits ==> IsDigit(c) {
      forall k | 0 <= k < |digits| ensures CharValue(digits[k]) == Some(DigitValue(digits[k])) {
        assert digits[k] in digits;
      }
      assert seq(|digits|, k requires 0 <= k < |digits| => CharValue(digits[k]).value) == DigitValues(digits);
      ShortIsSmall(DigitValues(digits));
    }
  }

  lemma ShortIsSmall(digits: seq<nat>)
    requires |digits| <= FIELD_DIGITS && Below(digits, 10)
    ensures Signed32(ValueOf(digits, 10)) == ValueOf(digits, 10)
  {
    ValueBelow(digits, 10);
    PowersGrow(10, |digits|, FIELD_DIGITS);
    assert Power(10, 4) == 10000;
    assert Power(10, FIELD_DIGITS) == 10000000;
  }

  lemma {:induction false} ValueBelow(digits: seq<nat>, base: nat)
    requires Below(digits, base)
    ensures ValueOf(digits, base) < Power(base, |digits|)
  {
    if digits != [] {
      var front, last := digits[..|digits| - 1], digits[|digits| - 1];
      ValueBelow(front, base);
      BelowTimes(ValueOf(front, base), last, base, Power(base, |front|));
    }
  }

  lemma {:induction false} PowersGrow(base: nat, k: nat, n: nat)
    requires base > 0 && k <= n
    ensures Power(base, k) <= Power(base, n)
    decreases n
  {
    if k < n {
      PowersGrow(base, k, n - 1);
      assert base * Power(base, n - 1) == Power(base, n - 1) + (base - 1) * Power(base, n - 1);
    }
  }

  /** Where the precision of a directive ends, if there is one. */
  function PrecisionEnd(fmt: seq<byte>, from: nat): (end: nat)
    requires from <= |fmt|
    ensures from <= end <= |fmt|
  {
    if from < |fmt| && fmt[from] == FULL_STOP then DigitsEnd(fmt, from + 1) else from
  }

  /** The digits between `from` and `end`, behind their full stop. */
  function PrecisionDigits(fmt: seq<byte>, from: nat, end: nat): seq<byte>
    requires from <= end <= |fmt|
  {
    if from == end then [] else fmt[from + 1..end]
  }

  /** A directive: its letter, the digits of its width and precision, and its length. */
  datatype Directive = Directive(letter: byte, width: seq<byte>, precision: seq<byte>, size: nat)

  /** The directive at the start of `fmt`. None when it runs past the format or its digit buffers. */
  function DirectiveAt(fmt: seq<byte>): (d: Option<Directive>)
    requires fmt != []
    ensures d.Some? ==> 1 < d.value.size <= |fmt|
  {
    var w := DigitsEnd(fmt, 1);
    var p := PrecisionEnd(fmt, w);
    if p == |fmt| || w - 1 > FIELD_DIGITS || p - w - 1 > FIELD_DIGITS then None
    else Some(Directive(fmt[p], fmt[1..w], PrecisionDigits(fmt, w, p), p + 1))
  }

  /** The bytes in front of a terminating NUL. */
  type CString = s: seq<byte> | 0 !in s

  /** What the caller passes: numbers, and pointers to strings. */
  datatype Argument = Value(number: uint32) | StringAt(text: CString)

  function ArgumentsUsed(letter: byte): nat {
    if letter == LETTER_D || letter == LETTER_X || letter == LETTER_S then 1 else 0
  }

  /** The next argument is of the kind the directive takes. */
  predicate Suits(letter: byte, args: seq<Argument>) {
    && ArgumentsUsed(letter) <= |args|
    && (letter == LETTER_D || letter == LETTER_X ==> args[0].Value?)
    && (letter == LETTER_S ==> args[0].StringAt?)
  }

  /** The precision is set by each directive that has one, and then stays as it is. */
  function PrecisionAfter(digits: seq<byte>, precision: uint8): uint8 {
    if digits == [] then precision else FieldValue(digits)
  }

  /** What a string becomes: all of it without a precision. With one the buffer moves on by just as many bytes; if the
      string is shorter, it leaves its NUL and whatever the buffer held behind that. */
  function Inserted(text: seq<byte>, precision: uint8, stale: seq<byte>): (r: seq<byte>)
    ensures |r| == if precision == 0 then |text| else precision
  {
    if precision == 0 then text
    else if precision <= |text| then text[..precision]
    else text + [0] + Gap(stale, |text| + 1, precision)
  }

  function Gap(stale: seq<byte>, from: nat, end: nat): (r: seq<byte>)
    requires from <= end
    ensures |r| == end - from
  {
    seq(end - from, i requires 0 <= i => if from + i < |stale| then stale[from + i] else 0)
  }

  /** What a directive prints. An unknown one prints nothing. */
  function Conversion(d: Directive, precision: uint8, args: seq<Argument>, stale: seq<byte>): seq<byte>
    requires Suits(d.letter, args)
  {
    if d.letter == PERCENT then [PERCENT]
    else if d.letter == LETTER_D then Padded(FieldValue(d.width), Text(args[0].number, 10))
    else if d.letter == LETTER_X then Padded(FieldValue(d.width), Text(args[0].number, 16))
    else if d.letter == LETTER_S then Inserted(args[0].text, precision, stale)
    else []
  }

  /** What `vsprintf` prints into a buffer that holds `stale`. None when a directive cannot be read, or lacks its
      argument, or the buffer is too small. */
  function Formatted(fmt: seq<byte>, args: seq<Argument>, precision: uint8, stale: seq<byte>): (r: Option<seq<byte>>)
    ensures r.Some? ==> |r.value| < |stale|
    decreases |fmt|, 0
  {
    if fmt == [] then if stale == [] then None else Some([])
    else if fmt[0] != PERCENT then Onto([fmt[0]], fmt[1..], args, precision, stale)
    else match DirectiveAt(fmt)
      case None => None
      case Some(d) =>
        var now := PrecisionAfter(d.precision, precision);
        if !Suits(d.letter, args) then None else
        Onto(Conversion(d, now, args, stale), fmt[d.size..], args[ArgumentsUsed(d.letter)..], now, stale)
  }

  /** `text`, and then the rest of the format. */
  function Onto(text: seq<byte>, fmt: seq<byte>, args: seq<Argument>, precision: uint8, stale: seq<byte>):
      (r: Option<seq<byte>>)
    ensures r.Some? ==> |r.value| < |stale|
    decreases |fmt|, 1
  {
    if |text| > |stale| then None else
    match Formatted(fmt, args, precision, stale[|text|..])
    case None => None
    case Some(rest) => Some(text + rest)
  }

  // ---------------------------------------------------------------------------
  // Messages
  // ---------------------------------------------------------------------------

  /** The pieces of a format. */
  datatype Piece = Literal(c: byte) | PercentSign | Number(hex: bool, width: seq<byte>) | Words(precision: seq<byte>)

  predicate IsField(digits: seq<byte>) {
    |digits| <= FIELD_DIGITS && forall c :: c in digits ==> IsDigit(c)
  }

  predicate Sound(piece: Piece) {
    match piece
    case Literal(c) => c != PERCENT && c != 0
    case PercentSign => true
    case Number(_, width) => IsField(width)
    case Words(precision) => IsField(precision)
  }

  predicate AllSound(pieces: seq<Piece>) {
    forall piece :: piece in pieces ==> Sound(piece)
  }

  function Letter(piece: Piece): byte {
    match piece
    case Literal(c) => c
    case PercentSign => PERCENT
    case Number(hex, _) => if hex then LETTER_X else LETTER_D
    case Words(_) => LETTER_S
  }

  function Written(piece: Piece): seq<byte> {
    match piece
    case Literal(c) => [c]
    case PercentSign => [PERCENT, PERCENT]
    case Number(_, width) => [PERCENT] + width + [Letter(piece)]
    case Words(precision) => [PERCENT] + (if precision == [] then [] else [FULL_STOP] + precision) + [Letter(piece)]
  }

  function AllWritten(pieces: seq<Piece>): seq<byte>
    decreases |pieces|
  {
    if pieces == [] then [] else Written(pieces[0]) + AllWritten(pieces[1..])
  }

  function Takes(piece: Piece): nat {
    if piece.Number? || piece.Words? then 1 else 0
  }

  /** Every number and string has its argument. */
  predicate Supplied(pieces: seq<Piece>, args: seq<Argument>)
    decreases |pieces|
  {
    pieces == [] ||
    (Takes(pieces[0]) <= |args|
     && (pieces[0].Number? ==> args[0].Value?) && (pieces[0].Words? ==> args[0].StringAt?)
     && Supplied(pieces[1..], args[Takes(pieces[0])..]))
  }

  function Limited(text: seq<byte>, precision: uint8): seq<byte> {
    if precision == 0 || precision >= |text| then text else text[..precision]
  }

  /** What a piece says: a number as wide as asked, a string up to its own precision. */
  function Said(piece: Piece, args: seq<Argument>): seq<byte>
    requires Supplied([piece], args)
  {
    match piece
    case Literal(c) => [c]
    case PercentSign => [PERCENT]
    case Number(hex, width) => Padded(FieldValue(width), Text(args[0].number, if hex then 16 else 10))
    case Words(precision) => Limited(args[0].text, PrecisionAfter(precision, 0))
  }

  function AllSaid(pieces: seq<Piece>, args: seq<Argument>): seq<byte>
    requires Supplied(pieces, args)
    decreases |pieces|
  {
    if pieces == [] then [] else
    assert [pieces[0]][1..] == [];
    Said(pieces[0], args) + AllSaid(pieces[1..], args[Takes(pieces[0])..])
  }

  function PieceDigits(piece: Piece): seq<byte> {
    if piece.Words? then piece.precision else []
  }

  /** What is printed of it: the precision may be that of an earlier string. */
  function Printed(piece: Piece, args: seq<Argument>, now: uint8, stale: seq<byte>): seq<byte>
    requires Supplied([piece], args)
  {
    if piece.Words? then Inserted(args[0].text, now, stale) else Said(piece, args)
  }

  function AllPrinted(pieces: seq<Piece>, args: seq<Argument>, precision: uint8, stale: seq<byte>): seq<byte>
    requires Supplied(pieces, args)
    decreases |pieces|
  {
    if pieces == [] then [] else
    assert [pieces[0]][1..] == [];
    var now := PrecisionAfter(PieceDigits(pieces[0]), precision);
    var text := Printed(pieces[0], args, now, stale);
    text + AllPrinted(pieces[1..], args[Takes(pieces[0])..], now, From(stale, |text|))
  }

  function From(s: seq<byte>, n: nat): seq<byte> {
    if n <= |s| then s[n..] else []
  }

  lemma {:induction false} DigitsEndAfter(fmt: seq<byte>, from: nat, end: nat)
    requires from <= end < |fmt| && !IsDigit(fmt[end]) && forall k :: from <= k < end ==> IsDigit(fmt[k])
    ensures DigitsEnd(fmt, from) == end
    decreases end - from
  {
    if from < end {
      DigitsEndAfter(fmt, from + 1, end);
    }
  }

  lemma FieldDigits(digits: seq<byte>, fmt: seq<byte>, from: nat)
    requires IsField(digits) && from + |digits| < |fmt| && fmt[from..from + |digits|] == digits
    requires !IsDigit(fmt[from + |digits|])
    ensures DigitsEnd(fmt, from) == from + |digits|
  {
    forall k | from <= k < from + |digits| ensures IsDigit(fmt[k]) {
      assert fmt[k] == digits[k - from] && digits[k - from] in digits;
    }
    DigitsEndAfter(fmt, from, from + |digits|);
  }

  function DirectiveOf(piece: Piece): Directive {
    Directive(Letter(piece), if piece.Number? then piece.width else [], PieceDigits(piece), |Written(piece)|)
  }

  lemma PercentReads(fmt: seq<byte>)
    requires |fmt| >= 2 && fmt[1] == PERCENT
    ensures DirectiveAt(fmt) == Some(Directive(PERCENT, [], [], 2))
  {
    assert fmt[1..1] == [] && DigitsEnd(fmt, 1) == 1;
  }

  lemma NumberReads(fmt: seq<byte>, width: seq<byte>, letter: byte)
    requires IsField(width) && |fmt| >= |width| + 2 && fmt[1..1 + |width|] == width
    requires letter == fmt[1 + |width|] && (letter == LETTER_D || letter == LETTER_X)
    ensures DirectiveAt(fmt) == Some(Directive(letter, width, [], |width| + 2))
  {
    hide IsField, DigitsEnd;
    ShortField(width);
    FieldDigits(width, fmt, 1);
  }

  lemma ShortField(digits: seq<byte>)
    requires IsField(digits)
    ensures |digits| <= FIELD_DIGITS
  {
  }

  lemma WordsRead(fmt: seq<byte>, precision: seq<byte>)
    requires IsField(precision) && precision != [] && |fmt| >= |precision| + 3 && fmt[1] == FULL_STOP
    requires fmt[2..2 + |precision|] == precision && fmt[2 + |precision|] == LETTER_S
    ensures DirectiveAt(fmt) == Some(Directive(LETTER_S, [], precision, |precision| + 3))
  {
    hide IsField, DigitsEnd;
    ShortField(precision);
    FieldDigits(precision, fmt, 2);
    assert fmt[1..1] == [];
    NoDigits(fmt);
  }

  lemma NoDigits(fmt: seq<byte>)
    requires |fmt| >= 2 && !IsDigit(fmt[1])
    ensures DigitsEnd(fmt, 1) == 1
  {
  }

  lemma AllWordsRead(fmt: seq<byte>)
    requires |fmt| >= 2 && fmt[1] == LETTER_S
    ensures DirectiveAt(fmt) == Some(Directive(LETTER_S, [], [], 2))
  {
    hide DigitsEnd;
    assert fmt[1..1] == [];
    NoDigits(fmt);
  }

  lemma Between(a: seq<byte>, digits: seq<byte>, b: seq<byte>)
    ensures (a + digits + b)[|a|..|a| + |digits|] == digits && (b != [] ==> (a + digits + b)[|a| + |digits|] == b[0])
  {
  }

  lemma NumberPieceReads(width: seq<byte>, letter: byte, rest: seq<byte>)
    requires IsField(width) && (letter == LETTER_D || letter == LETTER_X)
    ensures DirectiveAt([PERCENT] + width + [letter] + rest) == Some(Directive(letter, width, [], |width| + 2))
  {
    hide DirectiveAt, IsField;
    var fmt := [PERCENT] + width + [letter] + rest;
    Between([PERCENT], width, [letter] + rest);
    assert fmt == [PERCENT] + width + ([letter] + rest);
    NumberReads(fmt, width, letter);
  }

  lemma WordsPieceReads(precision: seq<byte>, rest: seq<byte>)
    requires IsField(precision) && precision != []
    ensures DirectiveAt([PERCENT] + ([FULL_STOP] + precision) + [LETTER_S] + rest)
         == Some(Directive(LETTER_S, [], precision, |precision| + 3))
  {
    hide DirectiveAt, IsField;
    var fmt := [PERCENT] + ([FULL_STOP] + precision) + [LETTER_S] + rest;
    Between([PERCENT, FULL_STOP], precision, [LETTER_S] + rest);
    assert fmt == [PERCENT, FULL_STOP] + precision + ([LETTER_S] + rest);
    WordsRead(fmt, precision);
  }

  lemma PieceReads(piece: Piece, rest: seq<byte>)
    requires !piece.Literal? && Sound(piece)
    ensures Written(piece) != [] && (Written(piece) + rest)[0] == PERCENT
    ensures DirectiveAt(Written(piece) + rest) == Some(DirectiveOf(piece))
  {
    hide DirectiveAt, IsField;
    match piece
    case PercentSign => PercentReads(Written(piece) + rest);
    case Number(_, width) => NumberPieceReads(width, Letter(piece), rest);
    case Words(precision) =>
      if precision == [] {
        AllWordsRead(Written(piece) + rest);
      } else {
        WordsPieceReads(precision, rest);
      }
  }

  lemma PieceConverts(piece: Piece, args: seq<Argument>, now: uint8, stale: seq<byte>)
    requires !piece.Literal? && Supplied([piece], args)
    ensures Suits(Letter(piece), args) && ArgumentsUsed(Letter(piece)) == Takes(piece)
    ensures Conversion(DirectiveOf(piece), now, args, stale) == Printed(piece, args, now, stale)
  {
  }

  lemma FirstSupplied(pieces: seq<Piece>, args: seq<Argument>)
    requires pieces != [] && Supplied(pieces, args)
    ensures Supplied([pieces[0]], args) && Takes(pieces[0]) <= |args|
    ensures Supplied(pieces[1..], args[Takes(pieces[0])..])
  {
    assert [pieces[0]][1..] == [];
  }

  lemma PieceFormats(pieces: seq<Piece>, args: seq<Argument>, precision: uint8, stale: seq<byte>)
    requires pieces != [] && Sound(pieces[0]) && Supplied([pieces[0]], args) && Takes(pieces[0]) <= |args|
    ensures var now := PrecisionAfter(PieceDigits(pieces[0]), precision);
      Formatted(AllWritten(pieces), args, precision, stale) ==
        Onto(Printed(pieces[0], args, now, stale), AllWritten(pieces[1..]), args[Takes(pieces[0])..], now, stale)
  {
    hide Conversion, Printed, Onto, Supplied;
    var piece, rest := pieces[0], AllWritten(pieces[1..]);
    var fmt := Written(piece) + rest;
    assert AllWritten(pieces) == fmt;
    if piece.Literal? {
      assert fmt[1..] == rest && args[0..] == args;
      LiteralPrints(piece, args, precision, stale);
    } else {
      PieceReads(piece, rest);
      assert fmt[|Written(piece)|..] == rest;
      PieceConverts(piece, args, PrecisionAfter(PieceDigits(piece), precision), stale);
    }
  }

  lemma LiteralPrints(piece: Piece, args: seq<Argument>, now: uint8, stale: seq<byte>)
    requires piece.Literal? && Supplied([piece], args)
    ensures Printed(piece, args, now, stale) == [piece.c]
  {
  }

  /** A format prints its pieces in order, as far as the buffer has room for all of them and a NUL. */
  lemma {:induction false} FormatsPrintPieces(pieces: seq<Piece>, args: seq<Argument>, precision: uint8,
                                              stale: seq<byte>)
    requires AllSound(pieces) && Supplied(pieces, args)
    ensures var text := AllPrinted(pieces, args, precision, stale);
      Formatted(AllWritten(pieces), args, precision, stale) == if |text| < |stale| then Some(text) else None
    decreases |pieces|
  {
    hide Printed, Said, Inserted, PrecisionAfter, Written, Sound, Supplied;
    if pieces != [] {
      FirstSupplied(pieces, args);
      assert Sound(pieces[0]) by {
        assert pieces[0] in pieces;
      }
      PieceFormats(pieces, args, precision, stale);
      var now := PrecisionAfter(PieceDigits(pieces[0]), precision);
      var text := Printed(pieces[0], args, now, stale);
      FormatsPrintPieces(pieces[1..], args[Takes(pieces[0])..], now, From(stale, |text|));
    }
  }

  /** Every string is at least as long as the precision in force, and just as long if that is an earlier string's. */
  predicate InPrecision(pieces: seq<Piece>, args: seq<Argument>, precision: uint8)
    requires Supplied(pieces, args)
    decreases |pieces|
  {
    pieces == [] ||
    (FirstSupplied(pieces, args);
     var now := PrecisionAfter(PieceDigits(pieces[0]), precision);
     && (pieces[0].Words? && now > 0 ==>
           if pieces[0].precision == [] then |args[0].text| == now else |args[0].text| >= now)
     && InPrecision(pieces[1..], args[Takes(pieces[0])..], now))
  }

  lemma PadHasNoNul(width: nat, number: uint32, base: nat)
    requires base == 10 || base == 16
    ensures 0 !in Padded(width, Text(number, base))
  {
    TextHasNoNul(number, base);
  }

  lemma TextHasNoNul(number: uint32, base: nat)
    requires base == 10 || base == 16
    ensures 0 !in Text(number, base)
  {
    if number > 0 {
      DigitsDenote(number, base);
      CharsHaveNoNul(DigitsOf(number, base));
    }
  }

  lemma CharsHaveNoNul(digits: seq<nat>)
    requires Below(digits, 16)
    ensures 0 !in Chars(digits)
  {
  }

  lemma SaidHasNoNul(piece: Piece, args: seq<Argument>)
    requires Sound(piece) && Supplied([piece], args)
    ensures 0 !in Said(piece, args)
  {
    if piece.Number? {
      PadHasNoNul(FieldValue(piece.width), args[0].number, if piece.hex then 16 else 10);
    }
  }

  /** A piece comes out longer only with a NUL, and is right exactly if its string is in precision. */
  lemma PieceIsSaidExactly(piece: Piece, args: seq<Argument>, now: uint8, stale: seq<byte>)
    requires Sound(piece) && Supplied([piece], args)
    requires piece.Words? && piece.precision != [] ==> now == FieldValue(piece.precision)
    ensures 0 in Printed(piece, args, now, stale) || |Printed(piece, args, now, stale)| <= |Said(piece, args)|
    ensures 0 in Printed(piece, args, now, stale)
       <==> piece.Words? && now > |args[0].text|
    ensures piece.Words? && 0 < now < |args[0].text| && piece.precision == [] ==>
      |Printed(piece, args, now, stale)| < |Said(piece, args)|
    ensures !(piece.Words? && now > 0 && if piece.precision == [] then |args[0].text| != now else |args[0].text| < now)
      ==> Printed(piece, args, now, stale) == Said(piece, args)
  {
    SaidHasNoNul(piece, args);
    if piece.Words? {
      var text := args[0].text;
      if 0 < now <= |text| {
        assert text[..now] <= text;
        assert now == |text| ==> text[..now] == text;
      } else if now > |text| {
        assert Inserted(text, now, stale)[|text|] == 0;
      }
    }
  }

  lemma {:induction false} AllSaidHasNoNul(pieces: seq<Piece>, args: seq<Argument>)
    requires AllSound(pieces) && Supplied(pieces, args)
    ensures 0 !in AllSaid(pieces, args)
    decreases |pieces|
  {
    hide Said, Sound;
    if pieces != [] {
      assert pieces[0] in pieces;
      FirstSupplied(pieces, args);
      SaidHasNoNul(pieces[0], args);
      AllSaidHasNoNul(pieces[1..], args[Takes(pieces[0])..]);
    }
  }

  /** Without a NUL what is printed is no longer than what is said, and as long only if all strings are in precision. */
  lemma {:induction false} PrintedIsSaidExactly(pieces: seq<Piece>, args: seq<Argument>, precision: uint8,
                                                stale: seq<byte>)
    requires AllSound(pieces) && Supplied(pieces, args)
    ensures InPrecision(pieces, args, precision) ==>
      AllPrinted(pieces, args, precision, stale) == AllSaid(pieces, args)
    ensures 0 in AllPrinted(pieces, args, precision, stale)
            || |AllPrinted(pieces, args, precision, stale)| <= |AllSaid(pieces, args)|
    ensures !InPrecision(pieces, args, precision) ==>
      0 in AllPrinted(pieces, args, precision, stale)
      || |AllPrinted(pieces, args, precision, stale)| < |AllSaid(pieces, args)|
    decreases |pieces|
  {
    hide Said, Printed, PrecisionAfter, Sound, Supplied;
    if pieces != [] {
      FirstSupplied(pieces, args);
      var now := PrecisionAfter(PieceDigits(pieces[0]), precision);
      var text := Printed(pieces[0], args, now, stale);
      PrecisionNow(pieces[0], precision);
      assert Sound(pieces[0]) by {
        assert pieces[0] in pieces;
      }
      PieceIsSaidExactly(pieces[0], args, now, stale);
      PrintedIsSaidExactly(pieces[1..], args[Takes(pieces[0])..], now, From(stale, |text|));
    }
  }

  lemma PrecisionNow(piece: Piece, precision: uint8)
    ensures piece.Words? && piece.precision != [] ==>
      PrecisionAfter(PieceDigits(piece), precision) == FieldValue(piece.precision)
  {
  }

  /** A format made of literals, percent signs, numbers and strings prints what it says, whatever the buffer held,
      exactly when no string is shorter than the precision in force, nor longer than one left by an earlier string. */
  lemma FormatsPrintWhatTheySayExactly(pieces: seq<Piece>, args: seq<Argument>, stale: seq<byte>)
    requires AllSound(pieces) && Supplied(pieces, args)
    requires |AllSaid(pieces, args)| < |stale|
    ensures Formatted(AllWritten(pieces), args, 0, stale) == Some(AllSaid(pieces, args))
       <==> InPrecision(pieces, args, 0)
  {
    FormatsPrintPieces(pieces, args, 0, stale);
    PrintedIsSaidExactly(pieces, args, 0, stale);
    AllSaidHasNoNul(pieces, args);
  }

  /** `%x` prints a number's hexadecimal digits, and `%d` its decimal ones. */
  lemma NumbersReadBack(number: uint32, stale: seq<byte>)
    requires |stale| > 16
    ensures var text := Formatted(['%' as int, 'x' as int], [Value(number)], 0, stale);
      text.Some? && IsNumeral(text.value, 16) && Read(text.value, 16) == number
    ensures var text := Formatted(['%' as int, 'd' as int], [Value(number)], 0, stale);
      text.Some? && IsNumeral(text.value, 10) && Read(text.value, 10) == number
  {
    OneNumber(true, number, stale);
    OneNumber(false, number, stale);
  }

  lemma OneNumber(hex: bool, number: uint32, stale: seq<byte>)
    requires |stale| > 16
    ensures Formatted(['%' as int, if hex then 'x' as int else 'd' as int], [Value(number)], 0, stale) ==
        Some(Text(number, if hex then 16 else 10))
    ensures IsNumeral(Text(number, if hex then 16 else 10), if hex then 16 else 10)
    ensures Read(Text(number, if hex then 16 else 10), if hex then 16 else 10) == number
  {
    hide Text, FieldValue, Read, IsNumeral, Formatted;
    var piece, base := Number(hex, []), if hex then 16 else 10;
    assert [piece][1..] == [];
    assert AllWritten([piece]) == Written(piece) == ['%' as int, if hex then 'x' as int else 'd' as int];
    FormatsPrintPieces([piece], [Value(number)], 0, stale);
    NoWidth();
    TextReadsBack(number, base);
    TextFits(number, base);
    assert AllPrinted([piece], [Value(number)], 0, stale) == Text(number, base);
  }

  lemma NoWidth()
    ensures FieldValue([]) == 0
  {
    assert DigitValues([]) == [];
  }

  // ---------------------------------------------------------------------------
  // The loop
  // ---------------------------------------------------------------------------

  /** The digits of a width or a precision, copied into a small buffer. */
  method CollectDigits(fmt: seq<byte>, from: nat) returns (at: nat, digits: seq<byte>)
    requires from <= |fmt| && DigitsEnd(fmt, from) - from <= FIELD_DIGITS
    ensures at == DigitsEnd(fmt, from) && digits == fmt[from..at]
  {
    var text := new byte[FIELD_DIGITS + 1];
    var n := 0;
    at := from;
    while at < |fmt| && ZERO <= fmt[at] <= ZERO + 9
      invariant from <= at <= DigitsEnd(fmt, from) && n == at - from && text[..n] == fmt[from..at]
    {
      text[n] := fmt[at];
      n, at := n + 1, at + 1;
    }
    text[n] := 0;
    digits := text[..n];
  }

  /** Nothing behind `at` has been written to; the byte at `at` may hold the NUL of what was printed last. */
  ghost predicate Untouched(buffer: seq<byte>, at: nat, stale: seq<byte>) {
    at + |stale| == |buffer| && forall i :: 1 <= i < |stale| ==> buffer[at + i] == stale[i]
  }

  /** `text` has been printed at `at`. */
  ghost predicate Appends(before: seq<byte>, at: nat, text: seq<byte>, after: seq<byte>) {
    && at + |text| < |after| == |before| && after[..at + |text|] == before[..at] + text
    && forall i :: at + |text| < i < |after| ==> after[i] == before[i]
  }

  /** The padding loop. */
  method PadZeros(padding: int, buffer: array<byte>, from: nat) returns (at: nat)
    requires from + padding < buffer.Length && from < buffer.Length
    modifies buffer
    ensures at == from + (if padding > 0 then padding else 0)
    ensures Appends(old(buffer[..]), from, ZeroChars(at - from), buffer[..])
  {
    ghost var stem := buffer[..from];
    var left := padding;
    at := from;
    while left > 0
      invariant from <= at < buffer.Length && at - from + left == padding && (left >= 0 || left == padding)
      invariant buffer[..at] == stem + ZeroChars(at - from)
      invariant forall i :: at <= i < buffer.Length ==> buffer[i] == old(buffer[i])
      decreases left
    {
      buffer[at] := ZERO;
      assert ZeroChars(at + 1 - from) == ZeroChars(at - from) + [ZERO];
      at, left := at + 1, left - 1;
    }
  }

  /** `strncpy`, without a limit `strcpy`: up to the NUL or the limit, and then a NUL. */
  method CopyString(text: seq<byte>, limit: nat, buffer: array<byte>, from: nat) returns (copied: nat)
    requires 0 !in text && from + |text| + limit < buffer.Length + (if limit < |text| then |text| else limit)
    modifies buffer
    ensures copied == (if limit < |text| then limit else |text|) && from + copied < buffer.Length
    ensures Appends(old(buffer[..]), from, text[..copied], buffer[..]) && buffer[from + copied] == 0
  {
    ghost var stem := buffer[..from];
    copied := 0;
    while copied < |text| && copied < limit
      invariant copied <= |text| && copied <= limit && from + copied < buffer.Length
      invariant buffer[..from + copied] == stem + text[..copied]
      invariant forall i :: from + copied <= i < buffer.Length ==> buffer[i] == old(buffer[i])
    {
      buffer[from + copied] := text[copied];
      copied := copied + 1;
    }
    buffer[from + copied] := 0;
  }

  lemma AppendsAppend(a: seq<byte>, at: nat, x: seq<byte>, b: seq<byte>, y: seq<byte>, c: seq<byte>)
    requires Appends(a, at, x, b) && Appends(b, at + |x|, y, c)
    ensures Appends(a, at, x + y, c)
  {
    assert b[..at + |x|] + y == a[..at] + (x + y);
  }

  /** A number: padding, then its digits. */
  method PrintNumber(number: uint32, base: uint8, width: uint8, buffer: array<byte>, from: nat) returns (at: nat)
    requires base == 10 || base == 16
    requires from + |Padded(width, Text(number, base))| < buffer.Length
    modifies buffer
    ensures at == from + |Padded(width, Text(number, base))|
    ensures Appends(old(buffer[..]), from, Padded(width, Text(number, base)), buffer[..])
  {
    hide Text, Appends, Padded, ZeroChars;
    PaddingIs(width, Text(number, base));
    var numString := new byte[16];
    TextFits(number, base);
    TextHasNoNul(number, base);
    var numDigits := IntToString(number, base, numString);
    var digits := numString[..numDigits];
    at := PadZeros(width - numDigits, buffer, from);
    ghost var padded := buffer[..];
    var copied := CopyString(digits, numDigits, buffer, at);
    assert digits[..copied] == digits;
    AppendsAppend(old(buffer[..]), from, ZeroChars(at - from), padded, digits, buffer[..]);
    at := at + copied;
  }

  lemma PaddingIs(width: nat, text: seq<byte>)
    ensures Padded(width, text) == ZeroChars(if width > |text| then width - |text| else 0) + text
  {
    assert ZeroChars(0) + text == text;
  }

  lemma TextFits(number: uint32, base: uint8)
    requires base == 10 || base == 16
    ensures |Text(number, base)| < 16
  {
    TenDigits(number);
    assert Power(16, 4) == 0x1_0000;
    DigitCountExactly(number, 16, 8);
  }

  /** A string: what is copied of it, and the step the buffer takes. */
  method PrintString(text: CString, precision: uint8, buffer: array<byte>, from: nat, ghost stale: seq<byte>)
      returns (at: nat)
    requires Untouched(buffer[..], from, stale) && |Inserted(text, precision, stale)| < |stale|
    modifies buffer
    ensures at == from + |Inserted(text, precision, stale)|
    ensures Appends(old(buffer[..]), from, Inserted(text, precision, stale), buffer[..])
  {
    ghost var before := buffer[..];
    var copyLength := if precision > 0 then precision else |text|;
    var copied := CopyString(text, copyLength, buffer, from);
    at := from + copyLength;
    assert text[..copied] == if precision == 0 || |text| <= precision then text else text[..precision];
    GapStays(text, precision, before, from, stale, buffer[..], copied);
  }

  lemma GapStays(text: CString, precision: uint8, before: seq<byte>, from: nat, stale: seq<byte>, after: seq<byte>,
                 copied: nat)
    requires Untouched(before, from, stale) && |Inserted(text, precision, stale)| < |stale| && copied <= |text|
    requires copied == if 0 < precision < |text| then precision else |text|
    requires Appends(before, from, text[..copied], after) && after[from + copied] == 0
    ensures Appends(before, from, Inserted(text, precision, stale), after)
  {
    var r := Inserted(text, precision, stale);
    if precision > |text| {
      assert text[..copied] == text;
      forall i | 0 <= i < |r| ensures after[from + i] == r[i] {
        if i < |text| {
          assert after[..from + copied][from + i] == text[i];
        }
      }
      assert after[..from + |r|] == before[..from] + r by {
        assert after[..from] == after[..from + copied][..from];
      }
    }
  }

  lemma {:induction false} DigitsEndShift(fmt: seq<byte>, from: nat, k: nat)
    requires from + k <= |fmt|
    ensures DigitsEnd(fmt[from..], k) + from == DigitsEnd(fmt, from + k)
    decreases |fmt| - from - k
  {
    if from + k < |fmt| {
      DigitsEndShift(fmt, from, k + 1);
    }
  }

  lemma DirectiveEnds(fmt: seq<byte>, from: nat)
    requires from < |fmt|
    ensures var w := DigitsEnd(fmt, from + 1);
      DigitsEnd(fmt[from..], 1) == w - from && PrecisionEnd(fmt[from..], w - from) == PrecisionEnd(fmt, w) - from
  {
    DigitsEndShift(fmt, from, 1);
    var w := DigitsEnd(fmt, from + 1);
    if w < |fmt| {
      DigitsEndShift(fmt, from, w - from + 1);
    }
  }

  /** The directive at `from`, by its places in the whole format. */
  lemma DirectiveShape(fmt: seq<byte>, from: nat, w: nat, p: nat)
    requires from < |fmt| && w == DigitsEnd(fmt, from + 1) && p == PrecisionEnd(fmt, w)
    requires DirectiveAt(fmt[from..]).Some?
    ensures w - from - 1 <= FIELD_DIGITS && p - w - 1 <= FIELD_DIGITS && p < |fmt|
    ensures DirectiveAt(fmt[from..]).value
         == Directive(fmt[p], fmt[from + 1..w], PrecisionDigits(fmt, w, p), p - from + 1)
  {
    hide DigitsEnd, PrecisionEnd, PrecisionDigits;
    DirectiveEnds(fmt, from);
    PartsFrom(fmt, from, w, p);
  }

  lemma PartsFrom(fmt: seq<byte>, from: nat, w: nat, p: nat)
    requires from < w <= p <= |fmt|
    ensures fmt[from..][1..w - from] == fmt[from + 1..w] && (p < |fmt| ==> fmt[from..][p - from] == fmt[p])
    ensures PrecisionDigits(fmt[from..], w - from, p - from) == PrecisionDigits(fmt, w, p)
  {
  }

  lemma FieldReads(digits: seq<byte>)
    ensures digits == [] ==> FieldValue(digits) == 0
  {
    assert DigitValues([]) == [];
  }

  /** A width or a precision, if there are digits. */
  method ReadField(fmt: seq<byte>, from: nat, default: uint8) returns (s: nat, value: uint8)
    requires from <= |fmt| && DigitsEnd(fmt, from) - from <= FIELD_DIGITS
    ensures s == DigitsEnd(fmt, from) && value == PrecisionAfter(fmt[from..s], default)
  {
    hide FieldValue, DigitsEnd;
    var digits;
    s, digits := CollectDigits(fmt, from);
    value := default;
    if digits != [] {
      var parsed := StringToInt(digits);
      value := parsed % 0x100;
      FieldIs(digits, parsed);
    }
  }

  lemma FieldIs(digits: seq<byte>, parsed: int)
    requires parsed == Signed32(ValueOf(DigitValues(digits), 10))
    ensures FieldValue(digits) == parsed % 0x100
  {
  }

  /** The width, the precision and the letter of a directive. */
  method ReadDirective(fmt: seq<byte>, from: nat, precision: uint8) returns (s: nat, width: uint8, now: uint8)
    requires from < |fmt| && DirectiveAt(fmt[from..]).Some?
    ensures var d := DirectiveAt(fmt[from..]).value;
      && s == from + d.size - 1 < |fmt| && fmt[s] == d.letter && width == FieldValue(d.width)
      && now == PrecisionAfter(d.precision, precision)
  {
    hide FieldValue;
    ghost var w := DigitsEnd(fmt, from + 1);
    DirectiveShape(fmt, from, w, PrecisionEnd(fmt, w));
    s, width := ReadField(fmt, from + 1, 0);
    FieldReads(fmt[from + 1..w]);
    now := precision;
    if s < |fmt| && fmt[s] == FULL_STOP {
      s, now := ReadField(fmt, s + 1, precision);
    }
  }

  /** What is left of the task after a piece of it. */
  ghost predicate Remains(fmt: seq<byte>, args: seq<Argument>, precision: uint8, stale: seq<byte>, text: seq<byte>) {
    Formatted(fmt, args, precision, stale) == Some(text)
  }

  lemma OntoParts(piece: seq<byte>, fmt: seq<byte>, args: seq<Argument>, precision: uint8, stale: seq<byte>,
                  text: seq<byte>)
    requires Onto(piece, fmt, args, precision, stale) == Some(text)
    ensures |piece| <= |text| < |stale| && text[..|piece|] == piece
    ensures Remains(fmt, args, precision, stale[|piece|..], text[|piece|..])
  {
    hide Formatted;
    var rest := Formatted(fmt, args, precision, stale[|piece|..]).value;
    assert text == piece + rest && text[|piece|..] == rest;
  }

  lemma DirectiveRest(fmt: seq<byte>, args: seq<Argument>, precision: uint8, stale: seq<byte>, text: seq<byte>,
                      from: nat)
    requires from < |fmt| && fmt[from] == PERCENT && Remains(fmt[from..], args, precision, stale, text)
    ensures DirectiveAt(fmt[from..]).Some?
    ensures var d := DirectiveAt(fmt[from..]).value; var now := PrecisionAfter(d.precision, precision);
      && Suits(d.letter, args)
      && var piece := Conversion(d, now, args, stale);
      && |piece| <= |text| < |stale| && text[..|piece|] == piece
      && Remains(fmt[from + d.size..], args[ArgumentsUsed(d.letter)..], now, stale[|piece|..], text[|piece|..])
  {
    hide DirectiveAt, Conversion, Onto;
    var d := DirectiveAt(fmt[from..]).value;
    var now := PrecisionAfter(d.precision, precision);
    assert fmt[from..][d.size..] == fmt[from + d.size..];
    OntoParts(Conversion(d, now, args, stale), fmt[from + d.size..], args[ArgumentsUsed(d.letter)..], now, stale, text);
  }

  lemma StillUntouched(before: seq<byte>, at: nat, stale: seq<byte>, piece: seq<byte>, after: seq<byte>)
    requires Untouched(before, at, stale) && Appends(before, at, piece, after) && |piece| < |stale|
    ensures Untouched(after, at + |piece|, stale[|piece|..])
  {
  }

  /** A directive, from the percent sign on. */
  method Convert(fmt: seq<byte>, args: seq<Argument>, precision: uint8, from: nat, buffer: array<byte>, at: nat,
                 ghost stale: seq<byte>, ghost text: seq<byte>)
      returns (next: nat, used: nat, now: uint8, end: nat)
    requires from < |fmt| && fmt[from] == PERCENT && Remains(fmt[from..], args, precision, stale, text)
    requires Untouched(buffer[..], at, stale)
    modifies buffer
    ensures from < next <= |fmt| && used <= |args| && at <= end <= at + |text| < buffer.Length
    ensures Appends(old(buffer[..]), at, text[..end - at], buffer[..]) && Untouched(buffer[..], end, stale[end - at..])
    ensures Remains(fmt[next..], args[used..], now, stale[end - at..], text[end - at..])
  {
    hide Remains, FieldValue, Padded, Text, DirectiveAt, Inserted, PrecisionAfter, Untouched;
    DirectiveRest(fmt, args, precision, stale, text, from);
    Reaches(buffer[..], at, stale);
    ghost var d, before := DirectiveAt(fmt[from..]).value, buffer[..];
    var s, width;
    s, width, now := ReadDirective(fmt, from, precision);
    ghost var piece := Conversion(d, now, args, stale);
    next, used, end := s + 1, 0, at;
    if fmt[s] == PERCENT {
      buffer[at] := PERCENT;
      end := at + 1;
    } else if fmt[s] == LETTER_S {
      end := PrintString(args[0].text, now, buffer, at, stale);
      used := 1;
    } else if fmt[s] == LETTER_D {
      end := PrintNumber(args[0].number, 10, width, buffer, at);
      used := 1;
    } else if fmt[s] == LETTER_X {
      end := PrintNumber(args[0].number, 16, width, buffer, at);
      used := 1;
    }
    assert Appends(before, at, piece, buffer[..]);
    StillUntouched(before, at, stale, piece, buffer[..]);
  }

  lemma Reaches(buffer: seq<byte>, at: nat, stale: seq<byte>)
    requires Untouched(buffer, at, stale)
    ensures at + |stale| == |buffer|
  {
  }

  lemma LiteralRest(fmt: seq<byte>, args: seq<Argument>, precision: uint8, stale: seq<byte>, text: seq<byte>, from: nat)
    requires from < |fmt| && fmt[from] != PERCENT && Remains(fmt[from..], args, precision, stale, text)
    ensures 1 <= |text| < |stale| && text[..1] == [fmt[from]]
    ensures Remains(fmt[from + 1..], args, precision, stale[1..], text[1..])
  {
    hide Onto;
    assert fmt[from..][1..] == fmt[from + 1..];
    OntoParts([fmt[from]], fmt[from + 1..], args, precision, stale, text);
  }

  /** A character outside a directive. */
  method CopyLiteral(fmt: seq<byte>, args: seq<Argument>, precision: uint8, from: nat, buffer: array<byte>, at: nat,
                     ghost stale: seq<byte>, ghost text: seq<byte>)
      returns (next: nat, end: nat)
    requires from < |fmt| && fmt[from] != PERCENT && Remains(fmt[from..], args, precision, stale, text)
    requires Untouched(buffer[..], at, stale)
    modifies buffer
    ensures next == from + 1 && end == at + 1 <= at + |text| < buffer.Length
    ensures Appends(old(buffer[..]), at, text[..1], buffer[..]) && Untouched(buffer[..], end, stale[1..])
    ensures Remains(fmt[next..], args, precision, stale[1..], text[1..])
  {
    hide Remains, Untouched;
    LiteralRest(fmt, args, precision, stale, text, from);
    Reaches(buffer[..], at, stale);
    ghost var before := buffer[..];
    buffer[at] := fmt[from];
    next, end := from + 1, at + 1;
    StillUntouched(before, at, stale, text[..1], buffer[..]);
  }

  lemma NothingRemains(fmt: seq<byte>, args: seq<Argument>, precision: uint8, stale: seq<byte>, text: seq<byte>)
    requires Remains(fmt, args, precision, stale, text) && fmt == []
    ensures text == [] && stale != []
  {
  }

  lemma GoalGrows(start: seq<byte>, goal: seq<byte>, length: nat, k: nat, before: seq<byte>, after: seq<byte>)
    requires length + k <= |goal| && |before| == |start| == |after| && length <= |before|
    requires before[..length] == goal[..length] && Appends(before, length, goal[length..][..k], after)
    ensures after[..length + k] == goal[..length + k]
  {
    assert goal[..length] + goal[length..][..k] == goal[..length + k];
  }

  /** `vsprintf`. */
  method Vsprintf(fmt: seq<byte>, args: seq<Argument>, buffer: array<byte>) returns (length: nat)
    requires Formatted(fmt, args, 0, buffer[..]).Some?
    modifies buffer
    ensures var text := Formatted(fmt, args, 0, old(buffer[..])).value;
      length == |text| < buffer.Length && buffer[..length] == text && buffer[length] == 0
  {
    hide Formatted, Remains, Untouched, Appends;
    ghost var start := buffer[..];
    ghost var goal := Formatted(fmt, args, 0, start).value;
    var s: nat, rest, precision: uint8 := 0, args, 0;
    length := 0;
    Starts(fmt, args, start, goal);
    while s < |fmt|
      invariant s <= |fmt| && length <= |goal| < buffer.Length
      invariant Remains(fmt[s..], rest, precision, start[length..], goal[length..])
      invariant Untouched(buffer[..], length, start[length..])
      invariant buffer[..length] == goal[..length]
      decreases |fmt| - s
    {
      ghost var before, was := buffer[..], length;
      if fmt[s] == PERCENT {
        var used;
        s, used, precision, length := Convert(fmt, rest, precision, s, buffer, length, start[length..], goal[length..]);
        rest := rest[used..];
      } else {
        s, length := CopyLiteral(fmt, rest, precision, s, buffer, length, start[length..], goal[length..]);
      }
      GoalGrows(start, goal, was, length - was, before, buffer[..]);
      assert start[was..][length - was..] == start[length..] && goal[was..][length - was..] == goal[length..];
    }
    NothingRemains(fmt[s..], rest, precision, start[length..], goal[length..]);
    buffer[length] := 0;
  }

  lemma Starts(fmt: seq<byte>, args: seq<Argument>, start: seq<byte>, goal: seq<byte>)
    requires Formatted(fmt, args, 0, start) == Some(goal)
    ensures Remains(fmt[0..], args, 0, start[0..], goal[0..]) && Untouched(start, 0, start[0..]) && |goal| < |start|
  {
    assert fmt[0..] == fmt && start[0..] == start && goal[0..] == goal;
  }
}
