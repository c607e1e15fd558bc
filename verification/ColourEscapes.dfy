/** The colour escapes of `console_write`. */
module ColourEscapes {
  import opened Bytes
  import opened Kernel
  import opened Screen

  const ESCAPE: byte := 1

  datatype Op = Colour(color: Color) | Show(character: byte)

  /** `ansi_colors`. */
  function AnsiColor(d: nat): Color
    requires d < 8
  {
    match d
    case 0 => Color(0, 0, 0)
    case 1 => Color(222, 56, 43)
    case 2 => Color(19, 161, 14)
    case 3 => Color(255, 199, 6)
    case 4 => Color(0x2f, 0x5b, 0xdc)
    case 5 => Color(118, 38, 113)
    case 6 => Color(44, 181, 233)
    case _ => DEFAULT_COLOR
  }

  /** The digits follow the ANSI numbering: red counts one, green two and blue four (ECMA-48, section 8.3.117). */
  lemma DigitsAreAnsi(d: nat)
    requires d < 8
    ensures var color := AnsiColor(d);
      && (color.red >= 100 <==> d % 2 == 1) && (color.green >= 100 <==> d / 2 % 2 == 1)
      && (color.blue >= 100 <==> d / 4 % 2 == 1)
  {
    var r, g, b := d % 2, d / 2 % 2, d / 4;
    assert d == r + 2 * g + 4 * b;
  }

  const DEFAULT_COLOR: Color := Color(0xAA, 0xAA, 0xAA)

  /** A reset brings back the colour a fresh console has, which is also the last of the eight. */
  lemma ResetIsInitial(rows: nat, cols: nat)
    ensures Meaning(Reset) == Colour(Initial(rows, cols).color) == Meaning(Paint(7))
    ensures var blank := ' ' as int;
      Initial(rows, cols).cells == seq(Area(rows, cols), _ => Cell(blank, Color(blank, blank, blank)))
  {
  }

  /** An escape at the start of `mem`: its colour, and how many bytes it takes. A `0` resets; any other first
      digit is skipped. None when it leaves the memory, or names no colour. */
  function Escape(mem: seq<byte>): Option<(Color, nat)> {
    if |mem| <= 2 then None
    else if mem[2] == ZERO then Some((DEFAULT_COLOR, 4))
    else if |mem| <= 3 || !(ZERO <= mem[3] < ZERO + 8) then None
    else Some((AnsiColor(mem[3] - ZERO), 5))
  }

  /** What `console_write` does with `length` bytes from `mem` on. The byte after an escape is shown whatever it is,
      even when it lies past the end. */
  function Parse(mem: seq<byte>, length: int): Option<seq<Op>>
    decreases |mem|
  {
    if length <= 0 then Some([])
    else if mem == [] then None
    else if mem[0] != ESCAPE then Cons([Show(mem[0])], Parse(mem[1..], length - 1))
    else match Escape(mem)
      case None => None
      case Some((color, size)) =>
        if |mem| <= size then None else
        Cons([Colour(color), Show(mem[size])], Parse(mem[size + 1..], length - size - 1))
  }

  function Cons(ops: seq<Op>, rest: Option<seq<Op>>): Option<seq<Op>> {
    if rest.Some? then Some(ops + rest.value) else None
  }

  /** What the kernel's messages are written in. */
  datatype Token = Reset | Paint(digit: nat) | Text(character: byte)

  function Encoded(t: Token): seq<byte>
    requires t.Paint? ==> t.digit < 8
  {
    match t
    case Reset => [ESCAPE, BRACKET, ZERO, LETTER_M]
    case Paint(d) => [ESCAPE, BRACKET, ZERO + 3, ZERO + d, LETTER_M]
    case Text(c) => [c]
  }

  /** A byte 1 and then `[3dm` or `[0m`, as in the kernel's log formats. */
  lemma EscapesAreWritten(d: nat)
    requires d < 8
    ensures Encoded(Paint(d)) == [1, '[' as int, '3' as int, '0' as int + d, 'm' as int]
    ensures Encoded(Reset) == [1, '[' as int, '0' as int, 'm' as int]
  {
  }

  function Meaning(t: Token): Op
    requires t.Paint? ==> t.digit < 8
  {
    match t
    case Reset => Colour(DEFAULT_COLOR)
    case Paint(d) => Colour(AnsiColor(d))
    case Text(c) => Show(c)
  }

  predicate Palette(ts: seq<Token>) {
    forall t :: t in ts ==> t.Paint? ==> t.digit < 8
  }

  function Rendered(ts: seq<Token>): (r: seq<byte>)
    requires Palette(ts)
    decreases |ts|
  {
    if ts == [] then [] else Encoded(ts[0]) + Rendered(ts[1..])
  }

  function Meanings(ts: seq<Token>): (r: seq<Op>)
    requires Palette(ts)
    ensures |r| == |ts|
    decreases |ts|
  {
    if ts == [] then [] else [Meaning(ts[0])] + Meanings(ts[1..])
  }

  /** Every escape is followed by a character, and a raw escape byte only ever is that character. */
  predicate Followed(ts: seq<Token>)
    decreases |ts|
  {
    || ts == []
    || (ts[0].Text? && ts[0].character != ESCAPE && Followed(ts[1..]))
    || (!ts[0].Text? && |ts| > 1 && ts[1].Text? && Followed(ts[2..]))
  }

  lemma EscapeReads(t: Token, rest: seq<byte>)
    requires !t.Text? && (t.Paint? ==> t.digit < 8)
    ensures Meaning(t).Colour? && Escape(Encoded(t) + rest) == Some((Meaning(t).color, |Encoded(t)|))
  {
    var mem := Encoded(t) + rest;
    assert mem[2] == Encoded(t)[2];
    if t.Paint? {
      assert mem[3] == ZERO + t.digit;
    }
  }

  /** An escape and the byte after it. */
  lemma ParseEscape(t: Token, c: byte, rest: seq<byte>, length: int)
    requires !t.Text? && (t.Paint? ==> t.digit < 8) && length > 0
    ensures Parse(Encoded(t) + [c] + rest, length) ==
        Cons([Meaning(t), Show(c)], Parse(rest, length - |Encoded(t)| - 1))
  {
    var mem := Encoded(t) + [c] + rest;
    assert mem == Encoded(t) + ([c] + rest);
    EscapeReads(t, [c] + rest);
    assert mem[|Encoded(t)|] == c && mem[|Encoded(t)| + 1..] == rest && mem[0] == ESCAPE;
  }

  lemma ParseText(c: byte, rest: seq<byte>, length: int)
    requires c != ESCAPE && length > 0
    ensures Parse([c] + rest, length) == Cons([Show(c)], Parse(rest, length - 1))
  {
    assert ([c] + rest)[1..] == rest;
  }

  lemma RawEscape(rest: seq<byte>, length: int)
    requires length > 0
    ensures var r := Parse([ESCAPE] + rest, length);
      r.None? || (r.value != [] && r.value[0].Colour?)
  {
  }

  lemma ConsCancels(ops: seq<Op>, rest: Option<seq<Op>>, more: seq<Op>)
    ensures Cons(ops, rest) == Some(ops + more) <==> rest == Some(more)
  {
    if rest.Some? && ops + rest.value == ops + more {
      assert (ops + rest.value)[|ops|..] == rest.value && (ops + more)[|ops|..] == more;
    }
  }

  /** The message of `ts`, with its terminator, is read as `ts`. */
  ghost predicate RoundTrips(ts: seq<Token>)
    requires Palette(ts)
  {
    Parse(Rendered(ts) + [0], |Rendered(ts)|) == Some(Meanings(ts))
  }

  lemma PlainCharacter(ts: seq<Token>)
    requires Palette(ts) && ts != [] && ts[0].Text? && ts[0].character != ESCAPE
    ensures RoundTrips(ts) <==> RoundTrips(ts[1..])
  {
    var c, rest := ts[0].character, Rendered(ts[1..]) + [0];
    assert Rendered(ts) + [0] == [c] + rest;
    hide Parse, Escape;
    ParseText(c, rest, |Rendered(ts)|);
    ConsCancels([Show(c)], Parse(rest, |Rendered(ts)| - 1), Meanings(ts[1..]));
  }

  lemma EscapedCharacter(ts: seq<Token>)
    requires Palette(ts) && |ts| > 1 && !ts[0].Text? && ts[1].Text?
    ensures RoundTrips(ts) <==> RoundTrips(ts[2..])
  {
    var c, rest := ts[1].character, Rendered(ts[2..]) + [0];
    assert Encoded(ts[1]) == [c] && Meaning(ts[1]) == Show(c);
    hide Parse, Escape, Encoded, Rendered, Meaning, Meanings;
    RenderedPair(ts);
    MeaningsPair(ts);
    ParseEscape(ts[0], c, rest, |Rendered(ts)|);
    ConsCancels([Meaning(ts[0]), Show(c)], Parse(rest, |Rendered(ts)| - |Encoded(ts[0])| - 1), Meanings(ts[2..]));
  }

  lemma LastEscape(t: Token)
    requires !t.Text? && (t.Paint? ==> t.digit < 8)
    ensures !RoundTrips([t])
  {
    assert Rendered([t]) + [0] == Encoded(t) + [0] + [];
    ParseEscape(t, 0, [], |Encoded(t)|);
  }

  /** A NUL-terminated message means what its tokens mean exactly when every escape is followed by a character. */
  lemma {:induction false} MessagesRoundTripExactly(ts: seq<Token>)
    requires Palette(ts)
    ensures RoundTrips(ts) <==> Followed(ts)
    decreases |ts|
  {
    if ts == [] {
    } else if ts[0].Text? {
      if ts[0].character == ESCAPE {
        assert Rendered(ts) + [0] == [ESCAPE] + (Rendered(ts[1..]) + [0]);
        RawEscape(Rendered(ts[1..]) + [0], |Rendered(ts)|);
      } else {
        PlainCharacter(ts);
        MessagesRoundTripExactly(ts[1..]);
      }
    } else if |ts| == 1 {
      LastEscape(ts[0]);
      assert ts == [ts[0]];
    } else if ts[1].Text? {
      EscapedCharacter(ts);
      MessagesRoundTripExactly(ts[2..]);
    } else {
      EscapeAfterEscape(ts);
    }
  }

  lemma RenderedPair(ts: seq<Token>)
    requires Palette(ts) && |ts| > 1
    ensures Rendered(ts) + [0] == Encoded(ts[0]) + Encoded(ts[1]) + (Rendered(ts[2..]) + [0])
    ensures |Rendered(ts)| == |Encoded(ts[0])| + |Encoded(ts[1])| + |Rendered(ts[2..])|
  {
    hide Encoded;
    assert ts[1..][1..] == ts[2..];
    assert Rendered(ts[1..]) == Encoded(ts[1]) + Rendered(ts[2..]);
    assert Rendered(ts) == Encoded(ts[0]) + (Encoded(ts[1]) + Rendered(ts[2..]));
    hide Rendered;
    FourFold(Encoded(ts[0]), Encoded(ts[1]), Rendered(ts[2..]), [0]);
  }

  lemma FourFold(a: seq<byte>, b: seq<byte>, c: seq<byte>, d: seq<byte>)
    ensures a + (b + c) + d == a + b + (c + d)
  {
  }

  lemma PairOnto(x: Op, y: Op, more: seq<Op>)
    ensures [x] + ([y] + more) == [x, y] + more
  {
  }

  lemma MeaningsStep(ts: seq<Token>)
    requires Palette(ts) && ts != []
    ensures Meanings(ts) == [Meaning(ts[0])] + Meanings(ts[1..])
  {
  }

  lemma MeaningsPair(ts: seq<Token>)
    requires Palette(ts) && |ts| > 1
    ensures Meanings(ts) == [Meaning(ts[0]), Meaning(ts[1])] + Meanings(ts[2..])
  {
    MeaningsStep(ts);
    MeaningsStep(ts[1..]);
    hide Meanings, Meaning;
    assert ts[1..][1..] == ts[2..];
    PairOnto(Meaning(ts[0]), Meaning(ts[1]), Meanings(ts[2..]));
  }

  lemma FirstOfMiddle(a: seq<byte>, b: seq<byte>, c: seq<byte>)
    requires b != []
    ensures a + b + c == a + [b[0]] + (b[1..] + c)
  {
  }

  /** The second escape byte of a pair is shown as a character. */
  lemma EscapeAfterEscape(ts: seq<Token>)
    requires Palette(ts) && |ts| > 1 && !ts[0].Text? && !ts[1].Text?
    ensures !RoundTrips(ts)
  {
    assert Encoded(ts[1])[0] == ESCAPE && Meaning(ts[1]).Colour?;
    hide Encoded, Meaning, Rendered, Meanings, Parse, Escape;
    RenderedPair(ts);
    MeaningsPair(ts);
    var end := Rendered(ts[2..]) + [0];
    var rest := Encoded(ts[1])[1..] + end;
    FirstOfMiddle(Encoded(ts[0]), Encoded(ts[1]), end);
    ParseEscape(ts[0], ESCAPE, rest, |Rendered(ts)|);
    SecondDiffers(Meaning(ts[0]), Meaning(ts[1]), Parse(rest, |Rendered(ts)| - |Encoded(ts[0])| - 1),
      Meanings(ts[2..]));
  }

  lemma SecondDiffers(x: Op, y: Op, rest: Option<seq<Op>>, more: seq<Op>)
    requires y.Colour?
    ensures Cons([x, Show(ESCAPE)], rest) != Some([x, y] + more)
  {
    if rest.Some? {
      assert ([x, Show(ESCAPE)] + rest.value)[1] == Show(ESCAPE) && ([x, y] + more)[1] == y;
    }
  }
}
