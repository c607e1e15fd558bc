/** The kernel's line editor: what is typed, what is stored, and what is on the screen. */
module LineEditor {
  import opened Bytes
  import opened Kernel
  import opened Screen
  import opened Terminal
  import opened CursorBlink
  import opened ScreenConsole
  import ColourEscapes

  /** What happens while a line is read: keys, and the cursor's timer between them. */
  datatype Input = Key(c: byte) | Tick(on: bool)

  const ENTER: byte := NEWLINE

  predicate Printable(c: byte) {
    32 <= c <= 126
  }

  /** A letter, a digit, the space, or one of the four runs of other signs between them. */
  predicate IsGraphic(c: char) {
    || 'A' <= c <= 'Z' || 'a' <= c <= 'z' || '0' <= c <= '9'
    || ' ' <= c <= '/' || ':' <= c <= '@' || '[' <= c <= '`' || '{' <= c <= '~'
  }

  /** The keys the editor takes are the graphic characters of ASCII and the space. */
  lemma TakesGraphicCharacters(c: byte)
    ensures Printable(c) <==> IsGraphic(c as char)
  {
    var k: int := c;
    assert k == c as char as int;
  }

  // ---------------------------------------------------------------------------
  // Specification
  // ---------------------------------------------------------------------------

  /** The line after a key: a backspace drops the last character, a printable key is added while there is room. */
  function Edited(line: seq<byte>, c: byte, limit: nat): seq<byte> {
    if c == BACKSPACE && line != [] then line[..|line| - 1]
    else if Printable(c) && |line| < limit - 1 then line + [c]
    else line
  }

  function LineAfter(line: seq<byte>, input: Input, limit: nat): seq<byte> {
    if input.Key? then Edited(line, input.c, limit) else line
  }

  function LineAfterAll(line: seq<byte>, inputs: seq<Input>, limit: nat): seq<byte>
    decreases |inputs|
  {
    if inputs == [] then line else LineAfterAll(LineAfter(line, inputs[0], limit), inputs[1..], limit)
  }

  /** A character echoed to the console. */
  function Echo(s: Screen, c: byte): (r: Screen)
    requires InRange(s) && s.rows <= 127
    ensures InRange(r) && r.rows == s.rows && r.cols == s.cols
  {
    StaysInRange(s, c);
    Written(s, c)
  }

  function ScreenAfter(s: Screen, line: seq<byte>, input: Input, limit: nat, echo: bool): (r: Screen)
    requires InRange(s) && s.rows <= 127
    ensures InRange(r) && r.rows == s.rows && r.cols == s.cols
  {
    match input
    case Tick(on) => BlinkChangesOneCell(s, on); Blinked(s, on)
    case Key(c) =>
      if !echo then s
      else if c == BACKSPACE && line != [] then Echo(Echo(Echo(s, BACKSPACE), SPACE), BACKSPACE)
      else if Printable(c) && |line| < limit - 1 then Echo(s, c)
      else s
  }

  function ScreenAfterAll(s: Screen, line: seq<byte>, inputs: seq<Input>, limit: nat, echo: bool): (r: Screen)
    requires InRange(s) && s.rows <= 127
    ensures InRange(r) && r.rows == s.rows && r.cols == s.cols
    decreases |inputs|
  {
    if inputs == [] then s else
    ScreenAfterAll(ScreenAfter(s, line, inputs[0], limit, echo), LineAfter(line, inputs[0], limit), inputs[1..], limit,
                   echo)
  }

  // ---------------------------------------------------------------------------
  // What you see is what you typed
  // ---------------------------------------------------------------------------

  /** The cells just before the cursor show the line. */
  predicate Shows(s: Screen, line: seq<byte>)
    requires InRange(s)
  {
    |line| <= s.cursor && forall i :: 0 <= i < |line| ==> s.cells[s.cursor - |line| + i].character == line[i]
  }

  /** They do so at the start and after every input. */
  predicate AlwaysShows(s: Screen, line: seq<byte>, inputs: seq<Input>, limit: nat)
    requires InRange(s) && s.rows <= 127
    decreases |inputs|
  {
    Shows(s, line) &&
    (inputs == [] ||
     AlwaysShows(ScreenAfter(s, line, inputs[0], limit, true), LineAfter(line, inputs[0], limit), inputs[1..], limit))
  }

  /** The longest the line gets. */
  function Longest(line: seq<byte>, inputs: seq<Input>, limit: nat): (n: nat)
    ensures n >= |line|
    decreases |inputs|
  {
    if inputs == [] then |line| else
    var rest := Longest(LineAfter(line, inputs[0], limit), inputs[1..], limit);
    if rest > |line| then rest else |line|
  }

  /** The line on the terminal's tape: it begins at `start`, which has not scrolled away, and still fits. */
  ghost predicate OnTape(t: Terminal, start: nat, line: seq<byte>) {
    && Proper(t) && t.rows <= 127 && Top(t) <= start && t.pos == start + |line|
    && start % t.cols + |line| < Area(t.rows, t.cols)
    && forall i :: 0 <= i < |line| ==> t.tape[start + i].character == line[i]
  }

  lemma OnTapeShows(t: Terminal, start: nat, line: seq<byte>)
    requires OnTape(t, start, line)
    ensures InRange(View(t)) && Shows(View(t), line)
  {
    var s := View(t);
    forall i | 0 <= i < |line| ensures s.cells[s.cursor - |line| + i].character == line[i] {
      assert s.cells[s.cursor - |line| + i] == t.tape[start + i];
    }
  }

  /** A blink only touches the cell under the cursor. */
  lemma TickKeepsLine(t: Terminal, start: nat, line: seq<byte>, on: bool)
    requires OnTape(t, start, line)
    ensures var n := PutOnTape(t, t.pos, Glyph(on));
      OnTape(n, start, line) && View(n) == Blinked(View(t), on) && n.cols == t.cols && n.rows == t.rows
  {
    ViewInRange(t);
    PutAgrees(t, t.pos, Glyph(on), t.pos);
  }

  /** "\b \b" takes the last character off the tape. */
  lemma BackspaceKeepsLine(t: Terminal, start: nat, line: seq<byte>)
    requires OnTape(t, start, line) && line != []
    ensures var a := Typed(t, BACKSPACE);
      Proper(a) && Proper(Typed(a, SPACE)) && OnTape(Typed(Typed(a, SPACE), BACKSPACE), start, line[..|line| - 1])
  {
    var a := Typed(t, BACKSPACE);
    var b := Typed(a, SPACE);
    assert a.pos == t.pos - 1 && b.pos == t.pos && |b.tape| == |t.tape|;
  }

  /** The line reaches the end of the tape no earlier than the end of the screen it began on. */
  lemma RoomBefore(start: nat, n: nat, length: nat, rows: nat, cols: nat)
    requires cols > 0 && rows > 0 && length % cols == 0 && length - Area(rows, cols) <= start
    requires start + n <= length && start % cols + n <= Area(rows, cols)
    ensures start % cols + n == Area(rows, cols) ==> start + n == length
    ensures start % cols + n < Area(rows, cols) && start + n == length ==> n + cols <= Area(rows, cols)
  {
    var q, r, m := start / cols, start % cols, length / cols;
    assert start == q * cols + r && length == m * cols;
    assert (m - rows - q) * cols == m * cols - rows * cols - q * cols;
    if m - rows - q >= 1 {
      MulAtLeast(m - rows - q, cols);
    }
    assert (q + rows - m) * cols == q * cols + rows * cols - m * cols;
    if q + rows - m >= 1 {
      MulAtLeast(q + rows - m, cols);
    }
  }

  /** A printable key that still fits goes onto the tape; the first one that does not scrolls the line's start
      off the screen. */
  lemma PrintableKeepsLine(t: Terminal, start: nat, line: seq<byte>, c: byte)
    requires OnTape(t, start, line) && Printable(c)
    ensures start % t.cols + |line| + 1 < Area(t.rows, t.cols) ==> OnTape(Typed(t, c), start, line + [c])
    ensures start % t.cols + |line| + 1 == Area(t.rows, t.cols) ==>
      Proper(Typed(t, c)) && InRange(View(Typed(t, c))) && !Shows(View(Typed(t, c)), line + [c])
  {
    var n := Typed(t, c);
    RoomBefore(start, |line| + 1, |t.tape|, t.rows, t.cols);
    TypedIsProper(t, c);
    ViewInRange(n);
    AreaHoldsRow(t.rows, t.cols);
  }

  /** An input carried out on the terminal. */
  ghost function TapeAfter(t: Terminal, line: seq<byte>, input: Input, limit: nat): (r: Terminal)
    requires Proper(t) && t.rows <= 127
    ensures Proper(r) && r.rows == t.rows && r.cols == t.cols
    ensures View(r) == ScreenAfter(View(t), line, input, limit, true)
  {
    ViewInRange(t);
    match input
    case Tick(on) => PutAgrees(t, t.pos, Glyph(on), t.pos); PutOnTape(t, t.pos, Glyph(on))
    case Key(c) =>
      if c == BACKSPACE && line != [] then EchoOnTape(EchoOnTape(EchoOnTape(t, BACKSPACE), SPACE), BACKSPACE)
      else if Printable(c) && |line| < limit - 1 then EchoOnTape(t, c)
      else t
  }

  ghost function EchoOnTape(t: Terminal, c: byte): (r: Terminal)
    requires Proper(t) && t.rows <= 127
    ensures Proper(r) && r.rows == t.rows && r.cols == t.cols
    ensures InRange(View(t)) && View(r) == Echo(View(t), c)
  {
    ViewInRange(t);
    TypedIsProper(t, c);
    WriteRefines(t, c);
    Typed(t, c)
  }

  lemma InputKeepsLine(t: Terminal, start: nat, line: seq<byte>, input: Input, limit: nat)
    requires OnTape(t, start, line)
    ensures var r, after := TapeAfter(t, line, input, limit), LineAfter(line, input, limit);
      if start % t.cols + |after| < Area(t.rows, t.cols) then OnTape(r, start, after)
      else InRange(View(r)) && !Shows(View(r), after)
  {
    if input.Tick? {
      TickKeepsLine(t, start, line, input.on);
    } else if input.c == BACKSPACE && line != [] {
      BackspaceKeepsLine(t, start, line);
    } else if Printable(input.c) && |line| < limit - 1 {
      PrintableKeepsLine(t, start, line, input.c);
    }
  }

  lemma {:induction false} ShowsExactlyOnTape(t: Terminal, start: nat, line: seq<byte>, inputs: seq<Input>, limit: nat)
    requires OnTape(t, start, line)
    ensures InRange(View(t))
    ensures AlwaysShows(View(t), line, inputs, limit)
       <==> start % t.cols + Longest(line, inputs, limit) < Area(t.rows, t.cols)
    decreases |inputs|
  {
    OnTapeShows(t, start, line);
    if inputs != [] {
      var r, after := TapeAfter(t, line, inputs[0], limit), LineAfter(line, inputs[0], limit);
      InputKeepsLine(t, start, line, inputs[0], limit);
      if start % t.cols + |after| < Area(t.rows, t.cols) {
        ShowsExactlyOnTape(r, start, after, inputs[1..], limit);
      }
    }
  }

  lemma FreshTape(s: Screen)
    requires InRange(s) && s.rows <= 127
    ensures var t := Terminal(s.rows, s.cols, s.cells, s.cursor, s.color);
      View(t) == s && Proper(t) && s.cursor % s.cols < Area(s.rows, s.cols)
  {
    ModUnique(|s.cells|, s.cols, s.rows, 0);
    AreaHoldsRow(s.rows, s.cols);
  }

  /** What you see is what you typed: whatever is typed, and however the cursor blinks meanwhile, the cells before
      the cursor show the line all the time exactly when the line, begun at the cursor's column, never grows to
      the size of the screen. */
  lemma SeenIsTypedExactly(s: Screen, inputs: seq<Input>, limit: nat)
    requires InRange(s) && s.rows <= 127
    ensures AlwaysShows(s, [], inputs, limit) <==> s.cursor % s.cols + Longest([], inputs, limit) < Area(s.rows, s.cols)
  {
    FreshTape(s);
    var t := Terminal(s.rows, s.cols, s.cells, s.cursor, s.color);
    ShowsExactlyOnTape(t, t.pos, [], inputs, limit);
  }

  /** A line never takes its terminator past `limit` bytes. */
  lemma {:induction false} LineFits(line: seq<byte>, inputs: seq<Input>, limit: nat)
    requires |line| == 0 || |line| < limit
    ensures var r := LineAfterAll(line, inputs, limit);
      (|r| == 0 || |r| < limit) && ((forall c :: c in line ==> Printable(c)) ==> forall c :: c in r ==> Printable(c))
    decreases |inputs|
  {
    if inputs != [] {
      LineFits(LineAfter(line, inputs[0], limit), inputs[1..], limit);
    }
  }

  /** Backspace undoes the key before it, whenever that key was added. */
  lemma BackspaceUndoes(line: seq<byte>, c: byte, limit: nat)
    requires Printable(c) && |line| < limit - 1
    ensures Edited(Edited(line, c, limit), BACKSPACE, limit) == line
  {
    assert (line + [c])[..|line|] == line;
  }

  // ---------------------------------------------------------------------------
  // `get_string`
  // ---------------------------------------------------------------------------

  /** One character through `console_write`. */
  method EchoCharacter(console: Console, c: byte)
    requires InRange(console.State()) && console.rows <= 127 && c != ColourEscapes.ESCAPE
    modifies console, console.cells
    ensures InRange(console.State()) && console.State() == Echo(old(console.State()), c)
  {
    ghost var s, op := console.State(), ColourEscapes.Show(c);
    ColourEscapes.ParseText(c, [], 1);
    assert [c] + [] == [c];
    PerformOne(s, op, []);
    assert [op] + [] == [op];
    console.Write([c], 1);
  }

  /** The number of inputs before the first Enter. */
  function UntilEnter(inputs: seq<Input>): (n: nat)
    ensures n <= |inputs|
    ensures forall i :: 0 <= i < n ==> inputs[i] != Key(ENTER)
    ensures n < |inputs| ==> inputs[n] == Key(ENTER)
    decreases |inputs|
  {
    if inputs == [] || inputs[0] == Key(ENTER) then 0 else 1 + UntilEnter(inputs[1..])
  }

  /** One turn of the loop: a key that is not Enter, or a tick of the timer. */
  method TakeInput(console: Console, buffer: array<byte>, limit: uint16, echo: uint8, input: Input, index: nat)
      returns (next: nat)
    requires InRange(console.State()) && console.rows <= 127
    requires index < buffer.Length && (index == 0 || index < limit) && limit <= buffer.Length && input != Key(ENTER)
    modifies console, console.cells, buffer
    ensures next < buffer.Length && (next == 0 || next < limit)
    ensures buffer[..next] == LineAfter(old(buffer[..index]), input, limit)
    ensures forall i :: 0 <= i < buffer.Length && limit <= i ==> buffer[i] == old(buffer[i])
    ensures InRange(console.State())
    ensures console.State() == ScreenAfter(old(console.State()), old(buffer[..index]), input, limit, echo == 1)
  {
    next := index;
    match input
    case Tick(on) =>
      var died := console.UpdateCursor(on);
    case Key(c) =>
      if c == BACKSPACE && index > 0 {
        if echo == 1 {
          EchoCharacter(console, BACKSPACE);
          EchoCharacter(console, SPACE);
          EchoCharacter(console, BACKSPACE);
        }
        next := index - 1;
      } else if c >= 32 && c <= 126 && index < limit - 1 {
        if echo == 1 {
          EchoCharacter(console, c);
        }
        buffer[index] := c;
        next := index + 1;
      }
  }

  /** `get_string`. The string stored is the line typed, and the screen shows its echo. */
  method GetString(console: Console, buffer: array<byte>, limit: uint16, echo: uint8, inputs: seq<Input>)
    requires InRange(console.State()) && console.rows <= 127
    requires 0 < buffer.Length && limit <= buffer.Length && UntilEnter(inputs) < |inputs|
    modifies console, console.cells, buffer
    ensures var typed := inputs[..UntilEnter(inputs)];
      var line := LineAfterAll([], typed, limit);
      var shown := ScreenAfterAll(old(console.State()), [], typed, limit, echo == 1);
      && |line| < buffer.Length && buffer[..|line|] == line && buffer[|line|] == 0
      && console.State() == if echo == 1 then Echo(shown, NEWLINE) else shown
    ensures forall i :: 0 < i < buffer.Length && limit <= i ==> buffer[i] == old(buffer[i])
  {
    ghost var typed := inputs[..UntilEnter(inputs)];
    ghost var line := LineAfterAll([], typed, limit);
    ghost var shown := ScreenAfterAll(console.State(), [], typed, limit, echo == 1);
    var index: nat, i: nat := 0, 0;
    while inputs[i] != Key(ENTER)
      invariant 0 <= i <= UntilEnter(inputs)
      invariant index < buffer.Length && (index == 0 || index < limit)
      invariant InRange(console.State())
      invariant LineAfterAll(buffer[..index], typed[i..], limit) == line
      invariant ScreenAfterAll(console.State(), buffer[..index], typed[i..], limit, echo == 1) == shown
      invariant forall i :: 0 <= i < buffer.Length && limit <= i ==> buffer[i] == old(buffer[i])
      decreases |typed| - i
    {
      assert typed[i..][0] == inputs[i] && typed[i..][1..] == typed[i + 1..];
      index := TakeInput(console, buffer, limit, echo, inputs[i], index);
      i := i + 1;
    }
    assert typed[i..] == [];
    if echo == 1 {
      EchoCharacter(console, NEWLINE);
    }
    buffer[index] := 0;
  }
}
