/** The screen console as a value: a buffer of cells, a cursor, and what each character does to them. */
module Screen {
  import opened Bytes
  import opened Kernel

  datatype Color = Color(red: byte, green: byte, blue: byte)

  datatype Cell = Cell(character: byte, color: Color)

  datatype Screen = Screen(rows: nat, cols: nat, cells: seq<Cell>, cursor: int, color: Color)

  /** What `memset(.., 0, ..)` leaves in the row that scrolls in. */
  const CLEARED: Cell := Cell(0, Color(0, 0, 0))

  function Area(rows: nat, cols: nat): nat {
    rows * cols
  }

  predicate Sized(s: Screen) {
    s.rows > 0 && s.cols > 0 && |s.cells| == Area(s.rows, s.cols)
  }

  /** The cursor is on a cell: the states in which a character can be written without leaving the buffer. */
  predicate InRange(s: Screen) {
    Sized(s) && 0 <= s.cursor < |s.cells|
  }

  lemma AreaHoldsRow(rows: nat, cols: nat)
    requires rows > 0
    ensures cols <= Area(rows, cols)
  {
    MulAtLeast(rows, cols);
  }

  function ClearedRow(cols: nat): (row: seq<Cell>)
    ensures |row| == cols
  {
    seq(cols, _ => CLEARED)
  }

  /** The buffer one row up, with a cleared row at the bottom. */
  function Rolled(cells: seq<Cell>, cols: nat): (r: seq<Cell>)
    requires cols <= |cells|
    ensures |r| == |cells|
  {
    cells[cols..] + ClearedRow(cols)
  }

  /** `console_check_scroll`. */
  function Checked(s: Screen): (r: Screen)
    requires Sized(s)
    ensures Sized(r) && r.rows == s.rows && r.cols == s.cols && r.color == s.color
  {
    AreaHoldsRow(s.rows, s.cols);
    if s.cursor == |s.cells| then s.(cells := Rolled(s.cells, s.cols), cursor := s.cursor - s.cols) else s
  }

  /** `console_put_char_fixed` inside the buffer, in the current colour. */
  function Put(s: Screen, offset: int, character: byte): Screen
    requires 0 <= offset < |s.cells|
  {
    s.(cells := s.cells[offset := Cell(character, s.color)])
  }

  /** A value passed as a C `char`. */
  function SignedChar(x: int): (r: int)
    ensures -0x80 <= r < 0x80 && (x - r) % 0x100 == 0
  {
    var low := x % 0x100;
    if low < 0x80 then low else low - 0x100
  }

  /** `console_get_offset`, whose row and column are `char`s. */
  function OffsetOf(row: int, col: int, cols: nat): (offset: int)
    ensures 0 <= row < 0x80 && 0 <= col < 0x80 ==> offset == row * cols + col
  {
    SignedChar(row) * cols + SignedChar(col)
  }

  /** Where a new line puts the cursor: the row below, column 0. */
  function BelowOffset(s: Screen): int
    requires s.cols > 0
  {
    OffsetOf(s.cursor / s.cols + 1, 0, s.cols)
  }

  /** Where a carriage return puts the cursor. */
  function StartOffset(s: Screen): int
    requires s.cols > 0
  {
    OffsetOf(s.cursor / s.cols, 0, s.cols)
  }

  /** `console_write_char`. */
  function Written(s: Screen, character: byte): (r: Screen)
    requires InRange(s)
    ensures Sized(r) && r.rows == s.rows && r.cols == s.cols && r.color == s.color
  {
    if character == NEWLINE then
      Checked(Put(s, s.cursor, SPACE).(cursor := BelowOffset(s)))
    else if character == CARRIAGE_RETURN then
      Put(s, s.cursor, SPACE).(cursor := StartOffset(s))
    else if character == BACKSPACE then
      if s.cursor > 0 then Put(Put(s, s.cursor, SPACE), s.cursor - 1, SPACE).(cursor := s.cursor - 1) else s
    else
      Checked(Put(s, s.cursor, character).(cursor := s.cursor + 1))
  }

  /** Every character of `text` finds the cursor on a cell, and the last one leaves it there. */
  predicate Safe(s: Screen, text: seq<byte>)
    decreases |text|
  {
    InRange(s) && (text == [] || Safe(Written(s, text[0]), text[1..]))
  }

  /** `console_init`: the fill byte is a space, so every byte of every cell is 0x20. */
  function Initial(rows: nat, cols: nat): (s: Screen)
    ensures rows > 0 && cols > 0 ==> Sized(s)
  {
    Screen(rows, cols, seq(Area(rows, cols), _ => Cell(SPACE, Color(0x20, 0x20, 0x20))), 0, Color(0xAA, 0xAA, 0xAA))
  }

  // ---------------------------------------------------------------------------
  // Which screens are safe
  // ---------------------------------------------------------------------------

  lemma SmallChar(row: nat)
    ensures row < 0x80 ==> SignedChar(row) == row
    ensures SignedChar(0) == 0
  {
  }

  lemma RowsAtLeast(row: nat, rows: nat, cols: nat)
    requires row >= rows
    ensures row * cols >= rows * cols
  {
    assert row * cols == rows * cols + (row - rows) * cols;
    assert (row - rows) * cols >= 0;
  }

  lemma RowInside(cursor: nat, rows: nat, cols: nat)
    requires cols > 0 && cursor < Area(rows, cols)
    ensures cursor / cols < rows
    ensures 0 <= cursor / cols * cols <= cursor && (cursor / cols + 1) * cols <= Area(rows, cols)
  {
    var row := cursor / cols;
    assert cursor == row * cols + cursor % cols;
    if row >= rows {
      RowsAtLeast(row, rows, cols);
    }
    assert (row + 1) * cols == row * cols + cols;
    assert rows * cols == (row + 1) * cols + (rows - (row + 1)) * cols;
    assert (rows - (row + 1)) * cols >= 0;
  }

  /** On up to 127 rows the cursor never leaves the buffer. */
  lemma StaysInRange(s: Screen, character: byte)
    requires InRange(s) && s.rows <= 127
    ensures InRange(Written(s, character))
  {
    var row := s.cursor / s.cols;
    AreaHoldsRow(s.rows, s.cols);
    RowInside(s.cursor, s.rows, s.cols);
    SmallChar(row);
    SmallChar(row + 1);
    assert OffsetOf(row, 0, s.cols) == row * s.cols;
    assert OffsetOf(row + 1, 0, s.cols) == (row + 1) * s.cols;
  }

  lemma {:induction false} AlwaysSafe(s: Screen, text: seq<byte>)
    requires InRange(s) && s.rows <= 127
    ensures Safe(s, text)
    decreases |text|
  {
    if text != [] {
      StaysInRange(s, text[0]);
      AlwaysSafe(Written(s, text[0]), text[1..]);
    }
  }

  function Newlines(n: nat): (text: seq<byte>)
    ensures |text| == n
  {
    seq(n, _ => NEWLINE)
  }

  lemma NewlineDescends(s: Screen, row: nat)
    requires Sized(s) && s.rows >= 128 && row < 127 && s.cursor == row * s.cols
    ensures InRange(s) && Written(s, NEWLINE).cursor == (row + 1) * s.cols
    ensures row == 126 ==> InRange(Written(s, NEWLINE))
  {
    RowBelow(s.rows, s.cols, row);
    RowBelow(s.rows, s.cols, row + 1);
    ModUnique(s.cursor, s.cols, row, 0);
    SmallChar(row + 1);
    assert OffsetOf(row + 1, 0, s.cols) == (row + 1) * s.cols;
  }

  lemma RowBelow(rows: nat, cols: nat, row: nat)
    requires row < rows && cols > 0
    ensures 0 <= row * cols < Area(rows, cols)
  {
    assert rows * cols == row * cols + (rows - row) * cols;
    MulAtLeast(rows - row, cols);
  }

  lemma RowWraps(s: Screen)
    requires Sized(s) && s.rows >= 128 && s.cursor == 127 * s.cols
    ensures InRange(s) && Written(s, NEWLINE).cursor < 0
  {
    RowBelow(s.rows, s.cols, 127);
    ModUnique(s.cursor, s.cols, 127, 0);
    assert SignedChar(128) == -128;
    assert OffsetOf(128, 0, s.cols) == -128 * s.cols;
  }

  /** From row `row`, enough newlines reach row 127, and the next one sends the cursor to row -128. */
  lemma {:induction false} NewlinesEscape(s: Screen, row: nat)
    requires Sized(s) && s.rows >= 128 && row <= 127 && s.cursor == row * s.cols
    ensures !Safe(s, Newlines(128 - row))
    decreases 127 - row
  {
    var text := Newlines(128 - row);
    if row == 127 {
      RowWraps(s);
      assert text[1..] == [];
    } else {
      NewlineDescends(s, row);
      NewlinesEscape(Written(s, NEWLINE), row + 1);
      assert text[1..] == Newlines(128 - (row + 1));
    }
  }

  /** A console stays inside its buffer for every stream exactly when it has at most 127 rows: the row passed to
      `console_get_offset` is a `char`. */
  lemma SafeExactly(rows: nat, cols: nat)
    requires rows > 0 && cols > 0
    ensures (forall text :: Safe(Initial(rows, cols), text)) <==> rows <= 127
  {
    var s := Initial(rows, cols);
    AreaHoldsRow(rows, cols);
    if rows <= 127 {
      forall text ensures Safe(s, text) {
        AlwaysSafe(s, text);
      }
    } else {
      NewlinesEscape(s, 0);
    }
  }
}
