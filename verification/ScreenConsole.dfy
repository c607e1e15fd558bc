/** The kernel's screen console, updated in place. */
module ScreenConsole {
  import opened Bytes
  import opened Kernel
  import Memory
  import opened Screen
  import opened CursorBlink
  import opened ColourEscapes

  const CHAR_WIDTH: nat := 8
  const CHAR_HEIGHT: nat := 16

  // ---------------------------------------------------------------------------
  // Specification of `console_write`
  // ---------------------------------------------------------------------------

  function Performed(s: Screen, op: Op): (r: Screen)
    requires InRange(s) && s.rows <= 127
    ensures InRange(r) && r.rows == s.rows && r.cols == s.cols
  {
    match op
    case Colour(color) => s.(color := color)
    case Show(c) => StaysInRange(s, c); Written(s, c)
  }

  function PerformedAll(s: Screen, ops: seq<Op>): (r: Screen)
    requires InRange(s) && s.rows <= 127
    ensures InRange(r) && r.rows == s.rows && r.cols == s.cols
    decreases |ops|
  {
    if ops == [] then s else PerformedAll(Performed(s, ops[0]), ops[1..])
  }

  lemma PerformTwo(s: Screen, x: Op, y: Op, rest: seq<Op>)
    requires InRange(s) && s.rows <= 127
    ensures PerformedAll(s, [x, y] + rest) == PerformedAll(Performed(Performed(s, x), y), rest)
  {
    assert ([x, y] + rest)[1..] == [y] + rest && ([y] + rest)[1..] == rest;
  }

  lemma PerformOne(s: Screen, x: Op, rest: seq<Op>)
    requires InRange(s) && s.rows <= 127
    ensures PerformedAll(s, [x] + rest) == PerformedAll(Performed(s, x), rest)
  {
    assert ([x] + rest)[1..] == rest;
  }

  /** The escape at the start of `rest`, if there is one. */
  ghost predicate Leads(rest: seq<byte>, size: nat, color: Color, current: Color)
    requires rest != []
  {
    if rest[0] == ESCAPE then Escape(rest) == Some((color, size)) else size == 0 && color == current
  }

  lemma ParseBegins(rest: seq<byte>, length: int)
    requires length > 0 && Parse(rest, length).Some?
    ensures rest != [] && (rest[0] == ESCAPE ==> Escape(rest).Some?)
  {
  }

  /** One turn of the loop of `console_write`. */
  lemma ParseStep(s: Screen, rest: seq<byte>, length: int, size: nat, color: Color)
    requires InRange(s) && s.rows <= 127 && length > 0 && Parse(rest, length).Some?
    requires rest != [] && Leads(rest, size, color, s.color)
    ensures size < |rest| && Parse(rest[size + 1..], length - size - 1).Some?
    ensures PerformedAll(s, Parse(rest, length).value)
         == PerformedAll(Performed(s.(color := color), Show(rest[size])),
                         Parse(rest[size + 1..], length - size - 1).value)
  {
    var more := Parse(rest[size + 1..], length - size - 1).value;
    if rest[0] == ESCAPE {
      PerformTwo(s, Colour(color), Show(rest[size]), more);
    } else {
      PerformOne(s, Show(rest[0]), more);
    }
  }

  // ---------------------------------------------------------------------------
  // Cells as bytes
  // ---------------------------------------------------------------------------

  /** A cell in memory: four bytes. */
  function CellBytes(c: Cell): (b: seq<byte>)
    ensures |b| == 4
  {
    [c.character, c.color.red, c.color.green, c.color.blue]
  }

  function CellsBytes(cells: seq<Cell>): (b: seq<byte>)
    ensures |b| == 4 * |cells|
    decreases |cells|
  {
    if cells == [] then [] else CellBytes(cells[0]) + CellsBytes(cells[1..])
  }

  lemma {:induction false} BytesOfConcat(a: seq<Cell>, b: seq<Cell>)
    ensures CellsBytes(a + b) == CellsBytes(a) + CellsBytes(b)
    decreases |a|
  {
    if a == [] {
      assert a + b == b;
    } else {
      BytesOfConcat(a[1..], b);
      assert (a + b)[1..] == a[1..] + b;
    }
  }

  lemma {:induction false} BytesOfCleared(cols: nat)
    ensures CellsBytes(ClearedRow(cols)) == Zeros(4 * cols)
  {
    if cols > 0 {
      BytesOfCleared(cols - 1);
      assert ClearedRow(cols)[1..] == ClearedRow(cols - 1);
      assert Zeros(4 * cols) == [0, 0, 0, 0] + Zeros(4 * (cols - 1));
    }
  }

  lemma TwoSplices(mem: seq<byte>, back: seq<byte>, tail: seq<byte>)
    requires |mem| == |back| + |tail|
    ensures Splice(Splice(mem, 0, back), |back|, tail) == back + tail
  {
  }

  lemma CopyDown(mem: seq<byte>, src: nat)
    requires src <= |mem|
    ensures Memory.KernelCopy(mem, src, 0, |mem| - src) == Splice(mem, 0, mem[src..])
  {
    hide Memory.KernelCopy, Memory.CopyBytes, Splice;
    Memory.KernelIsBytewise(mem, src, 0, |mem| - src);
    Memory.CopyBytesMoves(mem, src, 0, |mem| - src);
    assert mem[src..|mem|] == mem[src..];
  }

  lemma BytesFrom(cells: seq<Cell>, cols: nat)
    requires cols <= |cells|
    ensures CellsBytes(cells)[4 * cols..] == CellsBytes(cells[cols..])
  {
    assert cells == cells[..cols] + cells[cols..];
    BytesOfConcat(cells[..cols], cells[cols..]);
  }

  /** The kernel's `memcpy` and `memset`, applied to the bytes of the buffer, are the roll of its cells. */
  lemma ScrollIsMemcpy(cells: seq<Cell>, cols: nat)
    requires cols <= |cells|
    ensures var kept := 4 * (|cells| - cols);
      Splice(Memory.KernelCopy(CellsBytes(cells), 4 * cols, 0, kept), kept, Zeros(4 * cols)) ==
        CellsBytes(Rolled(cells, cols))
  {
    CopyDown(CellsBytes(cells), 4 * cols);
    BytesFrom(cells, cols);
    BytesOfConcat(cells[cols..], ClearedRow(cols));
    BytesOfCleared(cols);
    TwoSplices(CellsBytes(cells), CellsBytes(cells[cols..]), Zeros(4 * cols));
    hide Splice, CellsBytes, Memory.KernelCopy, Zeros;
  }

  // ---------------------------------------------------------------------------
  // The console
  // ---------------------------------------------------------------------------

  class Console {
    const rows: nat
    const cols: nat
    const cells: array<Cell>
    var cursor: int
    var currentColor: Color

    ghost function State(): Screen
      reads this, cells
    {
      Screen(rows, cols, cells[..], cursor, currentColor)
    }

    /** `console_init`. */
    constructor (width: nat, height: nat)
      ensures State() == Initial(height / CHAR_HEIGHT, width / CHAR_WIDTH) && fresh(cells)
    {
      rows := height / CHAR_HEIGHT;
      cols := width / CHAR_WIDTH;
      cells := new Cell[Area(height / CHAR_HEIGHT, width / CHAR_WIDTH)](_ => Cell(SPACE, Color(0x20, 0x20, 0x20)));
      cursor := 0;
      currentColor := Color(0xAA, 0xAA, 0xAA);
    }

    /** The copy of `console_scroll`: cells move up one after the other, since a cell is one dword (see
        `ScrollIsMemcpy`). */
    method MoveRowsUp()
      requires cols <= cells.Length
      modifies cells
      ensures cells[..] == old(cells[cols..]) + old(cells[cells.Length - cols..])
    {
      ghost var was, moved := cells[..], cells[cols..];
      for i := 0 to cells.Length - cols
        invariant forall k :: 0 <= k < i ==> cells[k] == moved[k]
        invariant forall k :: i <= k < cells.Length ==> cells[k] == was[k]
      {
        cells[i] := cells[i + cols];
      }
    }

    method ClearLastRow()
      requires cols <= cells.Length
      modifies cells
      ensures cells[..] == old(cells[..cells.Length - cols]) + ClearedRow(cols)
    {
      ghost var was := cells[..];
      for i := cells.Length - cols to cells.Length
        invariant forall k :: 0 <= k < cells.Length ==>
          cells[k] == if cells.Length - cols <= k < i then CLEARED else was[k]
      {
        cells[i] := CLEARED;
      }
    }

    /** `console_scroll`. */
    method Scroll()
      requires cols <= cells.Length
      modifies cells
      ensures cells[..] == Rolled(old(cells[..]), cols)
    {
      ghost var was := cells[..];
      MoveRowsUp();
      assert (was[cols..] + was[cells.Length - cols..])[..cells.Length - cols] == was[cols..];
      ClearLastRow();
    }

    /** `console_check_scroll`. */
    method CheckScroll()
      requires Sized(State())
      modifies this`cursor, cells
      ensures State() == Checked(old(State()))
    {
      AreaHoldsRow(rows, cols);
      if cursor == cells.Length {
        Scroll();
        cursor := cursor - cols;
      }
    }

    /** `console_put_char_fixed`. Past the buffer it resets the cursor and dies. */
    method PutCharFixed(offset: nat, character: byte, color: Color) returns (died: bool)
      modifies this`cursor, cells
      ensures died == (offset >= cells.Length)
      ensures State() == if died then old(State()).(cursor := 0)
                         else old(State()).(cells := old(cells[..])[offset := Cell(character, color)])
    {
      died := offset >= cells.Length;
      if died {
        cursor := 0;
        return;
      }
      cells[offset] := Cell(character, color);
    }

    /** `console_write_char`. From a cursor inside the buffer, on any number of rows, it never dies. */
    method WriteChar(character: byte) returns (died: bool)
      requires InRange(State())
      modifies this`cursor, cells
      ensures !died && State() == Written(old(State()), character)
      ensures rows <= 127 ==> InRange(State())
    {
      if rows <= 127 {
        StaysInRange(State(), character);
      }
      if character == NEWLINE {
        var row := cursor / cols;
        died := PutCharFixed(cursor, SPACE, currentColor);
        cursor := OffsetOf(row + 1, 0, cols);
        CheckScroll();
      } else if character == CARRIAGE_RETURN {
        var row := cursor / cols;
        died := PutCharFixed(cursor, SPACE, currentColor);
        cursor := OffsetOf(row, 0, cols);
      } else if character == BACKSPACE {
        died := false;
        if cursor > 0 {
          died := PutCharFixed(cursor, SPACE, currentColor);
          cursor := cursor - 1;
          died := PutCharFixed(cursor, SPACE, currentColor);
        }
      } else {
        died := PutCharFixed(cursor, character, currentColor);
        cursor := cursor + 1;
        CheckScroll();
      }
    }

    /** `console_update_cursor`, as the timer calls it. */
    method UpdateCursor(on: bool) returns (died: bool)
      requires Sized(State()) && 0 <= cursor <= cells.Length
      modifies this`cursor, cells
      ensures !died && State() == Blinked(old(State()), on)
      ensures 0 <= cursor < cells.Length && cells[cursor] == Cell(if on then '_' as int else ' ' as int, currentColor)
    {
      AreaHoldsRow(rows, cols);
      CheckScroll();
      if on {
        died := PutCharFixed(cursor, UNDERSCORE, currentColor);
      } else {
        died := PutCharFixed(cursor, SPACE, currentColor);
      }
    }

    /** The part of `console_write` that steps over an escape. */
    method SkipEscape(data: seq<byte>, at: nat) returns (i: nat, color: Color)
      requires at < |data| && (data[at] == ESCAPE ==> Escape(data[at..]).Some?)
      ensures at <= i && Leads(data[at..], i - at, color, currentColor)
    {
      i, color := at, currentColor;
      if data[i] == ESCAPE {
        i := i + 2;
        if data[i] == ZERO {
          i := i + 1;
          color := DEFAULT_COLOR;
        } else {
          i := i + 1;
          color := AnsiColor(data[i] - ZERO);
          i := i + 1;
        }
        i := i + 1;
      }
    }

    /** The body of the loop of `console_write`: an escape, if there is one, and the character after it. */
    method WriteNext(data: seq<byte>, at: nat, length: nat) returns (next: nat)
      requires InRange(State()) && rows <= 127 && at < length && at <= |data| && Parse(data[at..], length - at).Some?
      modifies this`cursor, this`currentColor, cells
      ensures at < next <= |data| && InRange(State()) && Parse(data[next..], length - next).Some?
      ensures PerformedAll(State(), Parse(data[next..], length - next).value)
           == PerformedAll(old(State()), Parse(data[at..], length - at).value)
    {
      hide PerformedAll, Escape, Written, Parse;
      ghost var before := State();
      ParseBegins(data[at..], length - at);
      var i, color := SkipEscape(data, at);
      ParseStep(before, data[at..], length - at, i - at, color);
      currentColor := color;
      var died := WriteChar(data[i]);
      assert data[at..][i - at + 1..] == data[i + 1..];
      next := i + 1;
    }

    /** `console_write`: `length` bytes from `data` on, with their colour escapes. */
    method Write(data: seq<byte>, length: nat)
      requires InRange(State()) && rows <= 127 && Parse(data, length).Some?
      modifies this`cursor, this`currentColor, cells
      ensures State() == PerformedAll(old(State()), Parse(data, length).value) && InRange(State())
    {
      ghost var goal := PerformedAll(State(), Parse(data, length).value);
      var i := 0;
      assert data[0..] == data;
      while i < length
        invariant 0 <= i <= |data| && InRange(State())
        invariant Parse(data[i..], length - i).Some?
        invariant PerformedAll(State(), Parse(data[i..], length - i).value) == goal
        decreases |data| - i
      {
        i := WriteNext(data, i, length);
      }
    }
  }
}
