/** The timer draws and erases a cursor between, and even inside, the console's own writes. */
module CursorBlink {
  import opened Bytes
  import opened Kernel
  import opened Screen
  import opened Terminal

  function Glyph(on: bool): byte {
    if on then UNDERSCORE else SPACE
  }

  /** `console_update_cursor`. */
  function Blinked(s: Screen, on: bool): (r: Screen)
    requires Sized(s) && 0 <= s.cursor <= |s.cells|
    ensures Sized(r)
  {
    AreaHoldsRow(s.rows, s.cols);
    Put(Checked(s), Checked(s).cursor, Glyph(on))
  }

  /** Two screens that differ at most in the cell under their common cursor. */
  predicate SameButCursor(a: Screen, b: Screen) {
    && a.rows == b.rows && a.cols == b.cols && a.cursor == b.cursor && a.color == b.color && |a.cells| == |b.cells|
    && forall i :: 0 <= i < |a.cells| && i != a.cursor ==> a.cells[i] == b.cells[i]
  }

  datatype Event = Character(c: byte) | Blink(on: bool)

  predicate Harmless(s: Screen, events: seq<Event>)
    decreases |events|
  {
    InRange(s) && (events == [] || Harmless(After(s, events[0]), events[1..]))
  }

  function After(s: Screen, e: Event): (r: Screen)
    requires InRange(s)
  {
    match e
    case Character(c) => Written(s, c)
    case Blink(on) => Blinked(s, on)
  }

  function AfterAll(s: Screen, events: seq<Event>): Screen
    requires Harmless(s, events)
    decreases |events|
  {
    if events == [] then s else AfterAll(After(s, events[0]), events[1..])
  }

  /** The same run with the cursor never drawn. */
  function Characters(events: seq<Event>): (text: seq<byte>)
    decreases |events|
  {
    if events == [] then []
    else if events[0].Character? then [events[0].c] + Characters(events[1..])
    else Characters(events[1..])
  }

  lemma BlinkChangesOneCell(s: Screen, on: bool)
    requires InRange(s)
    ensures InRange(Blinked(s, on)) && SameButCursor(s, Blinked(s, on))
  {
  }

  /** Writing hides the difference, or leaves it under the cursor. */
  lemma WritingKeepsSame(a: Screen, b: Screen, character: byte)
    requires InRange(a) && InRange(b) && SameButCursor(a, b)
    ensures SameButCursor(Written(a, character), Written(b, character))
  {
    assert Put(a, a.cursor, SPACE).cells == Put(b, b.cursor, SPACE).cells;
    assert Put(a, a.cursor, character).cells == Put(b, b.cursor, character).cells;
  }

  /** Any number of blinks, anywhere between characters, change at most the cell under the cursor: never its
      position, nor any other cell, nor whether the run stays inside the buffer. */
  lemma {:induction false} BlinksDoNotInterfere(a: Screen, b: Screen, events: seq<Event>)
    requires InRange(a) && InRange(b) && a.rows <= 127 && SameButCursor(a, b)
    ensures Harmless(a, events) && Safe(b, Characters(events))
    ensures SameButCursor(AfterAll(a, events), Shown(b, Characters(events)))
    decreases |events|
  {
    if events != [] {
      match events[0]
      case Character(c) =>
        WritingKeepsSame(a, b, c);
        StaysInRange(a, c);
        StaysInRange(b, c);
        hide Written;
        BlinksDoNotInterfere(Written(a, c), Written(b, c), events[1..]);
        assert Characters(events)[1..] == Characters(events[1..]);
      case Blink(on) =>
        BlinkChangesOneCell(a, on);
        hide Written, Blinked;
        BlinksDoNotInterfere(Blinked(a, on), b, events[1..]);
    }
  }

  // ---------------------------------------------------------------------------
  // Interrupts inside `console_write_char`
  // ---------------------------------------------------------------------------

  /** The separate assignments of `console_write_char` and `console_check_scroll`. */
  datatype Micro = PutHere(c: byte) | MoveTo(cursor: int) | TestFull | RollIfFull | BackIfFull

  /** The shape shared by a new line and an ordinary character: put, move, check for the end of the buffer. */
  function Full(w: byte, d: int): (program: seq<Micro>)
    ensures |program| == 5
  {
    [PutHere(w), MoveTo(d), TestFull, RollIfFull, BackIfFull]
  }

  /** The shape of a carriage return: put, then move back. */
  function Return(d: int): (program: seq<Micro>)
    ensures |program| == 2
  {
    [PutHere(SPACE), MoveTo(d)]
  }

  /** The shape of a backspace: put, move back, put. */
  function Erase(d: int): (program: seq<Micro>)
    ensures |program| == 3
  {
    [PutHere(SPACE), MoveTo(d), PutHere(SPACE)]
  }

  /** A write in progress: the screen, and the outcome of the test in `console_check_scroll`. */
  datatype Progress = Progress(screen: Screen, full: bool)

  function Program(s: Screen, character: byte): (program: seq<Micro>)
    requires InRange(s)
  {
    if character == NEWLINE then Full(SPACE, BelowOffset(s))
    else if character == CARRIAGE_RETURN then Return(StartOffset(s))
    else if character == BACKSPACE then if s.cursor > 0 then Erase(s.cursor - 1) else []
    else Full(character, s.cursor + 1)
  }

  function Stepped(p: Progress, m: Micro): (r: Progress)
    requires Sized(p.screen)
    ensures Sized(r.screen)
  {
    var s := p.screen;
    AreaHoldsRow(s.rows, s.cols);
    match m
    case PutHere(c) => if 0 <= s.cursor < |s.cells| then p.(screen := Put(s, s.cursor, c)) else p
    case MoveTo(cursor) => p.(screen := s.(cursor := cursor))
    case TestFull => p.(full := s.cursor == |s.cells|)
    case RollIfFull => if p.full then p.(screen := s.(cells := Rolled(s.cells, s.cols))) else p
    case BackIfFull => if p.full then p.(screen := s.(cursor := s.cursor - s.cols)) else p
  }

  /** Steps `from` to `to` of a program. */
  function Executed(p: Progress, program: seq<Micro>, from: nat, to: nat): (r: Progress)
    requires Sized(p.screen) && from <= to <= |program|
    ensures Sized(r.screen)
    decreases |program| - from
  {
    if from == to then p else Executed(Stepped(p, program[from]), program, from + 1, to)
  }

  /** A program interrupted after `k` steps by the timer's cursor update. */
  function InterruptedProgram(s: Screen, program: seq<Micro>, k: nat, on: bool): Screen
    requires Sized(s) && k <= |program|
  {
    var p := Executed(Progress(s, false), program, 0, k);
    if 0 <= p.screen.cursor <= |p.screen.cells| then
      Executed(p.(screen := Blinked(p.screen, on)), program, k, |program|).screen
    else p.screen
  }

  /** `console_write_char` interrupted after `k` of its assignments. */
  function Interrupted(s: Screen, character: byte, k: nat, on: bool): Screen
    requires InRange(s) && k <= |Program(s, character)|
  {
    InterruptedProgram(s, Program(s, character), k, on)
  }

  /** The character takes the cursor past the last cell. */
  predicate Fills(s: Screen, character: byte)
    requires InRange(s)
  {
    if character == NEWLINE then s.cursor / s.cols + 1 == s.rows else Ordinary(character) && s.cursor + 1 == |s.cells|
  }

  /** What the write leaves at the cursor it started from. */
  function Left(character: byte): byte {
    if Ordinary(character) then character else SPACE
  }

  /** The starting cell is still on the screen, and no longer under the cursor, when the write is done. */
  predicate Leaves(s: Screen, character: byte)
    requires InRange(s)
  {
    if Fills(s, character) then s.rows > 1
    else if character == CARRIAGE_RETURN then s.cursor % s.cols != 0
    else character != BACKSPACE || s.cursor > 0
  }

  lemma RollAndBack(p: Progress, w: byte, d: int)
    requires Sized(p.screen)
    ensures Executed(p, Full(w, d), 4, 5) == Stepped(p, BackIfFull)
    ensures Executed(p, Full(w, d), 3, 5) == Stepped(Stepped(p, RollIfFull), BackIfFull)
  {
    var rolled := Stepped(p, RollIfFull);
    assert Executed(rolled, Full(w, d), 4, 5) == Executed(Stepped(rolled, BackIfFull), Full(w, d), 5, 5);
  }

  lemma TestOnwards(p: Progress, w: byte, d: int)
    requires Sized(p.screen)
    ensures Executed(p, Full(w, d), 2, 5).screen == Checked(p.screen)
  {
    RollAndBack(Stepped(p, TestFull), w, d);
  }

  lemma MoveOnwards(p: Progress, w: byte, d: int)
    requires Sized(p.screen)
    ensures Executed(p, Full(w, d), 1, 5).screen == Checked(p.screen.(cursor := d))
  {
    TestOnwards(Stepped(p, MoveTo(d)), w, d);
  }

  lemma PutOnwards(p: Progress, w: byte, d: int)
    requires InRange(p.screen)
    ensures Executed(p, Full(w, d), 0, 5).screen == Checked(Put(p.screen, p.screen.cursor, w).(cursor := d))
  {
    MoveOnwards(Stepped(p, PutHere(w)), w, d);
  }

  lemma UpTo(s: Screen, w: byte, d: int, k: nat)
    requires InRange(s) && 1 <= k <= 4
    ensures var moved := Put(s, s.cursor, w).(cursor := d);
      Executed(Progress(s, false), Full(w, d), 0, k) ==
        if k == 1 then Progress(Put(s, s.cursor, w), false)
        else if k == 2 then Progress(moved, false)
        else if k == 3 then Progress(moved, d == |s.cells|)
        else Stepped(Progress(moved, d == |s.cells|), RollIfFull)
  {
    var put := Progress(Put(s, s.cursor, w), false);
    var moved := Progress(put.screen.(cursor := d), false);
    var tested := moved.(full := d == |s.cells|);
    assert Executed(Progress(s, false), Full(w, d), 0, k) == Executed(put, Full(w, d), 1, k);
    if k >= 2 {
      assert Executed(put, Full(w, d), 1, k) == Executed(moved, Full(w, d), 2, k);
    }
    if k >= 3 {
      assert Executed(moved, Full(w, d), 2, k) == Executed(tested, Full(w, d), 3, k);
    }
    if k == 4 {
      assert Executed(tested, Full(w, d), 3, k) == Executed(Stepped(tested, RollIfFull), Full(w, d), 4, k);
    }
  }

  /** `console_write_char` for a character of that shape. */
  function Done(s: Screen, w: byte, d: int): (r: Screen)
    requires InRange(s)
    ensures Sized(r)
  {
    Checked(Put(s, s.cursor, w).(cursor := d))
  }

  lemma InterruptBefore(s: Screen, w: byte, d: int, on: bool)
    requires InRange(s)
    ensures InterruptedProgram(s, Full(w, d), 0, on) == Done(s, w, d)
  {
    PutOnwards(Progress(Blinked(s, on), false), w, d);
  }

  lemma InterruptAfterPut(s: Screen, w: byte, d: int, on: bool)
    requires InRange(s)
    ensures InterruptedProgram(s, Full(w, d), 1, on) == Done(s, Glyph(on), d)
  {
    UpTo(s, w, d, 1);
    MoveOnwards(Progress(Blinked(Put(s, s.cursor, w), on), false), w, d);
  }

  lemma InterruptAfterMove(s: Screen, w: byte, d: int, on: bool)
    requires InRange(s) && 0 <= d <= |s.cells|
    ensures InRange(Done(s, w, d)) && InterruptedProgram(s, Full(w, d), 2, on) == Blinked(Done(s, w, d), on)
  {
    AreaHoldsRow(s.rows, s.cols);
    UpTo(s, w, d, 2);
    TestOnwards(Progress(Blinked(Put(s, s.cursor, w).(cursor := d), on), false), w, d);
  }

  /** Once the test has been made, the interrupt's own scroll is not noticed, and the buffer rolls twice. */
  lemma InterruptAfterTest(s: Screen, w: byte, d: int, k: nat, on: bool)
    requires InRange(s) && 0 <= d <= |s.cells| && 3 <= k <= 4
    ensures InRange(Done(s, w, d))
    ensures if d < |s.cells| then InterruptedProgram(s, Full(w, d), k, on) == Blinked(Done(s, w, d), on)
            else InterruptedProgram(s, Full(w, d), k, on).cursor == Done(s, w, d).cursor - s.cols
  {
    AreaHoldsRow(s.rows, s.cols);
    UpTo(s, w, d, k);
    var p := Executed(Progress(s, false), Full(w, d), 0, k);
    RollAndBack(p.(screen := Blinked(p.screen, on)), w, d);
  }

  lemma InterruptAfter(s: Screen, w: byte, d: int, on: bool)
    requires InRange(s) && 0 <= d <= |s.cells|
    ensures InRange(Done(s, w, d)) && InterruptedProgram(s, Full(w, d), 5, on) == Blinked(Done(s, w, d), on)
  {
    AreaHoldsRow(s.rows, s.cols);
    PutOnwards(Progress(s, false), w, d);
  }

  /** A different character at the starting cell shows afterwards, unless its row has scrolled away. */
  lemma DifferenceShows(s: Screen, w: byte, g: byte, d: int)
    requires InRange(s) && s.cursor < d <= |s.cells|
    requires d == |s.cells| ==> |s.cells| - s.cols <= s.cursor
    ensures SameButCursor(Done(s, g, d), Done(s, w, d)) <==> (g == w || (d == |s.cells| && s.rows == 1))
  {
    var a, b := Done(s, g, d), Done(s, w, d);
    AreaHoldsRow(s.rows, s.cols);
    if d < |s.cells| {
      assert a.cells[s.cursor] == Cell(g, s.color) && b.cells[s.cursor] == Cell(w, s.color);
    } else if s.rows > 1 {
      TwoRows(s.rows, s.cols);
      var at := s.cursor - s.cols;
      assert a.cells[at] == Cell(g, s.color) && b.cells[at] == Cell(w, s.color);
    } else {
      assert a.cells == b.cells;
    }
  }

  lemma TwoRows(rows: nat, cols: nat)
    requires rows > 1
    ensures Area(rows, cols) >= 2 * cols
  {
    assert rows * cols == 2 * cols + (rows - 2) * cols;
    assert (rows - 2) * cols >= 0;
  }

  /** When the write is one of put, move and check, the interrupt is harmless exactly when it does not fall between
      the put and the move with another glyph, nor between the check and the end of the scroll. */
  lemma FullHarmlessExactly(s: Screen, w: byte, d: int, k: nat, on: bool)
    requires InRange(s) && s.cursor < d <= |s.cells| && k <= 5
    requires d == |s.cells| ==> |s.cells| - s.cols <= s.cursor
    ensures SameButCursor(InterruptedProgram(s, Full(w, d), k, on), Done(s, w, d))
       <==> !((k == 1 && Glyph(on) != w && !(d == |s.cells| && s.rows == 1)) || (3 <= k <= 4 && d == |s.cells|))
  {
    hide InterruptedProgram;
    if k == 0 {
      InterruptBefore(s, w, d, on);
    } else if k == 1 {
      InterruptAfterPut(s, w, d, on);
      DifferenceShows(s, w, Glyph(on), d);
    } else if k == 2 {
      InterruptAfterMove(s, w, d, on);
    } else if k == 5 {
      InterruptAfter(s, w, d, on);
    } else {
      InterruptAfterTest(s, w, d, k, on);
    }
  }

  lemma ReturnSteps(p: Progress, d: int)
    requires Sized(p.screen)
    ensures Executed(p, Return(d), 0, 1) == Stepped(p, PutHere(SPACE))
    ensures Executed(p, Return(d), 1, 2) == Stepped(p, MoveTo(d))
    ensures Executed(p, Return(d), 0, 2) == Stepped(Stepped(p, PutHere(SPACE)), MoveTo(d))
  {
    var put := Stepped(p, PutHere(SPACE));
    assert Executed(put, Return(d), 1, 2) == Executed(Stepped(put, MoveTo(d)), Return(d), 2, 2);
  }

  lemma ReturnHarmlessExactly(s: Screen, d: int, k: nat, on: bool)
    requires InRange(s) && 0 <= d <= s.cursor && k <= 2
    ensures SameButCursor(InterruptedProgram(s, Return(d), k, on), Put(s, s.cursor, SPACE).(cursor := d))
       <==> !(k == 1 && Glyph(on) != SPACE && d != s.cursor)
  {
    var p := Progress(s, false);
    var r := InterruptedProgram(s, Return(d), k, on);
    ReturnSteps(p, d);
    if k == 0 {
      ReturnSteps(p.(screen := Blinked(s, on)), d);
    } else if k == 1 {
      var put := Stepped(p, PutHere(SPACE));
      ReturnSteps(put.(screen := Blinked(put.screen, on)), d);
      assert r.cells[s.cursor] == Cell(Glyph(on), s.color);
    }
  }

  lemma EraseSteps(p: Progress, d: int)
    requires Sized(p.screen)
    ensures Executed(p, Erase(d), 2, 3) == Stepped(p, PutHere(SPACE))
    ensures Executed(p, Erase(d), 1, 3) == Stepped(Stepped(p, MoveTo(d)), PutHere(SPACE))
    ensures Executed(p, Erase(d), 0, 1) == Stepped(p, PutHere(SPACE))
    ensures Executed(p, Erase(d), 0, 2) == Stepped(Stepped(p, PutHere(SPACE)), MoveTo(d))
  {
    var put, moved := Stepped(p, PutHere(SPACE)), Stepped(p, MoveTo(d));
    assert Executed(moved, Erase(d), 2, 3) == Executed(Stepped(moved, PutHere(SPACE)), Erase(d), 3, 3);
    assert Executed(put, Erase(d), 1, 2) == Executed(Stepped(put, MoveTo(d)), Erase(d), 2, 2);
  }

  lemma WholeErase(p: Progress, d: int)
    requires Sized(p.screen)
    ensures Executed(p, Erase(d), 0, 3) == Stepped(Stepped(Stepped(p, PutHere(SPACE)), MoveTo(d)), PutHere(SPACE))
  {
    EraseSteps(Stepped(p, PutHere(SPACE)), d);
  }

  lemma BackspaceHarmlessExactly(s: Screen, k: nat, on: bool)
    requires InRange(s) && s.cursor > 0 && k <= 3
    ensures SameButCursor(InterruptedProgram(s, Erase(s.cursor - 1), k, on), Written(s, BACKSPACE))
       <==> !(k == 1 && Glyph(on) != SPACE)
  {
    var p, d := Progress(s, false), s.cursor - 1;
    var r := InterruptedProgram(s, Erase(d), k, on);
    EraseSteps(p, d);
    WholeErase(p, d);
    if k == 0 {
      WholeErase(p.(screen := Blinked(s, on)), d);
    } else if k == 1 {
      var put := Stepped(p, PutHere(SPACE));
      EraseSteps(put.(screen := Blinked(put.screen, on)), d);
      assert r.cells[s.cursor] == Cell(Glyph(on), s.color);
    } else if k == 2 {
      var moved := Stepped(Stepped(p, PutHere(SPACE)), MoveTo(d));
      EraseSteps(moved.(screen := Blinked(moved.screen, on)), d);
    }
  }

  lemma ErasesOnwards(s: Screen)
    requires InRange(s) && s.cursor > 0
    ensures Executed(Progress(s, false), Erase(s.cursor - 1), 0, 3).screen == Written(s, BACKSPACE)
  {
    WholeErase(Progress(s, false), s.cursor - 1);
  }

  lemma ReturnsOnwards(s: Screen, d: int)
    requires InRange(s)
    ensures Executed(Progress(s, false), Return(d), 0, 2).screen == Put(s, s.cursor, SPACE).(cursor := d)
  {
    ReturnSteps(Progress(s, false), d);
  }

  lemma PutsOnwards(s: Screen, w: byte, d: int)
    requires InRange(s)
    ensures Executed(Progress(s, false), Full(w, d), 0, 5).screen == Done(s, w, d)
  {
    PutOnwards(Progress(s, false), w, d);
  }

  /** Without an interrupt the assignments are `console_write_char`. */
  lemma ProgramWrites(s: Screen, character: byte)
    requires InRange(s) && s.rows <= 127
    ensures Executed(Progress(s, false), Program(s, character), 0, |Program(s, character)|).screen ==
        Written(s, character)
  {
    hide BelowOffset, StartOffset, Area, Executed, Checked, Stepped, Full, Return, Erase, Put;
    if character == NEWLINE {
      PutsOnwards(s, SPACE, BelowOffset(s));
    } else if character == CARRIAGE_RETURN {
      ReturnsOnwards(s, StartOffset(s));
    } else if character == BACKSPACE {
      if s.cursor > 0 {
        ErasesOnwards(s);
      } else {
        NothingToDo(s);
      }
    } else {
      PutsOnwards(s, character, s.cursor + 1);
    }
  }

  lemma NothingToDo(s: Screen)
    requires InRange(s)
    ensures Executed(Progress(s, false), [], 0, 0).screen == s
  {
  }

  /** An interrupt after `k` assignments spoils the write. */
  predicate Spoils(s: Screen, character: byte, k: nat, on: bool)
    requires InRange(s)
  {
    || (k == 1 && Glyph(on) != Left(character) && Leaves(s, character))
    || (3 <= k <= 4 && Fills(s, character))
  }

  lemma NewlineRow(s: Screen)
    requires InRange(s) && s.rows <= 127
    ensures var d := BelowOffset(s);
      && s.cursor < d <= |s.cells|
      && (d == |s.cells| <==> s.cursor / s.cols + 1 == s.rows) && (d == |s.cells| ==> |s.cells| - s.cols <= s.cursor)
  {
    var row := s.cursor / s.cols;
    RowInside(s.cursor, s.rows, s.cols);
    SmallChar(row + 1);
    NextRow(s.cursor, s.cols);
    assert (row + 1) * s.cols == row * s.cols + s.cols;
    if row + 1 < s.rows {
      RowBelow(s.rows, s.cols, row + 1);
    }
  }

  lemma ReturnRow(s: Screen)
    requires InRange(s) && s.rows <= 127
    ensures var d := StartOffset(s);
      0 <= d <= s.cursor && (d == s.cursor <==> s.cursor % s.cols == 0)
  {
    var row := s.cursor / s.cols;
    RowInside(s.cursor, s.rows, s.cols);
    SmallChar(row);
    assert s.cursor == row * s.cols + s.cursor % s.cols;
  }

  /** Inside `console_write_char` the cursor's timer is harmless exactly outside two windows: between the character
      being put and the cursor leaving it, and between the test for a full buffer and the end of the scroll. */
  lemma InterruptHarmlessExactly(s: Screen, character: byte, k: nat, on: bool)
    requires InRange(s) && s.rows <= 127 && k <= |Program(s, character)|
    ensures SameButCursor(Interrupted(s, character, k, on), Written(s, character)) <==> !Spoils(s, character, k, on)
  {
    hide InterruptedProgram, BelowOffset, StartOffset, Area;
    NewlineRow(s);
    ReturnRow(s);
    if character == NEWLINE {
      FullHarmlessExactly(s, SPACE, BelowOffset(s), k, on);
    } else if character == CARRIAGE_RETURN {
      ReturnHarmlessExactly(s, StartOffset(s), k, on);
    } else if character == BACKSPACE {
      if s.cursor > 0 {
        BackspaceHarmlessExactly(s, k, on);
      } else {
        NothingToInterrupt(s, on);
      }
    } else {
      FullHarmlessExactly(s, character, s.cursor + 1, k, on);
    }
  }

  lemma NothingToInterrupt(s: Screen, on: bool)
    requires InRange(s)
    ensures SameButCursor(InterruptedProgram(s, [], 0, on), s)
  {
  }
}
