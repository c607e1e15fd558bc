/** The console refines a terminal that never scrolls: one long tape of cells that only grows. */
module Terminal {
  import opened Bytes
  import opened Kernel
  import opened Screen

  /** `pos` is the cursor's place on the tape; the screen shows the last `rows` rows. */
  datatype Terminal = Terminal(rows: nat, cols: nat, tape: seq<Cell>, pos: nat, color: Color)

  function Top(t: Terminal): int {
    |t.tape| - Area(t.rows, t.cols)
  }

  ghost predicate Proper(t: Terminal) {
    t.rows > 0 && t.cols > 0 && |t.tape| % t.cols == 0 && 0 <= Top(t) <= t.pos < |t.tape|
  }

  function PutOnTape(t: Terminal, at: nat, character: byte): Terminal
    requires at < |t.tape|
  {
    t.(tape := t.tape[at := Cell(character, t.color)])
  }

  /** Running off the end of the tape adds a row to it. */
  function Grown(t: Terminal): (g: Terminal)
    ensures g.rows == t.rows && g.cols == t.cols && g.pos == t.pos && g.color == t.color && t.tape <= g.tape
  {
    if t.pos == |t.tape| then t.(tape := t.tape + ClearedRow(t.cols)) else t
  }

  function RowEnd(pos: nat, cols: nat): (end: nat)
    requires cols > 0
    ensures pos < end
  {
    NextRow(pos, cols);
    (pos / cols + 1) * cols
  }

  function RowBegin(pos: nat, cols: nat): (begin: nat)
    requires cols > 0
    ensures begin <= pos
  {
    NextRow(pos, cols);
    pos / cols * cols
  }

  /** One character. Nothing is ever moved, and only a backspace asks where the screen begins. */
  function Typed(t: Terminal, character: byte): Terminal
    requires Proper(t)
  {
    if character == NEWLINE then
      Grown(PutOnTape(t, t.pos, SPACE).(pos := RowEnd(t.pos, t.cols)))
    else if character == CARRIAGE_RETURN then
      PutOnTape(t, t.pos, SPACE).(pos := RowBegin(t.pos, t.cols))
    else if character == BACKSPACE then
      if t.pos > Top(t) then PutOnTape(PutOnTape(t, t.pos, SPACE), t.pos - 1, SPACE).(pos := t.pos - 1) else t
    else
      Grown(PutOnTape(t, t.pos, character).(pos := t.pos + 1))
  }

  lemma NextRow(pos: nat, cols: nat)
    requires cols > 0
    ensures 0 <= pos / cols * cols <= pos < (pos / cols + 1) * cols
  {
    assert pos == pos / cols * cols + pos % cols;
    assert (pos / cols + 1) * cols == pos / cols * cols + cols;
  }

  /** What a terminal shows. */
  function View(t: Terminal): (s: Screen)
    requires Top(t) >= 0
    ensures |s.cells| == Area(t.rows, t.cols)
  {
    Screen(t.rows, t.cols, t.tape[Top(t)..], t.pos - Top(t), t.color)
  }

  // ---------------------------------------------------------------------------
  // One step
  // ---------------------------------------------------------------------------

  lemma PutAgrees(t: Terminal, at: nat, character: byte, pos: nat)
    requires 0 <= Top(t) <= at < |t.tape|
    ensures var p := PutOnTape(t, at, character).(pos := pos);
      && Top(p) == Top(t) && |p.tape| == |t.tape|
      && View(p) == Put(View(t), at - Top(t), character).(cursor := pos - Top(t))
  {
  }

  /** Growing the tape is scrolling the screen. */
  lemma GrowIsScroll(t: Terminal)
    requires t.rows > 0 && t.cols > 0 && 0 <= Top(t) <= t.pos <= |t.tape|
    ensures Top(Grown(t)) >= 0 && View(Grown(t)) == Checked(View(t))
  {
    AreaHoldsRow(t.rows, t.cols);
    if t.pos == |t.tape| {
      var g := Grown(t);
      assert Top(g) == Top(t) + t.cols;
      assert g.tape[Top(g)..] == t.tape[Top(t)..][t.cols..] + ClearedRow(t.cols);
    }
  }

  /** Row starts on the screen are row starts on the tape. */
  lemma RowStart(pos: nat, top: nat, cols: nat)
    requires cols > 0 && top % cols == 0 && top <= pos
    ensures (pos - top) / cols * cols == pos / cols * cols - top
    ensures ((pos - top) / cols + 1) * cols == (pos / cols + 1) * cols - top
  {
    var q, row := top / cols, pos / cols;
    assert top == q * cols;
    assert pos == row * cols + pos % cols;
    assert pos - top == (row - q) * cols + pos % cols;
    ModUnique(pos - top, cols, row - q, pos % cols);
    assert (row - q) * cols == row * cols - q * cols;
    assert (row - q + 1) * cols == (row - q) * cols + cols;
    assert (row + 1) * cols == row * cols + cols;
  }

  lemma TopIsRowStart(t: Terminal)
    requires Proper(t)
    ensures Top(t) % t.cols == 0
  {
    var lines := |t.tape| / t.cols;
    assert |t.tape| == lines * t.cols;
    assert Top(t) == lines * t.cols - t.rows * t.cols == (lines - t.rows) * t.cols;
    ModUnique(Top(t), t.cols, lines - t.rows, 0);
  }

  lemma ViewInRange(t: Terminal)
    requires Proper(t)
    ensures InRange(View(t))
  {
  }

  lemma RowsOnScreen(t: Terminal)
    requires Proper(t) && t.rows <= 127
    ensures StartOffset(View(t)) == RowBegin(t.pos, t.cols) - Top(t) >= 0
    ensures BelowOffset(View(t)) == RowEnd(t.pos, t.cols) - Top(t) <= Area(t.rows, t.cols)
  {
    TopIsRowStart(t);
    var row := (t.pos - Top(t)) / t.cols;
    RowInside(t.pos - Top(t), t.rows, t.cols);
    RowStart(t.pos, Top(t), t.cols);
    SmallChar(row);
    SmallChar(row + 1);
  }

  lemma BackspaceRefines(t: Terminal)
    requires Proper(t)
    ensures Top(Typed(t, BACKSPACE)) >= 0 && View(Typed(t, BACKSPACE)) == Written(View(t), BACKSPACE)
  {
    if t.pos > Top(t) {
      PutAgrees(t, t.pos, SPACE, t.pos);
      PutAgrees(PutOnTape(t, t.pos, SPACE), t.pos - 1, SPACE, t.pos - 1);
    }
  }

  lemma PutAndGrowRefines(t: Terminal, character: byte, pos: nat)
    requires Proper(t) && Top(t) <= pos <= |t.tape|
    ensures var g := Grown(PutOnTape(t, t.pos, character).(pos := pos));
      Top(g) >= 0 && View(g) == Checked(Put(View(t), t.pos - Top(t), character).(cursor := pos - Top(t)))
  {
    PutAgrees(t, t.pos, character, pos);
    GrowIsScroll(PutOnTape(t, t.pos, character).(pos := pos));
  }

  lemma NewlineRefines(t: Terminal)
    requires Proper(t) && t.rows <= 127
    ensures Top(Typed(t, NEWLINE)) >= 0 && View(Typed(t, NEWLINE)) == Written(View(t), NEWLINE)
  {
    RowsOnScreen(t);
    PutAndGrowRefines(t, SPACE, RowEnd(t.pos, t.cols));
    hide RowEnd, BelowOffset, Area, Checked, Grown, Put, PutOnTape;
  }

  lemma ReturnRefines(t: Terminal)
    requires Proper(t) && t.rows <= 127
    ensures Top(Typed(t, CARRIAGE_RETURN)) >= 0 && View(Typed(t, CARRIAGE_RETURN)) == Written(View(t), CARRIAGE_RETURN)
  {
    RowsOnScreen(t);
    PutAgrees(t, t.pos, SPACE, RowBegin(t.pos, t.cols));
    hide RowBegin, StartOffset, Area, Put, PutOnTape;
  }

  /** One character on the console is one character on the terminal. */
  lemma WriteRefines(t: Terminal, character: byte)
    requires Proper(t) && t.rows <= 127
    ensures Top(Typed(t, character)) >= 0
    ensures View(Typed(t, character)) == Written(View(t), character)
  {
    if character == NEWLINE {
      NewlineRefines(t);
    } else if character == CARRIAGE_RETURN {
      ReturnRefines(t);
    } else if character == BACKSPACE {
      BackspaceRefines(t);
    } else {
      PutAndGrowRefines(t, character, t.pos + 1);
      ViewInRange(t);
      hide OffsetOf, Area, Checked, Grown, Put, PutOnTape;
    }
  }

  lemma GrownIsProper(t: Terminal)
    requires t.rows > 0 && t.cols > 0 && |t.tape| % t.cols == 0 && 0 <= Top(t) <= t.pos <= |t.tape|
    ensures Proper(Grown(t))
  {
    AreaHoldsRow(t.rows, t.cols);
    var lines := |t.tape| / t.cols;
    assert |t.tape| == lines * t.cols;
    assert |t.tape| + t.cols == (lines + 1) * t.cols;
    ModUnique(|t.tape| + t.cols, t.cols, lines + 1, 0);
  }

  lemma TypedIsProper(t: Terminal, character: byte)
    requires Proper(t) && t.rows <= 127
    ensures Proper(Typed(t, character)) && Typed(t, character).rows == t.rows && Typed(t, character).cols == t.cols
  {
    RowsOnScreen(t);
    hide RowBegin, RowEnd, Area, Grown;
    if character == NEWLINE {
      GrownIsProper(PutOnTape(t, t.pos, SPACE).(pos := RowEnd(t.pos, t.cols)));
    } else if character != CARRIAGE_RETURN && character != BACKSPACE {
      GrownIsProper(PutOnTape(t, t.pos, character).(pos := t.pos + 1));
    }
  }

  // ---------------------------------------------------------------------------
  // Whole runs
  // ---------------------------------------------------------------------------

  function Shown(s: Screen, text: seq<byte>): Screen
    requires Safe(s, text)
    decreases |text|
  {
    if text == [] then s else Shown(Written(s, text[0]), text[1..])
  }

  ghost function TypedAll(t: Terminal, text: seq<byte>): (r: Terminal)
    requires Proper(t) && t.rows <= 127
    ensures Proper(r) && r.rows == t.rows && r.cols == t.cols
    decreases |text|
  {
    if text == [] then t else
    TypedIsProper(t, text[0]);
    TypedAll(Typed(t, text[0]), text[1..])
  }

  /** For every stream of characters the screen is the last `rows` rows of the terminal. */
  lemma {:induction false} ConsoleRefinesTerminal(t: Terminal, text: seq<byte>)
    requires Proper(t) && t.rows <= 127
    ensures Safe(View(t), text) && Shown(View(t), text) == View(TypedAll(t, text))
    decreases |text|
  {
    hide Written, Typed, View;
    assert InRange(View(t)) by { ViewInRange(t); }
    if text != [] {
      TypedIsProper(t, text[0]);
      WriteRefines(t, text[0]);
      ConsoleRefinesTerminal(Typed(t, text[0]), text[1..]);
    }
  }

  /** A fresh console is the view of a fresh terminal. */
  lemma FreshTerminal(rows: nat, cols: nat)
    requires rows > 0 && cols > 0
    ensures var s := Initial(rows, cols);
      var t := Terminal(rows, cols, s.cells, 0, s.color);
      Proper(t) && View(t) == s
  {
    AreaHoldsRow(rows, cols);
    ModUnique(Area(rows, cols), cols, rows, 0);
  }

  lemma TypedKeepsScrollback(t: Terminal, character: byte, i: nat)
    requires Proper(t) && t.rows <= 127 && i < Top(t)
    ensures Top(t) <= Top(Typed(t, character)) && Typed(t, character).tape[i] == t.tape[i]
  {
    hide RowBegin, RowEnd;
  }

  /** What has scrolled off the screen never changes again. */
  lemma {:induction false} ScrollbackIsKept(t: Terminal, text: seq<byte>, i: nat)
    requires Proper(t) && t.rows <= 127 && i < Top(t)
    ensures Top(t) <= Top(TypedAll(t, text)) && TypedAll(t, text).tape[i] == t.tape[i]
    decreases |text|
  {
    if text != [] {
      TypedIsProper(t, text[0]);
      TypedKeepsScrollback(t, text[0], i);
      ScrollbackIsKept(Typed(t, text[0]), text[1..], i);
    }
  }

  predicate Ordinary(character: byte) {
    character != NEWLINE && character != CARRIAGE_RETURN && character != BACKSPACE
  }

  function Coloured(text: seq<byte>, color: Color): (cells: seq<Cell>)
    ensures |cells| == |text|
  {
    seq(|text|, i requires 0 <= i < |text| => Cell(text[i], color))
  }

  lemma OrdinaryAdvances(t: Terminal, character: byte)
    requires Proper(t) && Ordinary(character)
    ensures var n := Typed(t, character);
      n.pos == t.pos + 1 <= |n.tape| && n.color == t.color
      && n.tape[..n.pos] == t.tape[..t.pos] + [Cell(character, t.color)]
  {
    var p := PutOnTape(t, t.pos, character).(pos := t.pos + 1);
    assert p.tape[..p.pos] == t.tape[..t.pos] + [Cell(character, t.color)];
    assert Grown(p).tape[..p.pos] == p.tape[..p.pos];
  }

  /** Ordinary characters land one after the other from the cursor on, whatever wrapping and scrolling that takes,
      and nothing before them changes. */
  lemma {:induction false} OrdinaryTextIsAppended(t: Terminal, text: seq<byte>)
    requires Proper(t) && t.rows <= 127 && forall c :: c in text ==> Ordinary(c)
    ensures var r := TypedAll(t, text);
      r.pos == t.pos + |text| && r.tape[..r.pos] == t.tape[..t.pos] + Coloured(text, t.color) && r.color == t.color
    decreases |text|
  {
    if text == [] {
      assert t.tape[..t.pos] == t.tape[..t.pos] + Coloured(text, t.color);
    } else {
      TypedIsProper(t, text[0]);
      OrdinaryAdvances(t, text[0]);
      hide Typed;
      OrdinaryTextIsAppended(Typed(t, text[0]), text[1..]);
      assert Coloured(text, t.color) == [Cell(text[0], t.color)] + Coloured(text[1..], t.color);
    }
  }
}
