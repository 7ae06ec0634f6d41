/** The text terminal: a cursor machine over video memory, against a layout that splits the
    text into lines. */
module Terminal {
  import opened Basics
  import opened CString

  const VGA_WIDTH := 80
  const VGA_HEIGHT := 25
  const CELLS := 2000
  const BACKSPACE: Byte := 8
  const TAB: Byte := 9
  const NEWLINE: Byte := 10
  const RETURN: Byte := 13
  const SPACE: Byte := 32
  const LIGHT_GREY: Byte := 7

  /** Rows, columns and cell indices are 32-bit words, so memory from the base of the screen
      has that many cells; the screen shows the first 2000. */
  const WORDS := 0x1_0000_0000
  type Word = v: int | 0 <= v < WORDS

  /** Cursor and memory; a cell is a character with its colour. */
  datatype Screen = Screen(row: Word, column: Word, cells: seq<int>)

  predicate Whole(s: Screen) {
    |s.cells| == WORDS
  }

  /** A character from 128 up is negative and its sign covers the colour. */
  function Cell(c: Byte, color: Byte): int {
    if c < 128 then c + 256 * color else c + 0xFF00
  }

  function Index(x: Word, y: Word): Word {
    (y * VGA_WIDTH + x) % WORDS
  }

  /** The low byte is the character; the high byte is the colour, or 0xFF for a negative one. */
  lemma {:induction false} CellBytes(c: Byte, color: Byte)
    ensures Cell(c, color) % 256 == c
    ensures Cell(c, color) / 256 == if c < 128 then color as int else 255
  {
  }

  predicate Breaks(column: nat, c: Byte) {
    c == NEWLINE || column == VGA_WIDTH
  }

  function NextStop(column: Word): Word {
    var next := (column + 8) % WORDS;
    next - next % 8
  }

  /** A tab goes to the next multiple of eight. */
  lemma {:induction false} TabStops(column: Word)
    requires column + 8 < WORDS
    ensures NextStop(column) % 8 == 0 && column < NextStop(column) <= column + 8
  {
  }

  /** Every screen cell takes the one below it; row 25 of memory comes in. */
  function Scrolled(cells: seq<int>): (r: seq<int>)
    requires |cells| == WORDS
    ensures |r| == WORDS
  {
    seq(WORDS, i requires 0 <= i < WORDS => if i < CELLS then cells[i + VGA_WIDTH] else cells[i])
  }

  function Draw(s: Screen, c: Byte, color: Byte): (r: Screen)
    requires Whole(s)
    ensures Whole(r)
  {
    s.(cells := s.cells[Index(s.column, s.row) := Cell(c, color)], column := (s.column + 1) % WORDS)
  }

  /** Where a character that is no line break leaves the cursor before it is drawn. */
  function Moved(s: Screen, c: Byte, color: Byte): (r: Screen)
    requires Whole(s)
    ensures Whole(r)
    decreases if c == BACKSPACE then 2 else 0, 0
  {
    if c == TAB then s.(column := NextStop(s.column))
    else if c == BACKSPACE then BackedUp(s, color)
    else if c == RETURN then s.(row := 0)
    else s
  }

  /** One character: a line break, which at column 80 any character is, or a drawn cell. */
  function Put(s: Screen, c: Byte, color: Byte): (r: Screen)
    requires Whole(s)
    ensures Whole(r)
    decreases if c == BACKSPACE then 2 else 0, 1
  {
    if Breaks(s.column, c) then s.(row := (s.row + 1) % WORDS, column := 0)
    else
      var t := Moved(s, c, color);
      Draw(if t.row >= VGA_HEIGHT then t.(cells := Scrolled(t.cells)) else t, c, color)
  }

  function BackedUp(s: Screen, color: Byte): (r: Screen)
    requires Whole(s)
    ensures Whole(r)
    decreases 1, 0
  {
    if s.column == 0 then s
    else
      var t := Put(s.(column := s.column - 1), SPACE, color);
      t.(column := (t.column - 1) % WORDS)
  }

  function Print(s: Screen, t: seq<Byte>, color: Byte): (r: Screen)
    requires Whole(s)
    ensures Whole(r)
    decreases |t|
  {
    if t == [] then s else Print(Put(s, t[0], color), t[1..], color)
  }

  lemma {:induction false} PrintAppend(s: Screen, a: seq<Byte>, b: seq<Byte>, color: Byte)
    requires Whole(s)
    ensures Print(s, a + b, color) == Print(Print(s, a, color), b, color)
    decreases |a|
  {
    hide Put;
    if a == [] {
      assert a + b == b;
    } else {
      assert (a + b)[0] == a[0] && (a + b)[1..] == a[1..] + b;
      PrintAppend(Put(s, a[0], color), a[1..], b, color);
    }
  }

  ////////////////////////////////////////////////////////////////////////////
  // Off the grid
  ////////////////////////////////////////////////////////////////////////////

  lemma {:induction false} PutDrawn(s: Screen, c: Byte, color: Byte)
    requires Whole(s) && !Breaks(s.column, c)
    ensures var t := Moved(s, c, color);
      Put(s, c, color) == Draw(if t.row >= VGA_HEIGHT then t.(cells := Scrolled(t.cells)) else t, c, color)
  {
    hide Moved, Draw;
  }

  /** Backspace itself moves the cursor a column to the left, and then is drawn there. */
  lemma {:induction false} BackspaceColumn(s: Screen, color: Byte)
    requires Whole(s) && s.column < VGA_WIDTH
    ensures BackedUp(s, color).column == if s.column == 0 then 0 else s.column - 1
  {
    if s.column > 0 {
      hide Put, Scrolled, NextStop;
      var before := s.(column := s.column - 1);
      PutColumn(before, SPACE, color);
      assert Put(before, SPACE, color).column == s.column;
    }
  }

  lemma {:induction false} NextStopBounds(column: Word)
    requires column < VGA_WIDTH
    ensures NextStop(column) <= VGA_WIDTH
    ensures NextStop(column) == VGA_WIDTH <==> column >= 72
  {
  }

  lemma {:induction false} PutColumn(s: Screen, c: Byte, color: Byte)
    requires Whole(s) && !Breaks(s.column, c)
    ensures Put(s, c, color).column == (Moved(s, c, color).column + 1) % WORDS
  {
    hide Put, Moved, Scrolled;
    PutDrawn(s, c, color);
  }

  /** The column stays within 0..80 exactly but for a tab in the last eight columns. */
  lemma {:induction false} ColumnLeavesTheGrid(s: Screen, c: Byte, color: Byte)
    requires Whole(s) && s.column <= VGA_WIDTH
    ensures Put(s, c, color).column > VGA_WIDTH <==> c == TAB && 72 <= s.column < VGA_WIDTH
  {
    hide BackedUp, Put, NextStop;
    if Breaks(s.column, c) {
      PutBreak(s, c, color);
    } else {
      PutColumn(s, c, color);
      NextStopBounds(s.column);
      BackspaceColumn(s, color);
    }
  }

  lemma {:induction false} PutBreak(s: Screen, c: Byte, color: Byte)
    requires Whole(s) && Breaks(s.column, c)
    ensures Put(s, c, color) == s.(row := (s.row + 1) % WORDS, column := 0)
  {
  }

  /** Drawing at the cursor, after a scroll when the row is below the screen. */
  function DrawnAt(s: Screen, c: Byte, color: Byte): (r: Screen)
    requires Whole(s)
    ensures Whole(r)
  {
    Draw(if s.row >= 25 then s.(cells := Scrolled(s.cells)) else s, c, color)
  }

  /** The characters by their codes, short of column 80: line feed (10) starts the next row and
      draws nothing; tab (9) is drawn at the next tab stop, return (13) in row 0 of the same
      column, backspace (8) where it is or, with a column to the left, there, the column it
      was at being blanked first when that is not the last; any other where the cursor is. */
  lemma {:induction false} CharactersByCode(s: Screen, c: Byte, color: Byte)
    requires Whole(s) && s.column != 80
    ensures Put(s, 10, color) == s.(row := (s.row + 1) % WORDS, column := 0)
    ensures Put(s, 9, color) == DrawnAt(s.(column := NextStop(s.column)), 9, color)
    ensures Put(s, 13, color) == DrawnAt(s.(row := 0), 13, color)
    ensures s.column == 0 ==> Put(s, 8, color) == DrawnAt(s, 8, color)
    ensures 0 < s.column < 80 ==>
      var blanked := DrawnAt(s.(column := s.column - 1), 32, color);
      Put(s, 8, color) == DrawnAt(blanked.(column := s.column - 1), 8, color)
    ensures c != 8 && c != 9 && c != 10 && c != 13 ==> Put(s, c, color) == DrawnAt(s, c, color)
  {
    hide Put, Draw, Scrolled, NextStop;
    PutBreak(s, 10, color);
    PutDrawn(s, 9, color);
    PutDrawn(s, 13, color);
    PutDrawn(s, 8, color);
    if 0 < s.column < 80 {
      var left := s.(column := s.column - 1);
      PutDrawn(left, 32, color);
      DrawMovesOn(if s.row >= 25 then left.(cells := Scrolled(left.cells)) else left, 32, color);
    }
    if c != 10 {
      PutDrawn(s, c, color);
    }
  }

  /** At column 80 every character only starts the next row. */
  lemma {:induction false} ColumnEighty(s: Screen, c: Byte, color: Byte)
    requires Whole(s) && s.column == 80
    ensures Put(s, c, color) == s.(row := (s.row + 1) % WORDS, column := 0)
  {
  }

  lemma {:induction false} DrawMovesOn(s: Screen, c: Byte, color: Byte)
    requires Whole(s)
    ensures Draw(s, c, color).column == (s.column + 1) % WORDS && Draw(s, c, color).row == s.row
  {
  }

  ////////////////////////////////////////////////////////////////////////////
  // What can be seen
  ////////////////////////////////////////////////////////////////////////////

  ghost predicate OnScreen(s: Screen, cell: int)
    requires Whole(s)
  {
    exists i :: 0 <= i < CELLS && s.cells[i] == cell
  }

  /** Whatever memory held, the character stands on the screen afterwards. */
  ghost predicate AlwaysSeen(s: Screen, c: Byte, color: Byte)
    requires Whole(s)
  {
    forall cells: seq<int> :: |cells| == WORDS ==>
      OnScreen(Put(s.(cells := cells), c, color), Cell(c, color))
  }

  /** Where the cursor goes does not depend on what memory holds. */
  lemma {:induction false} PutCursor(s: Screen, cells: seq<int>, c: Byte, color: Byte)
    requires Whole(s) && |cells| == WORDS && c != BACKSPACE
    ensures Moved(s.(cells := cells), c, color) == Moved(s, c, color).(cells := cells)
    ensures Put(s.(cells := cells), c, color).row == Put(s, c, color).row
    ensures Put(s.(cells := cells), c, color).column == Put(s, c, color).column
  {
    hide NextStop, Scrolled;
  }

  lemma {:induction false} MovedCursor(s: Screen, cells: seq<int>, c: Byte, color: Byte)
    requires Whole(s) && |cells| == WORDS
    ensures Moved(s.(cells := cells), c, color).row == Moved(s, c, color).row
    ensures Moved(s.(cells := cells), c, color).column == Moved(s, c, color).column
  {
    hide Put, NextStop;
    if c != BACKSPACE {
      PutCursor(s, cells, c, color);
    } else if s.column > 0 {
      PutCursor(s.(column := s.column - 1), cells, SPACE, color);
    }
  }

  /** Memory that holds nothing, but for the blanks a backspace leaves. */
  ghost predicate Void(cells: seq<int>, c: Byte, color: Byte) {
    forall i :: 0 <= i < |cells| ==> cells[i] == -1 || (c == BACKSPACE && cells[i] == Cell(SPACE, color))
  }

  lemma {:induction false} ScrollKeepsVoid(cells: seq<int>, c: Byte, color: Byte)
    requires |cells| == WORDS && Void(cells, c, color)
    ensures Void(Scrolled(cells), c, color)
  {
    hide Cell;
  }

  lemma {:induction false} MovedKeepsVoid(s: Screen, c: Byte, color: Byte)
    requires Whole(s) && Void(s.cells, c, color)
    ensures Void(Moved(s, c, color).cells, c, color)
  {
    hide Put, Scrolled, Index, Cell, NextStop;
    if c == BACKSPACE && s.column > 0 {
      var before := s.(column := s.column - 1);
      if Breaks(before.column, SPACE) {
        PutBreak(before, SPACE, color);
      } else {
        PutDrawn(before, SPACE, color);
        ScrollKeepsVoid(s.cells, c, color);
      }
    }
  }

  lemma {:induction false} DrawnOffScreen(s: Screen, c: Byte, color: Byte)
    requires Whole(s) && Void(s.cells, c, color) && Index(s.column, s.row) >= CELLS
    ensures !OnScreen(Draw(s, c, color), Cell(c, color))
  {
  }

  lemma {:induction false} NothingOnScreen(s: Screen, c: Byte, color: Byte)
    requires Whole(s) && forall i :: 0 <= i < CELLS ==> s.cells[i] == -1
    ensures !OnScreen(s, Cell(c, color))
  {
  }

  /** A character is sure to be seen exactly when it is no line break and the place it is
      drawn at, which depends on the cursor alone, is on the screen. */
  lemma {:induction false} SeenExactly(s: Screen, c: Byte, color: Byte)
    requires Whole(s)
    ensures AlwaysSeen(s, c, color) <==>
      !Breaks(s.column, c) && Index(Moved(s, c, color).column, Moved(s, c, color).row) < CELLS
  {
    hide Put, Moved, Index, Cell, Scrolled, OnScreen;
    var void := s.(cells := seq(WORDS, _ => -1));
    if Breaks(s.column, c) {
      PutBreak(void, c, color);
      NothingOnScreen(Put(void, c, color), c, color);
    } else if Index(Moved(s, c, color).column, Moved(s, c, color).row) >= CELLS {
      PutDrawn(void, c, color);
      MovedCursor(s, void.cells, c, color);
      MovedKeepsVoid(void, c, color);
      ScrollKeepsVoid(Moved(void, c, color).cells, c, color);
      var t := Moved(void, c, color);
      DrawnOffScreen(if t.row >= VGA_HEIGHT then t.(cells := Scrolled(t.cells)) else t, c, color);
    } else {
      forall cells: seq<int> | |cells| == WORDS ensures OnScreen(Put(s.(cells := cells), c, color), Cell(c, color)) {
        var u := s.(cells := cells);
        PutDrawn(u, c, color);
        MovedCursor(s, cells, c, color);
        var t := Moved(u, c, color);
        DrawnOnScreen(if t.row >= VGA_HEIGHT then t.(cells := Scrolled(t.cells)) else t, c, color);
      }
    }
  }

  lemma {:induction false} DrawnOnScreen(s: Screen, c: Byte, color: Byte)
    requires Whole(s) && Index(s.column, s.row) < CELLS
    ensures OnScreen(Draw(s, c, color), Cell(c, color))
  {
    assert Draw(s, c, color).cells[Index(s.column, s.row)] == Cell(c, color);
  }

  /** Whatever memory held, the screen moves up a line around the character. */
  ghost predicate AlwaysScrolls(s: Screen, c: Byte, color: Byte)
    requires Whole(s)
  {
    forall cells: seq<int>, i :: |cells| == WORDS && 0 <= i < CELLS && i != Index(s.column, s.row) ==>
      Put(s.(cells := cells), c, color).cells[i] == cells[i + VGA_WIDTH]
  }

  /** A drawn character scrolls the screen exactly from row 25 on, and the row does not come
      back: so does the next one. */
  lemma {:induction false} ScrollsExactly(s: Screen, c: Byte, color: Byte)
    requires Whole(s) && s.column < VGA_WIDTH && Plain(c) && c != NEWLINE
    ensures AlwaysScrolls(s, c, color) <==> s.row >= VGA_HEIGHT
    ensures Put(s, c, color).row == s.row && Put(s, c, color).column == s.column + 1
  {
    hide Put, Index, Cell;
    PutDrawn(s, c, color);
    if s.row < VGA_HEIGHT {
      var numbered := s.(cells := seq(WORDS, i => i));
      PutDrawn(numbered, c, color);
      var i := if Index(s.column, s.row) == 0 then 1 else 0;
      assert Put(numbered, c, color).cells[i] == i;
    } else {
      forall cells: seq<int>, i | |cells| == WORDS && 0 <= i < CELLS && i != Index(s.column, s.row)
        ensures Put(s.(cells := cells), c, color).cells[i] == cells[i + VGA_WIDTH]
      {
        PutDrawn(s.(cells := cells), c, color);
      }
    }
  }

  /** Newlines take the cursor to any row, so a run gets below the screen. */
  lemma {:induction false} NewlinesReach(s: Screen, n: nat, color: Byte)
    requires Whole(s) && s.column == 0 && s.row + n < WORDS
    ensures Print(s, seq(n, _ => NEWLINE), color) == s.(row := s.row + n)
    decreases n
  {
    hide Put;
    var t := seq(n, _ => NEWLINE);
    if n == 0 {
    } else {
      assert t[1..] == seq(n - 1, _ => NEWLINE);
      PutBreak(s, NEWLINE, color);
      NewlinesReach(s.(row := s.row + 1), n - 1, color);
    }
  }

  /** From home, with n newlines printed, the next character is sure to be seen exactly when n
      is below 25, until the index wraps around. */
  lemma {:induction false} SeenAfterNewlines(s: Screen, n: nat, c: Byte, color: Byte)
    requires Whole(s) && s.row == 0 && s.column == 0 && n * VGA_WIDTH < WORDS
    requires Plain(c) && c != NEWLINE
    ensures AlwaysSeen(Print(s, seq(n, _ => NEWLINE), color), c, color) <==> n < VGA_HEIGHT
  {
    hide Put, AlwaysSeen, Print;
    NewlinesReach(s, n, color);
    SeenExactly(s.(row := n), c, color);
  }

  /** 7-bit, and none of the characters that move the cursor. */
  predicate Plain(c: Byte) {
    c < 128 && c != BACKSPACE && c != TAB && c != RETURN
  }

  /** Every character is plain and those that are drawn are drawn above row 25. */
  predicate Fits(row: nat, column: nat, t: seq<Byte>)
    decreases |t|
  {
    if t == [] then true
    else if !Plain(t[0]) then false
    else if Breaks(column, t[0]) then row + 1 < WORDS && Fits(row + 1, 0, t[1..])
    else row < VGA_HEIGHT && Fits(row, column + 1, t[1..])
  }

  /** Such a character breaks the line or is drawn at the cursor. */
  lemma {:induction false} PutPlain(s: Screen, c: Byte, color: Byte)
    requires Whole(s) && s.column <= VGA_WIDTH && Plain(c)
    requires if Breaks(s.column, c) then s.row + 1 < WORDS else s.row < VGA_HEIGHT
    ensures Put(s, c, color) ==
      if Breaks(s.column, c) then s.(row := s.row + 1, column := 0)
      else s.(column := s.column + 1, cells := s.cells[s.row * VGA_WIDTH + s.column := Cell(c, color)])
  {
    hide Put;
    if Breaks(s.column, c) {
      PutBreak(s, c, color);
    } else {
      PutDrawn(s, c, color);
    }
  }

  ////////////////////////////////////////////////////////////////////////////
  // Layout
  ////////////////////////////////////////////////////////////////////////////

  /** How many characters go on a line with that much room. */
  function LineLength(t: seq<Byte>, room: nat): (n: nat)
    ensures n <= |t| && n <= room
  {
    if t == [] || t[0] == NEWLINE || room == 0 then 0 else 1 + LineLength(t[1..], room - 1)
  }

  /** The lines of a text: each ends at a newline or after 80 characters, and the character
      it ends at is on no line. */
  function Lines(t: seq<Byte>): (lines: seq<seq<Byte>>)
    ensures lines != []
    ensures forall k :: 0 <= k < |lines| ==> |lines[k]| <= VGA_WIDTH
    decreases |t|
  {
    var n := LineLength(t, VGA_WIDTH);
    if n == |t| then [t] else [t[..n]] + Lines(t[n + 1..])
  }

  function At(cells: seq<int>, row: nat, column: nat): int
    requires |cells| == WORDS && row < VGA_HEIGHT && column < VGA_WIDTH
  {
    cells[row * VGA_WIDTH + column]
  }

  /** The lines stand on the grid from `top` down; every other cell of memory is as it was. */
  ghost predicate LaidOut(was: seq<int>, cells: seq<int>, top: nat, lines: seq<seq<Byte>>, color: Byte)
    requires |was| == WORDS && |cells| == WORDS
  {
    && (forall row: nat, column: nat :: row < VGA_HEIGHT && column < VGA_WIDTH ==>
          At(cells, row, column) ==
            if top <= row < top + |lines| && column < |lines[row - top]|
            then Cell(lines[row - top][column], color) else At(was, row, column))
    && forall i :: CELLS <= i < WORDS ==> cells[i] == was[i]
  }

  /** Part of a line is drawn from cell `from` on. */
  ghost predicate LineDrawn(was: seq<int>, cells: seq<int>, from: nat, part: seq<Byte>, color: Byte)
    requires |was| == WORDS && |cells| == WORDS
  {
    forall i :: 0 <= i < WORDS ==>
      cells[i] == if from <= i < from + |part| then Cell(part[i - from], color) else was[i]
  }

  function Start(s: Screen): nat {
    s.row * VGA_WIDTH + s.column
  }

  /** The characters up to the end of the line are drawn one by one. */
  lemma {:induction false} PrintLine(s: Screen, t: seq<Byte>, color: Byte) returns (cells: seq<int>)
    requires Whole(s) && s.column <= VGA_WIDTH && Fits(s.row, s.column, t)
    ensures |cells| == WORDS
    ensures var n := LineLength(t, VGA_WIDTH - s.column);
      && (n > 0 ==> s.row < VGA_HEIGHT)
      && LineDrawn(s.cells, cells, Start(s), t[..n], color)
      && Fits(s.row, s.column + n, t[n..])
      && Print(s, t, color) == Print(Screen(s.row, s.column + n, cells), t[n..], color)
    decreases |t|
  {
    hide LineDrawn, Cell, Put;
    var n := LineLength(t, VGA_WIDTH - s.column);
    if n == 0 {
      assert t[..0] == [] && t[0..] == t;
      cells := s.cells;
      NothingDrawn(cells, Start(s), color);
    } else {
      PutPlain(s, t[0], color);
      var s' := Put(s, t[0], color);
      cells := PrintLine(s', t[1..], color);
      assert t[1..][n - 1..] == t[n..];
      DrawnWithFirst(s.cells, cells, Start(s), t, n, color);
    }
  }

  lemma {:induction false} NothingDrawn(cells: seq<int>, from: nat, color: Byte)
    requires |cells| == WORDS
    ensures LineDrawn(cells, cells, from, [], color)
  {
  }

  lemma {:induction false} DrawnWithFirst(was: seq<int>, cells: seq<int>, from: nat, t: seq<Byte>, n: nat, color: Byte)
    requires |was| == WORDS && |cells| == WORDS && from < CELLS && 0 < n <= |t|
    requires LineDrawn(was[from := Cell(t[0], color)], cells, from + 1, t[1..][..n - 1], color)
    ensures LineDrawn(was, cells, from, t[..n], color)
  {
    hide Cell;
  }

  /** What printing from the start of a row has to give. */
  ghost predicate IsLayout(s: Screen, r: Screen, lines: seq<seq<Byte>>, color: Byte)
    requires Whole(s) && Whole(r)
  {
    && lines != []
    && r.row == s.row + |lines| - 1
    && r.column == |lines[|lines| - 1]|
    && LaidOut(s.cells, r.cells, s.row, lines, color)
  }

  /** Printing from the start of a row gives the layout of the text's lines, with the cursor
      after the last of them. */
  lemma {:induction false} PrintIsLayout(s: Screen, t: seq<Byte>, color: Byte)
    requires Whole(s) && s.column == 0 && Fits(s.row, 0, t)
    ensures IsLayout(s, Print(s, t, color), Lines(t), color)
    decreases |t|
  {
    hide LineDrawn, LaidOut, IsLayout, Put, Print, Lines, LineLength;
    var n := LineLength(t, VGA_WIDTH);
    var cells := PrintLine(s, t, color);
    assert Start(s) == s.row * VGA_WIDTH;
    if n == |t| {
      assert t[..n] == t && t[n..] == [];
      LastLine(t);
      PrintNothing(Screen(s.row, n, cells), color);
      OneLine(s, cells, t, color);
    } else {
      LineEnds(t, VGA_WIDTH);
      var next := AfterBreak(Screen(s.row, n, cells), t[n..], color);
      assert t[n..][1..] == t[n + 1..];
      FirstLine(t);
      PrintIsLayout(next, t[n + 1..], color);
      LineOnTop(s, cells, t[..n], Lines(t[n + 1..]), Print(next, t[n + 1..], color), color);
    }
  }

  lemma {:induction false} LastLine(t: seq<Byte>)
    requires LineLength(t, VGA_WIDTH) == |t|
    ensures Lines(t) == [t]
  {
  }

  lemma {:induction false} FirstLine(t: seq<Byte>)
    requires LineLength(t, VGA_WIDTH) < |t|
    ensures Lines(t) == [t[..LineLength(t, VGA_WIDTH)]] + Lines(t[LineLength(t, VGA_WIDTH) + 1..])
  {
  }

  lemma {:induction false} PrintNothing(s: Screen, color: Byte)
    requires Whole(s)
    ensures Print(s, [], color) == s
  {
  }

  /** The character that ends a line is not drawn. */
  lemma {:induction false} AfterBreak(s: Screen, t: seq<Byte>, color: Byte) returns (next: Screen)
    requires Whole(s) && s.column <= VGA_WIDTH && t != [] && Breaks(s.column, t[0]) && Fits(s.row, s.column, t)
    ensures s.row + 1 < WORDS && next == Screen(s.row + 1, 0, s.cells)
    ensures Fits(next.row, 0, t[1..]) && Print(s, t, color) == Print(next, t[1..], color)
  {
    hide Put;
    PutPlain(s, t[0], color);
    next := Put(s, t[0], color);
  }

  lemma {:induction false} OneLine(s: Screen, cells: seq<int>, t: seq<Byte>, color: Byte)
    requires Whole(s) && |cells| == WORDS && |t| <= VGA_WIDTH && (t != [] ==> s.row < VGA_HEIGHT)
    requires LineDrawn(s.cells, cells, s.row * VGA_WIDTH, t, color)
    ensures IsLayout(s, Screen(s.row, |t|, cells), [t], color)
  {
    hide Cell;
  }

  lemma {:induction false} LineOnTop(s: Screen, cells: seq<int>, first: seq<Byte>,
                                     rest: seq<seq<Byte>>, r: Screen, color: Byte)
    requires Whole(s) && Whole(r) && |cells| == WORDS && |first| <= VGA_WIDTH && s.row + 1 < WORDS
    requires first != [] ==> s.row < VGA_HEIGHT
    requires LineDrawn(s.cells, cells, s.row * VGA_WIDTH, first, color)
    requires IsLayout(Screen(s.row + 1, 0, cells), r, rest, color)
    ensures IsLayout(s, r, [first] + rest, color)
  {
    hide Cell;
  }

  /** A line ends at a newline or when its room is used up. */
  lemma {:induction false} LineEnds(t: seq<Byte>, room: nat)
    requires LineLength(t, room) < |t|
    ensures t[LineLength(t, room)] == NEWLINE || LineLength(t, room) == room
    decreases room
  {
    if t[0] == NEWLINE || room == 0 {
    } else {
      LineEnds(t[1..], room - 1);
    }
  }

  predicate PlainText(t: seq<Byte>) {
    forall i :: 0 <= i < |t| ==> Plain(t[i])
  }

  /** A plain text fits exactly when every line that has a character is above row 25 and the
      rows do not wrap around. */
  lemma {:induction false} FitsByLines(row: nat, t: seq<Byte>)
    requires PlainText(t) && row < WORDS
    ensures Fits(row, 0, t) <==> RowsFit(row, Lines(t))
    decreases |t|
  {
    hide Lines, LineLength, RowsFit, Fits;
    var n := LineLength(t, VGA_WIDTH);
    FitsOneLine(row, 0, t);
    if n == |t| {
      LastLine(t);
      assert t[n..] == [] && [t] == [t] + [];
      FitsNothing(row, n);
      NoRows(row + 1);
      FirstAndRest(row, t, []);
    } else {
      LineEnds(t, VGA_WIDTH);
      FirstLine(t);
      assert t[n..][0] == t[n] && t[n..][1..] == t[n + 1..];
      FitsBreak(row, n, t[n..]);
      FirstAndRest(row, t[..n], Lines(t[n + 1..]));
      if row + 1 < WORDS {
        FitsByLines(row + 1, t[n + 1..]);
      } else {
        RowsRunOut(row + 1, Lines(t[n + 1..]));
      }
    }
  }

  lemma {:induction false} FitsNothing(row: nat, column: nat)
    ensures Fits(row, column, [])
  {
  }

  lemma {:induction false} FitsBreak(row: nat, column: nat, t: seq<Byte>)
    requires t != [] && Plain(t[0]) && Breaks(column, t[0])
    ensures Fits(row, column, t) <==> row + 1 < WORDS && Fits(row + 1, 0, t[1..])
  {
  }

  lemma {:induction false} NoRows(row: nat)
    ensures RowsFit(row, []) <==> row <= WORDS
  {
  }

  lemma {:induction false} RowsRunOut(row: nat, lines: seq<seq<Byte>>)
    requires row >= WORDS && lines != []
    ensures !RowsFit(row, lines)
  {
  }

  ghost predicate RowsFit(row: nat, lines: seq<seq<Byte>>) {
    && row + |lines| <= WORDS
    && forall k :: 0 <= k < |lines| && lines[k] != [] ==> row + k < VGA_HEIGHT
  }

  lemma {:induction false} FirstAndRest(row: nat, first: seq<Byte>, rest: seq<seq<Byte>>)
    requires rest != [] || row < WORDS
    ensures RowsFit(row, [first] + rest) <==> (first != [] ==> row < VGA_HEIGHT) && RowsFit(row + 1, rest)
  {
    var lines := [first] + rest;
    if RowsFit(row, lines) {
      forall k | 0 <= k < |rest| && rest[k] != [] ensures row + 1 + k < VGA_HEIGHT {
        assert lines[k + 1] == rest[k];
      }
      assert lines[0] == first;
    }
  }

  lemma {:induction false} FitsOneLine(row: nat, column: nat, t: seq<Byte>)
    requires PlainText(t) && column <= VGA_WIDTH
    ensures var n := LineLength(t, VGA_WIDTH - column);
      Fits(row, column, t) <==> (n > 0 ==> row < VGA_HEIGHT) && Fits(row, column + n, t[n..])
    decreases |t|
  {
    var n := LineLength(t, VGA_WIDTH - column);
    if n > 0 {
      FitsOneLine(row, column + 1, t[1..]);
      assert t[1..][n - 1..] == t[n..];
    } else {
      assert t[0..] == t;
    }
  }

  ////////////////////////////////////////////////////////////////////////////
  // Exactly when printing is the layout
  ////////////////////////////////////////////////////////////////////////////

  /** The row the cursor ends on. */
  function LastRow(row: nat, column: nat, t: seq<Byte>): (r: nat)
    ensures r >= row
    decreases |t|
  {
    if t == [] then row
    else if Breaks(column, t[0]) then LastRow(row + 1, 0, t[1..])
    else LastRow(row, column + 1, t[1..])
  }

  lemma {:induction false} LastRowOneLine(row: nat, column: nat, t: seq<Byte>)
    requires column <= VGA_WIDTH
    ensures var n := LineLength(t, VGA_WIDTH - column);
      LastRow(row, column, t) == LastRow(row, column + n, t[n..])
    decreases |t|
  {
    var n := LineLength(t, VGA_WIDTH - column);
    if n == 0 {
      assert t[0..] == t;
    } else {
      LastRowOneLine(row, column + 1, t[1..]);
      assert t[1..][n - 1..] == t[n..];
    }
  }

  lemma {:induction false} LastRowByLines(row: nat, t: seq<Byte>)
    ensures LastRow(row, 0, t) == row + |Lines(t)| - 1
    decreases |t|
  {
    hide Lines, LineLength;
    var n := LineLength(t, VGA_WIDTH);
    LastRowOneLine(row, 0, t);
    if n == |t| {
      LastLine(t);
    } else {
      LineEnds(t, VGA_WIDTH);
      FirstLine(t);
      assert t[n..][1..] == t[n + 1..];
      LastRowByLines(row + 1, t[n + 1..]);
    }
  }

  /** What is drawn off the screen stays. */
  lemma {:induction false} MarkStays(s: Screen, t: seq<Byte>, color: Byte, i: int)
    requires Whole(s) && PlainText(t) && CELLS <= i < WORDS && s.cells[i] != -1
    ensures Print(s, t, color).cells[i] != -1
    decreases |t|
  {
    hide Put;
    if t == [] {
    } else {
      PutKeepsMark(s, t[0], color, i);
      MarkStays(Put(s, t[0], color), t[1..], color, i);
    }
  }

  lemma {:induction false} PutKeepsMark(s: Screen, c: Byte, color: Byte, i: int)
    requires Whole(s) && Plain(c) && CELLS <= i < WORDS && s.cells[i] != -1
    ensures Put(s, c, color).cells[i] != -1
  {
    hide Put;
    if Breaks(s.column, c) {
      PutBreak(s, c, color);
    } else {
      PutDrawn(s, c, color);
    }
  }

  /** A text that does not fit leaves a character off the screen. */
  lemma {:induction false} UnfitMarks(s: Screen, t: seq<Byte>, color: Byte) returns (i: int)
    requires Whole(s) && s.column <= VGA_WIDTH && PlainText(t) && !Fits(s.row, s.column, t)
    requires (LastRow(s.row, s.column, t) + 1) * VGA_WIDTH <= WORDS
    ensures CELLS <= i < WORDS && Print(s, t, color).cells[i] != -1
    decreases |t|
  {
    hide Put;
    if !Breaks(s.column, t[0]) && s.row >= VGA_HEIGHT {
      i := s.row * VGA_WIDTH + s.column;
      PutDrawn(s, t[0], color);
      MarkStays(Put(s, t[0], color), t[1..], color, i);
    } else {
      PutPlain(s, t[0], color);
      i := UnfitMarks(Put(s, t[0], color), t[1..], color);
    }
  }

  /** Whatever memory held, printing from the start of that row is the layout. */
  ghost predicate AlwaysLaidOut(row: Word, t: seq<Byte>, color: Byte) {
    forall cells: seq<int> :: |cells| == WORDS ==>
      IsLayout(Screen(row, 0, cells), Print(Screen(row, 0, cells), t, color), Lines(t), color)
  }

  lemma {:induction false} LayoutKeepsRest(s: Screen, r: Screen, lines: seq<seq<Byte>>, color: Byte, i: int)
    requires Whole(s) && Whole(r) && IsLayout(s, r, lines, color) && CELLS <= i < WORDS
    ensures r.cells[i] == s.cells[i]
  {
  }

  /** Printing a plain text is its layout exactly when the text fits, as long as no index
      wraps around. */
  lemma {:induction false} LayoutExactly(row: Word, t: seq<Byte>, color: Byte)
    requires PlainText(t) && (row + |Lines(t)|) * VGA_WIDTH <= WORDS
    ensures AlwaysLaidOut(row, t, color) <==> Fits(row, 0, t)
  {
    hide IsLayout, Fits, Print, Lines, LastRow;
    if Fits(row, 0, t) {
      forall cells: seq<int> | |cells| == WORDS
        ensures IsLayout(Screen(row, 0, cells), Print(Screen(row, 0, cells), t, color), Lines(t), color)
      {
        PrintIsLayout(Screen(row, 0, cells), t, color);
      }
    } else {
      var s := Screen(row, 0, seq(WORDS, _ => -1));
      LastRowByLines(row, t);
      var i := UnfitMarks(s, t, color);
      if AlwaysLaidOut(row, t, color) {
        LayoutKeepsRest(s, Print(s, t, color), Lines(t), color, i);
      }
    }
  }

  ////////////////////////////////////////////////////////////////////////////
  // The code
  ////////////////////////////////////////////////////////////////////////////

  class Terminal {
    var row: Word
    var column: Word
    var color: Byte
    const buffer: array<int>

    /** `memory` is what lies at the base of the screen. */
    constructor (memory: array<int>)
      requires memory.Length == WORDS
      ensures Valid() && buffer == memory
    {
      row, column, color := 0, 0, 0;
      buffer := memory;
    }

    ghost predicate Valid()
      reads this
    {
      buffer.Length == WORDS
    }

    ghost function View(): (s: Screen)
      requires Valid()
      reads this, buffer
      ensures Whole(s)
    {
      Screen(row, column, buffer[..])
    }

    /** The cursor goes home and the screen turns blank; the rest of memory is left alone. */
    method Initialize()
      requires Valid()
      modifies this, buffer
      ensures Valid() && row == 0 && column == 0 && color == LIGHT_GREY
      ensures forall i :: 0 <= i < 2000 ==> buffer[i] == 0x0720
      ensures forall i :: 2000 <= i < buffer.Length ==> buffer[i] == old(buffer[i])
    {
      hide Blank, Cell;
      ghost var was := buffer[..];
      row := 0;
      column := 0;
      color := LIGHT_GREY;
      BlankNone(was);
      for y := 0 to VGA_HEIGHT
        invariant Valid() && row == 0 && column == 0 && color == LIGHT_GREY
        invariant Blank(was, buffer[..], y * VGA_WIDTH)
      {
        for x := 0 to VGA_WIDTH
          invariant Valid() && row == 0 && column == 0 && color == LIGHT_GREY
          invariant Blank(was, buffer[..], y * VGA_WIDTH + x)
        {
          BlankOneMore(was, buffer[..], y * VGA_WIDTH + x);
          Putat(x, y, SPACE);
        }
      }
      BlankAll(was, buffer[..]);
      assert Cell(SPACE, LIGHT_GREY) == 0x0720 by { BlankCell(); }
    }

    method Putat(x: Word, y: Word, c: Byte)
      requires Valid()
      modifies buffer
      ensures buffer[..] == old(buffer[..])[Index(x, y) := Cell(c, color)]
      ensures var cell := buffer[(y * 80 + x) % 0x1_0000_0000];
        cell % 256 == c && cell / 256 == if c < 128 then color as int else 255
    {
      var index := (y * VGA_WIDTH + x) % WORDS;
      buffer[index] := if c < 128 then c + color * 256 else 0xFF00 + c;
    }

    method CopyCell(to: nat, from: nat)
      requires Valid() && to < WORDS && from < WORDS
      modifies buffer
      ensures buffer[..] == old(buffer[..])[to := old(buffer[..])[from]]
    {
      buffer[to] := buffer[from];
    }

    /** Terminal_Scroll */
    method Scroll()
      requires Valid()
      modifies buffer
      ensures buffer[..] == Scrolled(old(buffer[..]))
    {
      hide ScrolledTo, Scrolled;
      ghost var was := buffer[..];
      ScrolledNone(was);
      for y := 0 to VGA_HEIGHT
        invariant ScrolledTo(was, buffer[..], y * VGA_WIDTH)
      {
        for x := 0 to VGA_WIDTH
          invariant ScrolledTo(was, buffer[..], y * VGA_WIDTH + x)
        {
          ScrolledOneMore(was, buffer[..], y * VGA_WIDTH + x);
          CopyCell(y * VGA_WIDTH + x, (y + 1) * VGA_WIDTH + x);
        }
      }
      ScrolledAll(was, buffer[..]);
    }

    method Putch(c: Byte)
      requires Valid()
      modifies this, buffer
      ensures Valid() && color == old(color) && View() == Put(old(View()), c, color)
      decreases if c == BACKSPACE then 2 else 0
    {
      hide Put, BackedUp, Scrolled, Index, Cell;
      ghost var s := View();
      if c == NEWLINE || column == VGA_WIDTH {
        PutBreak(s, c, color);
        column := 0;
        row := (row + 1) % WORDS;
        return;
      } else if c == TAB {
        column := (column + 8) % WORDS - (column + 8) % WORDS % 8;
      } else if c == BACKSPACE {
        Backspace();
      } else if c == RETURN {
        row := 0;
      }
      assert View() == Moved(s, c, color);
      PutDrawn(s, c, color);
      if row >= VGA_HEIGHT {
        Scroll();
      }
      Putat(column, row, c);
      column := (column + 1) % WORDS;
    }

    /** Terminal_Backspace */
    method Backspace()
      requires Valid()
      modifies this, buffer
      ensures Valid() && color == old(color) && View() == BackedUp(old(View()), color)
      decreases 1
    {
      if column > 0 {
        column := column - 1;
        Putch(SPACE);
        column := (column - 1) % WORDS;
      }
    }

    /** Terminal_Print: the string at s, character by character. */
    method PrintString(mem: array<Byte>, s: nat)
      requires Valid() && IsString(mem[..], s) && mem as object != buffer as object
      modifies this, buffer
      ensures Valid() && color == old(color)
      ensures View() == Print(old(View()), mem[s..s + StrLen(mem[..], s)], color)
    {
      hide StrLen, Put;
      var len := Strlen(mem, s);
      ghost var t := mem[s..s + len];
      ghost var goal := Print(View(), t, color);
      var i := 0;
      while i < len
        invariant 0 <= i <= len && Valid() && color == old(color)
        invariant mem[..] == old(mem[..])
        invariant Print(View(), t[i..], color) == goal
      {
        assert t[i..][0] == t[i] && t[i..][1..] == t[i + 1..];
        Putch(mem[s + i]);
        i := i + 1;
      }
      assert t[len..] == [];
    }
  }

  /** The first n cells are blank, the others as they were. */
  ghost predicate Blank(was: seq<int>, cells: seq<int>, n: nat) {
    && |cells| == |was|
    && forall i :: 0 <= i < |was| ==> cells[i] == if i < n then Cell(SPACE, LIGHT_GREY) else was[i]
  }

  lemma {:induction false} BlankCell()
    ensures Cell(SPACE, LIGHT_GREY) == 0x0720
  {
  }

  lemma {:induction false} BlankNone(was: seq<int>)
    ensures Blank(was, was, 0)
  {
  }

  lemma {:induction false} BlankOneMore(was: seq<int>, cells: seq<int>, n: nat)
    requires Blank(was, cells, n) && n < |was|
    ensures n < |cells| && Blank(was, cells[n := Cell(SPACE, LIGHT_GREY)], n + 1)
  {
    hide Cell;
  }

  lemma {:induction false} BlankAll(was: seq<int>, cells: seq<int>)
    requires Blank(was, cells, CELLS) && |was| == WORDS
    ensures |cells| == WORDS
    ensures forall i :: 0 <= i < CELLS ==> cells[i] == Cell(SPACE, LIGHT_GREY)
    ensures forall i :: CELLS <= i < WORDS ==> cells[i] == was[i]
  {
    hide Cell;
  }

  /** The first n cells have taken their successors a line further on. */
  ghost predicate ScrolledTo(was: seq<int>, cells: seq<int>, n: nat) {
    && |cells| == |was| == WORDS && n <= CELLS
    && (forall i :: 0 <= i < n ==> cells[i] == was[i + VGA_WIDTH])
    && forall i :: n <= i < WORDS ==> cells[i] == was[i]
  }

  lemma {:induction false} ScrolledNone(was: seq<int>)
    requires |was| == WORDS
    ensures ScrolledTo(was, was, 0)
  {
  }

  lemma {:induction false} ScrolledOneMore(was: seq<int>, cells: seq<int>, n: nat)
    requires ScrolledTo(was, cells, n) && n < CELLS
    ensures |cells| == WORDS && ScrolledTo(was, cells[n := cells[n + VGA_WIDTH]], n + 1)
  {
    var next := cells[n := cells[n + VGA_WIDTH]];
    assert cells[n + VGA_WIDTH] == was[n + VGA_WIDTH];
    forall i | n + 1 <= i < WORDS ensures next[i] == was[i] { }
  }

  lemma {:induction false} ScrolledAll(was: seq<int>, cells: seq<int>)
    requires ScrolledTo(was, cells, CELLS)
    ensures cells == Scrolled(was)
  {
    forall i | 0 <= i < WORDS ensures cells[i] == Scrolled(was)[i] { }
  }
}
