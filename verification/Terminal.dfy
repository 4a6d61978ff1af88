/**
 The VGA text terminal of src/vga_buffer.rs.

 `Screen` and the functions on it say what every operation of the writer does to the
 25x80 grid; the class `Writer` does it in place, cell by cell.  The theorems relate
 the grid to the paper roll and to the closed-form layout.
 */
module Terminal {
  import opened Common
  import opened TextLayout

  datatype ScreenChar = ScreenChar(byte: Byte, color: Byte)

  type Row = seq<ScreenChar>

  datatype Screen = Screen(rows: seq<Row>, column: nat)

  ghost predicate WellFormed(s: Screen) {
    && |s.rows| == HEIGHT
    && (forall r :: 0 <= r < HEIGHT ==> |s.rows[r]| == WIDTH)
    && s.column <= WIDTH
  }

  function Blank(color: Byte): ScreenChar {
    ScreenChar(SPACE, color)
  }

  function BlankRow(color: Byte): (row: Row)
    ensures |row| == WIDTH
  {
    seq(WIDTH, _ => Blank(color))
  }

  /** The bottom row, the only one ever written. */
  function Bottom(s: Screen): Row
    requires |s.rows| == HEIGHT
  {
    s.rows[HEIGHT - 1]
  }

  /** From the cursor on, the bottom row is blank. */
  ghost predicate BlankTail(s: Screen, color: Byte)
    requires WellFormed(s)
  {
    forall c :: s.column <= c < WIDTH ==> Bottom(s)[c] == Blank(color)
  }

  // -------------------------------------------------- what the operations do

  ghost function ClearedScreen(color: Byte): (s: Screen)
    ensures WellFormed(s) && BlankTail(s, color)
  {
    Screen(seq(HEIGHT, _ => BlankRow(color)), 0)
  }

  ghost function NewLine(s: Screen, color: Byte): (r: Screen)
    requires WellFormed(s)
    ensures WellFormed(r) && BlankTail(r, color)
  {
    Screen(s.rows[1..] + [BlankRow(color)], 0)
  }

  ghost function PutInRow(s: Screen, b: Byte, color: Byte): (r: Screen)
    requires WellFormed(s) && s.column < WIDTH
    ensures WellFormed(r)
  {
    Screen(s.rows[HEIGHT - 1 := Bottom(s)[s.column := ScreenChar(b, color)]], s.column + 1)
  }

  ghost function PutByte(s: Screen, b: Byte, color: Byte): (r: Screen)
    requires WellFormed(s)
    ensures WellFormed(r)
    ensures BlankTail(s, color) ==> BlankTail(r, color)
  {
    if b == NEWLINE then NewLine(s, color)
    else if s.column >= WIDTH then PutInRow(NewLine(s, color), b, color)
    else PutInRow(s, b, color)
  }

  /** Bytes outside printable ASCII and newline show as a filled square, 0xfe. */
  function SanitiseByte(b: Byte): Byte {
    if Printable(b) || b == NEWLINE then b else 0xFE
  }

  function Sanitise(s: seq<Byte>): (r: seq<Byte>)
    ensures |r| == |s|
  {
    seq(|s|, i requires 0 <= i < |s| => SanitiseByte(s[i]))
  }

  ghost function PutString(s: Screen, text: seq<Byte>, color: Byte): (r: Screen)
    requires WellFormed(s)
    ensures WellFormed(r)
    ensures BlankTail(s, color) ==> BlankTail(r, color)
    decreases text, s.column
  {
    if text == [] then s
    else PutString(PutByte(s, SanitiseByte(text[0]), color), text[1..], color)
  }

  ghost function Backspace(s: Screen, color: Byte): (r: Screen)
    requires WellFormed(s)
    ensures WellFormed(r)
    ensures BlankTail(s, color) ==> BlankTail(r, color)
  {
    if s.column == 0 then s
    else Screen(s.rows[HEIGHT - 1 := Bottom(s)[s.column - 1 := Blank(color)]], s.column - 1)
  }

  /** Writing `s` and then `t` is writing `s + t`. */
  lemma {:induction false} PutStringConcat(scr: Screen, s: seq<Byte>, t: seq<Byte>, color: Byte)
    requires WellFormed(scr)
    ensures PutString(scr, s + t, color) == PutString(PutString(scr, s, color), t, color)
    decreases s
  {
    if s == [] {
      assert s + t == t;
    } else {
      assert (s + t)[1..] == s[1..] + t;
      PutStringConcat(PutByte(scr, SanitiseByte(s[0]), color), s[1..], t, color);
    }
  }

  // ----------------------------------------- the grid is a window on the roll

  ghost function Paint(row: seq<Byte>, color: Byte): (r: Row)
    ensures |r| == WIDTH
  {
    seq(WIDTH, c requires 0 <= c < WIDTH =>
      if c < |row| then ScreenChar(row[c], color) else Blank(color))
  }

  /** What grid row `r` shows: the roll's last 25 rows, with blank rows above its start. */
  ghost function WindowRow(p: Paper, r: int, color: Byte): (row: Row)
    ensures |row| == WIDTH
  {
    var k := |p| - HEIGHT + r;
    if 0 <= k < |p| then Paint(p[k], color) else BlankRow(color)
  }

  /** The last 25 rows of the roll, with the cursor after its last byte. */
  ghost function Window(p: Paper, color: Byte): (s: Screen)
    requires IsPaper(p)
    ensures WellFormed(s) && BlankTail(s, color)
    ensures forall r :: 0 <= r < HEIGHT ==> s.rows[r] == WindowRow(p, r, color)
    ensures s.column == |Last(p)|
  {
    Screen(seq(HEIGHT, r => WindowRow(p, r, color)), |Last(p)|)
  }

  lemma FreshWindow(color: Byte)
    ensures Window(FreshPaper, color) == ClearedScreen(color)
  {
    assert Paint([], color) == BlankRow(color);
    assert Window(FreshPaper, color).rows == ClearedScreen(color).rows;
  }

  lemma WindowNewLine(p: Paper, color: Byte)
    requires IsPaper(p)
    ensures Window(p + [[]], color) == NewLine(Window(p, color), color)
  {
    assert Paint([], color) == BlankRow(color);
    var w, n := Window(p + [[]], color), NewLine(Window(p, color), color);
    assert w.rows == n.rows;
  }

  lemma WindowExtend(p: Paper, b: Byte, color: Byte)
    requires IsPaper(p) && |Last(p)| < WIDTH
    ensures IsPaper(Front(p) + [Last(p) + [b]])
    ensures Window(Front(p) + [Last(p) + [b]], color) == PutInRow(Window(p, color), b, color)
  {
    var q := Front(p) + [Last(p) + [b]];
    var w, n := Window(q, color), PutInRow(Window(p, color), b, color);
    assert Paint(Last(p) + [b], color) == Paint(Last(p), color)[|Last(p)| := ScreenChar(b, color)];
    assert forall r :: 0 <= r < HEIGHT - 1 ==> WindowRow(q, r, color) == WindowRow(p, r, color);
    assert w.rows == n.rows;
  }

  /** Writing one byte on the grid is typing it on the roll: scrolling loses only what leaves the window. */
  lemma PutByteRefines(p: Paper, b: Byte, color: Byte)
    requires IsPaper(p)
    ensures IsPaper(PaperType(p, b))
    ensures Window(PaperType(p, b), color) == PutByte(Window(p, color), b, color)
  {
    if b == NEWLINE {
      WindowNewLine(p, color);
    } else if |Last(p)| >= WIDTH {
      WindowNewLine(p, color);
      var q := p + [[]];
      assert Front(q) == p && Last(q) == [];
      WindowExtend(q, b, color);
      assert [] + [b] == [b];
    } else {
      WindowExtend(p, b, color);
    }
  }

  lemma {:induction false} PutStringRefines(p: Paper, s: seq<Byte>, color: Byte)
    requires IsPaper(p)
    ensures IsPaper(PaperTypeAll(p, Sanitise(s)))
    ensures Window(PaperTypeAll(p, Sanitise(s)), color) == PutString(Window(p, color), s, color)
    decreases s
  {
    if s != [] {
      PutByteRefines(p, SanitiseByte(s[0]), color);
      assert Sanitise(s)[1..] == Sanitise(s[1..]);
      PutStringRefines(PaperType(p, SanitiseByte(s[0])), s[1..], color);
    }
  }

  lemma BackspaceRefines(p: Paper, color: Byte)
    requires IsPaper(p)
    ensures IsPaper(PaperRub(p))
    ensures Window(PaperRub(p), color) == Backspace(Window(p, color), color)
  {
    if Last(p) != [] {
      var q := PaperRub(p);
      var w, n := Window(q, color), Backspace(Window(p, color), color);
      assert Paint(Last(q), color) == Paint(Last(p), color)[|Last(p)| - 1 := Blank(color)];
      assert forall r :: 0 <= r < HEIGHT - 1 ==> WindowRow(q, r, color) == WindowRow(p, r, color);
      assert w.rows == n.rows;
    }
  }

  /** One call into the terminal: `print!`, `backspace` or `clear_screen`. */
  datatype Call = Print(text: seq<Byte>) | Erase | Clear

  ghost function CallScreen(s: Screen, call: Call, color: Byte): (r: Screen)
    requires WellFormed(s)
    ensures WellFormed(r)
  {
    match call
    case Print(text) => PutString(s, text, color)
    case Erase => Backspace(s, color)
    case Clear => ClearedScreen(color)
  }

  ghost function RunScreen(s: Screen, calls: seq<Call>, color: Byte): (r: Screen)
    requires WellFormed(s)
    ensures WellFormed(r)
    decreases calls
  {
    if calls == [] then s else RunScreen(CallScreen(s, calls[0], color), calls[1..], color)
  }

  function CallPaper(p: Paper, call: Call): (r: Paper)
    requires p != []
    ensures r != []
  {
    match call
    case Print(text) => PaperTypeAll(p, Sanitise(text))
    case Erase => PaperRub(p)
    case Clear => FreshPaper
  }

  function RunPaper(p: Paper, calls: seq<Call>): (r: Paper)
    requires p != []
    ensures r != []
    decreases calls
  {
    if calls == [] then p else RunPaper(CallPaper(p, calls[0]), calls[1..])
  }

  /** In every run of terminal calls the 25x80 grid is the window on the unbounded roll. */
  lemma {:induction false} TerminalRefinesPaper(p: Paper, calls: seq<Call>, color: Byte)
    requires IsPaper(p)
    ensures IsPaper(RunPaper(p, calls))
    ensures Window(RunPaper(p, calls), color) == RunScreen(Window(p, color), calls, color)
    decreases calls
  {
    if calls != [] {
      match calls[0] {
        case Print(text) => PutStringRefines(p, text, color);
        case Erase => BackspaceRefines(p, color);
        case Clear => FreshWindow(color);
      }
      TerminalRefinesPaper(CallPaper(p, calls[0]), calls[1..], color);
    }
  }

  /**
   From a cleared screen, any text leaves the last 25 rows of its layout: cut at
   newlines, cut into rows of 80, with blank rows above and the cursor after the last byte.
   */
  lemma ClearedThenWritten(text: seq<Byte>, color: Byte)
    ensures IsPaper(Layout(Sanitise(text)))
    ensures PutString(ClearedScreen(color), text, color) == Window(Layout(Sanitise(text)), color)
  {
    FreshWindow(color);
    PutStringRefines(FreshPaper, text, color);
    TypingIsLayout(Sanitise(text));
  }

  /** A grid that a scroll leaves as it is, is blank. */
  lemma {:induction false} ScrolledSameIsBlank(rows: seq<Row>, color: Byte, k: nat)
    requires |rows| == HEIGHT && k < HEIGHT && rows[1..] + [BlankRow(color)] == rows
    ensures rows[k] == BlankRow(color)
    decreases HEIGHT - k
  {
    assert rows[k] == (rows[1..] + [BlankRow(color)])[k];
    if k < HEIGHT - 1 {
      ScrolledSameIsBlank(rows, color, k + 1);
    }
  }

  /**
   Backspace after any byte but newline erases exactly that byte and steps back over it.
   After newline it does nothing: the row is empty.
   */
  lemma BackspaceErasesLast(s: Screen, b: Byte, color: Byte)
    requires WellFormed(s)
    ensures var put := PutByte(s, b, color);
            var back := Backspace(put, color);
            if b == NEWLINE then back == put
            else
              && put.column > 0 && Bottom(put)[put.column - 1] == ScreenChar(b, color)
              && back.column == put.column - 1
              && back.rows == put.rows[HEIGHT - 1 := Bottom(put)[put.column - 1 := Blank(color)]]
  {
  }

  /**
   Backspace restores the screen as it was before the byte if and only if the byte did
   not scroll it: a byte that wrapped has pushed a row out for good, and so has newline,
   unless the screen was cleared to begin with.
   */
  lemma BackspaceUndoesPut(s: Screen, b: Byte, color: Byte)
    requires WellFormed(s) && BlankTail(s, color)
    ensures b != NEWLINE ==> (Backspace(PutByte(s, b, color), color) == s <==> s.column < WIDTH)
    ensures b != NEWLINE && s.column == WIDTH ==> Backspace(PutByte(s, b, color), color) == NewLine(s, color)
    ensures b == NEWLINE ==> (Backspace(PutByte(s, b, color), color) == s <==> s == ClearedScreen(color))
  {
    var r := Backspace(PutByte(s, b, color), color);
    if b != NEWLINE {
      var base := if s.column < WIDTH then s else NewLine(s, color);
      assert Bottom(r) == Bottom(base);
      assert forall k :: 0 <= k < HEIGHT - 1 ==> r.rows[k] == base.rows[k];
      assert r.rows == base.rows;
    } else {
      NewLineKeepsOnlyBlank(s, color);
    }
  }

  lemma NewLineKeepsOnlyBlank(s: Screen, color: Byte)
    requires WellFormed(s)
    ensures NewLine(s, color) == s <==> s == ClearedScreen(color)
  {
    if NewLine(s, color) == s {
      forall k: nat | k < HEIGHT
        ensures s.rows[k] == BlankRow(color)
      {
        ScrolledSameIsBlank(s.rows, color, k);
      }
      assert s.rows == ClearedScreen(color).rows;
    }
  }

  // ------------------------------------------------------------- searching

  ghost predicate OccursAt(s: Screen, needle: seq<Byte>, r: nat, start: nat)
    requires WellFormed(s)
  {
    && r < HEIGHT && start + |needle| <= WIDTH
    && forall i :: 0 <= i < |needle| ==> s.rows[r][start + i].byte == needle[i]
  }

  /** The needle is 1 to 80 bytes long and stands unbroken in one row. */
  ghost predicate Contains(s: Screen, needle: seq<Byte>)
    requires WellFormed(s)
  {
    1 <= |needle| <= WIDTH && exists r: nat, start: nat :: OccursAt(s, needle, r, start)
  }

  /** What each cell of the grid holds: the byte of one of the last 25 rows of the roll, or a space. */
  lemma WindowCells(p: Paper, r: nat, c: nat, color: Byte)
    requires IsPaper(p) && r < 25 && c < 80
    ensures var k := |p| - 25 + r;
            Window(p, color).rows[r][c]
            == ScreenChar(if 0 <= k && c < |p[k]| then p[k][c] else 0x20, color)
  {
    var k := |p| - 25 + r;
    assert Window(p, color).rows[r] == WindowRow(p, r, color);
    if 0 <= k {
      var row := p[k];
      assert WindowRow(p, r, color) == Paint(row, color);
      assert Paint(row, color)[c] == if c < |row| then ScreenChar(row[c], color) else Blank(color);
    } else {
      assert WindowRow(p, r, color) == BlankRow(color);
    }
  }

  /** A cleared screen holds spaces in the writer's colour, so only runs of 1 to 80 spaces are found on it. */
  lemma ClearedIsSpaces(needle: seq<Byte>, color: Byte)
    ensures forall r, c :: 0 <= r < 25 && 0 <= c < 80 ==> ClearedScreen(color).rows[r][c] == ScreenChar(0x20, color)
    ensures ClearedScreen(color).column == 0
    ensures Contains(ClearedScreen(color), needle)
        <==> 1 <= |needle| <= 80 && forall i :: 0 <= i < |needle| ==> needle[i] == 0x20
  {
    var s := ClearedScreen(color);
    if 1 <= |needle| <= 80 && forall i :: 0 <= i < |needle| ==> needle[i] == 0x20 {
      assert OccursAt(s, needle, 0, 0);
    }
  }

  /** A byte shows as itself when printable; newline shows as nothing; any other byte shows as 0xfe. */
  lemma ByteShows(p: Paper, b: Byte, color: Byte)
    requires IsPaper(p) && |Last(p)| < 80
    ensures var r := PutString(Window(p, color), [b], color);
            if b == 0x0A then r == Window(p + [[]], color)
            else r.column == |Last(p)| + 1
                 && Bottom(r)[|Last(p)|] == ScreenChar(if 0x20 <= b <= 0x7E then b else 0xFE, color)
  {
    PutStringRefines(p, [b], color);
    assert Sanitise([b]) == [SanitiseByte(b)];
    assert [SanitiseByte(b)][1..] == [];
    var q := PaperType(p, SanitiseByte(b));
    assert PaperTypeAll(p, [SanitiseByte(b)]) == PaperTypeAll(q, []) == q;
    if b != NEWLINE {
      WindowCells(q, 24, |Last(p)|, color);
    }
  }

  /** Text standing in one of the last 25 rows of the roll is found in the window. */
  lemma RollTextIsFound(z: Paper, k: nat, start: nat, text: seq<Byte>, color: Byte)
    requires IsPaper(z) && k < |z| < k + 1 + HEIGHT && text != [] && start + |text| <= |z[k]|
    requires forall i :: 0 <= i < |text| ==> z[k][start + i] == text[i]
    ensures Contains(Window(z, color), text)
  {
    var r: nat := k - (|z| - HEIGHT);
    assert WindowRow(z, r, color) == Paint(z[k], color);
    forall i | 0 <= i < |text|
      ensures Window(z, color).rows[r][start + i].byte == text[i]
    {
      assert z[k][start + i] == text[i];
    }
    assert OccursAt(Window(z, color), text, r, start);
  }

  lemma SanitisePrintable(text: seq<Byte>, more: seq<Byte>)
    requires AllPrintable(text)
    ensures Sanitise(text + more) == text + Sanitise(more)
  {
  }

  /** Printable text that fits the rest of the row stays there whatever is written after it. */
  lemma TextKeepsItsRow(p: Paper, text: seq<Byte>, more: seq<Byte>)
    requires IsPaper(p) && AllPrintable(text) && |Last(p)| + |text| <= WIDTH
    ensures var z := PaperTypeAll(p, Sanitise(text + more));
            && |p| <= |z| && |Last(p)| + |text| <= |z[|p| - 1]|
            && forall i :: 0 <= i < |text| ==> z[|p| - 1][|Last(p)| + i] == text[i]
  {
    SanitisePrintable(text, more);
    hide Sanitise, PaperTypeAll;
    PaperTypeConcat(p, text, Sanitise(more));
    TypingInRow(p, text);
    var q := Front(p) + [Last(p) + text];
    TypingKeepsRows(q, Sanitise(more));
    assert q[|p| - 1] == Last(p) + text;
  }

  /**
   Printable text that fits the rest of the row is found on the screen, and stays
   found whatever is written after it, until its row has scrolled out of the window.
   */
  lemma WrittenTextIsFound(p: Paper, text: seq<Byte>, more: seq<Byte>, color: Byte)
    requires IsPaper(p) && text != [] && AllPrintable(text) && |Last(p)| + |text| <= WIDTH
    requires |PaperTypeAll(p, Sanitise(text + more))| < |p| + HEIGHT
    ensures Contains(PutString(Window(p, color), text + more, color), text)
  {
    hide PutString, Sanitise, PaperTypeAll, Contains, Window;
    PutStringRefines(p, text + more, color);
    TextKeepsItsRow(p, text, more);
    var z := PaperTypeAll(p, Sanitise(text + more));
    RollTextIsFound(z, |p| - 1, |Last(p)|, text, color);
  }

  // --------------------------------------------------------- the Writer itself

  /** `Writer`: a column and the cell array, changed in place, and the cursor registers of the CRTC. */
  class Writer {
    const color: Byte
    const cells: array2<ScreenChar>
    var column: nat
    var cursorHigh: Byte
    var cursorLow: Byte
    ghost var screen: Screen

    ghost predicate Valid()
      reads this, cells
    {
      && cells.Length0 == HEIGHT && cells.Length1 == WIDTH
      && WellFormed(screen)
      && column == screen.column
      && forall r, c :: 0 <= r < HEIGHT && 0 <= c < WIDTH ==> cells[r, c] == screen.rows[r][c]
    }

    /** The static `WRITER`: column 0 over whatever the video memory holds at that moment. */
    constructor (memory: array2<ScreenChar>, color: Byte)
      requires memory.Length0 == HEIGHT && memory.Length1 == WIDTH
      ensures Valid() && cells == memory && this.color == color && column == 0
      ensures forall r, c :: 0 <= r < HEIGHT && 0 <= c < WIDTH ==> memory[r, c] == old(memory[r, c])
    {
      cells, this.color, column := memory, color, 0;
      cursorHigh, cursorLow := 0, 0;
      screen := Screen(
        seq(HEIGHT, r requires 0 <= r < HEIGHT reads memory =>
          seq(WIDTH, c requires 0 <= c < WIDTH reads memory => memory[r, c])),
        0);
    }

    /** The CRTC location registers hold the cell the next byte goes to. */
    ghost predicate CursorInSync()
      reads this
    {
      cursorHigh * 256 + cursorLow == (HEIGHT - 1) * WIDTH + column
    }

    method MoveHardwareCursor()
      requires column <= WIDTH
      modifies this`cursorHigh, this`cursorLow
      ensures CursorInSync()
    {
      var position := (HEIGHT - 1) * WIDTH + column;
      cursorHigh := (position / 256) % 256;
      cursorLow := position % 256;
    }

    method ClearRow(row: nat)
      requires cells.Length0 == HEIGHT && cells.Length1 == WIDTH && row < HEIGHT
      modifies cells
      ensures forall c :: 0 <= c < WIDTH ==> cells[row, c] == Blank(color)
      ensures forall r, c :: 0 <= r < HEIGHT && 0 <= c < WIDTH && r != row ==> cells[r, c] == old(cells[r, c])
    {
      for col := 0 to WIDTH
        invariant forall c :: 0 <= c < col ==> cells[row, c] == Blank(color)
        invariant forall r, c :: 0 <= r < HEIGHT && 0 <= c < WIDTH && r != row ==> cells[r, c] == old(cells[r, c])
      {
        cells[row, col] := Blank(color);
      }
    }

    method ScrollUp()
      requires cells.Length0 == HEIGHT && cells.Length1 == WIDTH
      modifies cells
      ensures forall r, c :: 0 <= r < HEIGHT - 1 && 0 <= c < WIDTH ==> cells[r, c] == old(cells[r + 1, c])
    {
      for row := 1 to HEIGHT
        invariant forall r, c :: 0 <= r < row - 1 && 0 <= c < WIDTH ==> cells[r, c] == old(cells[r + 1, c])
        invariant forall r, c :: row - 1 < r < HEIGHT && 0 <= c < WIDTH ==> cells[r, c] == old(cells[r, c])
        invariant row < HEIGHT ==> forall c :: 0 <= c < WIDTH ==> cells[row, c] == old(cells[row, c])
      {
        for col := 0 to WIDTH
          invariant forall r, c :: 0 <= r < row - 1 && 0 <= c < WIDTH ==> cells[r, c] == old(cells[r + 1, c])
          invariant forall c :: 0 <= c < col ==> cells[row - 1, c] == old(cells[row, c])
          invariant forall r, c :: row <= r < HEIGHT && 0 <= c < WIDTH ==> cells[r, c] == old(cells[r, c])
        {
          cells[row - 1, col] := cells[row, col];
        }
      }
    }

    method NewLineInPlace()
      requires Valid()
      modifies cells, this`column, this`screen
      ensures Valid() && screen == NewLine(old(screen), color)
    {
      ScrollUp();
      ClearRow(HEIGHT - 1);
      column := 0;
      screen := NewLine(screen, color);
    }

    method WriteByte(byte: Byte)
      requires Valid()
      modifies this, cells
      ensures Valid() && screen == PutByte(old(screen), byte, color) && CursorInSync()
    {
      if byte == NEWLINE {
        NewLineInPlace();
      } else {
        if column >= WIDTH {
          NewLineInPlace();
        }
        cells[HEIGHT - 1, column] := ScreenChar(byte, color);
        screen := PutInRow(screen, byte, color);
        column := column + 1;
      }
      MoveHardwareCursor();
    }

    method WriteString(text: seq<Byte>)
      requires Valid()
      modifies this, cells
      ensures Valid() && screen == PutString(old(screen), text, color)
      ensures text != [] || old(CursorInSync()) ==> CursorInSync()
    {
      for i := 0 to |text|
        invariant Valid()
        invariant PutString(screen, text[i..], color) == PutString(old(screen), text, color)
        invariant i > 0 || old(CursorInSync()) ==> CursorInSync()
      {
        assert text[i..][1..] == text[i + 1..];
        if Printable(text[i]) || text[i] == NEWLINE {
          WriteByte(text[i]);
        } else {
          WriteByte(0xFE);
        }
      }
    }

    method ClearScreen()
      requires Valid()
      modifies this, cells
      ensures Valid() && screen == ClearedScreen(color) && CursorInSync()
    {
      for row := 0 to HEIGHT
        invariant forall r, c :: 0 <= r < row && 0 <= c < WIDTH ==> cells[r, c] == Blank(color)
      {
        ClearRow(row);
      }
      column := 0;
      screen := ClearedScreen(color);
      MoveHardwareCursor();
    }

    method EraseLast()
      requires Valid()
      modifies this, cells
      ensures Valid() && screen == Backspace(old(screen), color)
      ensures old(column) > 0 || old(CursorInSync()) ==> CursorInSync()
    {
      if column == 0 {
        return;
      }
      column := column - 1;
      cells[HEIGHT - 1, column] := Blank(color);
      screen := Backspace(screen, color);
      MoveHardwareCursor();
    }

    method ScreenContains(needle: seq<Byte>) returns (found: bool)
      requires Valid()
      ensures found <==> Contains(screen, needle)
    {
      if needle == [] || |needle| > WIDTH {
        return false;
      }
      for row := 0 to HEIGHT
        invariant forall r: nat, start: nat :: r < row ==> !OccursAt(screen, needle, r, start)
      {
        for start := 0 to WIDTH - |needle| + 1
          invariant forall st: nat :: st < start ==> !OccursAt(screen, needle, row, st)
        {
          var i := 0;
          while i < |needle| && cells[row, start + i].byte == needle[i]
            invariant 0 <= i <= |needle|
            invariant forall k :: 0 <= k < i ==> cells[row, start + k].byte == needle[k]
          {
            i := i + 1;
          }
          if i == |needle| {
            assert OccursAt(screen, needle, row, start);
            return true;
          }
          assert screen.rows[row][start + i].byte != needle[i];
        }
      }
      return false;
    }
  }
}
