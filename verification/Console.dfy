/**
 The text console of RESEARCH-OS (vga.c): a 25 x 80 array of cells updated in place. It is proved
 to show, after every character, the last 25 rows of a terminal that never forgets a row.
 */
module Console {

  type Byte = n: nat | n < 256
  type Cell = n: nat | n < 0x1_0000

  const WIDTH := 80
  const HEIGHT := 25
  const CELLS := 2000
  const NEWLINE := 10
  const RETURN := 13
  const SPACE := 32

  /** vga_entry */
  function Entry(c: Byte, color: Byte): Cell {
    c + 256 * color
  }

  lemma EntryBytes(c: Byte, color: Byte)
    ensures Entry(c, color) % 256 == c && Entry(c, color) / 256 == color
  {}

  /** An unbounded terminal: all rows ever begun, the cursor, and the colour in force. */
  datatype Terminal = Terminal(rows: seq<seq<Cell>>, x: nat, y: nat, color: Byte)

  function BlankRow(color: Byte): (r: seq<Cell>)
    ensures |r| == WIDTH
  {
    seq(WIDTH, i => Entry(SPACE, color))
  }

  ghost predicate TerminalOk(t: Terminal) {
    && |t.rows| >= HEIGHT && t.x < WIDTH && |t.rows| - HEIGHT <= t.y < |t.rows|
    && forall i :: 0 <= i < |t.rows| ==> |t.rows[i]| == WIDTH
  }

  /** The cursor has moved to row y; a row that did not exist yet starts blank in the current colour. */
  function ToRow(t: Terminal, x: nat, y: nat): Terminal {
    if y < |t.rows| then t.(x := x, y := y) else t.(rows := t.rows + [BlankRow(t.color)], x := x, y := y)
  }

  function Write(t: Terminal, c: Byte): Terminal
    requires TerminalOk(t)
  {
    var row: seq<Cell> := t.rows[t.y];
    t.(rows := t.rows[t.y := row[t.x := Entry(c, t.color)]])
  }

  function PutChar(t: Terminal, c: Byte): Terminal
    requires TerminalOk(t)
  {
    if c == NEWLINE then ToRow(t, 0, t.y + 1)
    else if c == RETURN then t.(x := 0)
    else if t.x + 1 < WIDTH then Write(t, c).(x := t.x + 1)
    else ToRow(Write(t, c), 0, t.y + 1)
  }

  lemma PutCharOk(t: Terminal, c: Byte)
    requires TerminalOk(t)
    ensures TerminalOk(PutChar(t, c))
    ensures |t.rows| <= |PutChar(t, c).rows| <= |t.rows| + 1
  {}

  /** Printing a string in the colour in force. */
  function Print(t: Terminal, text: seq<Byte>): (r: Terminal)
    requires TerminalOk(t)
    ensures TerminalOk(r)
    decreases |text|
  {
    if text == [] then t
    else
      PutCharOk(t, text[0]);
      Print(PutChar(t, text[0]), text[1..])
  }

  // ---------------------------------------------------------- the terminal as a reference

  /** A character together with the colour in force when it is written. */
  datatype Glyph = Glyph(c: Byte, color: Byte)

  function Put(t: Terminal, g: Glyph): Terminal
    requires TerminalOk(t)
  {
    PutChar(t.(color := g.color), g.c)
  }

  function Show(t: Terminal, stream: seq<Glyph>): (r: Terminal)
    requires TerminalOk(t)
    ensures TerminalOk(r)
    decreases |stream|
  {
    if stream == [] then t
    else
      PutCharOk(t.(color := stream[0].color), stream[0].c);
      Show(Put(t, stream[0]), stream[1..])
  }

  /** Where the next character of a stream lands. */
  datatype Cursor = Cursor(x: nat, y: nat)

  function Advance(p: Cursor, c: Byte): Cursor {
    if c == NEWLINE then Cursor(0, p.y + 1)
    else if c == RETURN then Cursor(0, p.y)
    else if p.x + 1 < WIDTH then Cursor(p.x + 1, p.y)
    else Cursor(0, p.y + 1)
  }

  predicate Printable(c: Byte) {
    c != NEWLINE && c != RETURN
  }

  /** The last printable character of the stream to land on (row, col), or -1. */
  function LastWriter(p: Cursor, stream: seq<Glyph>, row: nat, col: nat): (k: int)
    ensures -1 <= k < |stream|
    decreases |stream|
  {
    if stream == [] then -1
    else
      var later := LastWriter(Advance(p, stream[0].c), stream[1..], row, col);
      if later >= 0 then later + 1
      else if Printable(stream[0].c) && p == Cursor(col, row) then 0
      else -1
  }

  /** The first character of the stream after which the cursor stands in `row`, or -1. */
  function RowStarter(p: Cursor, stream: seq<Glyph>, row: nat): (k: int)
    ensures -1 <= k < |stream|
    decreases |stream|
  {
    if stream == [] then -1
    else if Advance(p, stream[0].c).y == row then 0
    else
      var later := RowStarter(Advance(p, stream[0].c), stream[1..], row);
      if later >= 0 then later + 1 else -1
  }

  function InColor(text: seq<Byte>, color: Byte): (s: seq<Glyph>)
    ensures |s| == |text|
  {
    if text == [] then [] else [Glyph(text[0], color)] + InColor(text[1..], color)
  }

  lemma {:induction false} PrintIsShow(t: Terminal, text: seq<Byte>)
    requires TerminalOk(t)
    ensures Print(t, text) == Show(t, InColor(text, t.color))
    decreases |text|
  {
    if text != [] {
      PutCharOk(t, text[0]);
      assert t.(color := t.color) == t && PutChar(t, text[0]).color == t.color;
      PrintIsShow(PutChar(t, text[0]), text[1..]);
    }
  }

  lemma PutCell(t: Terminal, g: Glyph, row: nat, col: nat)
    requires TerminalOk(t) && col < WIDTH && row < |Put(t, g).rows|
    ensures var u := Put(t, g); var p := Cursor(t.x, t.y);
            && TerminalOk(u) && Cursor(u.x, u.y) == Advance(p, g.c)
            && |t.rows| <= |u.rows| && (row >= |t.rows| ==> row == |t.rows| == u.y)
            && u.rows[row][col] == if row >= |t.rows| then Entry(SPACE, g.color)
                                   else if Printable(g.c) && p == Cursor(col, row) then Entry(g.c, g.color)
                                   else t.rows[row][col]
  {}

  /**
   An independent reading of the terminal: a cell shows the last character that landed on it, in
   the colour of that time; an unwritten cell shows what it showed before or, on a row begun by
   the stream, a blank in the colour of the character that began the row.
   */
  lemma {:induction false} LastWriterWins(t: Terminal, stream: seq<Glyph>, row: nat, col: nat)
    requires TerminalOk(t) && col < WIDTH && row < |Show(t, stream).rows|
    ensures var p := Cursor(t.x, t.y);
            var k, b := LastWriter(p, stream, row, col), RowStarter(p, stream, row);
            && (row >= |t.rows| ==> b >= 0)
            && Show(t, stream).rows[row][col] == if k >= 0 then Entry(stream[k].c, stream[k].color)
                                                 else if row < |t.rows| then t.rows[row][col]
                                                 else Entry(SPACE, stream[b].color)
    decreases |stream|
  {
    if stream != [] {
      var u := Put(t, stream[0]);
      PutCharOk(t.(color := stream[0].color), stream[0].c);
      LastWriterWins(u, stream[1..], row, col);
      PutCell(t, stream[0], if row < |u.rows| then row else 0, col);
    }
  }

  /**
   The same in bytes: the low byte of a cell is the character, the high byte the colour. Of a cell
   never written on a row the stream began, they are a blank and the colour that began the row.
   */
  lemma CellBytes(t: Terminal, stream: seq<Glyph>, row: nat, col: nat)
    requires TerminalOk(t) && col < 80 && row < |Show(t, stream).rows|
    ensures var p, cell := Cursor(t.x, t.y), Show(t, stream).rows[row][col];
            var k, b := LastWriter(p, stream, row, col), RowStarter(p, stream, row);
            && (k >= 0 ==> cell % 256 == stream[k].c && cell / 256 == stream[k].color)
            && (k < 0 && row >= |t.rows| ==> b >= 0 && cell % 256 == 32 && cell / 256 == stream[b].color)
            && (k < 0 && row < |t.rows| ==> cell == t.rows[row][col])
  {
    var p := Cursor(t.x, t.y);
    var k, b := LastWriter(p, stream, row, col), RowStarter(p, stream, row);
    LastWriterWins(t, stream, row, col);
    if k >= 0 {
      EntryBytes(stream[k].c, stream[k].color);
    } else if row >= |t.rows| {
      EntryBytes(32, stream[b].color);
    }
  }

  /** Rows the window has left behind are final. */
  lemma {:induction false} ScrolledRowsFinal(t: Terminal, stream: seq<Glyph>, row: nat)
    requires TerminalOk(t) && row < |t.rows| - HEIGHT
    ensures var r := Show(t, stream); |t.rows| <= |r.rows| && r.rows[row] == t.rows[row]
    decreases |stream|
  {
    if stream != [] {
      PutCharOk(t.(color := stream[0].color), stream[0].c);
      ScrolledRowsFinal(Put(t, stream[0]), stream[1..], row);
    }
  }

  // --------------------------------------------------------------------- the screen

  /** The screen array shows the last 25 rows. */
  ghost predicate Shows(cells: seq<Cell>, rows: seq<seq<Cell>>) {
    && |cells| == CELLS && |rows| >= HEIGHT
    && (forall i :: 0 <= i < |rows| ==> |rows[i]| == WIDTH)
    && forall r: nat, c: nat {:trigger CellShown(cells, rows, r, c)} :: CellShown(cells, rows, r, c)
  }

  ghost predicate CellShown(cells: seq<Cell>, rows: seq<seq<Cell>>, r: nat, c: nat)
    requires |cells| == CELLS && |rows| >= HEIGHT && forall i :: 0 <= i < |rows| ==> |rows[i]| == WIDTH
  {
    r < HEIGHT && c < WIDTH ==> cells[r * WIDTH + c] == rows[|rows| - HEIGHT + r][c]
  }

  lemma CellIndex(r: nat, c: nat, y: nat, x: nat)
    requires c < WIDTH && x < WIDTH && r * WIDTH + c == y * WIDTH + x
    ensures r == y && c == x
  {}

  /** One store to the array is one store to the row it shows. */
  lemma ShowsWritten(cells: seq<Cell>, rows: seq<seq<Cell>>, y: nat, x: nat, v: Cell)
    requires Shows(cells, rows) && y < HEIGHT && x < WIDTH
    ensures y * WIDTH + x < |cells|
    ensures var row: seq<Cell> := rows[|rows| - HEIGHT + y];
            Shows(cells[y * WIDTH + x := v], rows[|rows| - HEIGHT + y := row[x := v]])
  {
    var row: seq<Cell> := rows[|rows| - HEIGHT + y];
    var rows' := rows[|rows| - HEIGHT + y := row[x := v]];
    var cells' := cells[y * WIDTH + x := v];
    forall r: nat, c: nat ensures CellShown(cells', rows', r, c) {
      assert CellShown(cells, rows, r, c);
      if c < WIDTH && r * WIDTH + c == y * WIDTH + x { CellIndex(r, c, y, x); }
    }
  }

  /** Moving 24 rows up and blanking the last is moving the window one row down. */
  lemma ShowsScrolled(cells: seq<Cell>, rows: seq<seq<Cell>>, after: seq<Cell>, color: Byte)
    requires Shows(cells, rows) && |after| == CELLS
    requires forall i :: 0 <= i < CELLS - WIDTH ==> after[i] == cells[i + WIDTH]
    requires forall i :: CELLS - WIDTH <= i < CELLS ==> after[i] == Entry(SPACE, color)
    ensures Shows(after, rows + [BlankRow(color)])
  {
    var all := rows + [BlankRow(color)];
    forall r: nat, c: nat ensures CellShown(after, all, r, c) {
      assert CellShown(cells, rows, r + 1, c);
      assert r * WIDTH + c + WIDTH == (r + 1) * WIDTH + c;
    }
  }

  /** vga_clear: the visible rows are blanked where they are; the cursor stays. */
  function Cleared(t: Terminal): Terminal
    requires |t.rows| >= HEIGHT
  {
    t.(rows := t.rows[..|t.rows| - HEIGHT] + seq(HEIGHT, i => BlankRow(t.color)))
  }

  class Screen {
    const buffer: array<Cell>       // the words at 0xB8000
    var x: nat
    var y: nat
    var color: Byte
    ghost var term: Terminal

    ghost predicate Valid()
      reads this, buffer
    {
      && buffer.Length == CELLS
      && TerminalOk(term) && Shows(buffer[..], term.rows)
      && x == term.x && y == term.y - (|term.rows| - HEIGHT) && color == term.color
    }

    /** vga_init on memory in any state. */
    constructor (memory: array<Cell>)
      requires memory.Length == CELLS
      modifies memory
      ensures Valid() && buffer == memory
      ensures term == Terminal(seq(HEIGHT, i => BlankRow(7)), 0, 0, 7)
    {
      buffer := memory;
      x, y, color := 0, 0, 7;       // light grey on black
      new;
      Fill();
      term := Terminal(seq(HEIGHT, i => BlankRow(7)), 0, 0, 7);
    }

    method Fill()
      requires buffer.Length == CELLS
      modifies buffer
      ensures forall i :: 0 <= i < CELLS ==> buffer[i] == Entry(SPACE, color)
    {
      for row := 0 to HEIGHT
        invariant forall i :: 0 <= i < row * WIDTH ==> buffer[i] == Entry(SPACE, color)
      {
        for col := 0 to WIDTH
          invariant forall i :: 0 <= i < row * WIDTH + col ==> buffer[i] == Entry(SPACE, color)
        {
          buffer[row * WIDTH + col] := Entry(SPACE, color);
        }
      }
    }

    method VgaClear()
      requires Valid()
      modifies this`term, buffer
      ensures Valid() && term == Cleared(old(term)) && x == old(x) && y == old(y)
      ensures forall i :: 0 <= i < 2000 ==> buffer[i] % 256 == 32 && buffer[i] / 256 == color
    {
      Fill();
      term := Cleared(term);
    }

    method VgaSetColor(fg: bv8, bg: bv8)
      requires Valid()
      modifies this`color, this`term
      ensures Valid() && term == old(term).(color := (fg | (bg << 4)) as int)
      ensures fg < 16 && bg < 16 ==> color == fg as int + 16 * bg as int
    {
      ColorBits(fg, bg);
      color := (fg | (bg << 4)) as int;
      term := term.(color := color);
    }

    /** The two loops of vga_scroll. */
    method ShiftUp()
      requires buffer.Length == CELLS
      modifies buffer
      ensures forall i :: 0 <= i < CELLS - WIDTH ==> buffer[i] == old(buffer[..])[i + WIDTH]
      ensures forall i :: CELLS - WIDTH <= i < CELLS ==> buffer[i] == Entry(SPACE, color)
      ensures forall i :: 1920 <= i < 2000 ==> buffer[i] % 256 == 32 && buffer[i] / 256 == color
    {
      ghost var cells := buffer[..];
      for row := 1 to HEIGHT
        invariant forall i :: 0 <= i < (row - 1) * WIDTH ==> buffer[i] == cells[i + WIDTH]
        invariant forall i :: (row - 1) * WIDTH <= i < CELLS ==> buffer[i] == cells[i]
      {
        for col := 0 to WIDTH
          invariant forall i :: 0 <= i < (row - 1) * WIDTH + col ==> buffer[i] == cells[i + WIDTH]
          invariant forall i :: (row - 1) * WIDTH + col <= i < CELLS ==> buffer[i] == cells[i]
        {
          buffer[(row - 1) * WIDTH + col] := buffer[row * WIDTH + col];
        }
      }
      for col := 0 to WIDTH
        invariant forall i :: 0 <= i < CELLS - WIDTH ==> buffer[i] == cells[i + WIDTH]
        invariant forall i :: CELLS - WIDTH <= i < CELLS - WIDTH + col ==> buffer[i] == Entry(SPACE, color)
      {
        buffer[(HEIGHT - 1) * WIDTH + col] := Entry(SPACE, color);
      }
    }

    /** vga_scroll, where the cursor may stand one row below the window. */
    method VgaScroll()
      requires buffer.Length == CELLS && Shows(buffer[..], term.rows) && TerminalOk(term)
      requires y <= HEIGHT && x < WIDTH && color == term.color
      modifies this`y, this`term, buffer
      ensures Valid() && term == ToRow(old(term), x, old(|term.rows|) - HEIGHT + old(y))
      ensures old(y) < 25 ==> y == old(y) && buffer[..] == old(buffer[..])
      ensures old(y) == 25 ==> y == 24 && forall i :: 0 <= i < 1920 ==> buffer[i] == old(buffer[..])[i + 80]
    {
      ghost var target := |term.rows| - HEIGHT + y;
      if y >= HEIGHT {
        ghost var cells := buffer[..];
        ShiftUp();
        ShowsScrolled(cells, term.rows, buffer[..], color);
        y := HEIGHT - 1;
      }
      term := ToRow(term, x, target);
    }

    /** vga_putc: every store is inside the array, and the screen follows the terminal. */
    method VgaPutc(c: Byte)
      requires Valid()
      modifies this`x, this`y, this`term, buffer
      ensures Valid() && term == PutChar(old(term), c)
      ensures x == if c == 10 || c == 13 || old(x) == 79 then 0 else old(x) + 1
      ensures y == if (c == 10 || (c != 13 && old(x) == 79)) && old(y) < 24 then old(y) + 1 else old(y)
      ensures c != 10 && c != 13 ==>
        var at := (if old(x) == 79 && old(y) == 24 then 23 else old(y)) * 80 + old(x);
        at < buffer.Length && buffer[at] % 256 == c && buffer[at] / 256 == color
    {
      if c == NEWLINE {
        x := 0;
        y := y + 1;
      } else if c == RETURN {
        x := 0;
      } else {
        StoreChar(c);
        x := x + 1;
        if x >= WIDTH {
          x := 0;
          y := y + 1;
        }
      }
      VgaScroll();
    }

    method StoreChar(c: Byte)
      requires Valid()
      modifies this`term, buffer
      ensures Valid() && term == Write(old(term), c)
      ensures buffer[..] == old(buffer[..])[y * WIDTH + x := buffer[y * WIDTH + x]]
      ensures buffer[y * WIDTH + x] % 256 == c && buffer[y * WIDTH + x] / 256 == color
    {
      ShowsWritten(buffer[..], term.rows, y, x, Entry(c, color));
      ghost var after := buffer[..][y * WIDTH + x := Entry(c, color)];
      buffer[y * WIDTH + x] := Entry(c, color);
      assert buffer[..] == after;
      term := Write(term, c);
    }

    /** vga_print of a NUL-terminated string. */
    method VgaPrint(str: seq<Byte>)
      requires Valid() && 0 in str
      modifies this`x, this`y, this`term, buffer
      ensures Valid() && term == Print(old(term), UpToNul(str))
    {
      var i := 0;
      while str[i] != 0
        invariant 0 <= i < |str| && 0 in str[i..] && Valid()
        invariant Print(term, UpToNul(str[i..])) == Print(old(term), UpToNul(str))
        decreases |str| - i
      {
        assert str[i..][1..] == str[i + 1..];
        VgaPutc(str[i]);
        i := i + 1;
      }
    }
  }

  lemma ColorBits(fg: bv8, bg: bv8)
    ensures fg < 16 && bg < 16 ==> (fg | (bg << 4)) as int == fg as int + 16 * bg as int
  {
    if fg < 16 && bg < 16 {
      assert fg | (bg << 4) == fg + 16 * bg;
    }
  }

  /** The characters before the first NUL. */
  function UpToNul(str: seq<Byte>): seq<Byte> {
    if str == [] || str[0] == 0 then [] else [str[0]] + UpToNul(str[1..])
  }

  /** They are the string up to its first 0, wherever that is. */
  lemma {:induction false} UpToFirstNul(str: seq<Byte>, k: nat)
    requires k < |str| && str[k] == 0 && forall i :: 0 <= i < k ==> str[i] != 0
    ensures UpToNul(str) == str[..k]
  {
    if k > 0 {
      UpToFirstNul(str[1..], k - 1);
      assert str[..k] == [str[0]] + str[1..][..k - 1];
    }
  }
}
