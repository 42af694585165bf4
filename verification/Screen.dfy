/** One 25x80 text screen, what printing a byte does to it, and the unbounded document
    of which it shows the last 25 rows. */
module Screen {
  import opened Bytes
  import opened Text

  const ROWS: nat := 25
  const COLS: nat := 80
  const ROW_BYTES: nat := 160
  const SCREEN_BYTES: nat := 4000
  const ATTRIB: byte := 2

  /** Character cells, two bytes each, and the cursor. */
  datatype Screen = Screen(cells: seq<byte>, x: int, y: int) {
    predicate Valid() {
      |cells| == SCREEN_BYTES && 0 <= x < COLS && 0 <= y < ROWS
    }
  }

  function BlankRow(): seq<byte> {
    seq(ROW_BYTES, i => if i % 2 == 0 then SPACE else ATTRIB)
  }

  function SetCell(cells: seq<byte>, cell: nat, c: byte): seq<byte>
    requires 2 * cell + 1 < |cells|
  {
    cells[2 * cell := c][2 * cell + 1 := ATTRIB]
  }

  function ScrollUp(cells: seq<byte>): seq<byte>
    requires |cells| == SCREEN_BYTES
  {
    cells[ROW_BYTES..] + BlankRow()
  }

  /** Where the cursor moves on a backspace; it stays at the top left corner. */
  function Back(x: int, y: int): (int, int) {
    if x > 0 then (x - 1, y) else if y > 0 then (COLS - 1, y - 1) else (0, 0)
  }

  function Print(s: Screen, c: byte): (r: Screen)
    requires s.Valid()
    ensures r.Valid()
  {
    var cells := SetCell(s.cells, COLS * s.y + s.x, c);
    if s.x + 1 < COLS then Screen(cells, s.x + 1, s.y)
    else if s.y + 1 < ROWS then Screen(cells, 0, s.y + 1)
    else Screen(ScrollUp(cells), 0, s.y)
  }

  /** The effect of one byte of output on the screen that receives it. */
  function Putc(s: Screen, c: byte): (r: Screen)
    requires s.Valid()
    ensures r.Valid()
  {
    if c == NUL then s
    else if c == NEWLINE then
      if s.y + 1 < ROWS then s.(x := 0, y := s.y + 1) else s.(cells := ScrollUp(s.cells), x := 0)
    else if c == BACKSPACE then
      var (x, y) := Back(s.x, s.y);
      Screen(SetCell(s.cells, COLS * y + x, SPACE), x, y)
    else if c == TAB then Print(s, SPACE)
    else Print(s, c)
  }

  function Type(s: Screen, text: seq<byte>): (r: Screen)
    requires s.Valid()
    ensures r.Valid()
    decreases |text|
  {
    if text == [] then s else Putc(Type(s, text[..|text| - 1]), text[|text| - 1])
  }

  lemma {:induction false} TypeAppend(s: Screen, a: seq<byte>, b: seq<byte>)
    requires s.Valid()
    ensures Type(s, a + b) == Type(Type(s, a), b)
    decreases |b|
  {
    if b == [] {
      assert a + b == a;
    } else {
      var n := |b| - 1;
      TypeAppend(s, a, b[..n]);
      assert (a + b)[..|a + b| - 1] == a + b[..n];
    }
  }

  // ---------------------------------------------------------------- documents

  /** A document grows downwards without bound; row r and column c are the cursor. */
  datatype Doc = Doc(rows: seq<seq<byte>>, r: nat, c: nat) {
    predicate Valid() {
      && |rows| >= ROWS && |rows| - ROWS <= r < |rows| && c < COLS
      && forall i :: 0 <= i < |rows| ==> |rows[i]| == ROW_BYTES
    }
  }

  /** The screen shows the last 25 rows of the document. */
  ghost predicate Shows(d: Doc, s: Screen)
    requires d.Valid() && s.Valid()
  {
    && s.x == d.c
    && s.y == d.r - (|d.rows| - ROWS)
    && forall i :: 0 <= i < SCREEN_BYTES ==>
         s.cells[i] == d.rows[|d.rows| - ROWS + i / ROW_BYTES][i % ROW_BYTES]
  }

  function NextRow(d: Doc): (e: Doc)
    requires d.Valid()
    ensures e.Valid()
  {
    if d.r + 1 < |d.rows| then d.(r := d.r + 1, c := 0)
    else Doc(d.rows + [BlankRow()], d.r + 1, 0)
  }

  function PutCell(d: Doc, c: byte): (e: Doc)
    requires d.Valid()
    ensures e.Valid()
  {
    d.(rows := d.rows[d.r := SetCell(d.rows[d.r], d.c, c)])
  }

  function DocPutc(d: Doc, c: byte): (e: Doc)
    requires d.Valid() && (c == BACKSPACE ==> d.c > 0 || d.r > |d.rows| - ROWS)
    ensures e.Valid()
  {
    if c == NUL then d
    else if c == NEWLINE then NextRow(d)
    else if c == BACKSPACE then
      PutCell(if d.c > 0 then d.(c := d.c - 1) else d.(r := d.r - 1, c := COLS - 1), SPACE)
    else
      var e := PutCell(d, if c == TAB then SPACE else c);
      if d.c + 1 < COLS then e.(c := d.c + 1) else NextRow(e)
  }

  lemma {:induction false} ScrollShows(d: Doc, s: Screen)
    requires d.Valid() && s.Valid() && Shows(d, s) && d.r + 1 == |d.rows|
    ensures Shows(NextRow(d), s.(cells := ScrollUp(s.cells), x := 0))
  {
    var e := NextRow(d);
    var cells := ScrollUp(s.cells);
    forall i | 0 <= i < SCREEN_BYTES
      ensures cells[i] == e.rows[|e.rows| - ROWS + i / ROW_BYTES][i % ROW_BYTES]
    {
      if i < SCREEN_BYTES - ROW_BYTES {
        assert cells[i] == s.cells[i + ROW_BYTES];
        assert (i + ROW_BYTES) / ROW_BYTES == i / ROW_BYTES + 1;
        assert (i + ROW_BYTES) % ROW_BYTES == i % ROW_BYTES;
      } else {
        assert cells[i] == BlankRow()[i - (SCREEN_BYTES - ROW_BYTES)];
      }
    }
  }

  lemma {:induction false} PutCellShows(d: Doc, s: Screen, c: byte)
    requires d.Valid() && s.Valid() && Shows(d, s)
    ensures Shows(PutCell(d, c), s.(cells := SetCell(s.cells, COLS * s.y + s.x, c)))
  {
    var e := PutCell(d, c);
    var k := 2 * (COLS * s.y + s.x);
    var cells := SetCell(s.cells, COLS * s.y + s.x, c);
    forall i | 0 <= i < SCREEN_BYTES
      ensures cells[i] == e.rows[|e.rows| - ROWS + i / ROW_BYTES][i % ROW_BYTES]
    {
      assert k == ROW_BYTES * s.y + 2 * d.c;
      assert i / ROW_BYTES == s.y && i % ROW_BYTES == 2 * d.c <==> i == k;
      assert i / ROW_BYTES == s.y && i % ROW_BYTES == 2 * d.c + 1 <==> i == k + 1;
    }
  }

  lemma {:induction false} EraseShows(d: Doc, s: Screen)
    requires d.Valid() && s.Valid() && Shows(d, s) && !(s.x == 0 && s.y == 0)
    ensures Shows(DocPutc(d, BACKSPACE), Putc(s, BACKSPACE))
  {
    var (x, y) := Back(s.x, s.y);
    var e := if d.c > 0 then d.(c := d.c - 1) else d.(r := d.r - 1, c := COLS - 1);
    PutCellShows(e, s.(x := x, y := y), SPACE);
  }

  lemma {:induction false} PrintShows(d: Doc, s: Screen, c: byte)
    requires d.Valid() && s.Valid() && Shows(d, s)
    ensures var e := PutCell(d, c);
      Shows(if d.c + 1 < COLS then e.(c := d.c + 1) else NextRow(e), Print(s, c))
  {
    PutCellShows(d, s, c);
    if s.x + 1 == COLS && s.y + 1 == ROWS {
      ScrollShows(PutCell(d, c), s.(cells := SetCell(s.cells, COLS * s.y + s.x, c)));
    }
  }

  /** A byte printed on the screen shows what the same byte does to the document, as long
      as a backspace does not have to bring back a row that has scrolled away. */
  lemma {:induction false} PutcShows(d: Doc, s: Screen, c: byte)
    requires d.Valid() && s.Valid() && Shows(d, s)
    requires !(c == BACKSPACE && s.x == 0 && s.y == 0)
    ensures Shows(DocPutc(d, c), Putc(s, c))
  {
    if c == NEWLINE {
      if s.y + 1 == ROWS { ScrollShows(d, s); }
    } else if c == BACKSPACE {
      EraseShows(d, s);
    } else if c != NUL {
      PrintShows(d, s, if c == TAB then SPACE else c);
    }
  }

  predicate Printable(c: byte) {
    c != NUL && c != NEWLINE && c != BACKSPACE
  }

  /** Printing a character and erasing it comes back to the same place of the document,
      now blank; nothing else changes but for a fresh row if the character scrolled. */
  lemma {:induction false} EraseReturns(d: Doc, c: byte)
    requires d.Valid() && Printable(c)
    ensures var e := DocPutc(DocPutc(d, c), BACKSPACE);
      && e.r == d.r && e.c == d.c
      && e.rows == PutCell(d, SPACE).rows
           + (if d.c == COLS - 1 && d.r == |d.rows| - 1 then [BlankRow()] else [])
  {
    var p := DocPutc(d, c);
    var e := DocPutc(p, BACKSPACE);
    assert e.rows[d.r] == SetCell(d.rows[d.r], d.c, SPACE);
  }

  /** The same on the screen: after the erase it still shows the erased document. */
  lemma {:induction false} EraseOnScreen(d: Doc, s: Screen, c: byte)
    requires d.Valid() && s.Valid() && Shows(d, s) && Printable(c)
    ensures Shows(DocPutc(DocPutc(d, c), BACKSPACE), Putc(Putc(s, c), BACKSPACE))
  {
    PutcShows(d, s, c);
    PutcShows(DocPutc(d, c), Putc(s, c), BACKSPACE);
  }

  // ------------------------------------------------- typed text and its layout

  /** A row of characters as the display stores it. */
  function Paint(row: seq<byte>): (cells: seq<byte>)
    ensures |cells| == ROW_BYTES
  {
    seq(ROW_BYTES, i requires 0 <= i =>
      if i % 2 == 1 then ATTRIB else if i / 2 < |row| then row[i / 2] else SPACE)
  }

  function PaintAll(rows: seq<seq<byte>>): (all: seq<seq<byte>>)
    ensures |all| == if |rows| < ROWS then ROWS else |rows|
    ensures forall i :: 0 <= i < |all| ==>
      all[i] == if i < |rows| then Paint(rows[i]) else BlankRow()
  {
    seq(if |rows| < ROWS then ROWS else |rows|, i requires 0 <= i =>
      if i < |rows| then Paint(rows[i]) else BlankRow())
  }

  /** Rows of text as a document, padded below to a full screen, cursor at the end. */
  function DocOf(rows: seq<seq<byte>>): (d: Doc)
    requires |rows| >= 1 && |rows[|rows| - 1]| < COLS
    ensures d.Valid()
  {
    Doc(PaintAll(rows), |rows| - 1, |rows[|rows| - 1]|)
  }

  function LayOut(text: seq<byte>): (d: Doc)
    ensures d.Valid()
  {
    DocOf(Rows(text, COLS))
  }

  function Untab(c: byte): byte {
    if c == TAB then SPACE else c
  }

  function Detab(text: seq<byte>): (r: seq<byte>)
    ensures |r| == |text|
  {
    seq(|text|, i requires 0 <= i < |text| => Untab(text[i]))
  }

  function Cleared(): (s: Screen)
    ensures s.Valid()
  {
    Screen(seq(SCREEN_BYTES, i => if i % 2 == 0 then SPACE else ATTRIB), 0, 0)
  }

  lemma {:induction false} PaintEmpty()
    ensures Paint([]) == BlankRow()
  {
  }

  lemma {:induction false} PaintReplaced(all: seq<seq<byte>>, last: seq<byte>, row: seq<byte>)
    ensures PaintAll(all + [row]) == PaintAll(all + [last])[|all| := Paint(row)]
  {
  }

  lemma {:induction false} PaintMore(rows: seq<seq<byte>>)
    ensures PaintAll(rows + [[]])
      == if |rows| < ROWS then PaintAll(rows) else PaintAll(rows) + [BlankRow()]
  {
    PaintEmpty();
  }

  /** Typing into the last row of a layout. */
  lemma {:induction false} PutCellLaysOut(all: seq<seq<byte>>, last: seq<byte>, c: byte)
    requires |last| < COLS
    ensures PutCell(Doc(PaintAll(all + [last]), |all|, |last|), c).rows == PaintAll(all + [last + [c]])
  {
    PaintExtended(last, c);
    PaintReplaced(all, last, last + [c]);
  }

  lemma {:induction false} NewlineExtends(rows: seq<seq<byte>>)
    requires |rows| >= 1 && |rows[|rows| - 1]| < COLS
    ensures DocOf(rows + [[]]) == NextRow(DocOf(rows))
  {
    PaintMore(rows);
    hide PaintAll, BlankRow;
  }

  lemma {:induction false} CharacterExtends(all: seq<seq<byte>>, last: seq<byte>, c: byte)
    requires |last| + 1 < COLS
    ensures DocOf(all + [last + [c]]) == PutCell(DocOf(all + [last]), c).(c := |last| + 1)
  {
    PutCellLaysOut(all, last, c);
    hide PaintAll, SetCell, BlankRow;
  }

  lemma {:induction false} LastColumnExtends(all: seq<seq<byte>>, last: seq<byte>, c: byte)
    requires |last| + 1 == COLS
    ensures DocOf(all + [last + [c], []]) == NextRow(PutCell(DocOf(all + [last]), c))
  {
    PutCellLaysOut(all, last, c);
    PaintMore(all + [last + [c]]);
    assert all + [last + [c], []] == all + [last + [c]] + [[]];
    hide PaintAll, SetCell, BlankRow;
  }

  lemma {:induction false} DocOfExtended(all: seq<seq<byte>>, last: seq<byte>, c: byte)
    requires Printable(c) || c == NEWLINE
    requires c != TAB && |last| < COLS
    ensures var rows := Extend(all + [last], c, COLS);
      && |rows| >= 1 && |rows[|rows| - 1]| < COLS
      && DocOf(rows) == DocPutc(DocOf(all + [last]), c)
  {
    assert (all + [last])[..|all|] == all;
    hide DocOf, PutCell, NextRow;
    if c == NEWLINE {
      NewlineExtends(all + [last]);
    } else if |last| + 1 < COLS {
      CharacterExtends(all, last, c);
    } else {
      LastColumnExtends(all, last, c);
    }
  }

  lemma {:induction false} PaintExtended(row: seq<byte>, c: byte)
    requires |row| < COLS
    ensures Paint(row + [c]) == SetCell(Paint(row), |row|, c)
  {
  }

  lemma {:induction false} LastApart(rows: seq<seq<byte>>)
    requires rows != []
    ensures rows == rows[..|rows| - 1] + [rows[|rows| - 1]]
  {
  }

  lemma {:induction false} LayOutLonger(t: seq<byte>, c: byte)
    requires Printable(c) || c == NEWLINE
    requires c != TAB
    ensures LayOut(t + [c]) == DocPutc(LayOut(t), c)
  {
    var rows := Rows(t, COLS);
    RowsOfLonger(t, c, COLS);
    hide Rows, DocOf, DocPutc, Extend;
    LastApart(rows);
    DocOfExtended(rows[..|rows| - 1], rows[|rows| - 1], c);
  }

  lemma {:induction false} EmptyLayOut()
    ensures Shows(LayOut([]), Cleared())
  {
    assert Rows([], COLS) == [[]];
    PaintEmpty();
  }

  lemma {:induction false} TypedStep(t: seq<byte>, c: byte, d: Doc, s: Screen)
    requires Printable(c) || c == NEWLINE
    requires s.Valid() && d == LayOut(t) && Shows(d, s)
    ensures Shows(LayOut(t + [Untab(c)]), Putc(s, c))
  {
    LayOutLonger(t, Untab(c));
    PutcShows(d, s, Untab(c));
    assert Putc(s, c) == Putc(s, Untab(c));
  }

  lemma {:induction false} DetabLonger(text: seq<byte>, n: nat)
    requires n + 1 == |text|
    ensures Detab(text) == Detab(text[..n]) + [Untab(text[n])]
  {
  }

  /** The screen after any text of printable characters, newlines and tabs is exactly the
      end of that text laid out in rows of 80; the cursor stands where the text ends. */
  lemma {:induction false} TypedTextIsShown(text: seq<byte>)
    requires forall i :: 0 <= i < |text| ==> Printable(text[i]) || text[i] == NEWLINE
    ensures Shows(LayOut(Detab(text)), Type(Cleared(), text))
    decreases |text|
  {
    if text == [] {
      EmptyLayOut();
    } else {
      var n := |text| - 1;
      TypedTextIsShown(text[..n]);
      DetabLonger(text, n);
      TypedStep(Detab(text[..n]), text[n], LayOut(Detab(text[..n])), Type(Cleared(), text[..n]));
    }
  }
}
