/** The text console (kernel-lib/src/lib.rs:111-186): a grid that wraps and scrolls, against a page that
    never scrolls and against a plain typewriter. */
module Consoles {

  type Row = seq<char>

  function Blank(columns: nat): (r: Row)
    ensures |r| == columns && forall j :: 0 <= j < columns ==> r[j] == ' '
  {
    seq(columns, _ => ' ')
  }

  predicate IsGrid(rows: seq<Row>, columns: nat) {
    forall i :: 0 <= i < |rows| ==> |rows[i]| == columns
  }

  function StoreAt(rows: seq<Row>, y: nat, x: nat, c: char): seq<Row>
    requires y < |rows| && x < |rows[y]|
  {
    rows[y := rows[y][x := c]]
  }

  /** `y` equal to the number of rows is a scroll that has not happened yet. */
  datatype Console = Console(columns: nat, rows: seq<Row>, x: nat, y: nat)

  predicate Valid(c: Console) {
    && c.columns >= 1 && |c.rows| >= 1 && IsGrid(c.rows, c.columns)
    && c.x <= c.columns && c.y <= |c.rows|
    && (c.y == |c.rows| ==> c.x == 0)
  }

  function Scrolled(c: Console): Console
    requires |c.rows| >= 1 && c.y >= 1
  {
    c.(rows := c.rows[1..] + [Blank(c.columns)], x := 0, y := c.y - 1)
  }

  function NewLined(c: Console): (c': Console)
    requires Valid(c)
    ensures Valid(c')
  {
    if c.y < |c.rows| then c.(x := 0, y := c.y + 1) else Scrolled(c)
  }

  function Put(c: Console, ch: char): (c': Console)
    requires Valid(c)
    ensures Valid(c')
  {
    if ch == '\n' then NewLined(c)
    else if c.x < c.columns && c.y < |c.rows| then c.(rows := StoreAt(c.rows, c.y, c.x, ch), x := c.x + 1)
    else
      var c1 := NewLined(c);
      var c2 := if c1.y == |c1.rows| then Scrolled(c1) else c1;
      c2.(rows := StoreAt(c2.rows, c2.y, c2.x, ch), x := c2.x + 1)
  }

  function PutAll(c: Console, s: string): (c': Console)
    requires Valid(c)
    ensures Valid(c')
    decreases |s|
  {
    if s == [] then c else Put(PutAll(c, s[..|s| - 1]), s[|s| - 1])
  }

  function NewConsole(rowCount: nat, columns: nat): Console {
    Console(columns, seq(rowCount, _ => Blank(columns)), 0, 0)
  }

  /** The writer object. Redrawing (`flush`) is left to the pixel writer. */
  class Writer {
    const columns: nat
    const buffer: array<Row>
    var x: nat
    var y: nat

    ghost function View(): Console
      reads this, buffer
    {
      Console(columns, buffer[..], x, y)
    }

    constructor (rowCount: nat, columns: nat)
      ensures fresh(buffer) && View() == NewConsole(rowCount, columns)
      ensures rowCount >= 1 && columns >= 1 ==> Valid(View())
    {
      this.columns := columns;
      buffer := new Row[rowCount](_ => Blank(columns));
      x, y := 0, 0;
      new;
      assert buffer[..] == seq(rowCount, _ => Blank(columns));
    }

    method Store(c: char)
      requires Valid(View()) && y < buffer.Length && x < columns
      modifies buffer
      ensures View() == old(View()).(rows := StoreAt(old(buffer[..]), y, x, c))
    {
      buffer[y] := buffer[y][x := c];
    }

    method Scroll(dy: nat)
      requires dy <= buffer.Length && dy <= y
      modifies this`x, this`y, buffer
      ensures forall j :: 0 <= j < buffer.Length - dy ==> buffer[j] == old(buffer[..])[j + dy]
      ensures forall j :: buffer.Length - dy <= j < buffer.Length ==> buffer[j] == Blank(columns)
      ensures y == old(y) - dy && x == 0
    {
      var kept := buffer.Length - dy;
      ghost var before := buffer[..];
      for i := 0 to kept
        modifies buffer
        invariant forall j :: 0 <= j < i ==> buffer[j] == before[j + dy]
        invariant forall j :: i <= j < |before| ==> buffer[j] == before[j]
      {
        buffer[i] := buffer[i + dy];
      }
      for i := kept to buffer.Length
        modifies buffer
        invariant forall j :: 0 <= j < kept ==> buffer[j] == before[j + dy]
        invariant forall j :: kept <= j < i ==> buffer[j] == Blank(columns)
      {
        buffer[i] := Blank(columns);
      }
      y := y - dy;
      x := 0;
    }

    method ScrollOne()
      requires buffer.Length >= 1 && y >= 1
      modifies this`x, this`y, buffer
      ensures View() == Scrolled(old(View()))
    {
      Scroll(1);
      assert buffer[..] == old(buffer[..])[1..] + [Blank(columns)];
    }

    method NewLine()
      requires Valid(View())
      modifies this`x, this`y, buffer
      ensures View() == NewLined(old(View()))
    {
      if y < buffer.Length {
        x := 0;
        y := y + 1;
      } else {
        ScrollOne();
      }
    }

    method PutChar(c: char)
      requires Valid(View())
      modifies this`x, this`y, buffer
      ensures View() == Put(old(View()), c)
    {
      if c == '\n' {
        NewLine();
      } else if x < columns && y < buffer.Length {
        Store(c);
        x := x + 1;
      } else {
        NewLine();
        if y == buffer.Length {
          ScrollOne();
        }
        Store(c);
        x := x + 1;
      }
    }

    method PutString(s: string)
      requires Valid(View())
      modifies this`x, this`y, buffer
      ensures View() == PutAll(old(View()), s)
    {
      for i := 0 to |s|
        invariant View() == PutAll(old(View()), s[..i])
      {
        PutChar(s[i]);
        assert s[..i + 1][..i] == s[..i];
      }
      assert s[..|s|] == s;
    }
  }

  // The page that never scrolls

  /** `rows` are the rows revealed so far; a cursor row equal to their number has yet to be revealed. */
  datatype Page = Page(columns: nat, rows: seq<Row>, x: nat, row: nat)

  predicate ValidPage(p: Page) {
    && p.columns >= 1 && |p.rows| >= 1 && IsGrid(p.rows, p.columns)
    && p.x <= p.columns && p.row <= |p.rows|
    && (p.row == |p.rows| ==> p.x == 0)
  }

  function Reveal(p: Page): Page {
    p.(rows := p.rows + [Blank(p.columns)])
  }

  /** A newline on a row not yet revealed only reveals it. */
  function PageNewLine(p: Page): (p': Page)
    requires ValidPage(p)
    ensures ValidPage(p')
  {
    if p.row < |p.rows| then p.(x := 0, row := p.row + 1) else Reveal(p)
  }

  function PagePut(p: Page, ch: char): (p': Page)
    requires ValidPage(p)
    ensures ValidPage(p')
  {
    if ch == '\n' then PageNewLine(p)
    else if p.row == |p.rows| then
      var p1 := Reveal(p);
      p1.(rows := StoreAt(p1.rows, p1.row, 0, ch), x := 1)
    else if p.x < p.columns then p.(rows := StoreAt(p.rows, p.row, p.x, ch), x := p.x + 1)
    else
      var p1 := if p.row + 1 == |p.rows| then Reveal(p) else p;
      p1.(rows := StoreAt(p1.rows, p.row + 1, 0, ch), row := p.row + 1, x := 1)
  }

  function PagePutAll(p: Page, s: string): (p': Page)
    requires ValidPage(p)
    ensures ValidPage(p')
    decreases |s|
  {
    if s == [] then p else PagePut(PagePutAll(p, s[..|s| - 1]), s[|s| - 1])
  }

  function NewPage(rowCount: nat, columns: nat): Page {
    Page(columns, seq(rowCount, _ => Blank(columns)), 0, 0)
  }

  /** The grid is the last rows of the page; everything above has scrolled off. */
  predicate Shows(c: Console, p: Page) {
    && Valid(c) && ValidPage(p) && c.columns == p.columns
    && |c.rows| <= |p.rows|
    && c.rows == p.rows[|p.rows| - |c.rows|..]
    && c.x == p.x && c.y == p.row - (|p.rows| - |c.rows|)
  }

  /** A character or newline that meets a due scroll. */
  lemma DueScrollRefines(c: Console, p: Page, ch: char)
    requires Shows(c, p) && c.y == |c.rows|
    ensures Shows(Put(c, ch), PagePut(p, ch))
  {}

  lemma InRowRefines(c: Console, p: Page, ch: char)
    requires Shows(c, p) && c.y < |c.rows| && ch != '\n' && c.x < c.columns
    ensures Shows(Put(c, ch), PagePut(p, ch))
  {}

  lemma NewLineRefines(c: Console, p: Page)
    requires Shows(c, p) && c.y < |c.rows|
    ensures Shows(NewLined(c), PageNewLine(p))
  {}

  /** A character on a full row acts like a newline followed by the character. */
  lemma WrapRefines(c: Console, p: Page, ch: char)
    requires Shows(c, p) && c.y < |c.rows| && ch != '\n' && c.x == c.columns
    ensures Shows(Put(c, ch), PagePut(p, ch))
  {}

  lemma PutRefines(c: Console, p: Page, ch: char)
    requires Shows(c, p)
    ensures Shows(Put(c, ch), PagePut(p, ch))
  {
    if c.y == |c.rows| {
      DueScrollRefines(c, p, ch);
    } else if ch != '\n' && c.x < c.columns {
      InRowRefines(c, p, ch);
    } else if ch != '\n' {
      WrapRefines(c, p, ch);
    } else {
      NewLineRefines(c, p);
    }
  }

  /** For every stream and size the screen is the bottom of the unbounded page. */
  lemma {:induction false} ConsoleRefinesPage(rowCount: nat, columns: nat, s: string)
    requires rowCount >= 1 && columns >= 1
    ensures Shows(PutAll(NewConsole(rowCount, columns), s), PagePutAll(NewPage(rowCount, columns), s))
    ensures |PutAll(NewConsole(rowCount, columns), s).rows| == rowCount
    decreases |s|
  {
    if s != [] {
      ConsoleRefinesPage(rowCount, columns, s[..|s| - 1]);
      PutRefines(PutAll(NewConsole(rowCount, columns), s[..|s| - 1]),
                 PagePutAll(NewPage(rowCount, columns), s[..|s| - 1]), s[|s| - 1]);
    }
  }

  // The plain typewriter

  datatype Typewriter = Typewriter(cells: map<(nat, nat), char>, x: nat, row: nat)

  /** Every newline starts a row, and a character on a full row starts one. */
  function Type(t: Typewriter, columns: nat, ch: char): Typewriter {
    if ch == '\n' then t.(x := 0, row := t.row + 1)
    else if t.x < columns then t.(cells := t.cells[(t.row, t.x) := ch], x := t.x + 1)
    else Typewriter(t.cells[(t.row + 1, 0) := ch], 1, t.row + 1)
  }

  function TypeAll(columns: nat, s: string): Typewriter
    decreases |s|
  {
    if s == [] then Typewriter(map[], 0, 0) else Type(TypeAll(columns, s[..|s| - 1]), columns, s[|s| - 1])
  }

  /** Newlines that arrive while a scroll is due, and are lost. */
  function Swallowed(rowCount: nat, columns: nat, s: string): nat
    requires rowCount >= 1 && columns >= 1
    decreases |s|
  {
    if s == [] then 0
    else
      var c := PutAll(NewConsole(rowCount, columns), s[..|s| - 1]);
      Swallowed(rowCount, columns, s[..|s| - 1]) + if s[|s| - 1] == '\n' && c.y == |c.rows| then 1 else 0
  }

  function CellAt(t: Typewriter, i: nat, j: nat): char {
    if (i, j) in t.cells then t.cells[(i, j)] else ' '
  }

  predicate SamePage(p: Page, t: Typewriter) {
    && ValidPage(p) && p.x == t.x && p.row == t.row
    && (forall i, j :: 0 <= i < |p.rows| && 0 <= j < p.columns ==> p.rows[i][j] == CellAt(t, i, j))
    && (forall k :: k in t.cells ==> k.0 < |p.rows|)
  }

  lemma PutTypes(p: Page, t: Typewriter, ch: char)
    requires SamePage(p, t) && !(ch == '\n' && p.row == |p.rows|)
    ensures SamePage(PagePut(p, ch), Type(t, p.columns, ch))
  {}

  /** The cursor row of the page falls behind the typewriter's by one for every lost newline; while none is
      lost the two agree in every cell. */
  lemma {:induction false} PageLagsTypewriter(rowCount: nat, columns: nat, s: string)
    requires rowCount >= 1 && columns >= 1
    ensures var p, t := PagePutAll(NewPage(rowCount, columns), s), TypeAll(columns, s);
      && t.row == p.row + Swallowed(rowCount, columns, s) && t.x == p.x && p.columns == columns
      && (SamePage(p, t) <==> Swallowed(rowCount, columns, s) == 0)
    decreases |s|
  {
    if s != [] {
      var s', ch := s[..|s| - 1], s[|s| - 1];
      PageLagsTypewriter(rowCount, columns, s');
      ConsoleRefinesPage(rowCount, columns, s');
      var p, t := PagePutAll(NewPage(rowCount, columns), s'), TypeAll(columns, s');
      if Swallowed(rowCount, columns, s) == 0 {
        PutTypes(p, t, ch);
      }
    }
  }

  // Which streams lose a newline

  /** The second of two newlines in a row, typed at the bottom of a screen already filled. */
  predicate LostAt(rowCount: nat, columns: nat, s: string, k: nat)
    requires 0 < k < |s|
  {
    s[k - 1] == '\n' && s[k] == '\n' && TypeAll(columns, s[..k]).row >= rowCount
  }

  predicate LosesNewline(rowCount: nat, columns: nat, s: string) {
    exists k :: 0 < k < |s| && LostAt(rowCount, columns, s, k)
  }

  /** While nothing is lost, a scroll is due exactly after a newline on the last row or below. */
  predicate DueAfterNewline(rowCount: nat, p: Page, s: string) {
    && rowCount <= |p.rows| && (|p.rows| == rowCount || |p.rows| <= p.row + 1)
    && (p.row == |p.rows| <==> s != [] && s[|s| - 1] == '\n' && p.row >= rowCount)
  }

  lemma PutKeepsDue(rowCount: nat, p: Page, s: string)
    requires s != [] && ValidPage(p) && DueAfterNewline(rowCount, p, s[..|s| - 1])
    requires !(s[|s| - 1] == '\n' && p.row == |p.rows|)
    ensures DueAfterNewline(rowCount, PagePut(p, s[|s| - 1]), s)
  {}

  lemma {:induction false} ScrollDueExactly(rowCount: nat, columns: nat, s: string)
    requires rowCount >= 1 && columns >= 1 && Swallowed(rowCount, columns, s) == 0
    ensures DueAfterNewline(rowCount, PagePutAll(NewPage(rowCount, columns), s), s)
    decreases |s|
  {
    if s != [] {
      var s' := s[..|s| - 1];
      ScrollDueExactly(rowCount, columns, s');
      ConsoleRefinesPage(rowCount, columns, s');
      PutKeepsDue(rowCount, PagePutAll(NewPage(rowCount, columns), s'), s);
    }
  }

  /** One more character loses a newline exactly at that character. */
  lemma LosesOneMore(rowCount: nat, columns: nat, s: string)
    requires s != []
    ensures LosesNewline(rowCount, columns, s) <==>
      || LosesNewline(rowCount, columns, s[..|s| - 1])
      || (|s| > 1 && LostAt(rowCount, columns, s, |s| - 1))
  {
    var s' := s[..|s| - 1];
    forall k | 0 < k < |s'| ensures LostAt(rowCount, columns, s', k) == LostAt(rowCount, columns, s, k) {
      assert s'[..k] == s[..k];
    }
  }

  lemma {:induction false} SwallowedExactly(rowCount: nat, columns: nat, s: string)
    requires rowCount >= 1 && columns >= 1
    ensures Swallowed(rowCount, columns, s) == 0 <==> !LosesNewline(rowCount, columns, s)
    decreases |s|
  {
    if s != [] {
      var s' := s[..|s| - 1];
      SwallowedExactly(rowCount, columns, s');
      LosesOneMore(rowCount, columns, s);
      if Swallowed(rowCount, columns, s') == 0 {
        ScrollDueExactly(rowCount, columns, s');
        PageLagsTypewriter(rowCount, columns, s');
        ConsoleRefinesPage(rowCount, columns, s');
      }
    }
  }

  /** The screen is the bottom of a page, and that page is the one a plain typewriter prints exactly when the stream
      has no empty line at the bottom of a filled screen. */
  lemma PageIsTypewriterExactly(rowCount: nat, columns: nat, s: string)
    requires rowCount >= 1 && columns >= 1
    ensures var p := PagePutAll(NewPage(rowCount, columns), s);
      && Shows(PutAll(NewConsole(rowCount, columns), s), p)
      && (SamePage(p, TypeAll(columns, s)) <==> !LosesNewline(rowCount, columns, s))
  {
    ConsoleRefinesPage(rowCount, columns, s);
    PageLagsTypewriter(rowCount, columns, s);
    SwallowedExactly(rowCount, columns, s);
  }

  /** A stream without an empty line loses nothing. */
  lemma NoEmptyLinesNothingLost(rowCount: nat, columns: nat, s: string)
    requires rowCount >= 1 && columns >= 1
    requires forall i :: 0 < i < |s| ==> !(s[i - 1] == '\n' && s[i] == '\n')
    ensures SamePage(PagePutAll(NewPage(rowCount, columns), s), TypeAll(columns, s))
  {
    PageIsTypewriterExactly(rowCount, columns, s);
  }

  /** On a one-row console the second of two newlines is lost. */
  lemma EmptyLineIsLost()
    ensures LosesNewline(1, 1, "\n\n") && Swallowed(1, 1, "\n\n") == 1
  {
    var s := "\n\n";
    assert s[..1] == "\n" && s[..1][..0] == "";
    assert TypeAll(1, s[..1]) == Type(TypeAll(1, s[..1][..0]), 1, '\n');
    assert LostAt(1, 1, s, 1);
  }
}
