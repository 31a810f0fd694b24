/**
 * src/tui.c: the viewport state set up by `tui_init` and adjusted by `tui_handle_resize`,
 * the window of text rows `tui_draw` paints, the status rows of `tui_draw_status` and the
 * cursor placement of `tui_update_cursor`. Output is modelled as the text each row
 * receives, not as terminal escape sequences.
 */
module Tui {
  import opened Wrappers
  import opened CLib
  import opened Buffer

  /** The fields of `TUIState` the drawing code reads. */
  datatype View = View(
    rows: int,
    cols: int,
    cursorX: int,
    cursorY: int,
    offsetX: int,
    offsetY: int,
    statusHeight: int,
    lineNumWidth: int)

  /**
   * `tui_handle_resize`'s bound on `cursor_x`: at most `cols - width - 1`, then at least 0.
   * A cursor that already fits is left where it is.
   */
  function ClampCursorX(x: int, cols: int, width: int): (r: int)
    ensures 0 <= r
    ensures r <= cols - width - 1 || r == 0
    ensures 0 <= x < cols - width ==> r == x
    ensures x < 0 ==> r == 0
  {
    var bounded := if x >= cols - width then cols - width - 1 else x;
    if bounded < 0 then 0 else bounded
  }

  /** Clamping a clamped cursor again does nothing. */
  lemma ClampCursorXIdempotent(x: int, cols: int, width: int)
    ensures ClampCursorX(ClampCursorX(x, cols, width), cols, width) == ClampCursorX(x, cols, width)
  {
  }

  /** `TUIState` (include/tui.h:7-22). */
  class TuiState {
    var rows: int
    var cols: int
    var cursorX: int
    var cursorY: int
    var offsetX: int
    var offsetY: int
    var statusHeight: int
    var lineNumWidth: int

    function Snapshot(): View
      reads this
    {
      View(rows, cols, cursorX, cursorY, offsetX, offsetY, statusHeight, lineNumWidth)
    }

    /**
     * `tui_init`: the console size (`consoleRows`, `consoleCols`) as the platform reports
     * it, two status rows, cursor and offsets at the origin, a gutter of width 6.
     */
    constructor (consoleRows: int, consoleCols: int)
      ensures Snapshot() == View(consoleRows, consoleCols, 0, 0, 0, 0, 2, 6)
    {
      rows := consoleRows;
      cols := consoleCols;
      statusHeight := 2;
      cursorX := 0;
      cursorY := 0;
      offsetX := 0;
      offsetY := 0;
      lineNumWidth := 6;
    }

    /**
     * `tui_handle_resize` with the size the platform now reports. Nothing changes when
     * the size is the same; otherwise the size is taken and the cursor column clamped,
     * and the cursor row and both offsets stay.
     */
    method HandleResize(newRows: int, newCols: int)
      modifies this
      ensures newRows == old(rows) && newCols == old(cols) ==> Snapshot() == old(Snapshot())
      ensures newRows != old(rows) || newCols != old(cols) ==>
        Snapshot() == old(Snapshot()).(rows := newRows, cols := newCols,
                                       cursorX := ClampCursorX(old(cursorX), newCols, old(lineNumWidth)))
    {
      if newCols != cols || newRows != rows {
        cols := newCols;
        rows := newRows;
        if cursorX >= newCols - lineNumWidth {
          cursorX := newCols - lineNumWidth - 1;
        }
        if cursorX < 0 {
          cursorX := 0;
        }
      }
    }
  }

  /** `tui_get_max_display_lines`: the screen rows left for text below the status rows. */
  function MaxDisplayLines(v: View): int {
    v.rows - v.statusHeight
  }

  // ---------------------------------------------------------------------------------
  // One text row of tui_draw.

  /**
   * `printf("%*d | ", width - 2, i + 1)`: the 1-based line number, right-aligned in
   * `width - 2` cells, or left-aligned when that field width is negative.
   */
  function Gutter(i: int, width: int): (g: seq<char>)
    ensures |g| >= 4 && g[|g| - 3..] == " | "
  {
    StarField(Decimal(i + 1), width - 2) + " | "
  }

  /** A line number with fewer digits than the field takes exactly `width + 1` cells. */
  lemma GutterWidth(i: int, width: int)
    requires width >= 3 && 0 <= i && i + 1 < Pow10(width - 2)
    ensures |Gutter(i, width)| == width + 1
  {
    NatDigitsWidth(i + 1, width - 2);
  }

  /**
   * The gutter holds the decimal digits of the line number `i + 1` in a field of
   * `|width - 2|` cells (wider when the number needs it), then " | ". For `width >= 2`
   * the digits end the field with spaces before them; for a smaller width the negative
   * field width left-aligns them, with spaces after. Reading the digits back gives `i + 1`.
   */
  lemma GutterReadsBack(i: int, width: int)
    requires 0 <= i
    ensures var g := Gutter(i, width);
      var d := NatDigits(i + 1);
      var n := |g| - 3;
      var w := if width < 2 then 2 - width else width - 2;
      && n == (if |d| >= w then |d| else w)
      && DigitsValue(d) == i + 1
      && g[n..] == " | "
      && (width >= 2 ==> g[n - |d|..n] == d && forall k :: 0 <= k < n - |d| ==> g[k] == ' ')
      && (width < 2 ==> g[..|d|] == d && forall k :: |d| <= k < n ==> g[k] == ' ')
  {
    StarFieldThen(NatDigits(i + 1), width - 2, " | ");
    NatDigitsRoundTrip(i + 1);
  }

  /** A `%*` field followed by `suffix`, taken apart again. */
  lemma StarFieldThen(d: seq<char>, w: int, suffix: seq<char>)
    ensures var g := StarField(d, w) + suffix;
      var n := |g| - |suffix|;
      && n == (if |d| >= (if w < 0 then -w else w) then |d| else (if w < 0 then -w else w))
      && g[n..] == suffix
      && (w >= 0 ==> g[n - |d|..n] == d && forall k :: 0 <= k < n - |d| ==> g[k] == ' ')
      && (w < 0 ==> g[..|d|] == d && forall k :: |d| <= k < n ==> g[k] == ' ')
  {
    var f := StarField(d, w);
    var g := f + suffix;
    assert g[..|f|] == f;
    if w >= 0 {
      assert g[|f| - |d|..|f|] == f[|f| - |d|..];
    } else {
      assert g[..|d|] == f[..|d|];
    }
  }

  /**
   * How many characters of a line of length `len` a row shows from column `offsetX`:
   * none when the offset is at or past the end, otherwise the rest of the line cut to
   * `cols - width - 1` (and none when that room is negative).
   */
  function ShownCount(len: int, offsetX: int, cols: int, width: int): (n: nat)
    ensures offsetX >= len ==> n == 0
    ensures offsetX < len ==> n == (if len - offsetX <= cols - width - 1 then len - offsetX
                                   else if cols - width - 1 > 0 then cols - width - 1 else 0)
  {
    if offsetX < len then
      var toShow := len - offsetX;
      var maxChars := cols - width - 1;
      if toShow > maxChars then (if maxChars > 0 then maxChars else 0) else toShow
    else 0
  }

  /** The part of `line` a row shows: `ShownCount` characters from `offsetX`. */
  function Visible(v: View, line: seq<char>): (s: seq<char>)
    requires 0 <= v.offsetX
    ensures |s| == ShownCount(|line|, v.offsetX, v.cols, v.lineNumWidth)
    ensures s != [] ==> v.offsetX + |s| <= |line| && s == line[v.offsetX..v.offsetX + |s|]
  {
    if v.offsetX < |line| then
      line[v.offsetX..v.offsetX + ShownCount(|line|, v.offsetX, v.cols, v.lineNumWidth)]
    else []
  }

  /** The spaces that complete a row so that it is `cols` cells wide. */
  function Padding(used: int, cols: int): (n: nat)
    ensures n == if cols > used then cols - used else 0
  {
    if cols > used then cols - used else 0
  }

  /**
   * The text painted on a screen row: the line's `gutter`, the visible part of the line,
   * then spaces to the edge of the screen. Document line `i` gets `Gutter(i, lineNumWidth)`.
   */
  function TextRow(v: View, gutter: seq<char>, line: seq<char>): (row: seq<char>)
    requires 0 <= v.offsetX
    ensures |row| == |gutter| + |Visible(v, line)| + Padding(|gutter| + |Visible(v, line)|, v.cols)
  {
    var shown := Visible(v, line);
    gutter + shown + Spaces(Padding(|gutter| + |shown|, v.cols))
  }

  /**
   * The row shows `line[offsetX .. offsetX + min(len - offsetX, cols - width - 1))` right
   * after the gutter, nothing of the line when the offset is past its end, and blanks
   * to the end of the row.
   */
  lemma TextRowShowsWindow(v: View, gutter: seq<char>, line: seq<char>)
    requires 0 <= v.offsetX
    ensures var g := |gutter|;
      var row := TextRow(v, gutter, line);
      var n := ShownCount(|line|, v.offsetX, v.cols, v.lineNumWidth);
      && row[..g] == gutter
      && (n > 0 ==> v.offsetX + n <= |line| && row[g..g + n] == line[v.offsetX..v.offsetX + n])
      && (forall j :: g + n <= j < |row| ==> row[j] == ' ')
      && (v.offsetX >= |line| ==> n == 0)
  {
    var shown := Visible(v, line);
    var pad := Spaces(Padding(|gutter| + |shown|, v.cols));
    var row := TextRow(v, gutter, line);
    assert row == gutter + shown + pad;
    assert row[..|gutter|] == gutter;
    assert row[|gutter|..|gutter| + |shown|] == shown;
    assert forall j :: |gutter| + |shown| <= j < |row| ==> row[j] == pad[j - |gutter| - |shown|];
  }

  /**
   * With a gutter of `line_num_width + 1` cells (what `GutterWidth` gives) on a screen
   * wide enough for it, every text row fills exactly the `cols` cells of the screen.
   */
  lemma TextRowFillsWidth(v: View, gutter: seq<char>, line: seq<char>)
    requires 0 <= v.offsetX && |gutter| == v.lineNumWidth + 1 <= v.cols
    ensures |TextRow(v, gutter, line)| == v.cols
  {
    assert |Visible(v, line)| <= v.cols - |gutter|;
  }

  /**
   * The `j`-th character the row shows, `line[offsetX + j]`, is painted in the cell right
   * after the gutter and `j` others.
   */
  lemma TextRowCharacter(v: View, gutter: seq<char>, line: seq<char>, j: int)
    requires 0 <= v.offsetX && 0 <= j < ShownCount(|line|, v.offsetX, v.cols, v.lineNumWidth)
    ensures v.offsetX + j < |line| && |gutter| + j < |TextRow(v, gutter, line)|
    ensures TextRow(v, gutter, line)[|gutter| + j] == line[v.offsetX + j]
  {
    var shown := Visible(v, line);
    var pad := Spaces(Padding(|gutter| + |shown|, v.cols));
    assert TextRow(v, gutter, line) == gutter + shown + pad;
    ConcatIndex(gutter, shown, pad, j);
    assert shown[j] == line[v.offsetX..v.offsetX + |shown|][j];
  }

  /** Indexing the middle part of a three-part concatenation. */
  lemma ConcatIndex(a: seq<char>, b: seq<char>, c: seq<char>, j: int)
    requires 0 <= j < |b|
    ensures |a| + j < |a + b + c| && (a + b + c)[|a| + j] == b[j]
  {
  }

  /**
   * The count of padding spaces as src/tui.c:90 computes it: `cols - (width + (strlen -
   * offset_x))` with `strlen` a 64-bit `size_t`, so the subtraction wraps modulo 2^64.
   */
  function PaddingAsWritten(len: int, offsetX: int, cols: int, width: int): (n: nat)
    ensures n < 0x1_0000_0000_0000_0000
  {
    (cols - (width + (len - offsetX))) % 0x1_0000_0000_0000_0000
  }

  /**
   * As written, a line that fits gets one space too many, so its row is `cols + 1` cells
   * wide; and a line longer than the screen makes the bound wrap to nearly 2^64, which
   * the `int` loop counter cannot reach.
   */
  lemma PaddingAsWrittenOverflows()
    ensures |Gutter(0, 6)| + ShownCount(2, 0, 80, 6) + PaddingAsWritten(2, 0, 80, 6) == 81
    ensures PaddingAsWritten(100, 0, 80, 6) == 0x1_0000_0000_0000_0000 - 26
    ensures PaddingAsWritten(100, 0, 80, 6) > 0x7FFF_FFFF
  {
    GutterWidth(0, 6);
    assert ShownCount(2, 0, 80, 6) == 2;
  }

  // ---------------------------------------------------------------------------------
  // The painted window of tui_draw.

  /**
   * One screen row written by `tui_draw`: document line `index` (gutter, text, padding)
   * or a blank row of `cols` spaces.
   */
  datatype Paint =
    | LinePaint(row: int, index: int)
    | BlankPaint(row: int)

  /** The characters a paint puts on its row. */
  function PaintText(v: View, lines: seq<seq<char>>, p: Paint): seq<char>
    requires 0 <= v.offsetX
    requires p.LinePaint? ==> 0 <= p.index < |lines|
  {
    match p
    case LinePaint(_, i) => TextRow(v, Gutter(i, v.lineNumWidth), lines[i])
    case BlankPaint(_) => Spaces(v.cols)
  }

  /** The rows of document lines `start` up to `stop`, line `start + k` on screen row `k`. */
  function LineRows(start: int, stop: int): (ps: seq<Paint>)
    ensures |ps| == if stop > start then stop - start else 0
    ensures forall k :: 0 <= k < |ps| ==> ps[k] == LinePaint(k, start + k)
  {
    seq(if stop > start then stop - start else 0, k => LinePaint(k, start + k))
  }

  /** Blank rows `first` up to `last`. */
  function BlankRows(first: int, last: int): (ps: seq<Paint>)
    ensures |ps| == if last > first then last - first else 0
    ensures forall k :: 0 <= k < |ps| ==> ps[k] == BlankPaint(first + k)
  {
    seq(if last > first then last - first else 0, k => BlankPaint(first + k))
  }

  /**
   * The rows `tui_draw` paints, in order: document lines `offsetY` up to
   * `min(offsetY + maxDisplayLines, lineCount)`, then blank rows up to `maxDisplayLines`.
   */
  function PaintedRows(v: View, lineCount: int): (ps: seq<Paint>) {
    var start := v.offsetY;
    var stop := if start + MaxDisplayLines(v) > lineCount then lineCount else start + MaxDisplayLines(v);
    LineRows(start, stop) + BlankRows(stop - start, MaxDisplayLines(v))
  }

  /**
   * When the offset is within the document, the paint covers the text area exactly once,
   * top to bottom: screen row `k` shows line `offsetY + k` while there is one, and is
   * blank after that.
   */
  lemma PaintedRowsCoverTextArea(v: View, lineCount: int)
    requires 0 <= v.offsetY <= lineCount
    requires MaxDisplayLines(v) >= 0
    ensures var ps := PaintedRows(v, lineCount);
      && |ps| == MaxDisplayLines(v)
      && (forall k :: 0 <= k < |ps| ==> ps[k].row == k)
      && (forall k :: 0 <= k < |ps| ==>
            ps[k] == if v.offsetY + k < lineCount then LinePaint(k, v.offsetY + k) else BlankPaint(k))
  {
    var start := v.offsetY;
    var stop := if start + MaxDisplayLines(v) > lineCount then lineCount else start + MaxDisplayLines(v);
    var a := LineRows(start, stop);
    var b := BlankRows(stop - start, MaxDisplayLines(v));
    var ps := PaintedRows(v, lineCount);
    assert ps == a + b;
    forall k | 0 <= k < |ps|
      ensures ps[k] == if v.offsetY + k < lineCount then LinePaint(k, v.offsetY + k) else BlankPaint(k)
    {
      PaintIndex(a, b, k);
    }
  }

  /** Indexing a concatenation of paints: the first part, then the second. */
  lemma PaintIndex(a: seq<Paint>, b: seq<Paint>, k: int)
    requires 0 <= k < |a| + |b|
    ensures k < |a| ==> (a + b)[k] == a[k]
    ensures k >= |a| ==> (a + b)[k] == b[k - |a|]
  {
  }

  /**
   * With the corrected padding, a gutter of `line_num_width + 1` cells and line numbers
   * that fit it, every painted row is exactly `cols` cells wide.
   */
  lemma PaintedRowsFillWidth(v: View, lines: seq<seq<char>>)
    requires 0 <= v.offsetX && 0 <= v.offsetY <= |lines| && MaxDisplayLines(v) >= 0
    requires v.lineNumWidth >= 3 && v.lineNumWidth + 1 <= v.cols && |lines| < Pow10(v.lineNumWidth - 2)
    ensures forall p :: p in PaintedRows(v, |lines|) ==>
      (p.LinePaint? ==> 0 <= p.index < |lines|) && |PaintText(v, lines, p)| == v.cols
  {
    PaintedRowsCoverTextArea(v, |lines|);
    forall p | p in PaintedRows(v, |lines|)
      ensures (p.LinePaint? ==> 0 <= p.index < |lines|) && |PaintText(v, lines, p)| == v.cols
    {
      if p.LinePaint? {
        GutterWidth(p.index, v.lineNumWidth);
        TextRowFillsWidth(v, Gutter(p.index, v.lineNumWidth), lines[p.index]);
      }
    }
  }

  // ---------------------------------------------------------------------------------
  // tui_draw_status and tui_update_cursor.

  const NEW_FILE := "[New File]"
  const MODIFIED := "(modified)"
  const HELP_LINE := " ^S:Save  ^O:Open  ^N:New  ^Q:Quit  F1:Help"

  /**
   * What `tui_draw_status` writes: on row `row` the file information in a 30-cell field
   * from column 0 and the cursor position from column `positionColumn`; on the row below
   * it, the key help.
   */
  datatype StatusBar = StatusBar(row: int, info: seq<char>, positionColumn: int, position: seq<char>, help: seq<char>)

  /** `snprintf(status, 256, " %s %s", name, flag)` before the 30-cell field cuts it. */
  function StatusText(filename: seq<char>, modified: bool): (t: seq<char>)
    ensures var name := if filename == [] then NEW_FILE else filename;
      && |t| == |name| + 2 + (if modified then |MODIFIED| else 0)
      && t[..|name| + 2] == " " + name + " "
      && (modified ==> t[|name| + 2..] == MODIFIED)
  {
    " " + (if filename == [] then NEW_FILE else filename) + " " + (if modified then MODIFIED else "")
  }

  /** The 30-cell file field: `printf("%-30.30s", status)` of the 256-byte `status`. */
  function StatusInfo(filename: seq<char>, modified: bool): (info: seq<char>)
    ensures |info| == 30
  {
    FitLeft(Truncate(StatusText(filename, modified), 255), 30)
  }

  /** `printf("Ln %d, Col %d", cursor_y + 1, cursor_x + 1)`. */
  function StatusPosition(v: View): seq<char> {
    "Ln " + Decimal(v.cursorY + 1) + ", Col " + Decimal(v.cursorX + 1)
  }

  /** `tui_draw_status` for a buffer with file name `filename` and flag `modified`. */
  function DrawStatus(v: View, filename: seq<char>, modified: bool): (s: StatusBar)
    ensures |s.info| == 30 && s.row == MaxDisplayLines(v) && s.positionColumn == v.cols - 20
  {
    StatusBar(MaxDisplayLines(v), StatusInfo(filename, modified), v.cols - 20, StatusPosition(v), HELP_LINE)
  }

  /**
   * The field names the file, or "[New File]" when it has no name, and shows
   * "(modified)" exactly when the buffer is modified, for names of at most 18 characters,
   * which leave room for it in the 30 cells.
   */
  lemma StatusShowsFileAndFlag(filename: seq<char>, modified: bool)
    requires |filename| <= 18
    ensures var info := StatusInfo(filename, modified);
      var name := if filename == [] then NEW_FILE else filename;
      && info[1..1 + |name|] == name
      && (modified <==> info[|name| + 2..|name| + 12] == MODIFIED)
  {
    var name := if filename == [] then NEW_FILE else filename;
    var text := StatusText(filename, modified);
    assert |text| <= 30;
    var info := StatusInfo(filename, modified);
    assert info[..|text|] == text;
    assert info[1..1 + |name|] == text[1..1 + |name|];
    assert info[|name| + 2..|name| + 12] == if modified then text[|name| + 2..] else Spaces(10) by {
      if !modified {
        assert forall j :: |name| + 2 <= j < |name| + 12 ==> info[j] == ' ';
      }
    }
    assert MODIFIED != Spaces(10) by {
      assert MODIFIED[0] == '(';
    }
  }

  /**
   * A name of 19 characters or more leaves no room for the whole flag: the field shows
   * the name (cut to 29 characters), then only the first `28 - |filename|` characters
   * of "(modified)", or blanks; from 28 characters on, the flag is gone entirely.
   */
  lemma StatusCutsFlag(filename: seq<char>, modified: bool)
    requires |filename| >= 19
    ensures var info := StatusInfo(filename, modified);
      && (|filename| <= 28 ==> info[..|filename| + 2] == " " + filename + " ")
      && (|filename| <= 27 ==>
            info[|filename| + 2..] == if modified then MODIFIED[..28 - |filename|] else Spaces(28 - |filename|))
      && (|filename| >= 28 ==> info == (" " + filename + " ")[..30])
  {
    var head := " " + filename + " ";
    var flag := if modified then MODIFIED else "";
    assert StatusText(filename, modified) == head + flag;
    FieldOfHeadAndTail(head, flag);
  }

  /** The 30-cell field of a text `head + tail`, seen from the end of `head`. */
  lemma FieldOfHeadAndTail(head: seq<char>, tail: seq<char>)
    ensures var info := FitLeft(Truncate(head + tail, 255), 30);
      && (|head| <= 30 ==> info[..|head|] == head)
      && (|head| <= 30 <= |head| + |tail| ==> info[|head|..] == tail[..30 - |head|])
      && (|head| + |tail| < 30 ==> info[|head|..] == tail + Spaces(30 - |head| - |tail|))
      && (|head| >= 30 ==> info == head[..30])
  {
    var t := head + tail;
    var info := FitLeft(Truncate(t, 255), 30);
    if |t| >= 30 {
      assert Truncate(t, 255)[..30] == t[..30];
      assert info == t[..30];
    } else {
      assert info == t + Spaces(30 - |t|);
    }
  }

  /** The position shows the 1-based line and column, and reads back as the cursor. */
  lemma StatusPositionReadsBack(v: View)
    requires v.cursorX >= 0 && v.cursorY >= 0
    ensures var ln := NatDigits(v.cursorY + 1);
      var col := NatDigits(v.cursorX + 1);
      && StatusPosition(v) == "Ln " + ln + ", Col " + col
      && DigitsValue(ln) == v.cursorY + 1 && DigitsValue(col) == v.cursorX + 1
  {
    NatDigitsRoundTrip(v.cursorY + 1);
    NatDigitsRoundTrip(v.cursorX + 1);
  }

  /**
   * `tui_update_cursor`: the screen cell the cursor is moved to, or `None` when its line
   * is outside the text area (the cursor is then neither shown nor moved).
   */
  function CursorPosition(v: View): (p: Option<(int, int)>)
    ensures p.Some? <==> 0 <= v.cursorY - v.offsetY < MaxDisplayLines(v)
  {
    var x := v.cursorX - v.offsetX + v.lineNumWidth;
    var y := v.cursorY - v.offsetY;
    if y >= 0 && y < MaxDisplayLines(v) then Some((x, y)) else None
  }

  /**
   * When the cursor's line is in the text area, the cursor goes to the screen row where
   * `tui_draw` painted that line, in column `cursorX - offsetX + line_num_width`.
   */
  lemma CursorOnItsRow(v: View, lineCount: int)
    requires 0 <= v.offsetY <= v.cursorY < lineCount
    requires v.cursorY - v.offsetY < MaxDisplayLines(v)
    ensures |PaintedRows(v, lineCount)| == MaxDisplayLines(v)
    ensures PaintedRows(v, lineCount)[v.cursorY - v.offsetY] == LinePaint(v.cursorY - v.offsetY, v.cursorY)
    ensures CursorPosition(v) == Some((v.cursorX - v.offsetX + v.lineNumWidth, v.cursorY - v.offsetY))
  {
    PaintedRowsCoverTextArea(v, lineCount);
    var k := v.cursorY - v.offsetY;
    assert v.offsetY + k == v.cursorY;
    CursorCellOnScreen(v);
  }

  /**
   * On that row the gutter is `line_num_width + 1` cells wide, one more than the cursor
   * column allows for: behind a gutter of that width, the character at the cursor's column
   * in the document is painted in screen column `cursorX - offsetX + lineNumWidth + 1`,
   * one cell to the right of the cursor.
   */
  lemma CursorLeftOfItsCharacter(v: View, line: seq<char>)
    requires 0 <= v.cursorY && v.lineNumWidth >= 3 && v.cursorY + 1 < Pow10(v.lineNumWidth - 2)
    requires 0 <= v.offsetX <= v.cursorX < v.offsetX + ShownCount(|line|, v.offsetX, v.cols, v.lineNumWidth)
    ensures |Gutter(v.cursorY, v.lineNumWidth)| == v.lineNumWidth + 1
    ensures forall gutter: seq<char> | |gutter| == v.lineNumWidth + 1 ::
      && v.cursorX - v.offsetX + v.lineNumWidth + 1 < |TextRow(v, gutter, line)|
      && TextRow(v, gutter, line)[v.cursorX - v.offsetX + v.lineNumWidth + 1] == line[v.cursorX]
  {
    GutterWidth(v.cursorY, v.lineNumWidth);
    forall gutter: seq<char> | |gutter| == v.lineNumWidth + 1
      ensures v.cursorX - v.offsetX + v.lineNumWidth + 1 < |TextRow(v, gutter, line)|
      ensures TextRow(v, gutter, line)[v.cursorX - v.offsetX + v.lineNumWidth + 1] == line[v.cursorX]
    {
      CursorCell(v, gutter, line);
    }
  }

  /** On screen, the cursor goes to column `cursorX - offsetX + lineNumWidth` of row `cursorY - offsetY`. */
  lemma CursorCellOnScreen(v: View)
    requires 0 <= v.cursorY - v.offsetY < MaxDisplayLines(v)
    ensures CursorPosition(v) == Some((v.cursorX - v.offsetX + v.lineNumWidth, v.cursorY - v.offsetY))
  {
  }

  /** The character at the cursor's column is painted `cursorX - offsetX` cells after the gutter. */
  lemma CursorCell(v: View, gutter: seq<char>, line: seq<char>)
    requires 0 <= v.offsetX <= v.cursorX < v.offsetX + ShownCount(|line|, v.offsetX, v.cols, v.lineNumWidth)
    ensures v.cursorX < |line| && |gutter| + (v.cursorX - v.offsetX) < |TextRow(v, gutter, line)|
    ensures TextRow(v, gutter, line)[|gutter| + (v.cursorX - v.offsetX)] == line[v.cursorX]
  {
    var j := v.cursorX - v.offsetX;
    TextRowCharacter(v, gutter, line, j);
    assert v.offsetX + j == v.cursorX;
  }
}
