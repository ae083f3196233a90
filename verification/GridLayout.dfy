/**
 The layout of a dashboard: rows of panels on a grid of 24 columns, at most
 four panels to a line.
 */
module GridLayout {

  const PANEL_HEIGHT := 8
  const PANELS_PER_LINE := 4
  const GRID_WIDTH := 24

  // Lines -------------------------------------------------------------------------

  function Sum(sizes: seq<nat>): nat {
    if sizes == [] then 0 else Sum(sizes[..|sizes| - 1]) + sizes[|sizes| - 1]
  }

  /** Lines of one to four panels. */
  ghost predicate Lines(sizes: seq<nat>) {
    forall k :: 0 <= k < |sizes| ==> 1 <= sizes[k] <= PANELS_PER_LINE
  }

  /** `math.ceil(a / b)`. */
  function CeilDiv(a: nat, b: nat): (q: nat)
    requires b >= 1
    ensures a <= q * b && (q == 0 || (q - 1) * b < a)
  {
    var q := (a + b - 1) / b;
    assert (q - 1) * b == q * b - b;
    q
  }

  /** The columns of the panels, line by line: the panels of a line share it evenly. */
  ghost function Spread(sizes: seq<nat>): seq<nat>
    requires Lines(sizes)
  {
    if sizes == [] then []
    else
      var n := sizes[|sizes| - 1];
      Spread(sizes[..|sizes| - 1]) + seq(n, _ => GRID_WIDTH / n)
  }

  lemma {:induction false} SpreadLength(sizes: seq<nat>)
    requires Lines(sizes)
    ensures |Spread(sizes)| == Sum(sizes)
  {
    if sizes != [] {
      SpreadLength(sizes[..|sizes| - 1]);
    }
  }

  /** The width of every panel of a line. */
  lemma {:induction false} SpreadAt(sizes: seq<nat>, line: nat, offset: nat)
    requires Lines(sizes) && line < |sizes| && offset < sizes[line]
    ensures Sum(sizes[..line]) + offset < |Spread(sizes)|
    ensures Spread(sizes)[Sum(sizes[..line]) + offset] == GRID_WIDTH / sizes[line]
  {
    var init := sizes[..|sizes| - 1];
    SpreadLength(init);
    if line < |init| {
      SpreadAt(init, line, offset);
      assert init[..line] == sizes[..line];
    } else {
      assert sizes[..line] == init;
    }
  }

  /** Four divides evenly, and so do one, two and three. */
  lemma FullLine(n: nat)
    requires 1 <= n <= PANELS_PER_LINE
    ensures n * (GRID_WIDTH / n) == GRID_WIDTH && GRID_WIDTH / n >= 1
  {
    if n == 1 || n == 2 || n == 3 {
    }
  }

  /** No lines of at most four panels are fewer. */
  lemma FewestLines(sizes: seq<nat>)
    requires Lines(sizes)
    ensures CeilDiv(Sum(sizes), PANELS_PER_LINE) <= |sizes|
  {
    SumBound(sizes);
  }

  lemma {:induction false} SumBound(sizes: seq<nat>)
    requires Lines(sizes)
    ensures Sum(sizes) <= PANELS_PER_LINE * |sizes|
  {
    if sizes != [] {
      SumBound(sizes[..|sizes| - 1]);
    }
  }

  lemma SumNext(sizes: seq<nat>, n: nat)
    ensures Sum(sizes + [n]) == Sum(sizes) + n
  {
    assert (sizes + [n])[..|sizes|] == sizes;
  }

  lemma SpreadNext(sizes: seq<nat>, n: nat)
    requires Lines(sizes) && 1 <= n <= PANELS_PER_LINE
    ensures Lines(sizes + [n]) && Spread(sizes + [n]) == Spread(sizes) + seq(n, _ => GRID_WIDTH / n)
  {
    assert (sizes + [n])[..|sizes|] == sizes;
  }

  /** Lines of equal size, but for the last, are as few as the balanced size allows. */
  lemma LineCount(count: nat, lines: nat, perLine: nat, used: nat, filled: int)
    requires count >= 1 && lines == CeilDiv(count, PANELS_PER_LINE) && perLine == CeilDiv(count, lines)
    requires used >= 1 && filled == used * perLine && filled - perLine < count <= filled
    ensures used == lines
  {
    assert (used - 1) * perLine == filled - perLine;
    PerLine(count, lines, perLine);
    if used > lines {
      MulMono(lines, used - 1, perLine);
    }
    if used < lines {
      MulMono(used, lines - 1, perLine);
      MulMono(perLine, PANELS_PER_LINE, lines - 1);
    }
  }

  lemma MulMono(a: nat, b: nat, c: nat)
    requires a <= b
    ensures a * c <= b * c && c * a <= c * b
  {
  }

  lemma MulNext(a: nat, c: nat)
    ensures (a + 1) * c == a * c + c
  {
  }

  lemma PerLine(count: nat, lines: nat, perLine: nat)
    requires count >= 1 && lines == CeilDiv(count, PANELS_PER_LINE) && lines >= 1 && perLine == CeilDiv(count, lines)
    ensures 1 <= perLine <= PANELS_PER_LINE
  {
    if perLine > PANELS_PER_LINE {
      MulMono(PANELS_PER_LINE, perLine - 1, lines);
    }
  }

  /** All lines but the last have the same number of panels, the least that this many lines allow. */
  ghost predicate Balanced(sizes: seq<nat>) {
    sizes != [] ==>
      var perLine := CeilDiv(Sum(sizes), |sizes|);
      sizes[|sizes| - 1] <= perLine && forall k :: 0 <= k < |sizes| - 1 ==> sizes[k] == perLine
  }

  /** All lines are full, but for the last once nothing remains. */
  ghost predicate Filled(sizes: seq<nat>, perLine: nat, more: bool) {
    forall k :: 0 <= k < |sizes| ==> if k == |sizes| - 1 && !more then sizes[k] <= perLine else sizes[k] == perLine
  }

  lemma FilledNext(sizes: seq<nat>, perLine: nat, n: nat)
    requires Filled(sizes, perLine, true) && n <= perLine
    ensures Filled(sizes + [n], perLine, false) && (n == perLine ==> Filled(sizes + [n], perLine, true))
  {
  }

  /** The lines laid so far, when `remaining` panels are left. */
  ghost predicate Laid(sizes: seq<nat>, widths: seq<nat>, perLine: nat, remaining: nat, count: nat) {
    && Lines(sizes) && widths == Spread(sizes) && Sum(sizes) + remaining == count
    && Filled(sizes, perLine, remaining > 0)
  }

  lemma LaidNext(sizes: seq<nat>, widths: seq<nat>, perLine: nat, remaining: nat, count: nat, n: nat)
    requires Laid(sizes, widths, perLine, remaining, count) && 1 <= perLine <= PANELS_PER_LINE && remaining > 0
    requires n == if perLine < remaining then perLine else remaining
    ensures Laid(sizes + [n], widths + seq(n, _ => GRID_WIDTH / n), perLine, remaining - n, count)
  {
    SumNext(sizes, n);
    SpreadNext(sizes, n);
    FilledNext(sizes, perLine, n);
  }

  /** Whatever else as many lines are filled with, some line is as long. */
  lemma NoShorterLines(sizes: seq<nat>, other: seq<nat>)
    requires Balanced(sizes) && Sum(other) == Sum(sizes) && |other| == |sizes| > 0
    ensures exists k :: 0 <= k < |other| && forall j :: 0 <= j < |sizes| ==> sizes[j] <= other[k]
  {
    var perLine := CeilDiv(Sum(sizes), |sizes|);
    if forall k :: 0 <= k < |other| ==> other[k] < perLine {
      SumBelow(other, perLine);
      assert false;
    }
    var k :| 0 <= k < |other| && perLine <= other[k];
  }

  lemma {:induction false} SumBelow(sizes: seq<nat>, n: nat)
    requires forall k :: 0 <= k < |sizes| ==> sizes[k] < n
    ensures sizes != [] ==> n >= 1 && Sum(sizes) <= (n - 1) * |sizes|
    ensures sizes == [] ==> Sum(sizes) == 0
  {
    if sizes != [] {
      var init := sizes[..|sizes| - 1];
      SumBelow(init, n);
      assert sizes[|sizes| - 1] < n;
      assert (n - 1) * |sizes| == (n - 1) * |init| + (n - 1);
    }
  }

  /** Column widths that spread the panels over as few lines as needed, every line filling the grid. */
  method LineWidths(count: nat) returns (widths: seq<nat>, ghost sizes: seq<nat>)
    ensures Lines(sizes) && widths == Spread(sizes) && Sum(sizes) == count && |widths| == count
    ensures |sizes| == CeilDiv(count, PANELS_PER_LINE) && Balanced(sizes)
  {
    var lines := CeilDiv(count, PANELS_PER_LINE);
    lines := if lines > 1 then lines else 1;
    var perLine := CeilDiv(count, lines);
    widths, sizes := [], [];
    var remaining := count;
    ghost var filled := 0;
    if count > 0 {
      PerLine(count, lines, perLine);
    }
    while remaining > 0
      invariant remaining >= 0 && Laid(sizes, widths, perLine, remaining, count)
      invariant filled == |sizes| * perLine && (remaining > 0 ==> count - remaining == filled)
      invariant remaining == 0 && count > 0 ==> |sizes| >= 1 && filled - perLine < count <= filled
      invariant count == 0 ==> sizes == []
    {
      var onThisLine := if perLine < remaining then perLine else remaining;
      LaidNext(sizes, widths, perLine, remaining, count, onThisLine);
      MulNext(|sizes|, perLine);
      filled := filled + perLine;
      widths := widths + seq(onThisLine, _ => GRID_WIDTH / onThisLine);
      sizes := sizes + [onThisLine];
      remaining := remaining - onThisLine;
    }
    SpreadLength(sizes);
    if count > 0 {
      LineCount(count, lines, perLine, |sizes|, filled);
    }
  }

  // Placement ------------------------------------------------------------------------

  datatype Rect = Rect(x: nat, y: nat, w: nat, h: nat)

  datatype Row = Row(title: string, panels: seq<string>)

  /** A row header or a panel, by its title. */
  datatype Item = Item(id: nat, rect: Rect, title: string)

  predicate Apart(a: Rect, b: Rect) {
    a.x + a.w <= b.x || b.x + b.w <= a.x || a.y + a.h <= b.y || b.y + b.h <= a.y
  }

  predicate InGrid(r: Rect) {
    r.w >= 1 && r.h >= 1 && r.x + r.w <= GRID_WIDTH
  }

  /** Everything placed so far is above the current line, or on it and left of the cursor. */
  ghost predicate Before(items: seq<Item>, x: nat, y: nat) {
    forall k :: 0 <= k < |items| ==>
      var r := items[k].rect; r.y + r.h <= y || (r.y == y && r.x + r.w <= x)
  }

  /** Rectangles inside the grid, pairwise apart, numbered in order from one. */
  ghost predicate Tidy(items: seq<Item>) {
    && (forall k :: 0 <= k < |items| ==> InGrid(items[k].rect) && items[k].id == k + 1)
    && (forall i, j :: 0 <= i < j < |items| ==> Apart(items[i].rect, items[j].rect))
  }

  lemma PlaceNext(items: seq<Item>, item: Item)
    requires Tidy(items) && Before(items, item.rect.x, item.rect.y) && InGrid(item.rect) && item.id == |items| + 1
    ensures Tidy(items + [item])
  {
  }

  /** The place of a panel in a row whose first line is at `top`. */
  ghost function Cell(sizes: seq<nat>, top: nat, line: nat, offset: nat): Rect
    requires Lines(sizes) && line < |sizes|
  {
    var w := GRID_WIDTH / sizes[line];
    Rect(offset * w, top + line * PANEL_HEIGHT, w, PANEL_HEIGHT)
  }

  /** The panels of a row stand in its cells, in order. */
  ghost predicate InCells(row: Row, items: seq<Item>, first: nat, sizes: seq<nat>, top: nat, done: nat)
    requires Lines(sizes)
  {
    && first + done <= |items| && done <= |row.panels|
    && (forall line, offset {:trigger Cell(sizes, top, line, offset)} ::
         0 <= line < |sizes| && 0 <= offset < sizes[line] && Sum(sizes[..line]) + offset < done ==>
         items[first + (Sum(sizes[..line]) + offset)].rect == Cell(sizes, top, line, offset))
    && (forall k :: 0 <= k < done ==> items[first + k].title == row.panels[k])
  }

  /** The cells of a line tile all the columns. */
  lemma CellsFillLine(sizes: seq<nat>, top: nat, line: nat)
    requires Lines(sizes) && line < |sizes|
    ensures Cell(sizes, top, line, 0).x == 0
    ensures forall offset: nat :: offset + 1 < sizes[line] ==>
      Cell(sizes, top, line, offset + 1).x == Cell(sizes, top, line, offset).x + Cell(sizes, top, line, offset).w
    ensures var last := Cell(sizes, top, line, sizes[line] - 1); last.x + last.w == GRID_WIDTH
  {
    FullLine(sizes[line]);
    var w := GRID_WIDTH / sizes[line];
    forall offset: nat | offset + 1 < sizes[line]
      ensures (offset + 1) * w == offset * w + w
    {
    }
    assert (sizes[line] - 1) * w + w == sizes[line] * w;
  }

  /** Positions determine line and offset. */
  lemma {:induction false} SumMonotone(sizes: seq<nat>, a: nat, b: nat)
    requires a <= b <= |sizes|
    ensures Sum(sizes[..a]) <= Sum(sizes[..b])
    ensures a < b ==> Sum(sizes[..a]) + sizes[a] <= Sum(sizes[..b])
    decreases b - a
  {
    if a < b {
      assert sizes[..b][..b - 1] == sizes[..b - 1];
      SumMonotone(sizes, a, b - 1);
    }
  }

  lemma SamePlace(sizes: seq<nat>, l: nat, o: nat, line: nat, offset: nat)
    requires l < |sizes| && o < sizes[l] && line < |sizes| && offset < sizes[line]
    requires Sum(sizes[..l]) + o == Sum(sizes[..line]) + offset
    ensures l == line && o == offset
  {
    if l < line {
      SumMonotone(sizes, l, line);
    } else if line < l {
      SumMonotone(sizes, line, l);
    }
  }

  lemma InCellsNext(row: Row, items: seq<Item>, first: nat, sizes: seq<nat>, top: nat, done: nat, item: Item,
      line: nat, offset: nat)
    requires Lines(sizes) && InCells(row, items, first, sizes, top, done)
    requires first + done == |items| && done < |row.panels|
    requires line < |sizes| && offset < sizes[line] && done == Sum(sizes[..line]) + offset
    requires item.rect == Cell(sizes, top, line, offset) && item.title == row.panels[done]
    ensures InCells(row, items + [item], first, sizes, top, done + 1)
  {
    var next := items + [item];
    forall l, o | 0 <= l < |sizes| && 0 <= o < sizes[l] && Sum(sizes[..l]) + o < done + 1
      ensures next[first + (Sum(sizes[..l]) + o)].rect == Cell(sizes, top, l, o)
    {
      if Sum(sizes[..l]) + o == done {
        SamePlace(sizes, l, o, line, offset);
      }
    }
  }

  /** The cursor inside a row: `offset` panels into a line. */
  ghost predicate Cursor(sizes: seq<nat>, top: nat, k: nat, line: nat, offset: nat, x: nat, y: nat)
    requires Lines(sizes)
  {
    && y == top + line * PANEL_HEIGHT
    && if sizes == [] then k == 0 && line == 0 && x == 0
       else
         && line < |sizes| && offset <= sizes[line]
         && k == Sum(sizes[..line]) + offset && x == offset * (GRID_WIDTH / sizes[line])
  }

  /** The next panel fits on the line exactly when the line is not full; a full line ends at the last column. */
  lemma WrapAtLineEnd(sizes: seq<nat>, top: nat, k: nat, line: nat, offset: nat, x: nat, y: nat)
    requires Lines(sizes) && Cursor(sizes, top, k, line, offset, x, y) && k < Sum(sizes)
    ensures |Spread(sizes)| == Sum(sizes) && sizes != []
    ensures offset < sizes[line] ==> x + Spread(sizes)[k] <= GRID_WIDTH && Spread(sizes)[k] == GRID_WIDTH / sizes[line]
    ensures offset == sizes[line] ==> x == GRID_WIDTH && Spread(sizes)[k] >= 1
    ensures offset == sizes[line] ==>
      line + 1 < |sizes| && k == Sum(sizes[..line + 1]) && Spread(sizes)[k] == GRID_WIDTH / sizes[line + 1]
  {
    SpreadLength(sizes);
    if offset < sizes[line] {
      SpreadAt(sizes, line, offset);
      FitsLine(sizes[line], offset);
    } else {
      FullLine(sizes[line]);
      NextLine(sizes, line);
    }
  }

  lemma FitsLine(size: nat, offset: nat)
    requires 1 <= size <= PANELS_PER_LINE && offset < size
    ensures offset * (GRID_WIDTH / size) + GRID_WIDTH / size <= GRID_WIDTH
  {
    FullLine(size);
    MulMono(offset + 1, size, GRID_WIDTH / size);
    MulNext(offset, GRID_WIDTH / size);
  }

  lemma SumPrefix(sizes: seq<nat>, line: nat)
    requires line < |sizes|
    ensures Sum(sizes[..line + 1]) == Sum(sizes[..line]) + sizes[line]
    ensures line + 1 == |sizes| ==> Sum(sizes[..line]) + sizes[line] == Sum(sizes)
  {
    var init := sizes[..line + 1];
    assert init[..line] == sizes[..line];
    if line + 1 == |sizes| {
      assert init == sizes;
    }
  }

  /** What follows the last panel of a line that is not the last: the first of the next. */
  lemma NextLine(sizes: seq<nat>, line: nat)
    requires Lines(sizes) && line < |sizes| && Sum(sizes[..line]) + sizes[line] < Sum(sizes)
    ensures var k := Sum(sizes[..line]) + sizes[line];
      && line + 1 < |sizes| && k == Sum(sizes[..line + 1]) && k < |Spread(sizes)|
      && Spread(sizes)[k] == GRID_WIDTH / sizes[line + 1] >= 1
  {
    SumPrefix(sizes, line);
    SpreadAt(sizes, line + 1, 0);
    FullLine(sizes[line + 1]);
  }

  /** A wrap moves the cursor to the start of the next line. */
  lemma Wrapped(sizes: seq<nat>, top: nat, k: nat, line: nat, offset: nat, x: nat, y: nat)
    requires Lines(sizes) && Cursor(sizes, top, k, line, offset, x, y) && k < Sum(sizes)
    ensures |Spread(sizes)| == Sum(sizes) && sizes != []
    ensures x + Spread(sizes)[k] > GRID_WIDTH <==> offset == sizes[line]
    ensures offset == sizes[line] ==> Cursor(sizes, top, k, line + 1, 0, 0, y + PANEL_HEIGHT)
    ensures offset == sizes[line] ==> Spread(sizes)[k] == GRID_WIDTH / sizes[line + 1]
    ensures offset < sizes[line] ==> Spread(sizes)[k] == GRID_WIDTH / sizes[line]
  {
    WrapAtLineEnd(sizes, top, k, line, offset, x, y);
  }

  /** A panel that fits stands in the cell under the cursor. */
  lemma InCell(sizes: seq<nat>, top: nat, k: nat, line: nat, offset: nat, x: nat, y: nat, width: nat)
    requires Lines(sizes) && Cursor(sizes, top, k, line, offset, x, y) && sizes != [] && offset < sizes[line]
    requires width == GRID_WIDTH / sizes[line]
    ensures Rect(x, y, width, PANEL_HEIGHT) == Cell(sizes, top, line, offset) && InGrid(Rect(x, y, width, PANEL_HEIGHT))
    ensures Cursor(sizes, top, k + 1, line, offset + 1, x + width, y)
  {
    FullLine(sizes[line]);
    MulMono(offset + 1, sizes[line], width);
    assert (offset + 1) * width == offset * width + width;
  }

  /** After the last panel the cursor is at the end of the last line. */
  lemma LastLine(sizes: seq<nat>, top: nat, line: nat, offset: nat, x: nat, y: nat)
    requires Lines(sizes) && Cursor(sizes, top, Sum(sizes), line, offset, x, y) && sizes != []
    ensures line == |sizes| - 1
  {
    if line + 1 < |sizes| {
      assert sizes[..|sizes|] == sizes && sizes[..line + 1][..line] == sizes[..line];
      assert sizes[..line + 2][..line + 1] == sizes[..line + 1];
      SumMonotone(sizes, line + 1, |sizes|);
    }
  }

  /** One panel: on the line if it fits, else at the start of the next. */
  method PlacePanel(row: Row, items: seq<Item>, id: nat, x: nat, y: nat, width: nat,
      ghost first: nat, ghost sizes: seq<nat>, ghost top: nat, k: nat, ghost line: nat, ghost offset: nat)
      returns (item: Item, right: nat, level: nat, ghost nextLine: nat, ghost nextOffset: nat)
    requires Lines(sizes) && k < Sum(sizes) == |row.panels|
    requires |Spread(sizes)| == Sum(sizes) && width == Spread(sizes)[k]
    requires Cursor(sizes, top, k, line, offset, x, y) && InCells(row, items, first, sizes, top, k)
    requires first + k == |items|
    requires Tidy(items) && id == |items| + 1 && Before(items, x, y)
    requires forall i :: 0 <= i < |items| ==> items[i].rect.h <= PANEL_HEIGHT
    ensures Cursor(sizes, top, k + 1, nextLine, nextOffset, right, level)
    ensures Tidy(items + [item]) && Before(items + [item], right, level) && item.rect.h == PANEL_HEIGHT
    ensures InCells(row, items + [item], first, sizes, top, k + 1)
  {
    Wrapped(sizes, top, k, line, offset, x, y);
    right, level, nextLine, nextOffset := x, y, line, offset;
    if right + width > GRID_WIDTH {
      right := 0;
      level := level + PANEL_HEIGHT;
      nextLine, nextOffset := line + 1, 0;
    }
    InCell(sizes, top, k, nextLine, nextOffset, right, level, width);
    item := Item(id, Rect(right, level, width, PANEL_HEIGHT), row.panels[k]);
    PlaceNext(items, item);
    InCellsNext(row, items, first, sizes, top, k, item, nextLine, nextOffset);
    right := right + width;
    nextOffset := nextOffset + 1;
  }

  /** A row in place at `top`: its header, and its panels in the cells of as few lines as possible. */
  ghost predicate RowAt(row: Row, items: seq<Item>, first: nat, top: nat, sizes: seq<nat>) {
    && first < |items| && items[first].rect == Rect(0, top, GRID_WIDTH, 1) && items[first].title == row.title
    && Lines(sizes) && |sizes| == CeilDiv(|row.panels|, PANELS_PER_LINE) && Sum(sizes) == |row.panels|
    && Balanced(sizes)
    && InCells(row, items, first + 1, sizes, top + 1, |row.panels|)
  }

  /** One row: its header, and its panels line by line below it. */
  method RenderRow(row: Row, items: seq<Item>, nextId: nat, y: nat)
      returns (more: seq<Item>, id: nat, bottom: nat, ghost sizes: seq<nat>)
    requires Tidy(items) && nextId == |items| + 1 && Before(items, 0, y)
    requires forall i :: 0 <= i < |items| ==> items[i].rect.h <= PANEL_HEIGHT
    ensures Tidy(more) && id == |more| + 1 && Before(more, 0, bottom)
    ensures forall i :: 0 <= i < |more| ==> more[i].rect.h <= PANEL_HEIGHT
    ensures |more| == |items| + 1 + |row.panels| && items <= more && RowAt(row, more, |items|, y, sizes)
    ensures bottom == y + 1 + PANEL_HEIGHT * (if sizes == [] then 1 else |sizes|)
  {
    PlaceNext(items, Item(nextId, Rect(0, y, GRID_WIDTH, 1), row.title));
    more := items + [Item(nextId, Rect(0, y, GRID_WIDTH, 1), row.title)];
    ghost var start := more;
    id := nextId + 1;
    var x: nat, level: nat := 0, y + 1;
    var widths;
    widths, sizes := LineWidths(|row.panels|);
    ghost var line: nat, offset: nat := 0, 0;
    for k := 0 to |row.panels|
      invariant Cursor(sizes, y + 1, k, line, offset, x, level)
      invariant Tidy(more) && id == |more| + 1 && Before(more, x, level)
      invariant |more| == |start| + k && start <= more && forall i :: 0 <= i < |more| ==> more[i].rect.h <= PANEL_HEIGHT
      invariant InCells(row, more, |start|, sizes, y + 1, k)
    {
      var item;
      item, x, level, line, offset :=
        PlacePanel(row, more, id, x, level, widths[k], |start|, sizes, y + 1, k, line, offset);
      more := more + [item];
      id := id + 1;
    }
    if sizes != [] {
      LastLine(sizes, y + 1, line, offset, x, level);
    }
    bottom := level + PANEL_HEIGHT;
  }

  // The dashboard --------------------------------------------------------------------

  ghost function ItemCount(rows: seq<Row>): nat {
    if rows == [] then 0 else ItemCount(rows[..|rows| - 1]) + 1 + |rows[|rows| - 1].panels|
  }

  /** The vertical position of the n-th row. */
  ghost function TopOf(rows: seq<Row>, n: nat): nat
    requires n <= |rows|
  {
    if n == 0 then 0
    else
      var lines := CeilDiv(|rows[n - 1].panels|, PANELS_PER_LINE);
      TopOf(rows, n - 1) + 1 + PANEL_HEIGHT * if lines == 0 then 1 else lines
  }

  ghost predicate RowPlaced(rows: seq<Row>, n: nat, items: seq<Item>)
    requires n < |rows|
  {
    exists sizes :: RowAt(rows[n], items, ItemCount(rows[..n]), TopOf(rows, n), sizes)
  }

  /** Nothing but the rows, each in place below the ones before it. */
  ghost predicate Rendered(rows: seq<Row>, items: seq<Item>) {
    |items| == ItemCount(rows) && forall n :: 0 <= n < |rows| ==> RowPlaced(rows, n, items)
  }

  lemma RowAtKept(row: Row, items: seq<Item>, more: seq<Item>, first: nat, top: nat, sizes: seq<nat>)
    requires RowAt(row, items, first, top, sizes) && items <= more
    ensures RowAt(row, more, first, top, sizes)
  {
  }

  lemma RowsKept(rows: seq<Row>, n: nat, items: seq<Item>, more: seq<Item>)
    requires n <= |rows| && items <= more && forall m :: 0 <= m < n ==> RowPlaced(rows, m, items)
    ensures forall m :: 0 <= m < n ==> RowPlaced(rows, m, more)
  {
    forall m | 0 <= m < n
      ensures RowPlaced(rows, m, more)
    {
      assert RowPlaced(rows, m, items);
      var sizes :| RowAt(rows[m], items, ItemCount(rows[..m]), TopOf(rows, m), sizes);
      RowAtKept(rows[m], items, more, ItemCount(rows[..m]), TopOf(rows, m), sizes);
    }
  }

  /** All rows, one below the other: disjoint rectangles inside the grid, with ids counting from one. */
  method RenderPanels(rows: seq<Row>) returns (items: seq<Item>)
    ensures Tidy(items) && Rendered(rows, items)
  {
    items := [];
    var id, y := 1, 0;
    for n := 0 to |rows|
      invariant Tidy(items) && id == |items| + 1 && y == TopOf(rows, n) && Before(items, 0, y)
      invariant |items| == ItemCount(rows[..n]) && forall i :: 0 <= i < |items| ==> items[i].rect.h <= PANEL_HEIGHT
      invariant forall m :: 0 <= m < n ==> RowPlaced(rows, m, items)
    {
      ghost var before := items;
      ghost var sizes;
      items, id, y, sizes := RenderRow(rows[n], items, id, y);
      assert rows[..n + 1][..n] == rows[..n];
      RowsKept(rows, n, before, items);
      assert RowAt(rows[n], items, ItemCount(rows[..n]), TopOf(rows, n), sizes);
    }
    assert rows[..|rows|] == rows;
  }
}
