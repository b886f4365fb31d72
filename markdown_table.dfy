// Tables to Markdown (crates/hwp-core/src/viewer/markdown/table.rs).
// The cells are laid out on a row_count x col_count grid: the first cell
// written to a grid position keeps it, and the positions a merged cell
// spans are filled with a blank. Each grid row becomes a "| a | b |" line,
// with a "|---|---|" separator after the first, between two empty lines.

module MarkdownTable {
  import opened Bytes
  import opened Errors
  import opened Text
  import opened Sorting
  import Arithmetic

  // A record of a cell's paragraphs: text, a picture with the Markdown of
  // its image (None when its binary item is missing), or anything else.
  datatype CellRecord = ParaText(text: string) | Picture(imageMarkdown: Option<string>) | OtherRecord

  datatype Cell = Cell(colAddress: u16, rowAddress: u16, colSpan: u16, rowSpan: u16, records: seq<CellRecord>)

  datatype Table = Table(rowCount: u16, colCount: u16, cells: seq<Cell>)

  function Min(a: nat, b: nat): nat { if a < b then a else b }

  // ---------------------------------------------------------------------
  // Cell text.

  // A record's part of the cell text: trimmed non-blank text, or a
  // non-empty image.
  function RecordPart(rec: CellRecord): seq<string>
  {
    match rec
    case ParaText(text) => if Trim(text) != "" then [Trim(text)] else []
    case Picture(m) => if m.Some? && m.value != "" then [m.value] else []
    case OtherRecord => []
  }

  function CellParts(records: seq<CellRecord>): (parts: seq<string>)
    ensures forall i :: 0 <= i < |parts| ==> parts[i] != ""
  {
    if |records| == 0 then []
    else CellParts(records[..|records| - 1]) + RecordPart(records[|records| - 1])
  }

  method CollectCellParts(records: seq<CellRecord>) returns (parts: seq<string>)
    ensures parts == CellParts(records)
  {
    parts := [];
    for k := 0 to |records|
      invariant parts == CellParts(records[..k])
    {
      assert records[..k + 1][..k] == records[..k];
      match records[k]
      case ParaText(text) =>
        var trimmed := Trim(text);
        if trimmed != "" {
          parts := parts + [trimmed];
        }
      case Picture(m) =>
        if m.Some? && m.value != "" {
          parts := parts + [m.value];
        }
      case OtherRecord =>
    }
    assert records[..|records|] == records;
  }

  const EscapedPipe: string := "\\|"

  // The parts joined by spaces with "|" escaped, or a blank.
  function CellContent(parts: seq<string>): (content: string)
  {
    var cellText := Join(parts, " ");
    if cellText == "" then " " else ReplaceChar(cellText, '|', EscapedPipe)
  }

  // Every "|" of an escaped text follows a backslash.
  predicate PipesEscaped(s: string)
  {
    forall i :: 0 <= i < |s| && s[i] == '|' ==> 0 < i && s[i - 1] == '\\'
  }

  // Reading "\|" back as "|".
  function Unescape(s: string): string
  {
    if |s| >= 2 && s[0] == '\\' && s[1] == '|' then "|" + Unescape(s[2..])
    else if |s| > 0 then [s[0]] + Unescape(s[1..])
    else ""
  }

  // Every "|" the escaping leaves follows a backslash, and the result
  // does not start with "|".
  lemma {:induction false} EscapeMarks(s: string)
    ensures PipesEscaped(ReplaceChar(s, '|', EscapedPipe))
    ensures |ReplaceChar(s, '|', EscapedPipe)| > 0 ==> ReplaceChar(s, '|', EscapedPipe)[0] != '|'
  {
    if |s| > 0 {
      EscapeMarks(s[1..]);
      var r := ReplaceChar(s, '|', EscapedPipe);
      var rest := ReplaceChar(s[1..], '|', EscapedPipe);
      var head := if s[0] == '|' then EscapedPipe else [s[0]];
      assert r == head + rest;
      forall i | 0 <= i < |r| && r[i] == '|'
        ensures 0 < i && r[i - 1] == '\\'
      {
        if i >= |head| {
          assert r[i] == rest[i - |head|];
          assert r[i - 1] == rest[i - 1 - |head|];
        }
      }
    }
  }

  // Reading the escapes back gives the text.
  lemma {:induction false} EscapeRoundTrip(s: string)
    ensures Unescape(ReplaceChar(s, '|', EscapedPipe)) == s
  {
    if |s| > 0 {
      EscapeRoundTrip(s[1..]);
      EscapeMarks(s[1..]);
      var r := ReplaceChar(s, '|', EscapedPipe);
      var rest := ReplaceChar(s[1..], '|', EscapedPipe);
      if s[0] == '|' {
        assert r == EscapedPipe + rest && r[2..] == rest;
      } else {
        assert r == [s[0]] + rest && r[1..] == rest;
      }
      assert [s[0]] + s[1..] == s;
    }
  }

  // The content is never empty, every "|" in it is escaped, and reading
  // the escapes back gives the joined parts.
  lemma CellContentEscaped(parts: seq<string>)
    ensures var content := CellContent(parts);
      content != "" && PipesEscaped(content) &&
      (Join(parts, " ") != "" ==> Unescape(content) == Join(parts, " "))
      && (Join(parts, " ") == "" ==> content == " ")
  {
    EscapeMarks(Join(parts, " "));
    EscapeRoundTrip(Join(parts, " "));
  }

  // ---------------------------------------------------------------------
  // The grid and fill_cell_content.

  type Grid = seq<seq<Option<string>>>

  predicate IsGrid(g: Grid, rowCount: nat, colCount: nat)
  {
    |g| == rowCount && forall r :: 0 <= r < rowCount ==> |g[r]| == colCount
  }

  // The positions a cell at (row, col) spans besides its own: the rest of
  // its row, then the rows below, within the grid.
  predicate InSpan(r: nat, c: nat, row: nat, col: nat, rowSpan: nat, colSpan: nat, rowCount: nat, colCount: nat)
  {
    (r == row && col < c < Min(col + colSpan, colCount)) ||
    (row < r < Min(row + rowSpan, rowCount) && col <= c < Min(col + colSpan, colCount))
  }

  // Position (r, c) after a cell with this content is placed at
  // (row, col): nothing changes when (row, col) is taken; otherwise the
  // cell takes it and the free positions of its span get a blank.
  function FilledAt(g: Grid, row: nat, col: nat, content: string, rowSpan: nat, colSpan: nat,
                    rowCount: nat, colCount: nat, r: nat, c: nat): Option<string>
    requires IsGrid(g, rowCount, colCount) && row < rowCount && col < colCount && r < rowCount && c < colCount
  {
    if g[row][col].Some? then g[r][c]
    else if r == row && c == col then Some(content)
    else if InSpan(r, c, row, col, rowSpan, colSpan, rowCount, colCount) && g[r][c].None? then Some(" ")
    else g[r][c]
  }

  function Fill(g: Grid, row: nat, col: nat, content: string, rowSpan: nat, colSpan: nat,
                rowCount: nat, colCount: nat): (r: Grid)
    requires IsGrid(g, rowCount, colCount) && row < rowCount && col < colCount
    ensures IsGrid(r, rowCount, colCount)
  {
    seq(rowCount, i requires 0 <= i < rowCount =>
      seq(colCount, j requires 0 <= j < colCount =>
        FilledAt(g, row, col, content, rowSpan, colSpan, rowCount, colCount, i, j)))
  }

  // The first writer of a position wins: a taken position, and every
  // other taken one, keeps its text.
  lemma FirstWriterWins(g: Grid, row: nat, col: nat, content: string, rowSpan: nat, colSpan: nat,
                        rowCount: nat, colCount: nat)
    requires IsGrid(g, rowCount, colCount) && row < rowCount && col < colCount
    ensures g[row][col].Some? ==> Fill(g, row, col, content, rowSpan, colSpan, rowCount, colCount) == g
    ensures forall r, c :: 0 <= r < rowCount && 0 <= c < colCount && g[r][c].Some? ==>
      Fill(g, row, col, content, rowSpan, colSpan, rowCount, colCount)[r][c] == g[r][c]
  {
    var f := Fill(g, row, col, content, rowSpan, colSpan, rowCount, colCount);
    if g[row][col].Some? {
      forall r | 0 <= r < rowCount
        ensures f[r] == g[r]
      {
      }
    }
  }

  // A cell placed on a free position takes it, and every position of its
  // span is then taken, by a blank unless something was already there;
  // positions outside the span do not change.
  lemma SpanFilled(g: Grid, row: nat, col: nat, content: string, rowSpan: nat, colSpan: nat,
                   rowCount: nat, colCount: nat)
    requires IsGrid(g, rowCount, colCount) && row < rowCount && col < colCount && g[row][col].None?
    ensures var f := Fill(g, row, col, content, rowSpan, colSpan, rowCount, colCount);
      f[row][col] == Some(content) &&
      (forall r, c :: 0 <= r < rowCount && 0 <= c < colCount && InSpan(r, c, row, col, rowSpan, colSpan, rowCount, colCount) ==>
        f[r][c] == if g[r][c].Some? then g[r][c] else Some(" ")) &&
      (forall r, c ::
        (0 <= r < rowCount && 0 <= c < colCount &&
         !InSpan(r, c, row, col, rowSpan, colSpan, rowCount, colCount) && (r, c) != (row, col)) ==>
          f[r][c] == g[r][c])
  {
  }

  // The grid as the values it holds.
  ghost function Contents(a: array2<Option<string>>): (g: Grid)
    reads a
    ensures IsGrid(g, a.Length0, a.Length1)
  {
    seq(a.Length0, i requires 0 <= i < a.Length0 reads a =>
      seq(a.Length1, j requires 0 <= j < a.Length1 reads a => a[i, j]))
  }

  // fill_cell_content.
  method FillCellContent(grid: array2<Option<string>>, cell: Cell, row: nat, col: nat,
                         rowCount: nat, colCount: nat)
    requires grid.Length0 == rowCount && grid.Length1 == colCount && row < rowCount && col < colCount
    modifies grid
    ensures Contents(grid) == Fill(old(Contents(grid)), row, col, CellContent(CellParts(cell.records)),
      cell.rowSpan, cell.colSpan, rowCount, colCount)
  {
    ghost var g := Contents(grid);
    var parts := CollectCellParts(cell.records);
    var cellText := Join(parts, " ");
    var cellContent := if cellText == "" then " " else ReplaceChar(cellText, '|', EscapedPipe);
    ghost var f := Fill(g, row, col, cellContent, cell.rowSpan, cell.colSpan, rowCount, colCount);
    if grid[row, col].None? {
      grid[row, col] := Some(cellContent);
      FillSpan(grid, row, col, cell.rowSpan, cell.colSpan);
    }
    forall i, j | 0 <= i < rowCount && 0 <= j < colCount
      ensures grid[i, j] == f[i][j]
    {
      assert g[i][j] == old(grid[i, j]);
    }
    SameContents(grid, f);
  }

  // The loops over the merged positions: every free position of the span
  // gets a blank, and nothing else changes.
  method FillSpan(grid: array2<Option<string>>, row: nat, col: nat, rowSpan: nat, colSpan: nat)
    requires row < grid.Length0 && col < grid.Length1
    modifies grid
    ensures forall i, j :: 0 <= i < grid.Length0 && 0 <= j < grid.Length1 ==>
      grid[i, j] == if InSpan(i, j, row, col, rowSpan, colSpan, grid.Length0, grid.Length1) && old(grid[i, j]).None?
        then Some(" ") else old(grid[i, j])
  {
    var rowCount, colCount := grid.Length0, grid.Length1;
    var colEnd := Min(col + colSpan, colCount);
    var rowEnd := Min(row + rowSpan, rowCount);
    for c := col + 1 to Max(colEnd, col + 1)
      invariant forall i, j :: 0 <= i < rowCount && 0 <= j < colCount ==>
        grid[i, j] == if i == row && col < j < c && old(grid[i, j]).None? then Some(" ") else old(grid[i, j])
    {
      if grid[row, c].None? {
        grid[row, c] := Some(" ");
      }
    }
    for r := row + 1 to Max(rowEnd, row + 1)
      invariant forall i, j :: 0 <= i < rowCount && 0 <= j < colCount ==>
        grid[i, j] == if ((i == row && col < j < colEnd) || (row < i < r && col <= j < colEnd)) && old(grid[i, j]).None?
          then Some(" ") else old(grid[i, j])
    {
      FillSpanRow(grid, r, col, colEnd);
    }
  }

  // One row below the cell: its free positions from col to colEnd.
  method FillSpanRow(grid: array2<Option<string>>, r: nat, col: nat, colEnd: nat)
    requires r < grid.Length0 && col <= colEnd <= grid.Length1
    modifies grid
    ensures forall i, j :: 0 <= i < grid.Length0 && 0 <= j < grid.Length1 ==>
      grid[i, j] == if i == r && col <= j < colEnd && old(grid[i, j]).None? then Some(" ") else old(grid[i, j])
  {
    for c := col to colEnd
      invariant forall i, j :: 0 <= i < grid.Length0 && 0 <= j < grid.Length1 ==>
        grid[i, j] == if i == r && col <= j < c && old(grid[i, j]).None? then Some(" ") else old(grid[i, j])
    {
      if grid[r, c].None? {
        grid[r, c] := Some(" ");
      }
    }
  }

  function Max(a: nat, b: nat): nat { if a < b then b else a }

  lemma SameContents(a: array2<Option<string>>, g: Grid)
    requires IsGrid(g, a.Length0, a.Length1)
    requires forall i, j :: 0 <= i < a.Length0 && 0 <= j < a.Length1 ==> a[i, j] == g[i][j]
    ensures Contents(a) == g
  {
    var h := Contents(a);
    forall i | 0 <= i < a.Length0
      ensures h[i] == g[i]
    {
    }
  }

  // ---------------------------------------------------------------------
  // Placing the cells on the grid.

  // A cell and the grid position convert_table_to_markdown fills it at.
  datatype Placement = Placement(cell: Cell, row: nat, col: nat)

  // `iter().min().unwrap_or(1)`.
  function MinOf(s: seq<nat>): (m: nat)
    ensures |s| == 0 ==> m == 1
    ensures forall i :: 0 <= i < |s| ==> m <= s[i]
    ensures |s| > 0 ==> m in s
  {
    if |s| == 0 then 1
    else if |s| == 1 then s[0]
    else
      var rest := MinOf(s[1..]);
      assert forall i :: 1 <= i < |s| ==> s[i] == s[1..][i - 1];
      if s[0] <= rest then s[0] else rest
  }

  function RowAddresses(cells: seq<Cell>): seq<nat>
  {
    seq(|cells|, i requires 0 <= i < |cells| => cells[i].rowAddress as nat)
  }

  function ColAddresses(cells: seq<Cell>): seq<nat>
  {
    seq(|cells|, i requires 0 <= i < |cells| => cells[i].colAddress as nat)
  }

  predicate AllSameRow(cells: seq<Cell>, minRow: nat)
  {
    forall i :: 0 <= i < |cells| ==> cells[i].rowAddress as nat == minRow
  }

  // The (row_address, col_address) sort key as one number.
  function RowColKey(c: Cell): nat
  {
    c.rowAddress as nat * 0x1_0000 + c.colAddress as nat
  }

  // The number orders cells as the pair does: by row, then by column.
  lemma RowColKeyOrder(a: Cell, b: Cell)
    ensures RowColKey(a) <= RowColKey(b) <==>
      a.rowAddress < b.rowAddress || (a.rowAddress == b.rowAddress && a.colAddress <= b.colAddress)
  {
    if a.rowAddress < b.rowAddress {
      assert RowColKey(a) < (a.rowAddress as nat + 1) * 0x1_0000 <= RowColKey(b);
    } else if a.rowAddress > b.rowAddress {
      assert RowColKey(b) < (b.rowAddress as nat + 1) * 0x1_0000 <= RowColKey(a);
    }
  }

  // `saturating_sub` on the addresses.
  function SatSub(a: nat, b: nat): nat { if a >= b then a - b else 0 }

  predicate InBounds(ps: seq<Placement>, rowCount: nat, colCount: nat)
  {
    forall i :: 0 <= i < |ps| ==> ps[i].row < rowCount && ps[i].col < colCount
  }

  // The branch for tables whose cells all have the same row address: a
  // column address not greater than the previous one starts a new row
  // (but never past the last), and a cell is filled when its column is
  // inside the grid. The state is the row index and the previous column
  // address, u16::MAX before the first cell.
  // The row of the next cell: one down when its column address does not
  // go past the previous one, clamped to the last row.
  function NextRow(colAddress: nat, lastCol: nat, rowIndex: nat, rowCount: nat): (r: nat)
    requires rowIndex < rowCount
    ensures r < rowCount
    ensures r == rowIndex || r == rowIndex + 1 || r == rowCount - 1
  {
    if colAddress <= lastCol && lastCol != 0xFFFF then
      (if rowIndex + 1 >= rowCount then rowCount - 1 else rowIndex + 1)
    else rowIndex
  }

  function SameRowPlacements(cells: seq<Cell>, minCol: nat, rowCount: nat, colCount: nat,
                             rowIndex: nat, lastCol: nat): (ps: seq<Placement>)
    requires rowIndex < rowCount
    ensures InBounds(ps, rowCount, colCount)
    ensures |ps| <= |cells|
    ensures forall i :: 0 <= i < |ps| ==> ps[i].col == SatSub(ps[i].cell.colAddress as nat, minCol)
  {
    if |cells| == 0 then []
    else
      var cell := cells[0];
      var col := SatSub(cell.colAddress as nat, minCol);
      var next := NextRow(cell.colAddress as nat, lastCol, rowIndex, rowCount);
      var rest := SameRowPlacements(cells[1..], minCol, rowCount, colCount, next, cell.colAddress as nat);
      (if col < colCount then [Placement(cell, next, col)] else []) + rest
  }

  // One step of the same-row walk: the first cell goes to row next.
  lemma SameRowStep(cells: seq<Cell>, minCol: nat, rowCount: nat, colCount: nat, rowIndex: nat, lastCol: nat,
                    next: nat, col: nat)
    requires rowIndex < rowCount && |cells| > 0
    requires next == NextRow(cells[0].colAddress as nat, lastCol, rowIndex, rowCount)
    requires col == SatSub(cells[0].colAddress as nat, minCol)
    ensures col < colCount ==> (SameRowPlacements(cells, minCol, rowCount, colCount, rowIndex, lastCol) ==
      [Placement(cells[0], next, col)] + SameRowPlacements(cells[1..], minCol, rowCount, colCount, next, cells[0].colAddress as nat))
    ensures col >= colCount ==> (SameRowPlacements(cells, minCol, rowCount, colCount, rowIndex, lastCol) ==
      SameRowPlacements(cells[1..], minCol, rowCount, colCount, next, cells[0].colAddress as nat))
  {
  }

  // Every cell the same-row branch fills is one of the table's.
  lemma {:induction false} SameRowCells(cells: seq<Cell>, minCol: nat, rowCount: nat, colCount: nat,
                                        rowIndex: nat, lastCol: nat)
    requires rowIndex < rowCount
    ensures forall i :: 0 <= i < |SameRowPlacements(cells, minCol, rowCount, colCount, rowIndex, lastCol)| ==>
      SameRowPlacements(cells, minCol, rowCount, colCount, rowIndex, lastCol)[i].cell in cells
    decreases |cells|
  {
    if |cells| > 0 {
      var cell := cells[0];
      var next := NextRow(cell.colAddress as nat, lastCol, rowIndex, rowCount);
      SameRowCells(cells[1..], minCol, rowCount, colCount, next, cell.colAddress as nat);
      var rest := SameRowPlacements(cells[1..], minCol, rowCount, colCount, next, cell.colAddress as nat);
      var col := SatSub(cell.colAddress as nat, minCol);
      var head := if col < colCount then [Placement(cell, next, col)] else [];
      var ps := SameRowPlacements(cells, minCol, rowCount, colCount, rowIndex, lastCol);
      assert ps == head + rest;
      forall i | 0 <= i < |ps|
        ensures ps[i].cell in cells
      {
        if i >= |head| {
          assert ps[i] == rest[i - |head|];
          assert rest[i - |head|].cell in cells[1..];
        }
      }
    }
  }

  // The other branch: each cell at its addresses relative to the minimum
  // ones, when that is inside the grid, in the table's order.
  function AddressPlacements(cells: seq<Cell>, minRow: nat, minCol: nat, rowCount: nat, colCount: nat): (ps: seq<Placement>)
    ensures InBounds(ps, rowCount, colCount)
    ensures forall i :: 0 <= i < |ps| ==> (ps[i].cell in cells &&
      ps[i].row == SatSub(ps[i].cell.rowAddress as nat, minRow) && ps[i].col == SatSub(ps[i].cell.colAddress as nat, minCol))
    ensures forall c :: c in cells && SatSub(c.rowAddress as nat, minRow) < rowCount && SatSub(c.colAddress as nat, minCol) < colCount ==>
      Placement(c, SatSub(c.rowAddress as nat, minRow), SatSub(c.colAddress as nat, minCol)) in ps
  {
    if |cells| == 0 then []
    else
      var cell := cells[0];
      var row, col := SatSub(cell.rowAddress as nat, minRow), SatSub(cell.colAddress as nat, minCol);
      var rest := AddressPlacements(cells[1..], minRow, minCol, rowCount, colCount);
      assert forall c :: c in cells ==> c == cell || c in cells[1..];
      (if row < rowCount && col < colCount then [Placement(cell, row, col)] else []) + rest
  }

  // The cells convert_table_to_markdown fills, in the order it fills them:
  // in the same-row branch it walks the cells sorted by (row, column).
  function Placements(t: Table): (ps: seq<Placement>)
    requires t.rowCount > 0
    ensures InBounds(ps, t.rowCount as nat, t.colCount as nat)
    ensures forall i :: 0 <= i < |ps| ==> ps[i].cell in t.cells
  {
    var minRow, minCol := MinOf(RowAddresses(t.cells)), MinOf(ColAddresses(t.cells));
    if AllSameRow(t.cells, minRow) then
      var sorted := SortByKey(t.cells, RowColKey);
      SameRowCells(sorted, minCol, t.rowCount as nat, t.colCount as nat, 0, 0xFFFF);
      var ps := SameRowPlacements(sorted, minCol, t.rowCount as nat, t.colCount as nat, 0, 0xFFFF);
      assert forall i :: 0 <= i < |ps| ==> ps[i].cell in multiset(sorted);
      SameRowPlacements(sorted, minCol, t.rowCount as nat, t.colCount as nat, 0, 0xFFFF)
    else AddressPlacements(t.cells, minRow, minCol, t.rowCount as nat, t.colCount as nat)
  }

  // The placements as the comment on the same-row branch describes them:
  // the cells in their original order.
  function PlacementsCorrected(t: Table): (ps: seq<Placement>)
    requires t.rowCount > 0
    ensures InBounds(ps, t.rowCount as nat, t.colCount as nat)
  {
    var minRow, minCol := MinOf(RowAddresses(t.cells)), MinOf(ColAddresses(t.cells));
    if AllSameRow(t.cells, minRow) then
      SameRowPlacements(t.cells, minCol, t.rowCount as nat, t.colCount as nat, 0, 0xFFFF)
    else AddressPlacements(t.cells, minRow, minCol, t.rowCount as nat, t.colCount as nat)
  }

  function EmptyGrid(rowCount: nat, colCount: nat): (g: Grid)
    ensures IsGrid(g, rowCount, colCount)
  {
    seq(rowCount, i => seq(colCount, j => None))
  }

  // fill_cell_content for each placement in turn.
  function Layout(g: Grid, ps: seq<Placement>, rowCount: nat, colCount: nat): (r: Grid)
    requires IsGrid(g, rowCount, colCount) && InBounds(ps, rowCount, colCount)
    ensures IsGrid(r, rowCount, colCount)
    decreases |ps|
  {
    if |ps| == 0 then g
    else
      var p := ps[0];
      Layout(Fill(g, p.row, p.col, CellContent(CellParts(p.cell.records)), p.cell.rowSpan as nat, p.cell.colSpan as nat,
        rowCount, colCount), ps[1..], rowCount, colCount)
  }

  // A position, once taken, keeps its text through every later placement.
  lemma {:induction false} LayoutKeeps(g: Grid, ps: seq<Placement>, rowCount: nat, colCount: nat, r: nat, c: nat)
    requires IsGrid(g, rowCount, colCount) && InBounds(ps, rowCount, colCount)
    requires r < rowCount && c < colCount && g[r][c].Some?
    ensures Layout(g, ps, rowCount, colCount)[r][c] == g[r][c]
    decreases |ps|
  {
    if |ps| > 0 {
      var p := ps[0];
      var content := CellContent(CellParts(p.cell.records));
      FirstWriterWins(g, p.row, p.col, content, p.cell.rowSpan as nat, p.cell.colSpan as nat, rowCount, colCount);
      LayoutKeeps(Fill(g, p.row, p.col, content, p.cell.rowSpan as nat, p.cell.colSpan as nat, rowCount, colCount),
        ps[1..], rowCount, colCount, r, c);
    }
  }

  // The first placement on a free position shows its cell's content there
  // in the end; a placement on a taken position is lost.
  lemma FirstPlacementShows(g: Grid, p: Placement, ps: seq<Placement>, rowCount: nat, colCount: nat)
    requires IsGrid(g, rowCount, colCount) && p.row < rowCount && p.col < colCount && InBounds(ps, rowCount, colCount)
    ensures g[p.row][p.col].None? ==>
      Layout(g, [p] + ps, rowCount, colCount)[p.row][p.col] == Some(CellContent(CellParts(p.cell.records)))
    ensures g[p.row][p.col].Some? ==> Layout(g, [p] + ps, rowCount, colCount) == Layout(g, ps, rowCount, colCount)
  {
    var content := CellContent(CellParts(p.cell.records));
    var f := Fill(g, p.row, p.col, content, p.cell.rowSpan as nat, p.cell.colSpan as nat, rowCount, colCount);
    assert ([p] + ps)[0] == p && ([p] + ps)[1..] == ps;
    assert InBounds([p] + ps, rowCount, colCount);
    FirstWriterWins(g, p.row, p.col, content, p.cell.rowSpan as nat, p.cell.colSpan as nat, rowCount, colCount);
    if g[p.row][p.col].None? {
      SpanFilled(g, p.row, p.col, content, p.cell.rowSpan as nat, p.cell.colSpan as nat, rowCount, colCount);
      LayoutKeeps(f, ps, rowCount, colCount, p.row, p.col);
    }
  }

  // ---------------------------------------------------------------------
  // The Markdown lines.

  function CellText(o: Option<string>): string
  {
    if o.Some? then o.value else " "
  }

  // "| a | b |" for one grid row, an empty position shown as a blank.
  function RowLine(row: seq<Option<string>>): string
  {
    "| " + Join(seq(|row|, j requires 0 <= j < |row| => CellText(row[j])), " | ") + " |"
  }

  // "|---|---|".
  function Separator(colCount: nat): string
  {
    "|" + Join(seq(colCount, j => "---"), "|") + "|"
  }

  // The lines of the first n rows, the separator right after the first.
  function GridLines(g: Grid, colCount: nat, n: nat): (lines: seq<string>)
    requires n <= |g|
    ensures |lines| == if n == 0 then 0 else n + 1
    ensures n > 0 ==> lines[0] == RowLine(g[0]) && lines[1] == Separator(colCount)
  {
    if n == 0 then []
    else GridLines(g, colCount, n - 1) + [RowLine(g[n - 1])] + (if n == 1 then [Separator(colCount)] else [])
  }

  // The rows between two empty lines.
  function TableLines(g: Grid, colCount: nat): seq<string>
  {
    [""] + GridLines(g, colCount, |g|) + [""]
  }

  function Render(g: Grid, colCount: nat): string
  {
    Join(TableLines(g, colCount), "\n")
  }

  function BlankRow(colCount: nat): string
  {
    "| " + Join(seq(colCount, j => " "), " | ") + " |"
  }

  // The output for a table without cells.
  function EmptyTableMarkdown(rowCount: nat, colCount: nat): string
    requires rowCount > 0
  {
    Join([""] + [BlankRow(colCount), Separator(colCount)] + seq(rowCount - 1, i => BlankRow(colCount)) + [""], "\n")
  }

  // convert_table_to_markdown.
  function TableMarkdown(t: Table): string
  {
    var rowCount, colCount := t.rowCount as nat, t.colCount as nat;
    if rowCount == 0 || colCount == 0 then "\n\n[Table: " + Decimal(rowCount) + "x" + Decimal(colCount) + "]\n\n"
    else if |t.cells| == 0 then EmptyTableMarkdown(rowCount, colCount)
    else Render(Layout(EmptyGrid(rowCount, colCount), Placements(t), rowCount, colCount), colCount)
  }

  // The same with the cells of the same-row branch in their original order.
  function TableMarkdownCorrected(t: Table): string
  {
    var rowCount, colCount := t.rowCount as nat, t.colCount as nat;
    if rowCount == 0 || colCount == 0 then "\n\n[Table: " + Decimal(rowCount) + "x" + Decimal(colCount) + "]\n\n"
    else if |t.cells| == 0 then EmptyTableMarkdown(rowCount, colCount)
    else Render(Layout(EmptyGrid(rowCount, colCount), PlacementsCorrected(t), rowCount, colCount), colCount)
  }

  // ---------------------------------------------------------------------
  // convert_table_to_markdown, with its grid and its loops.

  method ConvertTableToMarkdown(t: Table) returns (md: string)
    ensures md == TableMarkdown(t)
  {
    var rowCount, colCount := t.rowCount as nat, t.colCount as nat;
    if rowCount == 0 || colCount == 0 {
      return "\n\n[Table: " + Decimal(rowCount) + "x" + Decimal(colCount) + "]\n\n";
    }
    if |t.cells| == 0 {
      md := EmptyCellsMarkdown(rowCount, colCount);
      return;
    }
    var grid := new Option<string>[rowCount, colCount]((i, j) => None);
    assert Contents(grid) == EmptyGrid(rowCount, colCount) by {
      SameContents(grid, EmptyGrid(rowCount, colCount));
    }
    var minRow, minCol := MinOf(RowAddresses(t.cells)), MinOf(ColAddresses(t.cells));
    if AllSameRow(t.cells, minRow) {
      var sorted := SortByKey(t.cells, RowColKey);
      FillSameRow(grid, sorted, minCol);
    } else {
      FillByAddress(grid, t.cells, minRow, minCol);
    }
    md := RenderGrid(grid);
  }

  // The output for a table without cells, with its loop over the rows
  // after the first.
  method EmptyCellsMarkdown(rowCount: nat, colCount: nat) returns (md: string)
    requires rowCount > 0
    ensures md == EmptyTableMarkdown(rowCount, colCount)
  {
    var emptyRow := seq(colCount, j => " ");
    var lines := ["", "| " + Join(emptyRow, " | ") + " |", Separator(colCount)];
    for k := 1 to rowCount
      invariant lines == [""] + [BlankRow(colCount), Separator(colCount)] + seq(k - 1, i => BlankRow(colCount))
    {
      lines := lines + ["| " + Join(emptyRow, " | ") + " |"];
    }
    lines := lines + [""];
    md := Join(lines, "\n");
  }

  // The same-row branch: the row index and the previous column address
  // carried from cell to cell.
  method FillSameRow(grid: array2<Option<string>>, sorted: seq<Cell>, minCol: nat)
    requires grid.Length0 > 0
    modifies grid
    ensures Contents(grid) ==
      Layout(old(Contents(grid)), SameRowPlacements(sorted, minCol, grid.Length0, grid.Length1, 0, 0xFFFF),
        grid.Length0, grid.Length1)
  {
    var rowCount, colCount := grid.Length0, grid.Length1;
    ghost var goal := Layout(old(Contents(grid)), SameRowPlacements(sorted, minCol, rowCount, colCount, 0, 0xFFFF),
      rowCount, colCount);
    var rowIndex: nat, lastCol: nat := 0, 0xFFFF;
    for k := 0 to |sorted|
      invariant rowIndex < rowCount
      invariant Layout(Contents(grid), SameRowPlacements(sorted[k..], minCol, rowCount, colCount, rowIndex, lastCol),
        rowCount, colCount) == goal
    {
      var cell := sorted[k];
      ghost var g := Contents(grid);
      ghost var oldRow, oldLast := rowIndex, lastCol;
      var col := SatSub(cell.colAddress as nat, minCol);
      if cell.colAddress as nat <= lastCol && lastCol != 0xFFFF {
        rowIndex := rowIndex + 1;
        if rowIndex >= rowCount {
          rowIndex := rowCount - 1;
        }
      }
      lastCol := cell.colAddress as nat;
      assert sorted[k..][0] == cell && sorted[k..][1..] == sorted[k + 1..];
      SameRowStep(sorted[k..], minCol, rowCount, colCount, oldRow, oldLast, rowIndex, col);
      ghost var after := SameRowPlacements(sorted[k + 1..], minCol, rowCount, colCount, rowIndex, lastCol);
      if col < colCount {
        FillCellContent(grid, cell, rowIndex, col, rowCount, colCount);
        LayoutCons(g, Placement(cell, rowIndex, col), after, rowCount, colCount);
      }
    }
  }

  // The other branch: each cell at its relative addresses.
  method FillByAddress(grid: array2<Option<string>>, cells: seq<Cell>, minRow: nat, minCol: nat)
    modifies grid
    ensures Contents(grid) ==
      Layout(old(Contents(grid)), AddressPlacements(cells, minRow, minCol, grid.Length0, grid.Length1),
        grid.Length0, grid.Length1)
  {
    var rowCount, colCount := grid.Length0, grid.Length1;
    ghost var goal := Layout(old(Contents(grid)), AddressPlacements(cells, minRow, minCol, rowCount, colCount),
      rowCount, colCount);
    for k := 0 to |cells|
      invariant Layout(Contents(grid), AddressPlacements(cells[k..], minRow, minCol, rowCount, colCount),
        rowCount, colCount) == goal
    {
      var cell := cells[k];
      ghost var g := Contents(grid);
      var row := SatSub(cell.rowAddress as nat, minRow);
      var col := SatSub(cell.colAddress as nat, minCol);
      assert cells[k..][0] == cell && cells[k..][1..] == cells[k + 1..];
      AddressStep(cells[k..], minRow, minCol, rowCount, colCount, row, col);
      ghost var after := AddressPlacements(cells[k + 1..], minRow, minCol, rowCount, colCount);
      if row < rowCount && col < colCount {
        FillCellContent(grid, cell, row, col, rowCount, colCount);
        LayoutCons(g, Placement(cell, row, col), after, rowCount, colCount);
      }
    }
  }

  // One step of the walk by address.
  lemma AddressStep(cells: seq<Cell>, minRow: nat, minCol: nat, rowCount: nat, colCount: nat, row: nat, col: nat)
    requires |cells| > 0
    requires row == SatSub(cells[0].rowAddress as nat, minRow) && col == SatSub(cells[0].colAddress as nat, minCol)
    ensures row < rowCount && col < colCount ==> (AddressPlacements(cells, minRow, minCol, rowCount, colCount) ==
      [Placement(cells[0], row, col)] + AddressPlacements(cells[1..], minRow, minCol, rowCount, colCount))
    ensures !(row < rowCount && col < colCount) ==> (AddressPlacements(cells, minRow, minCol, rowCount, colCount) ==
      AddressPlacements(cells[1..], minRow, minCol, rowCount, colCount))
  {
  }

  lemma LayoutCons(g: Grid, p: Placement, ps: seq<Placement>, rowCount: nat, colCount: nat)
    requires IsGrid(g, rowCount, colCount) && p.row < rowCount && p.col < colCount && InBounds(ps, rowCount, colCount)
    ensures InBounds([p] + ps, rowCount, colCount)
    ensures Layout(g, [p] + ps, rowCount, colCount) ==
      Layout(Fill(g, p.row, p.col, CellContent(CellParts(p.cell.records)), p.cell.rowSpan as nat, p.cell.colSpan as nat,
        rowCount, colCount), ps, rowCount, colCount)
  {
    assert ([p] + ps)[0] == p && ([p] + ps)[1..] == ps;
  }

  // The output lines: the rows in order, the separator after the first.
  method RenderGrid(grid: array2<Option<string>>) returns (md: string)
    requires grid.Length0 > 0
    ensures md == Render(Contents(grid), grid.Length1)
  {
    var rowCount, colCount := grid.Length0, grid.Length1;
    ghost var g := Contents(grid);
    var lines: seq<string> := [""];
    for r := 0 to rowCount
      invariant lines == [""] + GridLines(g, colCount, r)
    {
      var line := RowText(grid, r);
      assert GridLines(g, colCount, r + 1) ==
        GridLines(g, colCount, r) + [RowLine(g[r])] + (if r == 0 then [Separator(colCount)] else []);
      lines := lines + [line];
      if r == 0 {
        lines := lines + [Separator(colCount)];
      }
    }
    assert TableLines(g, colCount) == lines + [""];
    lines := lines + [""];
    md := Join(lines, "\n");
  }

  // One row of the grid as a Markdown line.
  method RowText(grid: array2<Option<string>>, r: nat) returns (line: string)
    requires r < grid.Length0
    ensures line == RowLine(Contents(grid)[r])
  {
    ghost var row := Contents(grid)[r];
    var rowData := seq(grid.Length1, j requires 0 <= j < grid.Length1 reads grid => CellText(grid[r, j]));
    assert rowData == seq(|row|, j requires 0 <= j < |row| => CellText(row[j]));
    line := "| " + Join(rowData, " | ") + " |";
  }

  // ---------------------------------------------------------------------
  // What the output looks like.

  // A table without cells prints as a grid where no cell was placed.
  lemma EmptyCellsAsGrid(t: Table)
    requires t.rowCount > 0 && t.colCount > 0 && |t.cells| == 0
    ensures TableMarkdown(t) == Render(EmptyGrid(t.rowCount as nat, t.colCount as nat), t.colCount as nat)
  {
    var rowCount, colCount := t.rowCount as nat, t.colCount as nat;
    var g := EmptyGrid(rowCount, colCount);
    EmptyGridLines(g, colCount, rowCount);
    assert TableLines(g, colCount) ==
      [""] + [BlankRow(colCount), Separator(colCount)] + seq(rowCount - 1, i => BlankRow(colCount)) + [""];
  }

  lemma {:induction false} EmptyGridLines(g: Grid, colCount: nat, n: nat)
    requires g == EmptyGrid(|g|, colCount) && 0 < n <= |g|
    ensures GridLines(g, colCount, n) == [BlankRow(colCount), Separator(colCount)] + seq(n - 1, i => BlankRow(colCount))
  {
    assert seq(|g[n - 1]|, j requires 0 <= j < |g[n - 1]| => CellText(g[n - 1][j])) == seq(colCount, j => " ");
    if n > 1 {
      EmptyGridLines(g, colCount, n - 1);
      assert seq(n - 2, i => BlankRow(colCount)) + [BlankRow(colCount)] == seq(n - 1, i => BlankRow(colCount));
    }
  }

  predicate OneLine(s: string) { '\n' !in s }

  predicate GridOneLine(g: Grid)
  {
    forall r, c :: 0 <= r < |g| && 0 <= c < |g[r]| && g[r][c].Some? ==> OneLine(g[r][c].value)
  }

  predicate RecordOneLine(rec: CellRecord)
  {
    match rec
    case ParaText(text) => OneLine(text)
    case Picture(m) => m.Some? ==> OneLine(m.value)
    case OtherRecord => true
  }

  predicate CellOneLine(cell: Cell)
  {
    forall k :: 0 <= k < |cell.records| ==> RecordOneLine(cell.records[k])
  }

  lemma {:induction false} JoinOneLine(parts: seq<string>, sep: string)
    requires OneLine(sep) && forall k :: 0 <= k < |parts| ==> OneLine(parts[k])
    ensures OneLine(Join(parts, sep))
  {
    if |parts| > 1 {
      JoinOneLine(parts[1..], sep);
    }
  }

  lemma {:induction false} ReplaceOneLine(s: string, c: char, repl: string)
    requires OneLine(s) && OneLine(repl)
    ensures OneLine(ReplaceChar(s, c, repl))
  {
    if |s| > 0 {
      ReplaceOneLine(s[1..], c, repl);
    }
  }

  lemma TrimOneLine(s: string)
    requires OneLine(s)
    ensures OneLine(Trim(s))
  {
    var t := TrimStart(s);
    forall i | 0 <= i < |t|
      ensures t[i] != '\n'
    {
      assert t[i] == s[|s| - |t| + i];
    }
    var u := TrimEnd(t);
    forall i | 0 <= i < |u|
      ensures u[i] != '\n'
    {
      assert u[i] == t[i];
    }
  }

  lemma {:induction false} CellPartsOneLine(records: seq<CellRecord>)
    requires forall k :: 0 <= k < |records| ==> RecordOneLine(records[k])
    ensures forall k :: 0 <= k < |CellParts(records)| ==> OneLine(CellParts(records)[k])
  {
    if |records| > 0 {
      CellPartsOneLine(records[..|records| - 1]);
      var rec := records[|records| - 1];
      if rec.ParaText? {
        TrimOneLine(rec.text);
      }
    }
  }

  // A cell whose records hold no line break gets a one-line content.
  lemma CellContentOneLine(cell: Cell)
    requires CellOneLine(cell)
    ensures OneLine(CellContent(CellParts(cell.records)))
  {
    var parts := CellParts(cell.records);
    CellPartsOneLine(cell.records);
    JoinOneLine(parts, " ");
    ReplaceOneLine(Join(parts, " "), '|', EscapedPipe);
  }

  lemma {:induction false} LayoutOneLine(g: Grid, ps: seq<Placement>, rowCount: nat, colCount: nat)
    requires IsGrid(g, rowCount, colCount) && InBounds(ps, rowCount, colCount) && GridOneLine(g)
    requires forall i :: 0 <= i < |ps| ==> CellOneLine(ps[i].cell)
    ensures GridOneLine(Layout(g, ps, rowCount, colCount))
    decreases |ps|
  {
    if |ps| > 0 {
      var p := ps[0];
      CellContentOneLine(p.cell);
      var f := Fill(g, p.row, p.col, CellContent(CellParts(p.cell.records)), p.cell.rowSpan as nat, p.cell.colSpan as nat,
        rowCount, colCount);
      assert GridOneLine(f);
      LayoutOneLine(f, ps[1..], rowCount, colCount);
    }
  }

  lemma {:induction false} GridLinesOneLine(g: Grid, colCount: nat, n: nat)
    requires n <= |g| && GridOneLine(g)
    ensures forall k :: 0 <= k < |GridLines(g, colCount, n)| ==> OneLine(GridLines(g, colCount, n)[k])
  {
    if n > 0 {
      GridLinesOneLine(g, colCount, n - 1);
      var row := g[n - 1];
      JoinOneLine(seq(|row|, j requires 0 <= j < |row| => CellText(row[j])), " | ");
      JoinOneLine(seq(colCount, j => "---"), "|");
    }
  }

  // Without line breaks in the cells, the output's lines are exactly the
  // empty line, the first row, the separator, the other rows and the
  // empty line.
  lemma RenderLines(g: Grid, colCount: nat)
    requires |g| > 0 && GridOneLine(g)
    ensures Split(Render(g, colCount), '\n') == TableLines(g, colCount)
    ensures |TableLines(g, colCount)| == |g| + 3
  {
    GridLinesOneLine(g, colCount, |g|);
    SplitJoin(TableLines(g, colCount), '\n');
  }

  // The shape of the Markdown of a table with rows and columns whose cells
  // hold no line break: row_count + 3 lines, the separator third and an
  // empty line first and last.
  lemma TableLinesShape(t: Table)
    requires t.rowCount > 0 && t.colCount > 0
    requires forall k :: 0 <= k < |t.cells| ==> CellOneLine(t.cells[k])
    ensures |Split(TableMarkdown(t), '\n')| == t.rowCount as nat + 3
    ensures Split(TableMarkdown(t), '\n')[0] == "" && Split(TableMarkdown(t), '\n')[t.rowCount as nat + 2] == ""
    ensures Split(TableMarkdown(t), '\n')[2] == Separator(t.colCount as nat)
  {
    var rowCount, colCount := t.rowCount as nat, t.colCount as nat;
    var g := if |t.cells| == 0 then EmptyGrid(rowCount, colCount)
      else Layout(EmptyGrid(rowCount, colCount), Placements(t), rowCount, colCount);
    assert TableMarkdown(t) == Render(g, colCount) && GridOneLine(g) by {
      if |t.cells| == 0 {
        EmptyCellsAsGrid(t);
      } else {
        PlacedOneLine(t);
      }
    }
    RenderLines(g, colCount);
    assert TableLines(g, colCount)[2] == GridLines(g, colCount, |g|)[1];
  }

  lemma PlacedOneLine(t: Table)
    requires t.rowCount > 0 && t.colCount > 0 && |t.cells| > 0
    requires forall k :: 0 <= k < |t.cells| ==> CellOneLine(t.cells[k])
    ensures GridOneLine(Layout(EmptyGrid(t.rowCount as nat, t.colCount as nat), Placements(t),
      t.rowCount as nat, t.colCount as nat))
  {
    var ps := Placements(t);
    forall i | 0 <= i < |ps|
      ensures CellOneLine(ps[i].cell)
    {
      var k :| 0 <= k < |t.cells| && t.cells[k] == ps[i].cell;
    }
    LayoutOneLine(EmptyGrid(t.rowCount as nat, t.colCount as nat), ps, t.rowCount as nat, t.colCount as nat);
  }

  // ---------------------------------------------------------------------
  // The same-row branch walks the sorted cells.

  // Four single cells in one row address with columns 0, 1, 0, 1, meant
  // as a 2 x 2 table: sorting by column puts both column-0 cells first,
  // so the second row gets the cells at 0 and 1 and the last one is lost,
  // while the first row's second position stays empty. In their original
  // order they fill the grid row by row.
  lemma SortedSameRowLosesCell(t: Table, a: Cell, b: Cell, c: Cell, d: Cell)
    requires a.rowAddress == 0 && b.rowAddress == 0 && c.rowAddress == 0 && d.rowAddress == 0
    requires a.colAddress == 0 && b.colAddress == 1 && c.colAddress == 0 && d.colAddress == 1
    requires a.rowSpan == 1 && b.rowSpan == 1 && c.rowSpan == 1 && d.rowSpan == 1
    requires a.colSpan == 1 && b.colSpan == 1 && c.colSpan == 1 && d.colSpan == 1
    requires t == Table(2, 2, [a, b, c, d])
    ensures Placements(t) == [Placement(a, 0, 0), Placement(c, 1, 0), Placement(b, 1, 1), Placement(d, 1, 1)]
    ensures Layout(EmptyGrid(2, 2), Placements(t), 2, 2)[0][1] == None
    ensures PlacementsCorrected(t) == [Placement(a, 0, 0), Placement(b, 0, 1), Placement(c, 1, 0), Placement(d, 1, 1)]
    ensures Layout(EmptyGrid(2, 2), PlacementsCorrected(t), 2, 2)[0][1] == Some(CellContent(CellParts(b.records)))
  {
    FourCells(t, a, b, c, d);
    SameRowSorted(a, c, b, d);
    SameRowInOrder(a, b, c, d);
    EmptyGridAt(2, 2, 0, 1);
    TopRightUntouched(EmptyGrid(2, 2), Placements(t), a, b, c, d);
    SecondShows(EmptyGrid(2, 2), PlacementsCorrected(t), 2, 2);
  }

  lemma TopRightUntouched(g: Grid, ps: seq<Placement>, a: Cell, b: Cell, c: Cell, d: Cell)
    requires IsGrid(g, 2, 2) && g[0][1].None?
    requires a.rowSpan == 1 && b.rowSpan == 1 && c.rowSpan == 1 && d.rowSpan == 1
    requires a.colSpan == 1 && b.colSpan == 1 && c.colSpan == 1 && d.colSpan == 1
    requires ps == [Placement(a, 0, 0), Placement(c, 1, 0), Placement(b, 1, 1), Placement(d, 1, 1)]
    ensures InBounds(ps, 2, 2) && Layout(g, ps, 2, 2)[0][1] == None
  {
    OnlyOwnPosition(g, ps, 2, 2, 0, 1);
  }

  lemma EmptyGridAt(rowCount: nat, colCount: nat, r: nat, c: nat)
    requires r < rowCount && c < colCount
    ensures EmptyGrid(rowCount, colCount)[r][c] == None
  {
  }

  // With a single first cell elsewhere, the second placement on a free
  // position shows its content there in the end.
  lemma SecondShows(g: Grid, qs: seq<Placement>, rowCount: nat, colCount: nat)
    requires IsGrid(g, rowCount, colCount) && InBounds(qs, rowCount, colCount) && |qs| >= 2
    requires qs[0].cell.rowSpan == 1 && qs[0].cell.colSpan == 1 && (qs[0].row, qs[0].col) != (qs[1].row, qs[1].col)
    requires g[qs[1].row][qs[1].col].None?
    ensures Layout(g, qs, rowCount, colCount)[qs[1].row][qs[1].col] == Some(CellContent(CellParts(qs[1].cell.records)))
  {
    var p, q := qs[0], qs[1];
    var content := CellContent(CellParts(p.cell.records));
    var f := Fill(g, p.row, p.col, content, 1, 1, rowCount, colCount);
    assert !InSpan(q.row, q.col, p.row, p.col, 1, 1, rowCount, colCount);
    assert f[q.row][q.col] == FilledAt(g, p.row, p.col, content, 1, 1, rowCount, colCount, q.row, q.col);
    assert Layout(g, qs, rowCount, colCount) == Layout(f, qs[1..], rowCount, colCount);
    assert qs[1..] == [q] + qs[2..];
    FirstPlacementShows(f, q, qs[2..], rowCount, colCount);
  }

  lemma FourCells(t: Table, a: Cell, b: Cell, c: Cell, d: Cell)
    requires a.rowAddress == 0 && b.rowAddress == 0 && c.rowAddress == 0 && d.rowAddress == 0
    requires a.colAddress == 0 && b.colAddress == 1 && c.colAddress == 0 && d.colAddress == 1
    requires t == Table(2, 2, [a, b, c, d])
    ensures MinOf(RowAddresses(t.cells)) == 0 && MinOf(ColAddresses(t.cells)) == 0 && AllSameRow(t.cells, 0)
    ensures SortByKey(t.cells, RowColKey) == [a, c, b, d]
  {
    var cells := [a, b, c, d];
    assert RowAddresses(cells)[0] == 0 && ColAddresses(cells)[0] == 0;
    forall i | 0 <= i < |cells|
      ensures cells[i].rowAddress == 0
    {
      assert cells[i] in {a, b, c, d};
    }
    SortFour(a, b, c, d, RowColKey);
  }

  // Columns 0, 0, 1, 1, as the sort leaves them.
  lemma SameRowSorted(p: Cell, q: Cell, r: Cell, s: Cell)
    requires p.colAddress == 0 && q.colAddress == 0 && r.colAddress == 1 && s.colAddress == 1
    ensures SameRowPlacements([p, q, r, s], 0, 2, 2, 0, 0xFFFF) ==
      [Placement(p, 0, 0), Placement(q, 1, 0), Placement(r, 1, 1), Placement(s, 1, 1)]
  {
    assert [p, q, r, s][1..] == [q, r, s] && [q, r, s][1..] == [r, s] && [r, s][1..] == [s] && [s][1..] == [];
    assert SameRowPlacements([s], 0, 2, 2, 1, 1) == [Placement(s, 1, 1)];
    assert SameRowPlacements([r, s], 0, 2, 2, 1, 0) == [Placement(r, 1, 1), Placement(s, 1, 1)];
    assert SameRowPlacements([q, r, s], 0, 2, 2, 0, 0) == [Placement(q, 1, 0), Placement(r, 1, 1), Placement(s, 1, 1)];
  }

  // Columns 0, 1, 0, 1, the original order.
  lemma SameRowInOrder(p: Cell, q: Cell, r: Cell, s: Cell)
    requires p.colAddress == 0 && q.colAddress == 1 && r.colAddress == 0 && s.colAddress == 1
    ensures SameRowPlacements([p, q, r, s], 0, 2, 2, 0, 0xFFFF) ==
      [Placement(p, 0, 0), Placement(q, 0, 1), Placement(r, 1, 0), Placement(s, 1, 1)]
  {
    assert [p, q, r, s][1..] == [q, r, s] && [q, r, s][1..] == [r, s] && [r, s][1..] == [s] && [s][1..] == [];
    assert SameRowPlacements([s], 0, 2, 2, 1, 0) == [Placement(s, 1, 1)];
    assert SameRowPlacements([r, s], 0, 2, 2, 0, 1) == [Placement(r, 1, 0), Placement(s, 1, 1)];
    assert SameRowPlacements([q, r, s], 0, 2, 2, 0, 0) == [Placement(q, 0, 1), Placement(r, 1, 0), Placement(s, 1, 1)];
  }

  lemma OnlyOwnPosition(g: Grid, ps: seq<Placement>, rowCount: nat, colCount: nat, r: nat, c: nat)
    requires IsGrid(g, rowCount, colCount) && InBounds(ps, rowCount, colCount) && r < rowCount && c < colCount
    requires g[r][c].None?
    requires forall i :: 0 <= i < |ps| ==> ps[i].cell.rowSpan == 1 && ps[i].cell.colSpan == 1 && (ps[i].row, ps[i].col) != (r, c)
    ensures Layout(g, ps, rowCount, colCount)[r][c] == None
    decreases |ps|
  {
    if |ps| > 0 {
      var p := ps[0];
      var f := Fill(g, p.row, p.col, CellContent(CellParts(p.cell.records)), 1, 1, rowCount, colCount);
      assert f[r][c] == None;
      OnlyOwnPosition(f, ps[1..], rowCount, colCount, r, c);
    }
  }

  // In their original order, cells whose column addresses walk an
  // n-column grid row by row (relative to the smallest) land at the
  // positions of that walk; DivModPositions shows that cell k's position
  // is then (k / n, k % n).
  lemma RowMajorFromPositions(cells: seq<Cell>, minCol: nat, rowCount: nat, n: nat, pos: seq<(nat, nat)>)
    requires minCol + n <= 0xFFFF && 0 < rowCount && |pos| == |cells| && RowByRow(pos, n)
    requires forall k :: 0 <= k < |cells| ==> pos[k].0 < rowCount && cells[k].colAddress as nat == minCol + pos[k].1
    ensures |SameRowPlacements(cells, minCol, rowCount, n, 0, 0xFFFF)| == |cells|
    ensures forall k :: 0 <= k < |cells| ==>
      SameRowPlacements(cells, minCol, rowCount, n, 0, 0xFFFF)[k] == Placement(cells[k], pos[k].0, pos[k].1)
  {
    RowMajorWalk(cells, minCol, rowCount, n, pos, 0);
    assert cells[0..] == cells;
    var ps := SameRowPlacements(cells, minCol, rowCount, n, 0, 0xFFFF);
    assert ps == WalkFrom(cells, minCol, rowCount, n, pos, 0);
    forall k | 0 <= k < |cells|
      ensures ps[k] == Placement(cells[k], pos[k].0, pos[k].1)
    {
      assert ps[k] == PlacementAt(cells, pos, 0 + k);
    }
  }

  // The position after p in an n-column grid, row by row.
  function NextPosition(p: (nat, nat), n: nat): (nat, nat)
  {
    if p.1 + 1 == n then (p.0 + 1, 0) else (p.0, p.1 + 1)
  }

  predicate RowByRow(pos: seq<(nat, nat)>, n: nat)
  {
    (|pos| > 0 ==> pos[0] == (0, 0)) &&
    (forall k :: 0 <= k < |pos| ==> pos[k].1 < n) &&
    (forall k, l {:trigger pos[k], pos[l]} :: 0 <= k < |pos| && l == k + 1 < |pos| ==> pos[l] == NextPosition(pos[k], n))
  }

  // (k / n, k % n) runs through the grid row by row.
  lemma DivModPositions(pos: seq<(nat, nat)>, n: nat, rowCount: nat)
    requires 0 < n && |pos| <= rowCount * n
    requires forall k :: 0 <= k < |pos| ==> pos[k] == (k / n, k % n)
    ensures RowByRow(pos, n) && forall k :: 0 <= k < |pos| ==> pos[k].0 < rowCount
  {
    var len := |pos|;
    forall k, l | 0 <= k < len && l == k + 1 < len
      ensures pos[l] == NextPosition(pos[k], n)
    {
      Arithmetic.DivModStep(l, n);
    }
    forall k | 0 <= k < len
      ensures pos[k].0 < rowCount
    {
      Arithmetic.RowBound(k, n, rowCount);
    }
  }

  function PlacementAt(cells: seq<Cell>, pos: seq<(nat, nat)>, m: nat): Placement
    requires m < |cells| && m < |pos|
  {
    Placement(cells[m], pos[m].0, pos[m].1)
  }

  // The walk from cell j on, in the state that cell j - 1 left.
  function WalkFrom(cells: seq<Cell>, minCol: nat, rowCount: nat, n: nat, pos: seq<(nat, nat)>, j: nat): seq<Placement>
    requires |pos| == |cells| && j <= |cells| && 0 < rowCount
    requires forall k :: 0 <= k < |cells| ==> pos[k].0 < rowCount
  {
    SameRowPlacements(cells[j..], minCol, rowCount, n,
      if j == 0 then 0 else pos[j - 1].0, if j == 0 then 0xFFFF else minCol + pos[j - 1].1)
  }

  lemma {:induction false} RowMajorWalk(cells: seq<Cell>, minCol: nat, rowCount: nat, n: nat, pos: seq<(nat, nat)>, j: nat)
    requires minCol + n <= 0xFFFF && |pos| == |cells| && j <= |cells| && RowByRow(pos, n)
    requires forall k :: 0 <= k < |cells| ==> pos[k].0 < rowCount && cells[k].colAddress as nat == minCol + pos[k].1
    requires 0 < rowCount
    ensures |WalkFrom(cells, minCol, rowCount, n, pos, j)| == |cells| - j
    ensures forall i :: 0 <= i < |cells| - j ==> WalkFrom(cells, minCol, rowCount, n, pos, j)[i] == PlacementAt(cells, pos, j + i)
    decreases |cells| - j
  {
    if j < |cells| {
      var ps := WalkFrom(cells, minCol, rowCount, n, pos, j);
      var rest := WalkFrom(cells, minCol, rowCount, n, pos, j + 1);
      WalkStep(cells, minCol, rowCount, n, pos, j);
      RowMajorWalk(cells, minCol, rowCount, n, pos, j + 1);
      forall i | 0 <= i < |ps|
        ensures ps[i] == PlacementAt(cells, pos, j + i)
      {
        if i > 0 {
          assert ps[i] == rest[i - 1];
        }
      }
    }
  }

  // One cell of the walk lands at its position and leaves its row and
  // column as the state.
  lemma WalkStep(cells: seq<Cell>, minCol: nat, rowCount: nat, n: nat, pos: seq<(nat, nat)>, j: nat)
    requires minCol + n <= 0xFFFF && |pos| == |cells| && j < |cells| && RowByRow(pos, n)
    requires forall k :: 0 <= k < |cells| ==> pos[k].0 < rowCount && cells[k].colAddress as nat == minCol + pos[k].1
    ensures WalkFrom(cells, minCol, rowCount, n, pos, j) == [PlacementAt(cells, pos, j)] + WalkFrom(cells, minCol, rowCount, n, pos, j + 1)
  {
    assert cells[j..][0] == cells[j] && cells[j..][1..] == cells[j + 1..];
    if j > 0 {
      assert pos[j] == NextPosition(pos[j - 1], n);
    }
  }
}
