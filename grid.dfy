/**
 * The part of the spreadsheet document model (Apache POI's `Sheet`, `Row`,
 * `Cell`, `Hyperlink`, `CellRangeAddress`) that the template engine calls
 * into. A sheet is a sequence of optional rows, indexed from 0, and a list of
 * merged regions. Cell styles, comments, rich text, formulas and error codes
 * are opaque payload that is only ever copied.
 */
module Grid {
  import opened Outcomes
  import opened Values

  datatype LinkType = Url | Document | Email | File

  datatype Hyperlink = Hyperlink(kind: LinkType, address: string, linkLabel: string)

  /** A cell's type together with its value. */
  datatype Content =
    | Blank
    | StringCell(text: string)
    | BooleanCell(flag: bool)
    | ErrorCell(code: int)
    | FormulaCell(formula: string)
    | NumericCell(number: Decimal)

  /** Style and comment of a cell: copied verbatim, never inspected. */
  datatype Decoration = Decoration(style: nat, comment: Option<string>)

  datatype Cell = Cell(content: Content, link: Option<Hyperlink>, decoration: Decoration)

  /** A row maps column indexes to the cells that exist in it. */
  type Row = map<nat, Cell>

  /** Rows by row index; `None` is a row `getRow` returns null for. */
  type Rows = seq<Option<Row>>

  /** A `CellRangeAddress`: rows firstRow..lastRow, columns firstColumn..lastColumn. */
  datatype Region = Region(firstRow: int, lastRow: int, firstColumn: nat, lastColumn: nat)

  /**
   * A row of a block template as the engine captured it: the index it was
   * read from and what `getRow` returned there.
   */
  datatype TemplateRow = TemplateRow(index: int, row: Option<Row>)

  /** `Sheet.getRow(i)`: null outside the stored rows. */
  function RowAt(rows: Rows, i: int): Option<Row> {
    if 0 <= i < |rows| then rows[i] else None
  }

  /** A row holding only the text `text` in column 0. */
  function TextRow(text: string): Option<Row> {
    Some(map[0 := Cell(StringCell(text), None, Decoration(0, None))])
  }

  /** The last stored row exists, so `getLastRowNum()` is `|rows| - 1`. */
  predicate Trimmed(rows: Rows) {
    rows == [] || rows[|rows| - 1].Some?
  }

  /** Drops trailing absent rows. */
  function Trim(rows: Rows): (r: Rows)
    ensures Trimmed(r) && r <= rows
    ensures forall i :: |r| <= i < |rows| ==> rows[i].None?
  {
    if rows == [] || rows[|rows| - 1].Some? then rows else Trim(rows[..|rows| - 1])
  }

  /** The index of the first present row at or after `from`, or -1. */
  function FirstPresent(rows: Rows, from: nat): (i: int)
    requires from <= |rows|
    decreases |rows| - from
    ensures i == -1 || (from <= i < |rows| && rows[i].Some?)
    ensures forall k :: from <= k < |rows| && (i == -1 || k < i) ==> rows[k].None?
  {
    if from == |rows| then -1
    else if rows[from].Some? then from
    else FirstPresent(rows, from + 1)
  }

  /** Room for one row at `at`: rows from `at` on move down by one. */
  function InsertGap(rows: Rows, at: nat): Rows
    requires at <= |rows|
  {
    rows[..at] + [None] + rows[at..]
  }

  /** Stores `r` at index `at`, padding with absent rows when `at` lies past the end. */
  function PutRow(rows: Rows, at: nat, r: Option<Row>): (s: Rows)
    ensures |s| == if at < |rows| then |rows| else at + 1
    ensures s[at] == r
    ensures forall i :: 0 <= i < |s| && i != at ==> s[i] == RowAt(rows, i)
  {
    if at < |rows| then rows[at := r] else rows + seq(at - |rows|, _ => None) + [r]
  }

  /** A merged region moved `n` rows down (up for negative `n`), keeping its columns. */
  function Moved(g: Region, n: int): Region {
    Region(g.firstRow + n, g.lastRow + n, g.firstColumn, g.lastColumn)
  }

  /** How `shiftRows(start, end, n)` moves one merged region: only regions inside the moved rows move. */
  function ShiftRegion(g: Region, start: int, end: int, n: int): Region {
    if start <= g.firstRow && g.lastRow <= end
    then Moved(g, n)
    else g
  }

  function ShiftRegions(gs: seq<Region>, start: int, end: int, n: int): (hs: seq<Region>)
    ensures |hs| == |gs|
    ensures forall k :: 0 <= k < |gs| ==> hs[k] == ShiftRegion(gs[k], start, end, n)
  {
    seq(|gs|, k requires 0 <= k < |gs| => ShiftRegion(gs[k], start, end, n))
  }

  /** A region anchored above `start` is never moved by a shift of the rows from `start` on. */
  lemma ShiftKeepsRegionsAbove(gs: seq<Region>, start: int, end: int, n: int, g: Region)
    requires g in gs && g.firstRow < start
    ensures g in ShiftRegions(gs, start, end, n)
  {
    var k :| 0 <= k < |gs| && gs[k] == g;
    assert ShiftRegions(gs, start, end, n)[k] == g;
  }

  /** Every region a shift produces with its first row above `start` was there before. */
  lemma ShiftAddsNoRegionAbove(gs: seq<Region>, start: int, end: int, n: int, h: Region)
    requires n >= 0 && h in ShiftRegions(gs, start, end, n) && h.firstRow < start
    ensures h in gs
  {
    var hs := ShiftRegions(gs, start, end, n);
    var k :| 0 <= k < |hs| && hs[k] == h;
    assert hs[k] == ShiftRegion(gs[k], start, end, n);
  }

  /** One POI sheet: the rows it stores and its merged regions. */
  class Sheet {
    var rows: Rows
    var merged: seq<Region>

    ghost predicate Valid()
      reads this
    {
      Trimmed(rows)
    }

    constructor (rows: Rows, merged: seq<Region>)
      requires Trimmed(rows)
      ensures Valid() && this.rows == rows && this.merged == merged
    {
      this.rows := rows;
      this.merged := merged;
    }

    /** `getRow(i)`. */
    function GetRow(i: int): Option<Row>
      reads this
    {
      RowAt(rows, i)
    }

    /** `getLastRowNum()`: -1 for a sheet without rows. */
    function LastRowNum(): int
      reads this
    {
      |rows| - 1
    }

    /** `getFirstRowNum()`: -1 for a sheet without rows. */
    function FirstRowNum(): (i: int)
      reads this
      ensures i == -1 || (0 <= i < |rows| && rows[i].Some?)
    {
      FirstPresent(rows, 0)
    }

    /** `shiftRows(start, getLastRowNum(), 1)`. */
    method ShiftRowsDown(start: nat)
      requires Valid() && start <= LastRowNum()
      modifies this
      ensures Valid()
      ensures rows == InsertGap(old(rows), start)
      ensures merged == ShiftRegions(old(merged), start, old(LastRowNum()), 1)
    {
      merged := ShiftRegions(merged, start, LastRowNum(), 1);
      rows := InsertGap(rows, start);
    }

    /** `shiftRows(start, getLastRowNum(), -n)`: the rows from `start` on move up over the `n` rows above them. */
    method ShiftRowsUp(start: nat, n: nat)
      requires Valid() && n <= start <= LastRowNum()
      modifies this
      ensures Valid()
      ensures rows == old(rows)[..start - n] + old(rows)[start..]
      ensures merged == ShiftRegions(old(merged), start, old(LastRowNum()), -(n as int))
    {
      merged := ShiftRegions(merged, start, LastRowNum(), -(n as int));
      rows := rows[..start - n] + rows[start..];
    }

    /** `createRow(i)`: a new empty row at `i`, replacing any row stored there. */
    method CreateRow(i: nat)
      requires Valid()
      modifies this
      ensures Valid()
      ensures rows == PutRow(old(rows), i, Some(map[])) && merged == old(merged)
    {
      rows := PutRow(rows, i, Some(map[]));
    }

    /** `createCell(c)` or a setter on an existing cell of row `r`. */
    method SetCell(r: nat, c: nat, cell: Cell)
      requires Valid() && GetRow(r).Some?
      modifies this
      ensures Valid()
      ensures rows == old(rows)[r := Some(old(rows)[r].value[c := cell])] && merged == old(merged)
    {
      rows := rows[r := Some(rows[r].value[c := cell])];
    }

    /** `removeRow(getRow(i))`. */
    method RemoveRow(i: nat)
      requires Valid() && i < |rows|
      modifies this
      ensures Valid()
      ensures rows == Trim(old(rows)[i := None]) && merged == old(merged)
    {
      rows := Trim(rows[i := None]);
    }

    /** `addMergedRegion(g)`. */
    method AddMergedRegion(g: Region)
      modifies this
      ensures rows == old(rows) && merged == old(merged) + [g]
    {
      merged := merged + [g];
    }

    /** `removeMergedRegion(k)`. */
    method RemoveMergedRegion(k: nat)
      requires k < |merged|
      modifies this
      ensures rows == old(rows) && merged == old(merged)[..k] + old(merged)[k + 1..]
    {
      merged := merged[..k] + merged[k + 1..];
    }
  }
}
