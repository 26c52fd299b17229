/**
 * The template engine `ExcelGeneratorImpl`: it walks each sheet of a
 * workbook row by row, fills `#key#` placeholders from the parameters,
 * expands `#TABLE…` and `#RANGE…` blocks into one replica of their template
 * rows per data record, and finally deletes the template rows.
 *
 * Each method changes the `Sheet` it is given in place, as the source does,
 * and is proved against the functions of `Replication`, `Expansion` and
 * `RangeTemplates`.
 */
module ExcelGenerator {
  import opened Outcomes
  import opened Grid
  import opened Markers
  import opened Placeholders
  import opened Replication
  import opened ExcelDto
  import opened Expansion
  import opened RangeTemplates
  import opened NestedSlots

  /**
   * Why an expansion stopped. The first two are exceptions the source throws:
   * `substring(1, 0)` on a bare "#" placeholder and `removeRow(null)` on an
   * absent template row. The other two are the bounds the model puts on block
   * nesting and on the number of rows the driver visits.
   */
  datatype Failure = PlaceholderTooShort(row: int) | NullRowRemoved(row: int) | OutOfFuel | OutOfSteps

  function Snap(sheet: Sheet): Snapshot
    reads sheet
  {
    Snapshot(sheet.rows, sheet.merged)
  }

  function Segs(t: ExcelTemplateTableRows): Segments
    reads t
  {
    Segments(t.header, t.body, t.bodyFooter, t.footer)
  }

  // ---------------------------------------------------------------------------
  // Copying rows

  /**
   * The regions of the live list anchored at `srcIndex`, re-added anchored at
   * `dest` (ExcelGeneratorImpl.java:621-629 and 766-773).
   */
  method AddAnchoredCopies(sheet: Sheet, srcIndex: int, dest: nat)
    modifies sheet
    ensures sheet.rows == old(sheet.rows)
    ensures sheet.merged == old(sheet.merged) + AnchoredAt(old(sheet.merged), srcIndex, dest)
  {
    var regions := sheet.merged;
    var k := 0;
    while k < |regions|
      invariant 0 <= k <= |regions|
      invariant sheet.rows == old(sheet.rows)
      invariant sheet.merged == regions + AnchoredAt(regions[..k], srcIndex, dest)
    {
      assert regions[..k + 1][..k] == regions[..k];
      if regions[k].firstRow == srcIndex {
        sheet.AddMergedRegion(Reanchor(regions[k], dest));
      }
      k := k + 1;
    }
    assert regions[..|regions|] == regions;
  }

  /** The cells of `src` in the columns `done`, as `copyRow` re-creates them. */
  function CellsCopied(src: Row, done: set<nat>): (m: Row)
    requires done <= src.Keys
    ensures m.Keys == done
  {
    map c | c in done :: CopyCell(src[c])
  }

  lemma CellsCopiedStep(src: Row, done: set<nat>, c: nat)
    requires done <= src.Keys && c in src
    ensures CellsCopied(src, done)[c := CopyCell(src[c])] == CellsCopied(src, done + {c})
  {
  }

  lemma CellsCopiedAll(src: Row)
    ensures CellsCopied(src, src.Keys) == CopyCells(src)
  {
  }

  lemma PlaceRowUpdate(rows: Rows, dest: nat, r: Row, c: nat, cell: Cell)
    ensures RowAt(PlaceRow(rows, dest, r), dest) == Some(r)
    ensures PlaceRow(rows, dest, r)[dest := Some(r[c := cell])] == PlaceRow(rows, dest, r[c := cell])
  {
  }

  /** What `copyRow` does to the region list before copying any region. */
  function ShiftedFor(s: Snapshot, dest: nat): seq<Region> {
    if RowAt(s.rows, dest).Some? then ShiftRegions(s.merged, dest, |s.rows| - 1, 1) else s.merged
  }

  /** The new, empty row of `copyRow` (ExcelGeneratorImpl.java:559-573). */
  method MakeRoom(sheet: Sheet, dest: nat)
    requires sheet.Valid()
    modifies sheet
    ensures sheet.Valid()
    ensures sheet.rows == PlaceRow(old(sheet.rows), dest, map[])
    ensures sheet.merged == ShiftedFor(old(Snap(sheet)), dest)
  {
    if sheet.GetRow(dest).Some? {
      sheet.ShiftRowsDown(dest);
      sheet.CreateRow(dest);
    } else {
      sheet.CreateRow(dest);
    }
  }

  /** `copyRow(sheet, sourceRow, destinationRowNum, copyMergedRanges)`. */
  method CopyRow(sheet: Sheet, src: Row, srcIndex: int, dest: nat, copyMerged: bool)
    requires sheet.Valid()
    modifies sheet
    ensures sheet.Valid()
    ensures Snap(sheet) == CopyRowEffect(old(Snap(sheet)), src, srcIndex, dest, copyMerged)
  {
    ghost var s0 := Snap(sheet);
    MakeRoom(sheet, dest);
    CopyCellsTo(sheet, src, dest, s0.rows);
    if copyMerged {
      AddAnchoredCopies(sheet, srcIndex, dest);
    }
  }

  /** The cell loop of `copyRow` (ExcelGeneratorImpl.java:575-618): every cell of `src` is copied into the new row. */
  method CopyCellsTo(sheet: Sheet, src: Row, dest: nat, ghost rows0: Rows)
    requires sheet.Valid() && sheet.rows == PlaceRow(rows0, dest, map[])
    modifies sheet
    ensures sheet.Valid()
    ensures sheet.rows == PlaceRow(rows0, dest, CopyCells(src)) && sheet.merged == old(sheet.merged)
  {
    var todo := src.Keys;
    ghost var done: set<nat> := {};
    assert CellsCopied(src, {}) == map[];
    while todo != {}
      invariant sheet.Valid() && done + todo == src.Keys && done !! todo
      invariant sheet.rows == PlaceRow(rows0, dest, CellsCopied(src, done))
      invariant sheet.merged == old(sheet.merged)
      decreases |todo|
    {
      var c :| c in todo;
      ghost var before := sheet.rows;
      PlaceRowUpdate(rows0, dest, CellsCopied(src, done), c, CopyCell(src[c]));
      sheet.SetCell(dest, c, CopyCell(src[c]));
      CopyCellStep(rows0, dest, src, done, c, before, sheet.rows);
      MoveKey(src.Keys, done, todo, c);
      todo := todo - {c};
      done := done + {c};
    }
    CellsCopiedAll(src);
  }

  /** One step of the cell loop of `copyRow`: cell `c` joins the copied cells. */
  lemma CopyCellStep(rows0: Rows, dest: nat, src: Row, done: set<nat>, c: nat, before: Rows, after: Rows)
    requires done <= src.Keys && c in src
    requires before == PlaceRow(rows0, dest, CellsCopied(src, done))
    requires RowAt(before, dest).Some?
    requires after == before[dest := Some(before[dest].value[c := CopyCell(src[c])])]
    ensures after == PlaceRow(rows0, dest, CellsCopied(src, done + {c}))
  {
    PlaceRowUpdate(rows0, dest, CellsCopied(src, done), c, CopyCell(src[c]));
    CellsCopiedStep(src, done, c);
  }

  /** `copyRows(sheet, sourceRows, startRow)`: all cells first, then the merged regions. */
  method CopyRows(sheet: Sheet, srcs: seq<TemplateRow>, startRow: nat)
    requires sheet.Valid()
    modifies sheet
    ensures sheet.Valid()
    ensures Snap(sheet) == CopyRowsEffect(old(Snap(sheet)), srcs, startRow)
  {
    ghost var s0 := Snap(sheet);
    var dest := startRow;
    var k := 0;
    while k < |srcs|
      invariant 0 <= k <= |srcs| && sheet.Valid()
      invariant CopyAll(Snap(sheet), srcs[k..], dest) == CopyAll(s0, srcs, startRow)
    {
      assert srcs[k..][1..] == srcs[k + 1..];
      if srcs[k].row.Some? {
        CopyRow(sheet, srcs[k].row.value, srcs[k].index, dest, false);
        dest := dest + 1;
      }
      k := k + 1;
    }
    ghost var copied := Snap(sheet);
    assert copied == CopyAll(s0, srcs, startRow);
    dest := startRow;
    k := 0;
    while k < |srcs|
      invariant 0 <= k <= |srcs|
      invariant sheet.rows == copied.rows
      invariant MergeAll(sheet.merged, srcs[k..], dest) == MergeAll(copied.merged, srcs, startRow)
    {
      assert srcs[k..][1..] == srcs[k + 1..];
      if srcs[k].row.Some? {
        AddAnchoredCopies(sheet, srcs[k].index, dest);
        dest := dest + 1;
      }
      k := k + 1;
    }
  }

  // ---------------------------------------------------------------------------
  // Filling one row

  /**
   * Column 0 holds a placeholder that opens a block: `fillCells` hands the row
   * to `createRange` (checked first) or `createTable`
   * (ExcelGeneratorImpl.java:152-158).
   */
  predicate OpensBlock(row: Row) {
    0 in row && HasKey(row[0]) && (StartsWith(row[0].content.text, RANGE) || StartsWith(row[0].content.text, TABLE))
  }

  function Opener(row: Row): string
    requires OpensBlock(row)
  {
    row[0].content.text
  }

  /** Moving one key from the cells still to visit to the visited ones keeps the split. */
  lemma MoveKey(keys: set<nat>, done: set<nat>, todo: set<nat>, c: nat)
    requires done + todo == keys && done !! todo && c in todo
    ensures (done + {c}) + (todo - {c}) == keys && (done + {c}) !! (todo - {c})
    ensures |todo - {c}| < |todo|
  {
  }

  /** A row with the placeholder cells in the columns `done` filled. */
  function PartFill(row: Row, params: Params, done: set<nat>): Row
    requires forall c :: c in done && c in row && HasKey(row[c]) ==> !LonePlaceholder(row[c])
  {
    map c | c in row :: if c in done && HasKey(row[c]) then FillCell(row[c], params) else row[c]
  }

  lemma PartFillStep(row: Row, params: Params, done: set<nat>, c: nat)
    requires forall d :: d in done && d in row && HasKey(row[d]) ==> !LonePlaceholder(row[d])
    requires c in row && (HasKey(row[c]) ==> !LonePlaceholder(row[c]))
    ensures HasKey(row[c]) ==> PartFill(row, params, done)[c := FillCell(row[c], params)] == PartFill(row, params, done + {c})
    ensures !HasKey(row[c]) ==> PartFill(row, params, done) == PartFill(row, params, done + {c})
  {
  }

  /** Filling cell `c` of the row being filled extends the filled set by `c`. */
  lemma PartFillRowStep(rows0: Rows, rowNum: nat, cells: Row, params: Params, done: set<nat>, c: nat, before: Rows, after: Rows)
    requires rowNum < |rows0|
    requires forall d :: d in done && d in cells && HasKey(cells[d]) ==> !LonePlaceholder(cells[d])
    requires c in cells && HasKey(cells[c]) && !LonePlaceholder(cells[c])
    requires before == rows0[rowNum := Some(PartFill(cells, params, done))]
    requires after == before[rowNum := Some(before[rowNum].value[c := FillCell(cells[c], params)])]
    ensures after == rows0[rowNum := Some(PartFill(cells, params, done + {c}))]
  {
    PartFillStep(cells, params, done, c);
    assert rows0[rowNum := Some(PartFill(cells, params, done))][rowNum := Some(PartFill(cells, params, done + {c}))]
        == rows0[rowNum := Some(PartFill(cells, params, done + {c}))];
  }

  lemma PartFillNone(rows: Rows, rowNum: int, row: Row, params: Params)
    requires RowAt(rows, rowNum) == Some(row)
    ensures rows[rowNum := Some(PartFill(row, params, {}))] == rows
  {
    assert PartFill(row, params, {}) == row;
  }

  lemma PartFillAll(row: Row, params: Params)
    requires NoLonePlaceholder(row)
    ensures PartFill(row, params, row.Keys) == FillRow(row, params)
  {
  }

  /**
   * The block branch of `fillCells` (ExcelGeneratorImpl.java:152-158): a
   * `#RANGE…` marker goes to `createRange`, any other `#TABLE…` marker to
   * `createTable`; the block ends at the next row holding the marker text.
   */
  method ExpandBlock(sheet: Sheet, rowNum: int, data: DataSet, cellVal: string, fuel: nat) returns (r: Result<int, Failure>)
    requires sheet.Valid() && rowNum >= 0
    modifies sheet
    decreases fuel, 0
    ensures sheet.Valid()
    ensures var e := ScanEnd(old(sheet.rows), rowNum + 1, cellVal);
            && (r.Success? ==> r.value >= e + 1)
            && Above(old(Snap(sheet)), Snap(sheet), e + 1)
            && (fuel == 0 ==> r == Failure(OutOfFuel) && Snap(sheet) == old(Snap(sheet)))
  {
    if fuel == 0 {
      AboveRefl(Snap(sheet), ScanEnd(sheet.rows, rowNum + 1, cellVal) + 1);
      return Failure(OutOfFuel);
    }
    if StartsWith(cellVal, RANGE) {
      r := CreateRange(sheet, rowNum, data, cellVal, fuel - 1);
    } else {
      r := CreateTable(sheet, rowNum, data, cellVal, fuel - 1);
    }
  }

  /**
   * What `fillCells` does to a present row that opens no block: every
   * placeholder cell is filled and the next row is visited, or a bare "#"
   * aborts.
   */
  ghost predicate FillsRow(s0: Snapshot, s1: Snapshot, rowNum: int, params: Params, r: Result<int, Failure>) {
    var row := RowAt(s0.rows, rowNum);
    row.Some? && !OpensBlock(row.value) ==>
      if NoLonePlaceholder(row.value)
      then r == Success(rowNum + 1) && s1.merged == s0.merged && s1.rows == s0.rows[rowNum := Some(FillRow(row.value, params))]
      else r == Failure(PlaceholderTooShort(rowNum))
  }

  /**
   * The plain branch of `fillCells` (ExcelGeneratorImpl.java:160-187): each
   * placeholder cell of the row is replaced by its filled value, and a bare
   * "#" aborts with the cells visited before it already filled.
   */
  method FillPlaceholders(sheet: Sheet, rowNum: nat, cells: Row, params: Params) returns (r: Result<int, Failure>)
    requires sheet.Valid() && sheet.GetRow(rowNum) == Some(cells)
    modifies sheet
    ensures sheet.Valid()
    ensures Above(old(Snap(sheet)), Snap(sheet), rowNum)
    ensures NoLonePlaceholder(cells) ==>
              r == Success(rowNum + 1) && sheet.merged == old(sheet.merged)
              && sheet.rows == old(sheet.rows)[rowNum := Some(FillRow(cells, params))]
    ensures !NoLonePlaceholder(cells) ==> r == Failure(PlaceholderTooShort(rowNum))
  {
    ghost var s0 := Snap(sheet);
    var todo := cells.Keys;
    ghost var done: set<nat> := {};
    PartFillNone(s0.rows, rowNum, cells, params);
    while todo != {}
      invariant sheet.Valid() && done + todo == cells.Keys && done !! todo
      invariant forall c :: c in done && HasKey(cells[c]) ==> !LonePlaceholder(cells[c])
      invariant sheet.rows == s0.rows[rowNum := Some(PartFill(cells, params, done))]
      invariant sheet.merged == s0.merged
      decreases |todo|
    {
      var c :| c in todo;
      var cell := cells[c];
      if HasKey(cell) {
        if LonePlaceholder(cell) {
          AboveUpdate(s0, rowNum, Some(PartFill(cells, params, done)));
          return Failure(PlaceholderTooShort(rowNum));
        }
        ghost var before := sheet.rows;
        sheet.SetCell(rowNum, c, FillCell(cell, params));
        PartFillRowStep(s0.rows, rowNum, cells, params, done, c, before, sheet.rows);
      } else {
        PartFillStep(cells, params, done, c);
      }
      MoveKey(cells.Keys, done, todo, c);
      todo := todo - {c};
      done := done + {c};
    }
    PartFillAll(cells, params);
    AboveUpdate(s0, rowNum, Some(FillRow(cells, params)));
    return Success(rowNum + 1);
  }

  /**
   * `fillCells(sheet, rowNum, map, dto)` (ExcelGeneratorImpl.java:130-190):
   * an absent row is passed over; a row opening a block is expanded by
   * `ExpandBlock`; any other row has its placeholders filled from `params`,
   * and a bare "#" aborts. The result is the next row to visit.
   */
  method FillCells(sheet: Sheet, rowNum: int, params: Params, data: DataSet, fuel: nat) returns (r: Result<int, Failure>)
    requires sheet.Valid()
    modifies sheet
    decreases fuel, 1
    ensures sheet.Valid()
    ensures r.Success? ==> r.value > rowNum
    ensures Above(old(Snap(sheet)), Snap(sheet), rowNum)
    ensures old(sheet.GetRow(rowNum)).None? ==> r == Success(rowNum + 1) && Snap(sheet) == old(Snap(sheet))
    ensures FillsRow(old(Snap(sheet)), Snap(sheet), rowNum, params, r)
    ensures old(sheet.GetRow(rowNum)).Some? && OpensBlock(old(sheet.GetRow(rowNum)).value) && fuel == 0 ==>
              r == Failure(OutOfFuel) && Snap(sheet) == old(Snap(sheet))
  {
    ghost var s0 := Snap(sheet);
    var row := sheet.GetRow(rowNum);
    if row.None? {
      AboveRefl(s0, rowNum);
      return Success(rowNum + 1);
    }
    var cells := row.value;
    if OpensBlock(cells) {
      var cellVal := cells[0].content.text;
      r := ExpandBlock(sheet, rowNum, data, cellVal, fuel);
      AboveLower(s0, Snap(sheet), ScanEnd(s0.rows, rowNum + 1, cellVal) + 1, rowNum);
      return;
    }
    r := FillPlaceholders(sheet, rowNum, cells, params);
  }

  /** Row `i` of a replica being filled is a plain copy that `fillCells` fills in place. */
  lemma PlainRowReady(rows: Rows, at: nat, srcs: seq<TemplateRow>, params: Params, i: nat, before: Rows)
    requires Plain(srcs) && i < |srcs| && at <= |rows|
    requires before == InsertRows(rows, at, PartlyFilled(srcs, params, i))
    ensures RowAt(before, at + i) == Some(CopyCells(srcs[i].row.value))
    ensures NoLonePlaceholder(CopyCells(srcs[i].row.value)) && !OpensBlock(CopyCells(srcs[i].row.value))
    ensures !StartWithString(Some(CopyCells(srcs[i].row.value)), TABLE)
  {
    FillStep(rows, at, srcs, params, i);
    PlainCopyInert(srcs[i]);
  }

  /** Filling that row moves the replica on by one row. */
  lemma PlainRowFilled(rows: Rows, at: nat, srcs: seq<TemplateRow>, params: Params, i: nat,
                       before: Snapshot, after: Snapshot, res: Result<int, Failure>)
    requires Plain(srcs) && i < |srcs| && at <= |rows|
    requires before.rows == InsertRows(rows, at, PartlyFilled(srcs, params, i))
    requires FillsRow(before, after, at + i, params, res)
    ensures res == Success(at + i + 1) && after.merged == before.merged
    ensures after.rows == InsertRows(rows, at, PartlyFilled(srcs, params, i + 1))
  {
    PlainRowReady(rows, at, srcs, params, i, before.rows);
    FillStep(rows, at, srcs, params, i);
  }

  // ---------------------------------------------------------------------------
  // Flat tables

  /** The merged regions of every template row reappear at the replica placed at `at`. */
  ghost predicate ReplicaAt(m0: seq<Region>, m: seq<Region>, srcs: seq<TemplateRow>, at: int) {
    forall k, g :: 0 <= k < |srcs| && g in m0 && g.firstRow == srcs[k].index ==> Reanchor(g, at + k) in m
  }

  /** The same, for replica `j` of a table whose replicas start at `base`. */
  ghost predicate ReplicaOf(m0: seq<Region>, m: seq<Region>, srcs: seq<TemplateRow>, base: int, j: int) {
    ReplicaAt(m0, m, srcs, base + j * |srcs|)
  }

  /** Replicas `0 .. n - 1` each carry the template's regions. */
  ghost predicate Replicas(m0: seq<Region>, m: seq<Region>, srcs: seq<TemplateRow>, base: int, n: int) {
    forall j {:trigger ReplicaOf(m0, m, srcs, base, j)} :: 0 <= j < n ==> ReplicaOf(m0, m, srcs, base, j)
  }

  /** Every template row lies above `start`. */
  predicate Below(srcs: seq<TemplateRow>, start: int) {
    forall k :: 0 <= k < |srcs| ==> srcs[k].index < start
  }

  lemma MulStep(jj: nat, j: nat, n: nat, k: nat)
    requires jj < j && k < n
    ensures jj * n + k < j * n
  {
    assert jj * n + n == (jj + 1) * n;
    assert (jj + 1) * n <= j * n;
  }

  /** A replica above the insertion point keeps its regions. */
  lemma KeepReplica(m0: seq<Region>, before: Snapshot, after: Snapshot, srcs: seq<TemplateRow>, at0: int, at: int)
    requires ReplicaAt(m0, before.merged, srcs, at0) && at0 + |srcs| <= at
    requires Above(before, after, at)
    ensures ReplicaAt(m0, after.merged, srcs, at0)
  {
    forall k, g | 0 <= k < |srcs| && g in m0 && g.firstRow == srcs[k].index
      ensures Reanchor(g, at0 + k) in after.merged
    {
      assert Reanchor(g, at0 + k) in before.merged;
      AboveRegion(before, after, at, Reanchor(g, at0 + k));
    }
  }

  /** The replica `copyRows` places at `at` gets the regions of its template rows. */
  lemma NewReplica(s0: Snapshot, before: Snapshot, after: Snapshot, srcs: seq<TemplateRow>, base: int, at: nat)
    requires Plain(srcs) && base <= at
    requires Below(srcs, base) && Above(s0, before, base)
    requires after.merged == CopyRowsEffect(before, srcs, at).merged
    ensures ReplicaAt(s0.merged, after.merged, srcs, at)
  {
    PlainPresent(srcs);
    forall k, g | 0 <= k < |srcs| && g in s0.merged && g.firstRow == srcs[k].index
      ensures Reanchor(g, at + k) in after.merged
    {
      AboveRegion(s0, before, base, g);
      CopyRowsReanchors(before, srcs, at, k, g);
    }
  }

  /** An earlier replica of a flat table keeps its regions while a later one is added. */
  lemma KeepEarlierReplica(m0: seq<Region>, before: Snapshot, after: Snapshot, srcs: seq<TemplateRow>,
                           base: int, jj: nat, j: nat, at: int)
    requires jj < j && at == base + j * |srcs|
    requires ReplicaOf(m0, before.merged, srcs, base, jj)
    requires Above(before, after, at)
    ensures ReplicaOf(m0, after.merged, srcs, base, jj)
  {
    if |srcs| > 0 {
      MulStep(jj, j, |srcs|, |srcs| - 1);
    }
    KeepReplica(m0, before, after, srcs, base + jj * |srcs|, at);
  }

  /** One more record of a flat table: its replica gets the template's regions, the earlier ones keep theirs. */
  lemma TableRegionsStep(m0: seq<Region>, before: Snapshot, after: Snapshot, srcs: seq<TemplateRow>, j: nat, base: nat, at: nat)
    requires at == base + j * |srcs|
    requires Replicas(m0, before.merged, srcs, base, j)
    requires ReplicaAt(m0, after.merged, srcs, at)
    requires Above(before, after, at)
    ensures Replicas(m0, after.merged, srcs, base, j + 1)
  {
    assert ReplicaOf(m0, after.merged, srcs, base, j);
    KeepEarlierReplicas(m0, before, after, srcs, base, j, at);
  }

  /** The replicas before the `j`-th keep their regions while it is added. */
  lemma KeepEarlierReplicas(m0: seq<Region>, before: Snapshot, after: Snapshot, srcs: seq<TemplateRow>,
                            base: int, j: nat, at: int)
    requires at == base + j * |srcs|
    requires Replicas(m0, before.merged, srcs, base, j)
    requires Above(before, after, at)
    ensures forall jj :: 0 <= jj < j ==> ReplicaOf(m0, after.merged, srcs, base, jj)
  {
    forall jj | 0 <= jj < j
      ensures ReplicaOf(m0, after.merged, srcs, base, jj)
    {
      KeepEarlierReplica(m0, before, after, srcs, base, jj, j, at);
    }
  }

  /**
   * `done` is inserted at `base` into `rows0` and ends right at `at`: where
   * the part of a replica that comes next is written.
   */
  ghost predicate InsertedUpTo(rows0: Rows, rows: Rows, base: int, done: Rows, at: int) {
    Inserted(rows0, rows, base, done) && at == base + |done|
  }

  /** A further insertion at `at`, below the rows inserted since `s0`, moves the regions below `start` on. */
  lemma PushedStep(s0: Snapshot, before: Snapshot, after: Snapshot, rows0: Rows, base: int, done: Rows, mid: Rows,
                   start: int, at: int, end: int)
    requires InsertedUpTo(rows0, s0.rows, base, done, start) && InsertedUpTo(rows0, before.rows, base, mid, at)
    requires Pushed(s0, before, start, at) && Pushed(before, after, at, end)
    ensures Pushed(s0, after, start, end)
  {
    PushedTrans(s0, before, after, start, at, end);
  }

  /**
   * One filled replica of the template `srcs` per record, one after the
   * other from `start` on: the loop of `createTable`
   * (ExcelGeneratorImpl.java:289-293) and the body loop of `fillRange`
   * (ExcelGeneratorImpl.java:406-410). When the rows `done` inserted at
   * `base` end at `start`, the replicas extend that insertion.
   */
  method FillReplicas(sheet: Sheet, srcs: seq<TemplateRow>, records: seq<Params>, start: nat, data: DataSet, fuel: nat,
                      ghost rows0: Rows, ghost base: int, ghost done: Rows)
    returns (r: Result<int, Failure>)
    requires sheet.Valid()
    modifies sheet
    decreases fuel, 6
    ensures sheet.Valid()
    ensures r.Success? ==> r.value >= start
    ensures Above(old(Snap(sheet)), Snap(sheet), start)
    ensures Plain(srcs) && InsertedUpTo(rows0, old(sheet.rows), base, done, start) ==>
              r.Success? && InsertedUpTo(rows0, sheet.rows, base, done + FilledEach(srcs, records), r.value)
    ensures Plain(srcs) && InsertedUpTo(rows0, old(sheet.rows), base, done, start) ==>
              r.Success? && Pushed(old(Snap(sheet)), Snap(sheet), start, r.value)
    ensures Plain(srcs) && InsertedUpTo(rows0, old(sheet.rows), base, done, start) && Below(srcs, start) ==>
              Replicas(old(sheet.merged), sheet.merged, srcs, start, |records|)
  {
    ghost var s0 := Snap(sheet);
    ghost var plain := Plain(srcs) && InsertedUpTo(rows0, s0.rows, base, done, start);
    ghost var below := plain && Below(srcs, start);
    var cursor: int := start;
    AboveRefl(s0, start);
    if plain {
      assert records[..0] == [];
      assert done + FilledEach(srcs, records[..0]) == done;
      PushedRefl(s0, start);
    }
    var j := 0;
    while j < |records|
      invariant 0 <= j <= |records| && sheet.Valid()
      invariant cursor >= start && Above(s0, Snap(sheet), start)
      invariant plain ==> InsertedUpTo(rows0, sheet.rows, base, done + FilledEach(srcs, records[..j]), cursor)
      invariant plain ==> Pushed(s0, Snap(sheet), start, cursor)
      invariant below ==> Replicas(s0.merged, sheet.merged, srcs, start, j)
    {
      ghost var before := Snap(sheet);
      ghost var at := cursor;
      cursor :- FillReplica(sheet, srcs, records, j, start, cursor, data, fuel, s0, rows0, base, done);
      if plain {
        PushedStep(s0, before, Snap(sheet), rows0, base, done, done + FilledEach(srcs, records[..j]), start, at, cursor);
      }
      j := j + 1;
    }
    assert records[..j] == records;
    return Success(cursor);
  }

  /**
   * One turn of those loops: the replica of the `j`-th record, filled from
   * `params`, goes in at `cursor`, right below the rows `all` placed so far.
   */
  method FillReplica(sheet: Sheet, srcs: seq<TemplateRow>, records: seq<Params>, j: nat, start: nat, cursor: nat,
                     data: DataSet, fuel: nat, ghost s0: Snapshot, ghost rows0: Rows, ghost base: int, ghost done: Rows)
    returns (r: Result<int, Failure>)
    requires sheet.Valid() && j < |records| && cursor >= start
    requires Above(s0, Snap(sheet), start)
    modifies sheet
    decreases fuel, 5
    ensures sheet.Valid()
    ensures r.Success? ==> r.value >= cursor
    ensures Above(s0, Snap(sheet), start)
    ensures Plain(srcs) && start == base + |done|
            && InsertedUpTo(rows0, old(sheet.rows), base, done + FilledEach(srcs, records[..j]), cursor) ==>
              && r.Success?
              && InsertedUpTo(rows0, sheet.rows, base, done + FilledEach(srcs, records[..j + 1]), r.value)
              && Pushed(old(Snap(sheet)), Snap(sheet), cursor, r.value)
              && (Below(srcs, start) && Replicas(s0.merged, old(sheet.merged), srcs, start, j) ==>
                    Replicas(s0.merged, sheet.merged, srcs, start, j + 1))
  {
    ghost var before := Snap(sheet);
    ghost var all := if Plain(srcs) then done + FilledEach(srcs, records[..j]) else done;
    ghost var plain := Plain(srcs) && start == base + |done| && InsertedUpTo(rows0, before.rows, base, all, cursor);
    r := CopyRowsAndFillData(sheet, records[j], cursor, data, srcs, fuel);
    AboveTrans(s0, before, Snap(sheet), start, cursor, start);
    if plain {
      ReplicaStep(s0, before, Snap(sheet), srcs, records, j, start, cursor, r, rows0, base, done);
    }
  }

  /** What one turn of the replica loop adds, given what `copyRowsAndFillData` promises. */
  lemma ReplicaStep(s0: Snapshot, before: Snapshot, after: Snapshot, srcs: seq<TemplateRow>, records: seq<Params>,
                    j: nat, start: nat, cursor: nat, r: Result<int, Failure>, rows0: Rows, base: int, done: Rows)
    requires Plain(srcs) && j < |records| && start <= cursor && start == base + |done|
    requires InsertedUpTo(rows0, before.rows, base, done + FilledEach(srcs, records[..j]), cursor)
    requires Above(s0, before, start) && Above(before, after, cursor)
    requires Gapless(before.rows, cursor) ==>
               && r == Success(cursor + |srcs|)
               && after.rows == InsertRows(before.rows, cursor, Filled(srcs, records[j]))
               && after.merged == CopyRowsEffect(before, srcs, cursor).merged
    ensures r.Success? && InsertedUpTo(rows0, after.rows, base, done + FilledEach(srcs, records[..j + 1]), r.value)
    ensures r.Success? && Pushed(before, after, cursor, r.value)
    ensures Below(srcs, start) && Replicas(s0.merged, before.merged, srcs, start, j) ==>
              Replicas(s0.merged, after.merged, srcs, start, j + 1)
  {
    var all := done + FilledEach(srcs, records[..j]);
    SegmentStep(before, after, srcs, records[j], cursor, r, rows0, base, all);
    FilledEachNext(srcs, records, j, done);
    if Below(srcs, start) && Replicas(s0.merged, before.merged, srcs, start, j) {
      FilledEachLength(srcs, records[..j]);
      NewReplica(s0, before, after, srcs, start, cursor);
      TableRegionsStep(s0.merged, before, after, srcs, j, start, cursor);
    }
  }

  /** One replica of a segment moves the regions below its insertion point down by the segment's height. */
  lemma ReplicaPushes(before: Snapshot, after: Snapshot, srcs: seq<TemplateRow>, cursor: nat)
    requires Plain(srcs) && Gapless(before.rows, cursor)
    requires after.merged == CopyRowsEffect(before, srcs, cursor).merged
    ensures Pushed(before, after, cursor, cursor + |srcs|)
  {
    PlainPresent(srcs);
    CopyRowsPushes(before, srcs, cursor);
    PushedSame(before, CopyRowsEffect(before, srcs, cursor), after, cursor, cursor + |srcs|);
  }

  /** The rows of the first `j + 1` records, after `done`: those of the first `j`, then record `j`'s. */
  lemma FilledEachNext(srcs: seq<TemplateRow>, records: seq<Params>, j: nat, done: Rows)
    requires Plain(srcs) && j < |records|
    ensures done + FilledEach(srcs, records[..j]) + Filled(srcs, records[j]) == done + FilledEach(srcs, records[..j + 1])
  {
    assert records[..j + 1] == records[..j] + [records[j]];
    FilledEachSnoc(srcs, records[..j], records[j]);
  }

  /**
   * The template loop of `createTable` (ExcelGeneratorImpl.java:272-276):
   * the rows from `from` up to the first one holding `cellVal`, stopping
   * before the last row; the result says where the scan stopped.
   */
  method CollectTableRows(sheet: Sheet, from: nat, cellVal: string) returns (srcs: seq<TemplateRow>, end: nat)
    ensures end == ScanEnd(sheet.rows, from, cellVal)
    ensures srcs == Span(sheet.rows, from, end)
    ensures Below(srcs, end + 1)
  {
    end := from;
    srcs := [];
    while end < sheet.LastRowNum() && !HasString(sheet.GetRow(end), cellVal)
      invariant from <= end
      invariant ScanEnd(sheet.rows, end, cellVal) == ScanEnd(sheet.rows, from, cellVal)
      invariant srcs == Span(sheet.rows, from, end)
      decreases |sheet.rows| - end
    {
      srcs := srcs + [TemplateRow(end, sheet.GetRow(end))];
      end := end + 1;
    }
  }

  /**
   * `createTable(sheet, rowNum, dto, cellVal)` (ExcelGeneratorImpl.java:267-297):
   * the rows between the start marker and the next row holding `cellVal`
   * are the template; one replica of it is inserted after the end marker for
   * each row map of the first simple table named `cellVal`.
   */
  method CreateTable(sheet: Sheet, rowNum: nat, data: DataSet, cellVal: string, fuel: nat) returns (r: Result<int, Failure>)
    requires sheet.Valid()
    modifies sheet
    decreases fuel, 8
    ensures sheet.Valid()
    ensures var e := ScanEnd(old(sheet.rows), rowNum + 1, cellVal);
            (r.Success? ==> r.value >= e + 1) && Above(old(Snap(sheet)), Snap(sheet), e + 1)
    ensures var e := ScanEnd(old(sheet.rows), rowNum + 1, cellVal);
            e == rowNum + 1 || FindSimple(data.simpleTables, cellVal).None? ==>
              r == Success(e + 1) && Snap(sheet) == old(Snap(sheet))
    ensures var e := ScanEnd(old(sheet.rows), rowNum + 1, cellVal);
            var srcs := Span(old(sheet.rows), rowNum + 1, e);
            var table := FindSimple(data.simpleTables, cellVal);
            Plain(srcs) && table.Some? && Gapless(old(sheet.rows), e + 1) ==>
              && r == Success(e + 1 + |FilledEach(srcs, table.value)|)
              && sheet.rows == InsertRows(old(sheet.rows), e + 1, FilledEach(srcs, table.value))
              && Pushed(old(Snap(sheet)), Snap(sheet), e + 1, r.value)
              && Replicas(old(sheet.merged), sheet.merged, srcs, e + 1, |table.value|)
  {
    ghost var s0 := Snap(sheet);
    var srcs, end := CollectTableRows(sheet, rowNum + 1, cellVal);
    assert Snap(sheet) == s0;
    var table := FindSimple(data.simpleTables, cellVal);
    r := FillTable(sheet, srcs, table, end + 1, data, fuel);
    if Plain(srcs) && table.Some? && Gapless(s0.rows, end + 1) {
      assert Pushed(s0, Snap(sheet), end + 1, r.value);
    }
  }

  /**
   * The part of `createTable` after the scan (ExcelGeneratorImpl.java:286-294):
   * nothing happens for an empty template or a missing table; otherwise one
   * replica per record, starting at `cursor`.
   */
  method FillTable(sheet: Sheet, srcs: seq<TemplateRow>, table: Option<seq<Params>>, cursor: nat, data: DataSet, fuel: nat)
    returns (r: Result<int, Failure>)
    requires sheet.Valid()
    modifies sheet
    decreases fuel, 7
    ensures sheet.Valid()
    ensures (r.Success? ==> r.value >= cursor) && Above(old(Snap(sheet)), Snap(sheet), cursor)
    ensures srcs == [] || table.None? ==> r == Success(cursor) && Snap(sheet) == old(Snap(sheet))
    ensures Plain(srcs) && Below(srcs, cursor) && table.Some? && Gapless(old(sheet.rows), cursor) ==>
              && r == Success(cursor + |FilledEach(srcs, table.value)|)
              && sheet.rows == InsertRows(old(sheet.rows), cursor, FilledEach(srcs, table.value))
              && Pushed(old(Snap(sheet)), Snap(sheet), cursor, r.value)
              && Replicas(old(sheet.merged), sheet.merged, srcs, cursor, |table.value|)
  {
    if srcs == [] || table.None? {
      AboveRefl(Snap(sheet), cursor);
      if table.Some? {
        FilledEachLength(srcs, table.value);
      }
      return Success(cursor);
    }
    ghost var s0 := Snap(sheet);
    if Plain(srcs) && Gapless(s0.rows, cursor) {
      InsertedNone(s0.rows, cursor);
    }
    r := FillReplicas(sheet, srcs, table.value, cursor, data, fuel, s0.rows, cursor, []);
    if Plain(srcs) && Gapless(s0.rows, cursor) {
      assert [] + FilledEach(srcs, table.value) == FilledEach(srcs, table.value);
    }
  }

  /**
   * `copyRowsAndFillData(dataItem, sheet, rowNum, dto, sourceRows)`
   * (ExcelGeneratorImpl.java:299-312): one replica of the template, filled
   * row by row; a nested `#TABLE` row makes the loop skip the rest of its
   * block (the corrected step of `FillDataRow`).
   */
  method CopyRowsAndFillData(sheet: Sheet, params: Params, rowNum: nat, data: DataSet, srcs: seq<TemplateRow>, fuel: nat)
    returns (r: Result<int, Failure>)
    requires sheet.Valid()
    modifies sheet
    decreases fuel, 4
    ensures sheet.Valid()
    ensures r.Success? ==> r.value >= rowNum && (srcs != [] ==> r.value > rowNum)
    ensures Above(old(Snap(sheet)), Snap(sheet), rowNum)
    ensures Plain(srcs) && Gapless(old(sheet.rows), rowNum) ==>
              && r == Success(rowNum + |srcs|)
              && sheet.rows == InsertRows(old(sheet.rows), rowNum, Filled(srcs, params))
              && sheet.merged == CopyRowsEffect(old(Snap(sheet)), srcs, rowNum).merged
  {
    ghost var s0 := Snap(sheet);
    CopyRows(sheet, srcs, rowNum);
    CopyRowsAbove(s0, srcs, rowNum);
    if Plain(srcs) && Gapless(s0.rows, rowNum) {
      PlainCopyRows(s0, srcs, rowNum, params);
    }
    ghost var copied := Snap(sheet);
    r := FillDataRows(sheet, params, rowNum, data, srcs, fuel, s0.rows);
    AboveTrans(s0, copied, Snap(sheet), rowNum, rowNum, rowNum);
  }

  /**
   * The loop of `copyRowsAndFillData` (ExcelGeneratorImpl.java:302-310) over
   * the copies just made: each row is filled from `params`, and a row opening
   * a nested `#TABLE` first moves `index` to the block's end marker.
   * Over the unfilled copies of a plain template inserted at `rowNum`, it
   * fills every copy and returns the row after them.
   */
  method FillDataRows(sheet: Sheet, params: Params, rowNum: nat, data: DataSet, srcs: seq<TemplateRow>, fuel: nat,
                      ghost rows0: Rows)
    returns (r: Result<int, Failure>)
    requires sheet.Valid()
    modifies sheet
    decreases fuel, 3
    ensures sheet.Valid()
    ensures r.Success? ==> r.value >= rowNum && (srcs != [] ==> r.value > rowNum)
    ensures Above(old(Snap(sheet)), Snap(sheet), rowNum)
    ensures Plain(srcs) && rowNum <= |rows0| && old(sheet.rows) == InsertRows(rows0, rowNum, PartlyFilled(srcs, params, 0)) ==>
              && r == Success(rowNum + |srcs|) && sheet.merged == old(sheet.merged)
              && sheet.rows == InsertRows(rows0, rowNum, Filled(srcs, params))
  {
    ghost var s0 := Snap(sheet);
    ghost var plain := Plain(srcs) && rowNum <= |rows0| && s0.rows == InsertRows(rows0, rowNum, PartlyFilled(srcs, params, 0));
    AboveRefl(s0, rowNum);
    var cursor: int := rowNum;
    var index := 0;
    while index < |srcs|
      invariant sheet.Valid()
      invariant cursor >= rowNum && (index > 0 ==> cursor > rowNum)
      invariant Above(s0, Snap(sheet), rowNum)
      invariant plain ==> 0 <= index <= |srcs| && cursor == rowNum + index && sheet.merged == s0.merged
      invariant plain ==> sheet.rows == InsertRows(rows0, rowNum, PartlyFilled(srcs, params, index))
      decreases |srcs| - index
    {
      ghost var before := Snap(sheet);
      ghost var at := cursor;
      var res;
      res, index := FillDataRow(sheet, params, cursor, index, data, fuel, rows0, rowNum, srcs);
      AboveTrans(s0, before, Snap(sheet), rowNum, at, rowNum);
      cursor :- res;
      index := index + 1;
    }
    if plain {
      PartlyFilledDone(srcs, params);
    }
    return Success(cursor);
  }

  /**
   * One turn of the loop of `copyRowsAndFillData`
   * (ExcelGeneratorImpl.java:303-309): a row opening a `#TABLE` first moves
   * `index` to the slot of that table's closing marker, then the row at
   * `cursor` is filled. On the `index`-th unfilled copy of a plain template
   * it fills just that copy.
   *
   * The source keeps `index` two slots further (`decreaseNumberOfRowsToFill`
   * returns `index + counter + 2`) while the cursor goes on right after the
   * expanded block, so every nested block costs the loop two turns and the
   * last rows of the template go unfilled (`NestedSlots.TrailingRowsSkipped`,
   * `NestedSlots.NestedBlockCostsLastRow`); this step takes those two slots
   * back, and its slots tile the template (`NestedSlots.VisitedTiles`).
   */
  method FillDataRow(sheet: Sheet, params: Params, cursor: nat, index: nat, data: DataSet, fuel: nat,
                     ghost rows0: Rows, at: nat, srcs: seq<TemplateRow>)
    returns (r: Result<int, Failure>, next: nat)
    requires sheet.Valid()
    modifies sheet
    decreases fuel, 2
    ensures sheet.Valid()
    ensures next >= index
    ensures var row := old(sheet.GetRow(cursor));
            && (StartWithString(row, TABLE) ==> next == index + EndDistance(old(sheet.rows), cursor, FirstText(row).value, |srcs|))
            && (!StartWithString(row, TABLE) ==> next == index)
    ensures r.Success? ==> r.value > cursor
    ensures Above(old(Snap(sheet)), Snap(sheet), cursor)
    ensures Plain(srcs) && index < |srcs| && at <= |rows0| && cursor == at + index
            && old(sheet.rows) == InsertRows(rows0, at, PartlyFilled(srcs, params, index)) ==>
              && next == index && r == Success(cursor + 1) && sheet.merged == old(sheet.merged)
              && sheet.rows == InsertRows(rows0, at, PartlyFilled(srcs, params, index + 1))
  {
    ghost var plain := Plain(srcs) && index < |srcs| && at <= |rows0| && cursor == at + index
                       && sheet.rows == InsertRows(rows0, at, PartlyFilled(srcs, params, index));
    if plain {
      PlainRowReady(rows0, at, srcs, params, index, sheet.rows);
    }
    next := index;
    if StartWithString(sheet.GetRow(cursor), TABLE) {
      var moved := DecreaseNumberOfRowsToFill(sheet, cursor, |srcs|, index);
      next := moved - 2;
    }
    ghost var before := Snap(sheet);
    r := FillCells(sheet, cursor, params, data, fuel);
    if plain {
      PlainRowFilled(rows0, at, srcs, params, index, before, Snap(sheet), r);
    }
  }

  /**
   * `decreaseNumberOfRowsToFill(sheet, rowNum, rowsSize, index)`
   * (ExcelGeneratorImpl.java:317-326), as written: two slots past the nested
   * table's end marker, whose distance `NestedEndDistance` finds.
   */
  method DecreaseNumberOfRowsToFill(sheet: Sheet, rowNum: int, rowsSize: nat, index: int) returns (r: int)
    requires StartWithString(sheet.GetRow(rowNum), TABLE)
    ensures r == index + EndDistance(sheet.rows, rowNum, FirstText(sheet.GetRow(rowNum)).value, rowsSize) + 2
  {
    var counter := NestedEndDistance(sheet, rowNum, rowsSize);
    return index + counter + 2;
  }

  /**
   * The search loop of `decreaseNumberOfRowsToFill`
   * (ExcelGeneratorImpl.java:319-324): the distance from the nested start
   * marker at `rowNum` to the first row below it holding the same name,
   * looked for up to `rowsSize` rows down.
   */
  method NestedEndDistance(sheet: Sheet, rowNum: int, rowsSize: nat) returns (counter: nat)
    requires StartWithString(sheet.GetRow(rowNum), TABLE)
    ensures counter == EndDistance(sheet.rows, rowNum, FirstText(sheet.GetRow(rowNum)).value, rowsSize)
  {
    var stopWordInner := FirstText(sheet.GetRow(rowNum)).value;
    counter := 1;
    while !HasString(sheet.GetRow(rowNum + counter), stopWordInner) && counter <= rowsSize
      invariant 1 <= counter <= rowsSize + 1
      invariant forall j :: rowNum < j < rowNum + counter ==> !HasString(RowAt(sheet.rows, j), stopWordInner)
      invariant DistanceFrom(sheet.rows, rowNum, stopWordInner, rowsSize, counter) == EndDistance(sheet.rows, rowNum, stopWordInner, rowsSize)
      decreases rowsSize + 1 - counter
    {
      counter := counter + 1;
    }
  }

  // ---------------------------------------------------------------------------
  // Ranges

  /**
   * `copyRows` of one template segment followed by one `fillCells` per
   * segment row, as for the header, each body footer and the footer of a
   * range record (ExcelGeneratorImpl.java:399-402, 414-417, 423-426).
   */
  method FillSegment(sheet: Sheet, srcs: seq<TemplateRow>, params: Params, rowNum: nat, data: DataSet, fuel: nat,
                     ghost rows0: Rows, ghost base: int, ghost done: Rows)
    returns (r: Result<int, Failure>)
    requires sheet.Valid()
    modifies sheet
    decreases fuel, 3
    ensures sheet.Valid()
    ensures r.Success? ==> r.value >= rowNum + |srcs|
    ensures Above(old(Snap(sheet)), Snap(sheet), rowNum)
    ensures Plain(srcs) && InsertedUpTo(rows0, old(sheet.rows), base, done, rowNum) ==>
              r.Success? && InsertedUpTo(rows0, sheet.rows, base, done + Filled(srcs, params), r.value)
    ensures Plain(srcs) && InsertedUpTo(rows0, old(sheet.rows), base, done, rowNum) ==>
              r.Success? && Pushed(old(Snap(sheet)), Snap(sheet), rowNum, r.value)
    ensures Plain(srcs) && InsertedUpTo(rows0, old(sheet.rows), base, done, rowNum) && Below(srcs, rowNum) ==>
              ReplicaAt(old(sheet.merged), sheet.merged, srcs, rowNum)
  {
    ghost var s0 := Snap(sheet);
    ghost var plain := Plain(srcs) && InsertedUpTo(rows0, s0.rows, base, done, rowNum);
    CopyRows(sheet, srcs, rowNum);
    CopyRowsAbove(s0, srcs, rowNum);
    if plain {
      PlainCopyRows(s0, srcs, rowNum, params);
      if Below(srcs, rowNum) {
        AboveRefl(s0, rowNum);
        NewReplica(s0, s0, Snap(sheet), srcs, rowNum, rowNum);
      }
    }
    ghost var copied := Snap(sheet);
    r := FillSegmentRows(sheet, srcs, params, rowNum, data, fuel, s0.rows);
    AboveTrans(s0, copied, Snap(sheet), rowNum, rowNum, rowNum);
    if plain {
      SegmentStep(s0, Snap(sheet), srcs, params, rowNum, r, rows0, base, done);
    }
  }

  /** The rows and regions after one plain segment: its filled rows inserted, the regions below pushed down. */
  lemma SegmentStep(s0: Snapshot, after: Snapshot, srcs: seq<TemplateRow>, params: Params, rowNum: nat,
                    r: Result<int, Failure>, rows0: Rows, base: int, done: Rows)
    requires Plain(srcs) && InsertedUpTo(rows0, s0.rows, base, done, rowNum)
    requires r == Success(rowNum + |srcs|) && after.rows == InsertRows(s0.rows, rowNum, Filled(srcs, params))
    requires after.merged == CopyRowsEffect(s0, srcs, rowNum).merged
    ensures r.Success? && InsertedUpTo(rows0, after.rows, base, done + Filled(srcs, params), r.value)
    ensures Pushed(s0, after, rowNum, r.value)
  {
    InsertedThen(rows0, s0.rows, after.rows, base, done, Filled(srcs, params));
    ReplicaPushes(s0, after, srcs, rowNum);
  }

  /**
   * The `fillCells` loop that follows each `copyRows` in `fillRange`
   * (ExcelGeneratorImpl.java:400-402, 415-417, 424-426): one call per
   * segment row, each on the row the previous call returned.
   */
  method FillSegmentRows(sheet: Sheet, srcs: seq<TemplateRow>, params: Params, rowNum: nat, data: DataSet, fuel: nat,
                         ghost rows0: Rows)
    returns (r: Result<int, Failure>)
    requires sheet.Valid()
    modifies sheet
    decreases fuel, 2
    ensures sheet.Valid()
    ensures r.Success? ==> r.value >= rowNum + |srcs|
    ensures Above(old(Snap(sheet)), Snap(sheet), rowNum)
    ensures Plain(srcs) && rowNum <= |rows0| && old(sheet.rows) == InsertRows(rows0, rowNum, PartlyFilled(srcs, params, 0)) ==>
              && r == Success(rowNum + |srcs|) && sheet.merged == old(sheet.merged)
              && sheet.rows == InsertRows(rows0, rowNum, Filled(srcs, params))
  {
    ghost var s0 := Snap(sheet);
    ghost var plain := Plain(srcs) && rowNum <= |rows0| && s0.rows == InsertRows(rows0, rowNum, PartlyFilled(srcs, params, 0));
    AboveRefl(s0, rowNum);
    var cursor: int := rowNum;
    var i := 0;
    while i < |srcs|
      invariant 0 <= i <= |srcs| && sheet.Valid()
      invariant cursor >= rowNum + i
      invariant Above(s0, Snap(sheet), rowNum)
      invariant plain ==> cursor == rowNum + i && sheet.merged == s0.merged
      invariant plain ==> sheet.rows == InsertRows(rows0, rowNum, PartlyFilled(srcs, params, i))
    {
      if plain {
        PlainRowReady(rows0, rowNum, srcs, params, i, sheet.rows);
      }
      ghost var before := Snap(sheet);
      ghost var at := cursor;
      var res := FillCells(sheet, cursor, params, data, fuel);
      if plain {
        PlainRowFilled(rows0, rowNum, srcs, params, i, before, Snap(sheet), res);
      }
      AboveTrans(s0, before, Snap(sheet), rowNum, at, rowNum);
      cursor :- res;
      i := i + 1;
    }
    if plain {
      PartlyFilledDone(srcs, params);
    }
    return Success(cursor);
  }

  /**
   * The body-footer loop of `fillRange` (ExcelGeneratorImpl.java:413-420):
   * for each map, `copyRows` of the segment and one `fillCells` per segment
   * row.
   */
  method FillSegments(sheet: Sheet, srcs: seq<TemplateRow>, records: seq<Params>, start: nat, data: DataSet, fuel: nat,
                      ghost rows0: Rows, ghost base: int, ghost done: Rows)
    returns (r: Result<int, Failure>)
    requires sheet.Valid()
    modifies sheet
    decreases fuel, 4
    ensures sheet.Valid()
    ensures r.Success? ==> r.value >= start
    ensures Above(old(Snap(sheet)), Snap(sheet), start)
    ensures Plain(srcs) && InsertedUpTo(rows0, old(sheet.rows), base, done, start) ==>
              r.Success? && InsertedUpTo(rows0, sheet.rows, base, done + FilledEach(srcs, records), r.value)
    ensures Plain(srcs) && InsertedUpTo(rows0, old(sheet.rows), base, done, start) ==>
              r.Success? && Pushed(old(Snap(sheet)), Snap(sheet), start, r.value)
    ensures Plain(srcs) && InsertedUpTo(rows0, old(sheet.rows), base, done, start) && Below(srcs, start) ==>
              Replicas(old(sheet.merged), sheet.merged, srcs, start, |records|)
  {
    ghost var s0 := Snap(sheet);
    ghost var plain := Plain(srcs) && InsertedUpTo(rows0, s0.rows, base, done, start);
    ghost var below := plain && Below(srcs, start);
    ghost var all := done;
    var cursor: int := start;
    AboveRefl(s0, start);
    if plain {
      assert records[..0] == [];
      assert all == done + FilledEach(srcs, records[..0]);
      PushedRefl(s0, start);
    }
    var i := 0;
    while i < |records|
      invariant 0 <= i <= |records| && sheet.Valid()
      invariant cursor >= start && Above(s0, Snap(sheet), start)
      invariant plain ==> all == done + FilledEach(srcs, records[..i])
      invariant plain ==> InsertedUpTo(rows0, sheet.rows, base, all, cursor)
      invariant plain ==> Pushed(s0, Snap(sheet), start, cursor)
      invariant below ==> Replicas(s0.merged, sheet.merged, srcs, start, i)
    {
      ghost var before := Snap(sheet);
      ghost var at := cursor;
      var res := FillSegment(sheet, srcs, records[i], cursor, data, fuel, rows0, base, all);
      AboveTrans(s0, before, Snap(sheet), start, at, start);
      cursor :- res;
      if below {
        SegmentRegionsStep(s0, before, Snap(sheet), srcs, records, i, start, at, base, done);
      }
      if plain {
        PushedStep(s0, before, Snap(sheet), rows0, base, done, all, start, at, cursor);
        FilledEachNext(srcs, records, i, done);
        all := all + Filled(srcs, records[i]);
      }
      i := i + 1;
    }
    assert records[..i] == records;
    return Success(cursor);
  }

  /** One more body-footer replica: it carries the template's regions, and the earlier ones keep theirs. */
  lemma {:induction false} SegmentRegionsStep(s0: Snapshot, before: Snapshot, after: Snapshot, srcs: seq<TemplateRow>,
                                              records: seq<Params>, i: nat, start: nat, at: nat, base: int, done: Rows)
    requires Plain(srcs) && i < |records| && Below(srcs, start)
    requires start == base + |done| && at == base + |done + FilledEach(srcs, records[..i])|
    requires Replicas(s0.merged, before.merged, srcs, start, i)
    requires ReplicaAt(before.merged, after.merged, srcs, at)
    requires Above(s0, before, start) && Above(before, after, at)
    ensures Replicas(s0.merged, after.merged, srcs, start, i + 1)
  {
    FilledEachLength(srcs, records[..i]);
    ReplicaAtRebase(s0, before, after.merged, srcs, at, start);
    TableRegionsStep(s0.merged, before, after, srcs, i, start, at);
  }

  /**
   * A header or footer of one range record (ExcelGeneratorImpl.java:398-403,
   * 421-426): copied and filled only when both the record's map and the
   * template segment are non-empty.
   */
  method FillGuarded(sheet: Sheet, srcs: seq<TemplateRow>, params: Params, start: nat, data: DataSet, fuel: nat,
                     ghost rows0: Rows, ghost base: int, ghost done: Rows)
    returns (r: Result<int, Failure>)
    requires sheet.Valid()
    modifies sheet
    decreases fuel, 4
    ensures sheet.Valid()
    ensures r.Success? ==> r.value >= start
    ensures Above(old(Snap(sheet)), Snap(sheet), start)
    ensures Plain(srcs) && InsertedUpTo(rows0, old(sheet.rows), base, done, start) ==>
              r.Success? && InsertedUpTo(rows0, sheet.rows, base, done + Guarded(srcs, params), r.value)
    ensures Plain(srcs) && InsertedUpTo(rows0, old(sheet.rows), base, done, start) ==>
              r.Success? && Pushed(old(Snap(sheet)), Snap(sheet), start, r.value)
    ensures Plain(srcs) && InsertedUpTo(rows0, old(sheet.rows), base, done, start) && Below(srcs, start)
            && params != map[] && srcs != [] ==>
              ReplicaAt(old(sheet.merged), sheet.merged, srcs, start)
  {
    if params != map[] && srcs != [] {
      r := FillSegment(sheet, srcs, params, start, data, fuel, rows0, base, done);
    } else {
      AboveRefl(Snap(sheet), start);
      PushedRefl(Snap(sheet), start);
      r := Success(start);
      assert done + [] == done;
    }
  }

  /**
   * The body footers of one range record (ExcelGeneratorImpl.java:412-419):
   * one replica per map, only when both the list and the segment are non-empty.
   */
  method FillGuardedEach(sheet: Sheet, srcs: seq<TemplateRow>, records: seq<Params>, start: nat, data: DataSet, fuel: nat,
                         ghost rows0: Rows, ghost base: int, ghost done: Rows)
    returns (r: Result<int, Failure>)
    requires sheet.Valid()
    modifies sheet
    decreases fuel, 5
    ensures sheet.Valid()
    ensures r.Success? ==> r.value >= start
    ensures Above(old(Snap(sheet)), Snap(sheet), start)
    ensures Plain(srcs) && InsertedUpTo(rows0, old(sheet.rows), base, done, start) ==>
              r.Success? && InsertedUpTo(rows0, sheet.rows, base, done + GuardedEach(srcs, records), r.value)
    ensures Plain(srcs) && InsertedUpTo(rows0, old(sheet.rows), base, done, start) ==>
              r.Success? && Pushed(old(Snap(sheet)), Snap(sheet), start, r.value)
    ensures Plain(srcs) && InsertedUpTo(rows0, old(sheet.rows), base, done, start) && Below(srcs, start)
            && records != [] && srcs != [] ==>
              Replicas(old(sheet.merged), sheet.merged, srcs, start, |records|)
  {
    if records != [] && srcs != [] {
      r := FillSegments(sheet, srcs, records, start, data, fuel, rows0, base, done);
    } else {
      AboveRefl(Snap(sheet), start);
      PushedRefl(Snap(sheet), start);
      r := Success(start);
      assert done + [] == done;
    }
  }

  /** Every row of every segment of a range template lies above `start`. */
  predicate BelowSegments(t: Segments, start: int) {
    Below(t.header, start) && Below(t.body, start) && Below(t.bodyFooter, start) && Below(t.footer, start)
  }

  /**
   * When no row from `start` to the `#Body` row holds the end marker, every
   * row of the template `createRange` reads lies above the row after the
   * end marker it skips to, which is where the copies go.
   */
  lemma RangeTemplateAbove(rows: Rows, start: nat, stop: string)
    requires forall i :: start <= i <= HeaderEnd(rows, start, stop) ==> !HasString(RowAt(rows, i), stop)
    ensures BelowSegments(TemplateOf(rows, start, stop), ScanEnd(rows, start, stop) + 1)
  {
    var h := HeaderEnd(rows, start, stop);
    var e := TemplateEnd(rows, start, stop);
    var end := ScanEnd(rows, start, stop);
    var t := TemplateOf(rows, start, stop);
    TemplateShape(rows, start, stop);
    assert h <= end && e <= end + 1;
    forall k | 0 <= k < |t.body| ensures t.body[k].index <= end {
      assert t.body[k] in Lower(t);
    }
    forall k | 0 <= k < |t.bodyFooter| ensures t.bodyFooter[k].index <= end {
      assert t.bodyFooter[k] in Lower(t);
    }
    forall k | 0 <= k < |t.footer| ensures t.footer[k].index <= end {
      assert t.footer[k] in Lower(t);
    }
  }

  /** The rows a range record's header takes: its segment's, when both it and its map are non-empty. */
  function HeaderHeight(t: Segments, rec: RangeRecord): nat {
    if rec.header != map[] && t.header != [] then |t.header| else 0
  }

  /** The rows a range record's body footers take. */
  function BodyFooterHeight(t: Segments, rec: RangeRecord): nat {
    if rec.bodyFooter != [] && t.bodyFooter != [] then |rec.bodyFooter| * |t.bodyFooter| else 0
  }

  /** The rows a range record's footer takes. */
  function FooterHeight(t: Segments, rec: RangeRecord): nat {
    if rec.footer != map[] && t.footer != [] then |t.footer| else 0
  }

  /** The parts of a record's rows have those heights. */
  lemma {:induction false} RecordHeights(t: Segments, rec: RangeRecord)
    requires PlainSegments(t)
    ensures |Guarded(t.header, rec.header)| == HeaderHeight(t, rec)
    ensures |FilledEach(t.body, rec.body)| == |rec.body| * |t.body|
    ensures |GuardedEach(t.bodyFooter, rec.bodyFooter)| == BodyFooterHeight(t, rec)
    ensures |RecordRows(t, rec)| == HeaderHeight(t, rec) + |rec.body| * |t.body| + BodyFooterHeight(t, rec) + FooterHeight(t, rec)
  {
    FilledEachLength(t.body, rec.body);
    FilledEachLength(t.bodyFooter, rec.bodyFooter);
  }

  /**
   * The regions of one range record whose rows start at `at`: each header,
   * body, body-footer and footer replica that `copyRows` placed carries the
   * merged regions of its template rows.
   */
  ghost predicate RecordReplicas(m0: seq<Region>, m: seq<Region>, t: Segments, rec: RangeRecord, at: int) {
    var b := at + HeaderHeight(t, rec);
    var c := b + |rec.body| * |t.body|;
    var d := c + BodyFooterHeight(t, rec);
    && (rec.header != map[] && t.header != [] ==> ReplicaAt(m0, m, t.header, at))
    && Replicas(m0, m, t.body, b, |rec.body|)
    && (rec.bodyFooter != [] && t.bodyFooter != [] ==> Replicas(m0, m, t.bodyFooter, c, |rec.bodyFooter|))
    && (rec.footer != map[] && t.footer != [] ==> ReplicaAt(m0, m, t.footer, d))
  }

  /** Record `j` of a range dataset, placed after the records before it from `start`, carries its regions. */
  ghost predicate RecordReplicasAt(m0: seq<Region>, m: seq<Region>, t: Segments, recs: seq<RangeRecord>, start: int, j: int)
    requires PlainSegments(t) && 0 <= j < |recs|
  {
    RecordReplicas(m0, m, t, recs[j], start + |RangeRows(t, recs[..j])|)
  }

  /** The first `n` records of a range dataset, placed one after the other from `start`, each carry their regions. */
  ghost predicate RangeReplicas(m0: seq<Region>, m: seq<Region>, t: Segments, recs: seq<RangeRecord>, start: int, n: nat)
    requires PlainSegments(t) && n <= |recs|
  {
    forall j :: 0 <= j < n ==> RecordReplicasAt(m0, m, t, recs, start, j)
  }

  /** Regions anchored above `start` are the same in both states, so a replica of rows above it may be judged against either. */
  lemma {:induction false} ReplicaAtRebase(s0: Snapshot, s1: Snapshot, m: seq<Region>, srcs: seq<TemplateRow>, at: int, start: int)
    requires Above(s0, s1, start) && Below(srcs, start)
    requires ReplicaAt(s1.merged, m, srcs, at)
    ensures ReplicaAt(s0.merged, m, srcs, at)
  {
    forall k, g | 0 <= k < |srcs| && g in s0.merged && g.firstRow == srcs[k].index
      ensures Reanchor(g, at + k) in m
    {
      AboveRegion(s0, s1, start, g);
    }
  }

  lemma {:induction false} ReplicasRebase(s0: Snapshot, s1: Snapshot, m: seq<Region>, srcs: seq<TemplateRow>, base: int, n: int, start: int)
    requires Above(s0, s1, start) && Below(srcs, start)
    requires Replicas(s1.merged, m, srcs, base, n)
    ensures Replicas(s0.merged, m, srcs, base, n)
  {
    forall j | 0 <= j < n
      ensures ReplicaOf(s0.merged, m, srcs, base, j)
    {
      assert ReplicaOf(s1.merged, m, srcs, base, j);
      ReplicaAtRebase(s0, s1, m, srcs, base + j * |srcs|, start);
    }
  }

  /** Replicas that end at or above the insertion point keep their regions. */
  lemma {:induction false} KeepReplicas(m0: seq<Region>, before: Snapshot, after: Snapshot, srcs: seq<TemplateRow>, base: int, n: nat, at: int)
    requires Replicas(m0, before.merged, srcs, base, n) && base + n * |srcs| <= at
    requires Above(before, after, at)
    ensures Replicas(m0, after.merged, srcs, base, n)
  {
    forall jj | 0 <= jj < n
      ensures ReplicaOf(m0, after.merged, srcs, base, jj)
    {
      assert ReplicaOf(m0, before.merged, srcs, base, jj);
      if |srcs| > 0 {
        MulStep(jj, n, |srcs|, |srcs| - 1);
      }
      KeepReplica(m0, before, after, srcs, base + jj * |srcs|, at);
    }
  }

  /**
   * The four stages of one range record put together: each stage's replicas
   * keep their regions while the later stages insert below them.
   */
  lemma {:induction false} RecordRegions(s0: Snapshot, s1: Snapshot, s2: Snapshot, s3: Snapshot, s4: Snapshot, t: Segments,
                      rec: RangeRecord, start: int, c1: int, c2: int, c3: int)
    requires PlainSegments(t) && BelowSegments(t, start)
    requires c1 == start + |Guarded(t.header, rec.header)|
    requires c2 == c1 + |FilledEach(t.body, rec.body)|
    requires c3 == c2 + |GuardedEach(t.bodyFooter, rec.bodyFooter)|
    requires Above(s0, s1, start) && Above(s1, s2, c1) && Above(s2, s3, c2) && Above(s3, s4, c3)
    requires rec.header != map[] && t.header != [] ==> ReplicaAt(s0.merged, s1.merged, t.header, start)
    requires Replicas(s1.merged, s2.merged, t.body, c1, |rec.body|)
    requires rec.bodyFooter != [] && t.bodyFooter != [] ==> Replicas(s2.merged, s3.merged, t.bodyFooter, c2, |rec.bodyFooter|)
    requires rec.footer != map[] && t.footer != [] ==> ReplicaAt(s3.merged, s4.merged, t.footer, c3)
    ensures RecordReplicas(s0.merged, s4.merged, t, rec, start)
  {
    RecordHeights(t, rec);
    HeadRegions(s0, s1, s2, s3, s4, t, rec, start, c1, c2, c3);
    TailRegions(s0, s1, s2, s3, s4, t, rec, start, c1, c2, c3);
    RecordReplicasIntro(s0.merged, s4.merged, t, rec, start);
  }

  /** The four parts of a record's regions make up `RecordReplicas`. */
  lemma RecordReplicasIntro(m0: seq<Region>, m: seq<Region>, t: Segments, rec: RangeRecord, at: int)
    requires rec.header != map[] && t.header != [] ==> ReplicaAt(m0, m, t.header, at)
    requires Replicas(m0, m, t.body, at + HeaderHeight(t, rec), |rec.body|)
    requires rec.bodyFooter != [] && t.bodyFooter != [] ==>
               Replicas(m0, m, t.bodyFooter, at + HeaderHeight(t, rec) + |rec.body| * |t.body|, |rec.bodyFooter|)
    requires rec.footer != map[] && t.footer != [] ==>
               ReplicaAt(m0, m, t.footer, at + HeaderHeight(t, rec) + |rec.body| * |t.body| + BodyFooterHeight(t, rec))
    ensures RecordReplicas(m0, m, t, rec, at)
  {
  }

  /** The header and body replicas of a record, kept while the body footers and the footer go in below them. */
  lemma {:induction false} HeadRegions(s0: Snapshot, s1: Snapshot, s2: Snapshot, s3: Snapshot, s4: Snapshot, t: Segments,
                                       rec: RangeRecord, start: int, c1: int, c2: int, c3: int)
    requires BelowSegments(t, start)
    requires c1 == start + HeaderHeight(t, rec) && c2 == c1 + |rec.body| * |t.body| && c2 <= c3
    requires Above(s0, s1, start) && Above(s1, s2, c1) && Above(s2, s3, c2) && Above(s3, s4, c3)
    requires rec.header != map[] && t.header != [] ==> ReplicaAt(s0.merged, s1.merged, t.header, start)
    requires Replicas(s1.merged, s2.merged, t.body, c1, |rec.body|)
    ensures rec.header != map[] && t.header != [] ==> ReplicaAt(s0.merged, s4.merged, t.header, start)
    ensures Replicas(s0.merged, s4.merged, t.body, c1, |rec.body|)
  {
    AboveTrans(s2, s3, s4, c2, c3, c2);
    AboveTrans(s1, s2, s4, c1, c2, c1);
    if rec.header != map[] && t.header != [] {
      KeepReplica(s0.merged, s1, s4, t.header, start, c1);
    }
    ReplicasRebase(s0, s1, s2.merged, t.body, c1, |rec.body|, start);
    KeepReplicas(s0.merged, s2, s4, t.body, c1, |rec.body|, c2);
  }

  /** The body-footer and footer replicas of a record, judged against the state before the record. */
  lemma {:induction false} TailRegions(s0: Snapshot, s1: Snapshot, s2: Snapshot, s3: Snapshot, s4: Snapshot, t: Segments,
                                       rec: RangeRecord, start: int, c1: int, c2: int, c3: int)
    requires BelowSegments(t, start)
    requires start <= c1 <= c2 && c3 == c2 + BodyFooterHeight(t, rec)
    requires Above(s0, s1, start) && Above(s1, s2, c1) && Above(s2, s3, c2) && Above(s3, s4, c3)
    requires rec.bodyFooter != [] && t.bodyFooter != [] ==> Replicas(s2.merged, s3.merged, t.bodyFooter, c2, |rec.bodyFooter|)
    requires rec.footer != map[] && t.footer != [] ==> ReplicaAt(s3.merged, s4.merged, t.footer, c3)
    ensures rec.bodyFooter != [] && t.bodyFooter != [] ==> Replicas(s0.merged, s4.merged, t.bodyFooter, c2, |rec.bodyFooter|)
    ensures rec.footer != map[] && t.footer != [] ==> ReplicaAt(s0.merged, s4.merged, t.footer, c3)
  {
    AboveTrans(s0, s1, s2, start, c1, start);
    AboveTrans(s0, s2, s3, start, c2, start);
    if rec.bodyFooter != [] && t.bodyFooter != [] {
      ReplicasRebase(s0, s2, s3.merged, t.bodyFooter, c2, |rec.bodyFooter|, start);
      KeepReplicas(s0.merged, s3, s4, t.bodyFooter, c2, |rec.bodyFooter|, c3);
    }
    if rec.footer != map[] && t.footer != [] {
      ReplicaAtRebase(s0, s3, s4.merged, t.footer, c3, start);
    }
  }

  /** A range record whose rows end at or above the insertion point keeps its regions. */
  lemma {:induction false} KeepRecordReplicas(m0: seq<Region>, before: Snapshot, after: Snapshot, t: Segments, rec: RangeRecord, at0: int, at: int)
    requires PlainSegments(t) && RecordReplicas(m0, before.merged, t, rec, at0)
    requires at0 + |RecordRows(t, rec)| <= at && Above(before, after, at)
    ensures RecordReplicas(m0, after.merged, t, rec, at0)
  {
    RecordHeights(t, rec);
    var c1 := at0 + HeaderHeight(t, rec);
    var c2 := c1 + |rec.body| * |t.body|;
    var c3 := c2 + BodyFooterHeight(t, rec);
    if rec.header != map[] && t.header != [] {
      KeepReplica(m0, before, after, t.header, at0, at);
    }
    KeepReplicas(m0, before, after, t.body, c1, |rec.body|, at);
    if rec.bodyFooter != [] && t.bodyFooter != [] {
      KeepReplicas(m0, before, after, t.bodyFooter, c2, |rec.bodyFooter|, at);
    }
    if rec.footer != map[] && t.footer != [] {
      KeepReplica(m0, before, after, t.footer, c3, at);
    }
  }

  /** The rows of a shorter prefix of the records are no more than those of a longer one. */
  lemma {:induction false} RangeRowsPrefixLength(t: Segments, recs: seq<RangeRecord>, a: nat, b: nat)
    requires PlainSegments(t) && t.body != [] && a <= b <= |recs|
    ensures |RangeRows(t, recs[..a])| <= |RangeRows(t, recs[..b])|
    decreases b
  {
    if a < b {
      RangeRowsPrefixLength(t, recs, a, b - 1);
      assert recs[..b - 1] + [recs[b - 1]] == recs[..b];
      RangeRowsSnoc(t, recs[..b - 1], recs[b - 1]);
    }
  }

  /** A record's regions may be judged against the state at the start of the range, whose template rows lie above it. */
  lemma {:induction false} RecordReplicasRebase(s0: Snapshot, s1: Snapshot, m: seq<Region>, t: Segments, rec: RangeRecord, at: int, start: int)
    requires BelowSegments(t, start) && Above(s0, s1, start)
    requires RecordReplicas(s1.merged, m, t, rec, at)
    ensures RecordReplicas(s0.merged, m, t, rec, at)
  {
    var c1 := at + HeaderHeight(t, rec);
    var c2 := c1 + |rec.body| * |t.body|;
    var c3 := c2 + BodyFooterHeight(t, rec);
    if rec.header != map[] && t.header != [] {
      ReplicaAtRebase(s0, s1, m, t.header, at, start);
    }
    ReplicasRebase(s0, s1, m, t.body, c1, |rec.body|, start);
    if rec.bodyFooter != [] && t.bodyFooter != [] {
      ReplicasRebase(s0, s1, m, t.bodyFooter, c2, |rec.bodyFooter|, start);
    }
    if rec.footer != map[] && t.footer != [] {
      ReplicaAtRebase(s0, s1, m, t.footer, c3, start);
    }
  }

  /** An earlier range record keeps its regions while record `j` is inserted below it. */
  lemma {:induction false} KeepEarlierRecord(m0: seq<Region>, before: Snapshot, after: Snapshot, t: Segments, recs: seq<RangeRecord>,
                          jj: nat, j: nat, start: int, at: int)
    requires PlainSegments(t) && t.body != [] && jj < j <= |recs|
    requires at == start + |RangeRows(t, recs[..j])|
    requires RecordReplicasAt(m0, before.merged, t, recs, start, jj)
    requires Above(before, after, at)
    ensures RecordReplicasAt(m0, after.merged, t, recs, start, jj)
  {
    RecordEndsBefore(t, recs, jj, j);
    KeepRecordReplicas(m0, before, after, t, recs[jj], start + |RangeRows(t, recs[..jj])|, at);
  }

  /** Record `jj`'s rows end where those of the first `jj + 1` records end, at or above those of the first `j`. */
  lemma {:induction false} RecordEndsBefore(t: Segments, recs: seq<RangeRecord>, jj: nat, j: nat)
    requires PlainSegments(t) && t.body != [] && jj < j <= |recs|
    ensures |RangeRows(t, recs[..jj])| + |RecordRows(t, recs[jj])| <= |RangeRows(t, recs[..j])|
  {
    assert recs[..jj] + [recs[jj]] == recs[..jj + 1];
    RangeRowsSnoc(t, recs[..jj], recs[jj]);
    RangeRowsPrefixLength(t, recs, jj + 1, j);
  }

  /** One more range record: its replicas carry their regions, and the earlier records keep theirs. */
  lemma {:induction false} RangeRegionsStep(s0: Snapshot, before: Snapshot, after: Snapshot, t: Segments, recs: seq<RangeRecord>,
                         j: nat, start: int, at: int)
    requires PlainSegments(t) && t.body != [] && j < |recs| && BelowSegments(t, start)
    requires at == start + |RangeRows(t, recs[..j])|
    requires RangeReplicas(s0.merged, before.merged, t, recs, start, j)
    requires RecordReplicas(before.merged, after.merged, t, recs[j], at)
    requires Above(s0, before, start) && Above(before, after, at)
    ensures RangeReplicas(s0.merged, after.merged, t, recs, start, j + 1)
  {
    RecordReplicasRebase(s0, before, after.merged, t, recs[j], at, start);
    KeepEarlierRecords(s0.merged, before, after, t, recs, j, start, at);
  }

  /** The records before the `j`-th keep their regions while it is inserted. */
  lemma {:induction false} KeepEarlierRecords(m0: seq<Region>, before: Snapshot, after: Snapshot, t: Segments, recs: seq<RangeRecord>,
                           j: nat, start: int, at: int)
    requires PlainSegments(t) && t.body != [] && j <= |recs|
    requires at == start + |RangeRows(t, recs[..j])|
    requires RangeReplicas(m0, before.merged, t, recs, start, j)
    requires Above(before, after, at)
    ensures RangeReplicas(m0, after.merged, t, recs, start, j)
  {
    forall jj | 0 <= jj < j
      ensures RecordReplicasAt(m0, after.merged, t, recs, start, jj)
    {
      KeepEarlierRecord(m0, before, after, t, recs, jj, j, start, at);
    }
  }

  /** Appending four blocks one after the other appends the whole record. */
  lemma AppendFour(done: Rows, a: Rows, b: Rows, c: Rows, d: Rows)
    ensures done + a + b + c + d == done + (a + b + c + d)
  {
  }

  /**
   * The body of `fillRange`'s loop for one range record
   * (ExcelGeneratorImpl.java:395-428): header, one body replica per body map,
   * one body-footer replica per body-footer map, footer, each right below
   * the one before.
   */
  method FillRecord(sheet: Sheet, template: Segments, rec: RangeRecord, data: DataSet, start: nat, fuel: nat,
                    ghost rows0: Rows, ghost base: int, ghost done: Rows)
    returns (r: Result<int, Failure>)
    requires sheet.Valid()
    modifies sheet
    decreases fuel, 7
    ensures sheet.Valid()
    ensures r.Success? ==> r.value >= start
    ensures Above(old(Snap(sheet)), Snap(sheet), start)
    ensures PlainSegments(template) && InsertedUpTo(rows0, old(sheet.rows), base, done, start) ==>
              r.Success? && InsertedUpTo(rows0, sheet.rows, base, done + RecordRows(template, rec), r.value)
    ensures PlainSegments(template) && InsertedUpTo(rows0, old(sheet.rows), base, done, start) ==>
              r.Success? && Pushed(old(Snap(sheet)), Snap(sheet), start, r.value)
    ensures PlainSegments(template) && InsertedUpTo(rows0, old(sheet.rows), base, done, start) && BelowSegments(template, start) ==>
              RecordReplicas(old(sheet.merged), sheet.merged, template, rec, start)
  {
    ghost var plain := PlainSegments(template);
    ghost var inserted := plain && InsertedUpTo(rows0, sheet.rows, base, done, start);
    ghost var below := inserted && BelowSegments(template, start);
    ghost var a := if plain then Guarded(template.header, rec.header) else [];
    ghost var b := if plain then FilledEach(template.body, rec.body) else [];
    ghost var c := if plain then GuardedEach(template.bodyFooter, rec.bodyFooter) else [];
    ghost var d := if plain then Guarded(template.footer, rec.footer) else [];
    ghost var s0 := Snap(sheet);
    var c1 :- FillGuarded(sheet, template.header, rec.header, start, data, fuel, rows0, base, done);
    ghost var s1 := Snap(sheet);
    var res := FillReplicas(sheet, template.body, rec.body, c1, data, fuel, rows0, base, done + a);
    AboveTrans(s0, s1, Snap(sheet), start, c1, start);
    var c2 :- res;
    ghost var s2 := Snap(sheet);
    res := FillGuardedEach(sheet, template.bodyFooter, rec.bodyFooter, c2, data, fuel, rows0, base, done + a + b);
    AboveTrans(s0, s2, Snap(sheet), start, c2, start);
    var c3 :- res;
    ghost var s3 := Snap(sheet);
    res := FillGuarded(sheet, template.footer, rec.footer, c3, data, fuel, rows0, base, done + a + b + c);
    AboveTrans(s0, s3, Snap(sheet), start, c3, start);
    var c4 :- res;
    if plain {
      AppendFour(done, a, b, c, d);
    }
    if inserted {
      RecordPushed(s0, s1, s2, s3, Snap(sheet), rows0, base, done, a, b, c, start, c1, c2, c3, c4);
    }
    if below {
      RecordRegions(s0, s1, s2, s3, Snap(sheet), template, rec, start, c1, c2, c3);
    }
    return Success(c4);
  }

  /** The four parts of a range record move the regions below it by the record's height. */
  lemma RecordPushed(s0: Snapshot, s1: Snapshot, s2: Snapshot, s3: Snapshot, s4: Snapshot, rows0: Rows, base: int,
                     done: Rows, a: Rows, b: Rows, c: Rows, start: int, c1: int, c2: int, c3: int, c4: int)
    requires InsertedUpTo(rows0, s0.rows, base, done, start) && InsertedUpTo(rows0, s1.rows, base, done + a, c1)
    requires InsertedUpTo(rows0, s2.rows, base, done + a + b, c2) && InsertedUpTo(rows0, s3.rows, base, done + a + b + c, c3)
    requires Pushed(s0, s1, start, c1) && Pushed(s1, s2, c1, c2)
    requires Pushed(s2, s3, c2, c3) && Pushed(s3, s4, c3, c4)
    ensures Pushed(s0, s4, start, c4)
  {
    PushedStep(s0, s1, s2, rows0, base, done, done + a, start, c1, c2);
    PushedStep(s0, s2, s3, rows0, base, done, done + a + b, start, c2, c3);
    PushedStep(s0, s3, s4, rows0, base, done, done + a + b + c, start, c3, c4);
  }

  /** The rows of the first `j + 1` range records: those of the first `j`, then record `j`'s. */
  lemma RangeRowsStep(t: Segments, records: seq<RangeRecord>, j: nat, done: Rows)
    requires PlainSegments(t) && t.body != [] && j < |records|
    requires done == RangeRows(t, records[..j])
    ensures done + RecordRows(t, records[j]) == RangeRows(t, records[..j + 1])
  {
    assert records[..j + 1] == records[..j] + [records[j]];
    RangeRowsSnoc(t, records[..j], records[j]);
  }

  /**
   * What `fillRange` does from row `start` with template `t` and the range
   * dataset named `name`: nothing above `start` changes; nothing at all
   * happens for an empty body segment or a missing dataset; otherwise the
   * rows of every record are inserted at `start`, one record after the other,
   * and, when the template lies above `start`, every replica carries the
   * merged regions of its template rows.
   */
  ghost predicate FillsRange(s0: Snapshot, s1: Snapshot, t: Segments, data: DataSet, name: string, start: int,
                             r: Result<int, Failure>) {
    var found := FindRange(data.extendedTables, name);
    && (r.Success? ==> r.value >= start)
    && Above(s0, s1, start)
    && (t.body == [] || found.None? ==> r == Success(start) && s1 == s0)
    && (PlainSegments(t) && found.Some? && Gapless(s0.rows, start) ==>
          var xs := RangeRows(t, found.value);
          r == Success(start + |xs|) && Inserted(s0.rows, s1.rows, start, xs) && Pushed(s0, s1, start, r.value))
    && (PlainSegments(t) && t.body != [] && found.Some? && Gapless(s0.rows, start) && BelowSegments(t, start) ==>
          RangeReplicas(s0.merged, s1.merged, t, found.value, start, |found.value|))
  }

  /**
   * What the `#RANGELIST` branch of `createRange` does from row `start`:
   * nothing above `start` changes, and nothing at all happens for an empty
   * body segment or when no range dataset's name starts with `#RANGELIST`.
   */
  ghost predicate FillsRangeList(s0: Snapshot, s1: Snapshot, t: Segments, data: DataSet, start: int, r: Result<int, Failure>) {
    && (r.Success? ==> r.value >= start)
    && Above(s0, s1, start)
    && (t.body == [] || RangeListMembers(data.extendedTables) == {} ==> r == Success(start) && s1 == s0)
  }

  /**
   * `fillRange(sheet, template, dto, mapKey, startRowNum)`
   * (ExcelGeneratorImpl.java:379-431): nothing without body rows or without
   * a range dataset named `mapKey`; otherwise the records of the first such
   * dataset, one after the other, from `startRowNum` on.
   */
  method FillRange(sheet: Sheet, template: Segments, data: DataSet, mapKey: string, startRowNum: nat, fuel: nat)
    returns (r: Result<int, Failure>)
    requires sheet.Valid()
    modifies sheet
    decreases fuel, 11
    ensures sheet.Valid()
    ensures FillsRange(old(Snap(sheet)), Snap(sheet), template, data, mapKey, startRowNum, r)
  {
    var tables := FindRange(data.extendedTables, mapKey);
    var sourceRows := template.body;
    if sourceRows == [] || tables.None? {
      AboveRefl(Snap(sheet), startRowNum);
      PushedRefl(Snap(sheet), startRowNum);
      return Success(startRowNum);
    }
    r := FillRecords(sheet, template, tables.value, data, startRowNum, fuel);
  }

  /**
   * The loop of `fillRange` over the records of one range dataset
   * (ExcelGeneratorImpl.java:395-433): each record's rows are inserted
   * right after the previous record's.
   */
  method FillRecords(sheet: Sheet, template: Segments, records: seq<RangeRecord>, data: DataSet, startRowNum: nat, fuel: nat)
    returns (r: Result<int, Failure>)
    requires sheet.Valid()
    modifies sheet
    decreases fuel, 10
    ensures sheet.Valid()
    ensures (r.Success? ==> r.value >= startRowNum) && Above(old(Snap(sheet)), Snap(sheet), startRowNum)
    ensures PlainSegments(template) && template.body != [] && Gapless(old(sheet.rows), startRowNum) ==>
              var xs := RangeRows(template, records);
              && r == Success(startRowNum + |xs|) && Inserted(old(sheet.rows), sheet.rows, startRowNum, xs)
              && Pushed(old(Snap(sheet)), Snap(sheet), startRowNum, r.value)
    ensures PlainSegments(template) && template.body != [] && Gapless(old(sheet.rows), startRowNum)
            && BelowSegments(template, startRowNum) ==>
              RangeReplicas(old(sheet.merged), sheet.merged, template, records, startRowNum, |records|)
  {
    ghost var s0 := Snap(sheet);
    var cursor: int := startRowNum;
    AboveRefl(s0, startRowNum);
    ghost var t := template;
    ghost var plain := PlainSegments(t) && t.body != [] && Gapless(s0.rows, startRowNum);
    ghost var below := plain && BelowSegments(t, startRowNum);
    if plain {
      InsertedNone(s0.rows, startRowNum);
      assert records[..0] == [];
      PushedRefl(s0, startRowNum);
    }
    var j := 0;
    while j < |records|
      invariant 0 <= j <= |records| && sheet.Valid()
      invariant cursor >= startRowNum && Above(s0, Snap(sheet), startRowNum)
      invariant plain ==> InsertedUpTo(s0.rows, sheet.rows, startRowNum, RangeRows(t, records[..j]), cursor)
      invariant plain ==> Pushed(s0, Snap(sheet), startRowNum, cursor)
      invariant below ==> RangeReplicas(s0.merged, sheet.merged, t, records, startRowNum, j)
    {
      ghost var before := Snap(sheet);
      ghost var at := cursor;
      cursor :- FillNextRecord(sheet, template, records, j, data, startRowNum, cursor, fuel, s0);
      if plain {
        PushedStep(s0, before, Snap(sheet), s0.rows, startRowNum, [], RangeRows(t, records[..j]), startRowNum, at, cursor);
      }
      j := j + 1;
    }
    assert records[..j] == records;
    return Success(cursor);
  }

  /**
   * One turn of that loop: the rows of record `j` go in at `cursor`, right
   * below those of the records before it.
   */
  method FillNextRecord(sheet: Sheet, template: Segments, records: seq<RangeRecord>, j: nat, data: DataSet,
                        startRowNum: nat, cursor: nat, fuel: nat, ghost s0: Snapshot)
    returns (r: Result<int, Failure>)
    requires sheet.Valid() && j < |records| && cursor >= startRowNum
    requires Above(s0, Snap(sheet), startRowNum)
    modifies sheet
    decreases fuel, 9
    ensures sheet.Valid()
    ensures r.Success? ==> r.value >= cursor
    ensures Above(s0, Snap(sheet), startRowNum)
    ensures PlainSegments(template) && template.body != []
            && InsertedUpTo(s0.rows, old(sheet.rows), startRowNum, RangeRows(template, records[..j]), cursor) ==>
              && r.Success?
              && InsertedUpTo(s0.rows, sheet.rows, startRowNum, RangeRows(template, records[..j + 1]), r.value)
              && Pushed(old(Snap(sheet)), Snap(sheet), cursor, r.value)
              && (BelowSegments(template, startRowNum) && RangeReplicas(s0.merged, old(sheet.merged), template, records, startRowNum, j) ==>
                    RangeReplicas(s0.merged, sheet.merged, template, records, startRowNum, j + 1))
  {
    ghost var before := Snap(sheet);
    ghost var plain := PlainSegments(template) && template.body != []
                       && InsertedUpTo(s0.rows, before.rows, startRowNum, RangeRows(template, records[..j]), cursor);
    ghost var all := if plain then RangeRows(template, records[..j]) else [];
    if plain && BelowSegments(template, startRowNum) {
      assert BelowSegments(template, cursor);
    }
    r := FillRecord(sheet, template, records[j], data, cursor, fuel, s0.rows, startRowNum, all);
    AboveTrans(s0, before, Snap(sheet), startRowNum, cursor, startRowNum);
    if plain {
      RangeRowsStep(template, records, j, all);
      if BelowSegments(template, startRowNum) && RangeReplicas(s0.merged, before.merged, template, records, startRowNum, j) {
        RangeRegionsStep(s0, before, Snap(sheet), template, records, j, startRowNum, cursor);
      }
    }
  }

  /**
   * `createTemplate(sheet, startRowNum, stopWord)` (ExcelGeneratorImpl.java:441-482):
   * the header up to `#Body`+name, then body, body footer and footer up to
   * the row holding the name.
   */
  method CreateTemplate(sheet: Sheet, startRowNum: int, stopWord: string) returns (template: ExcelTemplateTableRows)
    ensures fresh(template)
    ensures Segs(template) == TemplateOf(sheet.rows, startRowNum, stopWord)
  {
    template := new ExcelTemplateTableRows();
    var rowNum := ReadHeader(sheet, template, startRowNum, stopWord);
    ReadLower(sheet, template, rowNum + 1, stopWord);
  }

  /** The header loop of `createTemplate` (ExcelGeneratorImpl.java:447-450): rows up to the `#Body`+name row. */
  method ReadHeader(sheet: Sheet, template: ExcelTemplateTableRows, startRowNum: int, stopWord: string) returns (rowNum: int)
    requires Segs(template) == Segments([], [], [], [])
    modifies template
    ensures rowNum == HeaderEnd(sheet.rows, startRowNum, stopWord)
    ensures Segs(template) == Segments(Span(sheet.rows, startRowNum, rowNum), [], [], [])
  {
    rowNum := startRowNum;
    while rowNum < sheet.LastRowNum() && !HasString(sheet.GetRow(rowNum), BODY + stopWord)
      invariant startRowNum <= rowNum
      invariant ScanEnd(sheet.rows, rowNum, BODY + stopWord) == HeaderEnd(sheet.rows, startRowNum, stopWord)
      invariant Segs(template) == Segments(Span(sheet.rows, startRowNum, rowNum), [], [], [])
      decreases |sheet.rows| - rowNum
    {
      template.AddHeader(TemplateRow(rowNum, sheet.GetRow(rowNum)));
      rowNum := rowNum + 1;
    }
  }

  /**
   * The body loop of `createTemplate` (ExcelGeneratorImpl.java:454-479):
   * body rows, with a body footer after `#BodyFooter`+name and a footer
   * after `#Footer`+name, up to the row holding the name.
   */
  method ReadLower(sheet: Sheet, template: ExcelTemplateTableRows, from: int, stopWord: string)
    modifies template
    ensures Segs(template) == Walk(sheet.rows, from, stopWord, InBody, old(Segs(template)))
  {
    var rowNum := from;
    while BodyEnds(sheet.rows, rowNum, stopWord)
      invariant Walk(sheet.rows, rowNum, stopWord, InBody, Segs(template)) == Walk(sheet.rows, from, stopWord, InBody, old(Segs(template)))
      decreases |sheet.rows| - rowNum
    {
      if HasString(sheet.GetRow(rowNum), BODY_FOOTER + stopWord) {
        rowNum := ReadBodyFooter(sheet, template, rowNum + 1, stopWord);
      } else if HasString(sheet.GetRow(rowNum), FOOTER + stopWord) {
        rowNum := ReadFooter(sheet, template, rowNum + 1, stopWord);
      } else {
        template.AddBody(TemplateRow(rowNum, sheet.GetRow(rowNum)));
        rowNum := rowNum + 1;
      }
    }
  }

  /** The body footer loop of `createTemplate` (ExcelGeneratorImpl.java:460-463). */
  method ReadBodyFooter(sheet: Sheet, template: ExcelTemplateTableRows, from: int, stopWord: string) returns (rowNum: int)
    modifies template
    ensures rowNum >= from
    ensures Walk(sheet.rows, rowNum, stopWord, InBody, Segs(template)) == Walk(sheet.rows, from, stopWord, InBodyFooter, old(Segs(template)))
  {
    rowNum := from;
    while BodyFooterEnds(sheet.rows, rowNum, stopWord)
      invariant rowNum >= from
      invariant Walk(sheet.rows, rowNum, stopWord, InBodyFooter, Segs(template)) == Walk(sheet.rows, from, stopWord, InBodyFooter, old(Segs(template)))
      decreases |sheet.rows| - rowNum
    {
      template.AddBodyFooter(TemplateRow(rowNum, sheet.GetRow(rowNum)));
      rowNum := rowNum + 1;
    }
  }

  /** The footer loop of `createTemplate` (ExcelGeneratorImpl.java:469-472). */
  method ReadFooter(sheet: Sheet, template: ExcelTemplateTableRows, from: int, stopWord: string) returns (rowNum: int)
    modifies template
    ensures rowNum >= from
    ensures Walk(sheet.rows, rowNum, stopWord, InBody, Segs(template)) == Walk(sheet.rows, from, stopWord, InFooter, old(Segs(template)))
  {
    rowNum := from;
    while BodyEnds(sheet.rows, rowNum, stopWord)
      invariant rowNum >= from
      invariant Walk(sheet.rows, rowNum, stopWord, InFooter, Segs(template)) == Walk(sheet.rows, from, stopWord, InFooter, old(Segs(template)))
      decreases |sheet.rows| - rowNum
    {
      template.AddFooter(TemplateRow(rowNum, sheet.GetRow(rowNum)));
      rowNum := rowNum + 1;
    }
  }

  /**
   * `createRange(sheet, startRowNum, dto, cellVal)` (ExcelGeneratorImpl.java:337-367):
   * the template is read from the row after the start marker; after the end
   * marker, a `#RANGELIST` block is expanded once per range dataset whose
   * name starts with `#RANGELIST`, any other block once for the dataset
   * named `cellVal`.
   */
  method CreateRange(sheet: Sheet, startRowNum: nat, data: DataSet, cellVal: string, fuel: nat) returns (r: Result<int, Failure>)
    requires sheet.Valid()
    modifies sheet
    decreases fuel, 13
    ensures sheet.Valid()
    ensures var e := ScanEnd(old(sheet.rows), startRowNum + 1, cellVal);
            var t := TemplateOf(old(sheet.rows), startRowNum + 1, cellVal);
            if StartsWith(cellVal, RANGE_LIST) then FillsRangeList(old(Snap(sheet)), Snap(sheet), t, data, e + 1, r)
            else FillsRange(old(Snap(sheet)), Snap(sheet), t, data, cellVal, e + 1, r)
  {
    ghost var s0 := Snap(sheet);
    var template, end := ReadRangeTemplate(sheet, startRowNum + 1, cellVal);
    assert Snap(sheet) == s0;
    if StartsWith(cellVal, RANGE_LIST) {
      r := FillRangeList(sheet, template, data, end + 1, fuel);
    } else {
      r := FillRange(sheet, template, data, cellVal, end + 1, fuel);
    }
  }

  /**
   * The template of `createRange` and the end marker's row
   * (ExcelGeneratorImpl.java:339-347): the template starts right after the
   * start marker, and the scan past it stops at the row holding `cellVal`.
   */
  method ReadRangeTemplate(sheet: Sheet, from: nat, cellVal: string) returns (template: Segments, end: nat)
    ensures template == TemplateOf(sheet.rows, from, cellVal)
    ensures end == ScanEnd(sheet.rows, from, cellVal)
  {
    var created := CreateTemplate(sheet, from, cellVal);
    template := Segs(created);
    end := SkipBlock(sheet, from, cellVal);
  }

  /** The scan past the template of `createRange` (ExcelGeneratorImpl.java:344-346). */
  method SkipBlock(sheet: Sheet, from: nat, cellVal: string) returns (end: nat)
    ensures end == ScanEnd(sheet.rows, from, cellVal)
  {
    end := from;
    while end < sheet.LastRowNum() && !HasString(sheet.GetRow(end), cellVal)
      invariant from <= end
      invariant ScanEnd(sheet.rows, end, cellVal) == ScanEnd(sheet.rows, from, cellVal)
      decreases |sheet.rows| - end
    {
      end := end + 1;
    }
  }

  /**
   * The `#RANGELIST` branch of `createRange` (ExcelGeneratorImpl.java:350-359):
   * the template is filled once for each range dataset whose name starts with
   * `#RANGELIST`, one after the other, in an order the model leaves open.
   */
  method FillRangeList(sheet: Sheet, template: Segments, data: DataSet, start: nat, fuel: nat)
    returns (r: Result<int, Failure>)
    requires sheet.Valid()
    modifies sheet
    decreases fuel, 12
    ensures sheet.Valid()
    ensures FillsRangeList(old(Snap(sheet)), Snap(sheet), template, data, start, r)
  {
    ghost var s0 := Snap(sheet);
    AboveRefl(s0, start);
    var cursor: int := start;
    var members := RangeListMembers(data.extendedTables);
    while members != {}
      invariant members <= RangeListMembers(data.extendedTables)
      invariant sheet.Valid() && cursor >= start && Above(s0, Snap(sheet), start)
      invariant (template.body == [] || RangeListMembers(data.extendedTables) == {}) ==> cursor == start && Snap(sheet) == s0
      decreases |members|
    {
      var k :| k in members;
      ghost var before := Snap(sheet);
      ghost var at := cursor;
      var res := FillRange(sheet, template, data, data.extendedTables[k].name, cursor, fuel);
      AboveTrans(s0, before, Snap(sheet), start, at, start);
      cursor :- res;
      members := members - {k};
    }
    return Success(cursor);
  }
}
