/**
 * `fillWorkbookWithData` of ExcelGeneratorImpl: each sheet is walked from
 * its first row to its last, as the sheet grows; a row opening a block is
 * expanded, any other row has its placeholders filled from the parameters;
 * then the block templates are deleted.
 */
module Driver {
  import opened Outcomes
  import opened Grid
  import opened Markers
  import opened Placeholders
  import opened Replication
  import opened ExcelDto
  import opened ExcelGenerator
  import opened Cleanup

  /** A sheet without blocks, whose every placeholder can be filled. */
  predicate PlainSheet(rows: Rows) {
    forall i :: 0 <= i < |rows| ==> !Opens(rows[i]) && (rows[i].Some? ==> NoLonePlaceholder(rows[i].value))
  }

  /** The rows above `n` with their placeholders filled from `params`, the others as they are. */
  function FilledUpTo(rows: Rows, params: Params, n: int): (r: Rows)
    requires PlainSheet(rows)
    ensures |r| == |rows|
  {
    seq(|rows|, i requires 0 <= i < |rows| => if i < n && rows[i].Some? then Some(FillRow(rows[i].value, params)) else rows[i])
  }

  /** Every row of a plain sheet with its placeholders filled. */
  function FilledRows(rows: Rows, params: Params): (r: Rows)
    requires PlainSheet(rows)
    ensures |r| == |rows|
    ensures forall i :: 0 <= i < |rows| ==> (rows[i].None? <==> r[i].None?)
  {
    FilledUpTo(rows, params, |rows|)
  }

  /** Filling the row at `n`, present or not, extends the filled part by one row. */
  lemma FilledUpToStep(rows: Rows, params: Params, n: nat)
    requires PlainSheet(rows) && n < |rows|
    ensures rows[n].Some? ==> FilledUpTo(rows, params, n)[n := Some(FillRow(rows[n].value, params))] == FilledUpTo(rows, params, n + 1)
    ensures rows[n].None? ==> FilledUpTo(rows, params, n) == FilledUpTo(rows, params, n + 1)
  {
  }

  /**
   * The row loop of `fillWorkbookWithData` (ExcelGeneratorImpl.java:85-107).
   * `lastRowNum` is read again on every turn, since expansions grow the
   * sheet; `steps` bounds the number of turns. On a plain sheet one turn per
   * row fills every placeholder and nothing else.
   */
  method FillRows(sheet: Sheet, data: DataSet, fuel: nat, steps: nat) returns (r: Result<(), Failure>)
    requires sheet.Valid()
    modifies sheet
    ensures sheet.Valid()
    ensures PlainSheet(old(sheet.rows)) && steps > |old(sheet.rows)| ==>
              r.Success? && sheet.rows == FilledRows(old(sheet.rows), data.params) && sheet.merged == old(sheet.merged)
  {
    ghost var s0 := Snap(sheet);
    ghost var plain := PlainSheet(s0.rows) && steps > |s0.rows|;
    var rowNum := sheet.FirstRowNum();
    var budget: nat := steps;
    if plain {
      assert FilledUpTo(s0.rows, data.params, rowNum) == s0.rows;
    }
    while rowNum <= sheet.LastRowNum()
      invariant sheet.Valid()
      invariant plain ==> -1 <= rowNum <= |s0.rows| && budget >= |s0.rows| - rowNum
      invariant plain ==> sheet.rows == FilledUpTo(s0.rows, data.params, rowNum) && sheet.merged == s0.merged
      decreases budget
    {
      if budget == 0 {
        return Failure(OutOfSteps);
      }
      budget := budget - 1;
      var row := sheet.GetRow(rowNum);
      var res;
      if StartWithString(row, RANGE) {
        res := CreateRange(sheet, rowNum, data, FirstText(row).value, fuel);
      } else if StartWithString(row, TABLE) {
        res := CreateTable(sheet, rowNum, data, FirstText(row).value, fuel);
      } else {
        ghost var n := rowNum;
        res := FillCells(sheet, rowNum, data.params, data, fuel);
        if plain && 0 <= n {
          FilledUpToStep(s0.rows, data.params, n);
        }
      }
      rowNum :- res;
    }
    return Success(());
  }

  /**
   * A sheet without blocks whose filled rows open none, with enough steps
   * for the cleanup pass: the case where filling it just fills its
   * placeholders.
   */
  ghost predicate PlainFill(rows: Rows, params: Params, steps: nat) {
    PlainSheet(rows) && steps > |rows| && NoOpenerBelow(FilledRows(rows, params), |rows|)
  }

  /**
   * One sheet of `fillWorkbookWithData` (ExcelGeneratorImpl.java:82-110):
   * the row loop, then the deletion of the templates. The deletion is the
   * corrected pass, so no block marker is left above the last row; a plain
   * sheet whose filled rows open no block is just filled.
   */
  method FillSheet(sheet: Sheet, data: DataSet, fuel: nat, steps: nat) returns (r: Result<(), Failure>)
    requires sheet.Valid()
    modifies sheet
    ensures sheet.Valid()
    ensures r.Success? ==> NoOpenerBelow(sheet.rows, |sheet.rows|)
    ensures PlainFill(old(sheet.rows), data.params, steps) ==>
              r.Success? && sheet.rows == FilledRows(old(sheet.rows), data.params) && sheet.merged == old(sheet.merged)
  {
    ghost var rows0 := sheet.rows;
    r := FillRows(sheet, data, fuel, steps);
    if r.Failure? {
      return;
    }
    ghost var filled := Snap(sheet);
    if PlainFill(rows0, data.params, steps) {
      SweepNoOpener(filled, sheet.FirstRowNum(), false);
    }
    r := DeleteAllTemplatesCorrected(sheet);
  }

  /** The sheets of a workbook are distinct objects. */
  ghost predicate Distinct(sheets: seq<Sheet>) {
    forall a, b :: 0 <= a < b < |sheets| ==> sheets[a] != sheets[b]
  }

  /**
   * `fillWorkbookWithData(dto, workbook)` (ExcelGeneratorImpl.java:80-117):
   * every sheet in turn. When all succeed, no sheet holds a block marker
   * above its last row, and every plain sheet holds its rows with their
   * placeholders filled and its merged regions as they were; when every
   * sheet is plain, all succeed.
   */
  method FillWorkbookWithData(sheets: seq<Sheet>, data: DataSet, fuel: nat, steps: nat) returns (r: Result<(), Failure>)
    requires Distinct(sheets) && forall i :: 0 <= i < |sheets| ==> sheets[i].Valid()
    modifies set i | 0 <= i < |sheets| :: sheets[i]
    ensures forall i :: 0 <= i < |sheets| ==> sheets[i].Valid()
    ensures r.Success? ==> forall i :: 0 <= i < |sheets| ==> NoOpenerBelow(sheets[i].rows, |sheets[i].rows|)
    ensures r.Success? ==> forall i :: 0 <= i < |sheets| && PlainFill(old(sheets[i].rows), data.params, steps) ==>
              sheets[i].rows == FilledRows(old(sheets[i].rows), data.params) && sheets[i].merged == old(sheets[i].merged)
    ensures (forall i :: 0 <= i < |sheets| ==> PlainFill(old(sheets[i].rows), data.params, steps)) ==> r.Success?
  {
    var i := 0;
    while i < |sheets|
      invariant 0 <= i <= |sheets|
      invariant forall k :: 0 <= k < |sheets| ==> sheets[k].Valid()
      invariant forall k :: 0 <= k < i ==> NoOpenerBelow(sheets[k].rows, |sheets[k].rows|)
      invariant forall k :: i <= k < |sheets| ==> sheets[k].rows == old(sheets[k].rows) && sheets[k].merged == old(sheets[k].merged)
      invariant forall k :: 0 <= k < i && PlainFill(old(sheets[k].rows), data.params, steps) ==>
                  sheets[k].rows == FilledRows(old(sheets[k].rows), data.params) && sheets[k].merged == old(sheets[k].merged)
    {
      r := FillSheet(sheets[i], data, fuel, steps);
      if r.Failure? {
        return;
      }
      i := i + 1;
    }
    return Success(());
  }
}
