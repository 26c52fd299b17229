/**
 * The last pass over a filled sheet, `deleteAllTemplates` and `dellRange` of
 * ExcelGeneratorImpl: every block that is still marked in the sheet (its
 * start marker, template rows and end marker) is deleted and the rows below
 * it move up.
 */
module Cleanup {
  import opened Outcomes
  import opened Grid
  import opened Markers
  import opened Replication
  import opened ExcelGenerator

  // ---------------------------------------------------------------------------
  // What deleting a span of rows does

  /** The regions whose first row lies outside `lo` .. `hi - 1`, in their order. */
  function Unanchored(gs: seq<Region>, lo: int, hi: int): (hs: seq<Region>)
    ensures |hs| <= |gs|
    decreases |gs|
  {
    if gs == [] then []
    else
      var g := gs[|gs| - 1];
      Unanchored(gs[..|gs| - 1], lo, hi) + (if lo <= g.firstRow < hi then [] else [g])
  }

  /** A region survives exactly when it was there and is anchored outside the span. */
  lemma {:induction false} UnanchoredMembers(gs: seq<Region>, lo: int, hi: int, g: Region)
    ensures g in Unanchored(gs, lo, hi) <==> g in gs && !(lo <= g.firstRow < hi)
    decreases |gs|
  {
    if gs != [] {
      var init := gs[..|gs| - 1];
      UnanchoredMembers(init, lo, hi, g);
      assert gs == init + [gs[|gs| - 1]];
    }
  }

  /** Dropping the regions anchored at `hi` after those anchored in `lo .. hi - 1` drops those anchored in `lo .. hi`. */
  lemma {:induction false} UnanchoredExtend(gs: seq<Region>, lo: int, hi: int)
    requires lo <= hi
    ensures Unanchored(Unanchored(gs, lo, hi), hi, hi + 1) == Unanchored(gs, lo, hi + 1)
    decreases |gs|
  {
    if gs != [] {
      var init := gs[..|gs| - 1];
      var g := gs[|gs| - 1];
      UnanchoredExtend(init, lo, hi);
      var a := Unanchored(init, lo, hi);
      assert gs[..|gs| - 1] == init;
      if lo <= g.firstRow < hi {
        assert Unanchored(gs, lo, hi) == a + [] == a;
        assert Unanchored(gs, lo, hi + 1) == Unanchored(init, lo, hi + 1) + [];
      } else {
        assert Unanchored(gs, lo, hi) == a + [g];
        assert (a + [g])[..|a + [g]| - 1] == a;
      }
    }
  }

  /** The first absent row in `from` .. `to - 1`, or `to` when there is none. */
  function FirstAbsent(rows: Rows, from: nat, to: nat): (i: nat)
    requires from <= to <= |rows|
    ensures from <= i <= to && (i < to ==> rows[i].None?)
    ensures forall k :: from <= k < i ==> rows[k].Some?
    decreases (to as int) - (from as int)
  {
    if from == to || rows[from].None? then from else FirstAbsent(rows, from + 1, to)
  }

  /**
   * `dellRange(sheet, start, end)` as a function of the sheet: the regions
   * anchored in the span are removed, the rows of the span are removed, and
   * the rows below move up over them together with the regions lying wholly
   * below. `removeRow` throws on an absent row, at the first one.
   */
  function DropRange(s: Snapshot, start: nat, end: nat): (r: Result<Snapshot, Failure>)
    requires start < end <= |s.rows| - 1
    ensures r.Success? ==> |r.value.rows| == |s.rows| - (end - start)
  {
    var i := FirstAbsent(s.rows, start, end);
    if i < end then Failure(NullRowRemoved(i))
    else Success(Snapshot(s.rows[..start] + s.rows[end..],
                          ShiftRegions(Unanchored(s.merged, start, end), end, |s.rows| - 1, -(end - start))))
  }

  /**
   * What deleting a span promises: an absent row in it is the only failure;
   * otherwise the rows above stay, the rows below follow right after them,
   * and no region of the old list anchored in the span is kept.
   */
  lemma DropRangeShape(s: Snapshot, start: nat, end: nat)
    requires start < end <= |s.rows| - 1
    ensures DropRange(s, start, end).Failure? <==> exists i :: start <= i < end && s.rows[i].None?
    ensures DropRange(s, start, end).Success? ==>
              var t := DropRange(s, start, end).value;
              && |t.rows| == |s.rows| - (end - start)
              && (forall i :: 0 <= i < start ==> t.rows[i] == s.rows[i])
              && (forall i :: start <= i < |t.rows| ==> t.rows[i] == s.rows[i + (end - start)])
              && (forall g :: g in s.merged && g.firstRow < start ==> g in t.merged)
              && (forall g :: g in t.merged && g.firstRow < start ==> g in s.merged)
  {
    var i := FirstAbsent(s.rows, start, end);
    if i == end {
      var t := DropRange(s, start, end).value;
      var kept := Unanchored(s.merged, start, end);
      forall g | g in s.merged && g.firstRow < start
        ensures g in t.merged
      {
        UnanchoredMembers(s.merged, start, end, g);
        ShiftKeepsRegionsAbove(kept, end, |s.rows| - 1, -(end - start), g);
      }
      forall h | h in t.merged && h.firstRow < start
        ensures h in s.merged
      {
        var k :| 0 <= k < |kept| && t.merged[k] == h;
        assert h == ShiftRegion(kept[k], end, |s.rows| - 1, -(end - start));
        assert kept[k] in kept;
        UnanchoredMembers(s.merged, start, end, kept[k]);
      }
    }
  }

  // ---------------------------------------------------------------------------
  // What the whole pass does

  /** The test `deleteAllTemplates` applies to a row: column 0 starts with `#RANGE` or `#TABLE`. */
  predicate Opens(row: Option<Row>) {
    StartWithString(row, RANGE) || StartWithString(row, TABLE)
  }

  /**
   * One past the last row of the block opened at `rowNum`: one past its end
   * marker when that is found below the last row, and the last row itself
   * otherwise, which therefore stays.
   */
  function BlockEnd(rows: Rows, rowNum: nat, cellVal: string): (e: int)
    requires rowNum < |rows| - 1
    ensures rowNum < e <= |rows| - 1
  {
    var e := ScanEnd(rows, rowNum + 1, cellVal);
    if e < |rows| - 1 then e + 1 else e
  }

  /**
   * The pass from row `rowNum` on, up to the last row. After a block is
   * deleted the visit goes on at `rowNum + 1` when `skip` holds, as the `for`
   * loop of `deleteAllTemplates` does, and at `rowNum` itself otherwise.
   */
  function Sweep(s: Snapshot, rowNum: int, skip: bool): Result<Snapshot, Failure>
    decreases |s.rows| - rowNum
  {
    if rowNum >= |s.rows| - 1 then Success(s)
    else if Opens(RowAt(s.rows, rowNum)) then
      match DropRange(s, rowNum, BlockEnd(s.rows, rowNum, FirstText(RowAt(s.rows, rowNum)).value))
      case Failure(f) => Failure(f)
      case Success(t) => Sweep(t, if skip then rowNum + 1 else rowNum, skip)
    else Sweep(s, rowNum + 1, skip)
  }

  /** No row above the last one, and none above `n`, opens a block. */
  ghost predicate NoOpenerBelow(rows: Rows, n: int) {
    forall i :: 0 <= i < n && i < |rows| - 1 ==> !Opens(RowAt(rows, i))
  }

  /**
   * The corrected pass leaves no block marker above the last row: the rows it
   * has passed over hold none, deleting a span keeps them, and the visit only
   * moves on from a row that opens no block.
   */
  lemma {:induction false} SweepClears(s: Snapshot, rowNum: int)
    requires NoOpenerBelow(s.rows, rowNum)
    requires Sweep(s, rowNum, false).Success?
    ensures NoOpenerBelow(Sweep(s, rowNum, false).value.rows, |Sweep(s, rowNum, false).value.rows|)
    decreases |s.rows| - rowNum
  {
    if rowNum >= |s.rows| - 1 {
    } else if Opens(RowAt(s.rows, rowNum)) {
      var e := BlockEnd(s.rows, rowNum, FirstText(RowAt(s.rows, rowNum)).value);
      DropRangeShape(s, rowNum, e);
      var t := DropRange(s, rowNum, e).value;
      assert NoOpenerBelow(t.rows, rowNum) by {
        forall i | 0 <= i < rowNum && i < |t.rows| - 1
          ensures !Opens(RowAt(t.rows, i))
        {
          assert RowAt(t.rows, i) == RowAt(s.rows, i);
        }
      }
      SweepClears(t, rowNum);
    } else {
      SweepClears(s, rowNum + 1);
    }
  }

  /** A sheet with no block marker above its last row is left as it is. */
  lemma {:induction false} SweepNoOpener(s: Snapshot, rowNum: int, skip: bool)
    requires NoOpenerBelow(s.rows, |s.rows|)
    ensures Sweep(s, rowNum, skip) == Success(s)
    decreases |s.rows| - rowNum
  {
    if rowNum < |s.rows| - 1 {
      SweepNoOpener(s, rowNum + 1, skip);
    }
  }

  /**
   * As written, the pass skips the row that moves up into a deleted block's
   * place: a table without records directly above a second table leaves the
   * second one's start marker in the sheet.
   */
  lemma SkipLeavesMarker()
    ensures var s := Snapshot([TextRow("#TABLEa"), TextRow("#TABLEa"), TextRow("#TABLEb"), TextRow("#TABLEb"), TextRow("x")], []);
            && Sweep(s, 0, true) == Success(Snapshot([TextRow("#TABLEb"), TextRow("x")], []))
            && Opens(RowAt(Sweep(s, 0, true).value.rows, 0))
            && Sweep(s, 0, false) == Success(Snapshot([TextRow("x")], []))
  {
    var a, b, x := TextRow("#TABLEa"), TextRow("#TABLEb"), TextRow("x");
    assert StartsWith("#TABLEa", TABLE) && StartsWith("#TABLEb", TABLE);
    assert !StartsWith("x", TABLE) && !StartsWith("x", RANGE);
    var s := Snapshot([a, a, b, b, x], []);
    assert HasString(RowAt(s.rows, 1), "#TABLEa");
    assert BlockEnd(s.rows, 0, "#TABLEa") == 2;
    var s1 := Snapshot([b, b, x], []);
    assert FirstAbsent(s.rows, 0, 2) == 2;
    assert s.rows[..0] + s.rows[2..] == s1.rows;
    assert DropRange(s, 0, 2) == Success(s1);
    assert Sweep(s, 0, true) == Sweep(s1, 1, true);
    assert BlockEnd(s1.rows, 1, "#TABLEb") == 2;
    assert FirstAbsent(s1.rows, 1, 2) == 2;
    assert s1.rows[..1] + s1.rows[2..] == [b, x];
    assert DropRange(s1, 1, 2) == Success(Snapshot([b, x], []));
    assert Sweep(s, 0, true) == Success(Snapshot([b, x], []));
    assert Sweep(s, 0, false) == Sweep(s1, 0, false);
    assert HasString(RowAt(s1.rows, 1), "#TABLEb");
    assert BlockEnd(s1.rows, 0, "#TABLEb") == 2;
    assert FirstAbsent(s1.rows, 0, 2) == 2;
    assert s1.rows[..0] + s1.rows[2..] == [x];
    assert DropRange(s1, 0, 2) == Success(Snapshot([x], []));
  }

  // ---------------------------------------------------------------------------
  // The methods

  /** An empty span anchors nothing. */
  lemma {:induction false} UnanchoredEmpty(gs: seq<Region>, lo: int)
    ensures Unanchored(gs, lo, lo) == gs
    decreases |gs|
  {
    if gs != [] {
      UnanchoredEmpty(gs[..|gs| - 1], lo);
    }
  }

  /** One more region of the list: it is kept exactly when it is anchored outside the span. */
  lemma UnanchoredSnoc(gs: seq<Region>, k: nat, lo: int, hi: int)
    requires k < |gs|
    ensures Unanchored(gs[..k + 1], lo, hi)
            == Unanchored(gs[..k], lo, hi) + (if lo <= gs[k].firstRow < hi then [] else [gs[k]])
  {
    assert gs[..k + 1][..k] == gs[..k];
  }

  /**
   * The inner loop of `dellRange` (ExcelGeneratorImpl.java:788-795): it walks
   * a copy of the region list and removes, by its position in the live list,
   * each region anchored at `rowNum`.
   */
  method RemoveRegionsAt(sheet: Sheet, rowNum: int)
    modifies sheet
    ensures sheet.rows == old(sheet.rows)
    ensures sheet.merged == Unanchored(old(sheet.merged), rowNum, rowNum + 1)
  {
    var regions := sheet.merged;
    var rowNumToDell := 0;
    var k := 0;
    while k < |regions|
      invariant 0 <= k <= |regions|
      invariant sheet.rows == old(sheet.rows)
      invariant rowNumToDell == |Unanchored(regions[..k], rowNum, rowNum + 1)|
      invariant sheet.merged == Unanchored(regions[..k], rowNum, rowNum + 1) + regions[k..]
    {
      rowNumToDell := RemoveIfAnchored(sheet, regions, k, rowNum, rowNumToDell);
      k := k + 1;
    }
    assert regions[..k] == regions;
  }

  /** One turn of that loop: the region at `k` of the copy goes when it is anchored at `rowNum`. */
  method RemoveIfAnchored(sheet: Sheet, regions: seq<Region>, k: nat, rowNum: int, rowNumToDell: int) returns (next: int)
    requires k < |regions|
    requires rowNumToDell == |Unanchored(regions[..k], rowNum, rowNum + 1)|
    requires sheet.merged == Unanchored(regions[..k], rowNum, rowNum + 1) + regions[k..]
    modifies sheet
    ensures sheet.rows == old(sheet.rows)
    ensures next == |Unanchored(regions[..k + 1], rowNum, rowNum + 1)|
    ensures sheet.merged == Unanchored(regions[..k + 1], rowNum, rowNum + 1) + regions[k + 1..]
  {
    ghost var kept := Unanchored(regions[..k], rowNum, rowNum + 1);
    UnanchoredSnoc(regions, k, rowNum, rowNum + 1);
    assert regions[k..] == [regions[k]] + regions[k + 1..];
    if regions[k].firstRow == rowNum {
      sheet.RemoveMergedRegion(rowNumToDell);
      next := rowNumToDell;
    } else {
      next := rowNumToDell + 1;
    }
  }

  /**
   * `dellRange(sheet, startRow, endRow)` (ExcelGeneratorImpl.java:785-803):
   * the regions anchored in the span go, then its rows, then the rows below
   * move up. Its one caller passes a non-empty span that ends at the last row
   * at the latest.
   */
  method DellRange(sheet: Sheet, startRow: nat, endRow: nat) returns (r: Result<(), Failure>)
    requires sheet.Valid() && startRow < endRow <= sheet.LastRowNum()
    modifies sheet
    ensures sheet.Valid()
    ensures var d := DropRange(old(Snap(sheet)), startRow, endRow);
            && (r.Success? <==> d.Success?)
            && (d.Success? ==> Snap(sheet) == d.value)
            && (d.Failure? ==> r.error == d.error)
  {
    ghost var s0 := Snap(sheet);
    RemoveRegionsIn(sheet, startRow, endRow);
    r := RemoveRows(sheet, startRow, endRow);
    if r.Failure? {
      return;
    }
    ghost var cleared := sheet.rows;
    sheet.ShiftRowsUp(endRow, endRow - startRow);
    assert sheet.rows == s0.rows[..startRow] + s0.rows[endRow..] by {
      assert cleared[..startRow] == s0.rows[..startRow];
      assert cleared[endRow..] == s0.rows[endRow..];
    }
  }

  /** The first loop of `dellRange` (ExcelGeneratorImpl.java:786-796): the regions anchored in the span go. */
  method RemoveRegionsIn(sheet: Sheet, startRow: int, endRow: int)
    requires startRow <= endRow
    modifies sheet
    ensures sheet.rows == old(sheet.rows)
    ensures sheet.merged == Unanchored(old(sheet.merged), startRow, endRow)
  {
    ghost var m0 := sheet.merged;
    var rowNum := startRow;
    UnanchoredEmpty(m0, startRow);
    while rowNum < endRow
      invariant startRow <= rowNum <= endRow
      invariant sheet.rows == old(sheet.rows) && sheet.merged == Unanchored(m0, startRow, rowNum)
    {
      RemoveRegionsAt(sheet, rowNum);
      UnanchoredExtend(m0, startRow, rowNum);
      rowNum := rowNum + 1;
    }
  }

  /**
   * The second loop of `dellRange` (ExcelGeneratorImpl.java:798-800): each
   * row of the span is removed, and an absent one makes `removeRow` throw.
   * The stored rows keep their number, as the last row is not in the span.
   */
  method RemoveRows(sheet: Sheet, startRow: nat, endRow: nat) returns (r: Result<(), Failure>)
    requires sheet.Valid() && startRow < endRow <= sheet.LastRowNum()
    modifies sheet
    ensures sheet.Valid() && sheet.merged == old(sheet.merged)
    ensures var i := FirstAbsent(old(sheet.rows), startRow, endRow);
            && (r.Success? <==> i == endRow)
            && (r.Failure? ==> r.error == NullRowRemoved(i))
    ensures r.Success? ==>
              && |sheet.rows| == |old(sheet.rows)|
              && sheet.rows[..startRow] == old(sheet.rows)[..startRow]
              && sheet.rows[endRow..] == old(sheet.rows)[endRow..]
  {
    ghost var rows0 := sheet.rows;
    var i := startRow;
    while i < endRow
      invariant startRow <= i <= endRow && sheet.Valid() && sheet.merged == old(sheet.merged)
      invariant |sheet.rows| == |rows0|
      invariant forall k :: 0 <= k < |rows0| ==> sheet.rows[k] == if startRow <= k < i then None else rows0[k]
      invariant forall k :: startRow <= k < i ==> rows0[k].Some?
    {
      if sheet.GetRow(i).None? {
        return Failure(NullRowRemoved(i));
      }
      sheet.RemoveRow(i);
      i := i + 1;
    }
    assert sheet.rows[..startRow] == rows0[..startRow];
    assert sheet.rows[endRow..] == rows0[endRow..];
    return Success(());
  }

  /**
   * One turn of the loop of `deleteAllTemplates` (ExcelGeneratorImpl.java:525-543):
   * a row opening a block has the block deleted, up to one past its end
   * marker when that lies above the last row.
   */
  method DeleteBlockAt(sheet: Sheet, rowNum: int) returns (r: Result<(), Failure>)
    requires sheet.Valid() && rowNum < sheet.LastRowNum()
    modifies sheet
    ensures sheet.Valid()
    ensures var row := RowAt(old(sheet.rows), rowNum);
            !Opens(row) ==> r.Success? && Snap(sheet) == old(Snap(sheet))
    ensures var row := RowAt(old(sheet.rows), rowNum);
            Opens(row) ==>
              var d := DropRange(old(Snap(sheet)), rowNum, BlockEnd(old(sheet.rows), rowNum, FirstText(row).value));
              && (r.Success? <==> d.Success?)
              && (d.Success? ==> Snap(sheet) == d.value)
              && (d.Failure? ==> r.error == d.error)
  {
    var row := sheet.GetRow(rowNum);
    if !Opens(row) {
      return Success(());
    }
    var cellVal := FirstText(row).value;
    var endRowNum := SkipBlock(sheet, rowNum + 1, cellVal);
    if endRowNum < sheet.LastRowNum() {
      endRowNum := endRowNum + 1;
    }
    r := DellRange(sheet, rowNum, endRowNum);
  }

  /**
   * `deleteAllTemplates(sheet)` (ExcelGeneratorImpl.java:522-545) as written:
   * the visit always moves on to the next row, also after a deletion.
   */
  method DeleteAllTemplates(sheet: Sheet) returns (r: Result<(), Failure>)
    requires sheet.Valid()
    modifies sheet
    ensures sheet.Valid()
    ensures var w := Sweep(old(Snap(sheet)), old(sheet.FirstRowNum()), true);
            && (r.Success? <==> w.Success?)
            && (w.Success? ==> Snap(sheet) == w.value)
            && (w.Failure? ==> r.error == w.error)
  {
    var rowNum := sheet.FirstRowNum();
    while rowNum < sheet.LastRowNum()
      invariant sheet.Valid()
      invariant Sweep(Snap(sheet), rowNum, true) == Sweep(old(Snap(sheet)), old(sheet.FirstRowNum()), true)
      decreases |sheet.rows| - rowNum
    {
      var res := DeleteBlockAt(sheet, rowNum);
      if res.Failure? {
        return Failure(res.error);
      }
      rowNum := rowNum + 1;
    }
    return Success(());
  }

  /**
   * The pass as evidently intended: after a deletion the row that moved up
   * into its place is visited too, so no block marker is left above the last
   * row.
   */
  method DeleteAllTemplatesCorrected(sheet: Sheet) returns (r: Result<(), Failure>)
    requires sheet.Valid()
    modifies sheet
    ensures sheet.Valid()
    ensures var w := Sweep(old(Snap(sheet)), old(sheet.FirstRowNum()), false);
            && (r.Success? <==> w.Success?)
            && (w.Success? ==> Snap(sheet) == w.value)
            && (w.Failure? ==> r.error == w.error)
    ensures r.Success? ==> NoOpenerBelow(sheet.rows, |sheet.rows|)
  {
    ghost var s0 := Snap(sheet);
    var rowNum := sheet.FirstRowNum();
    while rowNum < sheet.LastRowNum()
      invariant sheet.Valid()
      invariant Sweep(Snap(sheet), rowNum, false) == Sweep(s0, old(sheet.FirstRowNum()), false)
      decreases |sheet.rows|, |sheet.rows| - rowNum
    {
      var opens := Opens(sheet.GetRow(rowNum));
      var res := DeleteBlockAt(sheet, rowNum);
      if res.Failure? {
        return Failure(res.error);
      }
      if !opens {
        rowNum := rowNum + 1;
      }
    }
    SweepClears(s0, old(sheet.FirstRowNum()));
    return Success(());
  }
}
