/**
 * What `copyRow` and `copyRows` (ExcelGeneratorImpl.java:547-631, 749-776)
 * do to a sheet, as functions of the sheet's rows and merged regions, and
 * what follows from that: the copies land in order from the start row, the
 * rows above stay where they are, the rows below move down, and each merged
 * region anchored at a template row reappears at its replica.
 */
module Replication {
  import opened Outcomes
  import opened Grid
  import opened Markers
  import opened Placeholders

  /** A sheet's rows and merged regions as one value. */
  datatype Snapshot = Snapshot(rows: Rows, merged: seq<Region>)

  /**
   * How `copyRow` re-creates one cell: type, value, hyperlink, style and comment
   * are copied, except that a BLANK cell is copied through
   * `setCellValue(getStringCellValue())`, which makes it a string cell holding "".
   */
  function CopyCell(c: Cell): Cell {
    if c.content.Blank? then c.(content := StringCell("")) else c
  }

  function CopyCells(r: Row): (s: Row)
    ensures s.Keys == r.Keys
    ensures forall c {:trigger s[c]} :: c in r ==> s[c] == CopyCell(r[c])
  {
    map c | c in r :: CopyCell(r[c])
  }

  /** A copy keeps the marker texts of its column 0: a block marker copies as the same marker. */
  lemma CopyKeepsMarkers(r: Row, key: string)
    requires |key| > 0
    ensures HasString(Some(CopyCells(r)), key) == HasString(Some(r), key)
    ensures StartWithString(Some(CopyCells(r)), key) == StartWithString(Some(r), key)
  {
  }

  /** A copy holds exactly the placeholders of its source: an empty text is not one. */
  lemma CopyKeepsPlaceholders(c: Cell)
    ensures HasKey(CopyCell(c)) <==> HasKey(c)
    ensures LonePlaceholder(CopyCell(c)) <==> LonePlaceholder(c)
  {
  }

  /** A copy of a row without a bare "#" has none either. */
  lemma CopyKeepsNoLone(r: Row)
    requires NoLonePlaceholder(r)
    ensures NoLonePlaceholder(CopyCells(r))
  {
    forall c | c in CopyCells(r)
      ensures !LonePlaceholder(CopyCells(r)[c])
    {
      CopyKeepsPlaceholders(r[c]);
    }
  }

  /** `copyRow`'s new row: occupied destinations are first shifted down one row. */
  function PlaceRow(rows: Rows, dest: nat, r: Row): Rows {
    if RowAt(rows, dest).Some? then InsertGap(rows, dest)[dest := Some(r)] else PutRow(rows, dest, Some(r))
  }

  /** The new row sits at `dest`; the rows above it stay where they were. */
  lemma PlaceRowShape(rows: Rows, dest: nat, r: Row)
    requires Trimmed(rows)
    ensures Trimmed(PlaceRow(rows, dest, r))
    ensures RowAt(PlaceRow(rows, dest, r), dest) == Some(r)
    ensures forall i :: 0 <= i < dest ==> RowAt(PlaceRow(rows, dest, r), i) == RowAt(rows, i)
  {
  }

  /** On an occupied destination the new row is inserted: the rows from `dest` on move down one. */
  lemma PlaceRowInserts(rows: Rows, dest: nat, r: Row)
    requires RowAt(rows, dest).Some? || dest == |rows|
    ensures PlaceRow(rows, dest, r) == rows[..dest] + [Some(r)] + rows[dest..]
  {
  }

  /** A merged region moved so that its first row is `dest`, keeping its height and columns. */
  function Reanchor(g: Region, dest: int): Region {
    Region(dest, dest + (g.lastRow - g.firstRow), g.firstColumn, g.lastColumn)
  }

  /**
   * The copies `copyRow(…, true)` and `copyRows` add, in list order, for the
   * regions of `gs` whose first row is `src`.
   */
  function AnchoredAt(gs: seq<Region>, src: int, dest: int): seq<Region> {
    if gs == [] then []
    else AnchoredAt(gs[..|gs| - 1], src, dest) + (if gs[|gs| - 1].firstRow == src then [Reanchor(gs[|gs| - 1], dest)] else [])
  }

  /** Exactly the re-anchored regions of `gs` whose first row is `src` are added. */
  lemma {:induction false} AnchoredAtMembers(gs: seq<Region>, src: int, dest: int)
    ensures forall g :: g in gs && g.firstRow == src ==> Reanchor(g, dest) in AnchoredAt(gs, src, dest)
    ensures forall h :: h in AnchoredAt(gs, src, dest) ==> exists g :: g in gs && g.firstRow == src && h == Reanchor(g, dest)
    decreases |gs|
  {
    if gs != [] {
      var init := gs[..|gs| - 1];
      var g := gs[|gs| - 1];
      assert gs == init + [g];
      assert forall x :: x in gs ==> x in init || x == g;
      AnchoredAtMembers(init, src, dest);
    }
  }

  /** The copies made for a region anchored somewhere else all start at `dest`. */
  lemma AnchoredAtStartsAtDest(gs: seq<Region>, src: int, dest: int)
    ensures forall h :: h in AnchoredAt(gs, src, dest) ==> h.firstRow == dest
  {
    AnchoredAtMembers(gs, src, dest);
  }

  /** `copyRow(sheet, src, dest, copyMergedRanges)` on a sheet snapshot. */
  function CopyRowEffect(s: Snapshot, src: Row, srcIndex: int, dest: nat, copyMerged: bool): Snapshot {
    var shifted := if RowAt(s.rows, dest).Some? then ShiftRegions(s.merged, dest, |s.rows| - 1, 1) else s.merged;
    Snapshot(PlaceRow(s.rows, dest, CopyCells(src)),
             if copyMerged then shifted + AnchoredAt(shifted, srcIndex, dest) else shifted)
  }

  /** The template rows `copyRows` copies: those that are not null, in order. */
  function Present(srcs: seq<TemplateRow>): (p: seq<TemplateRow>)
    ensures |p| <= |srcs| && forall k :: 0 <= k < |p| ==> p[k].row.Some?
  {
    if srcs == [] then []
    else (if srcs[0].row.Some? then [srcs[0]] else []) + Present(srcs[1..])
  }

  /** The first loop of `copyRows`: each present row copied, without its merged regions, one below the other. */
  function CopyAll(s: Snapshot, srcs: seq<TemplateRow>, dest: nat): Snapshot
    decreases |srcs|
  {
    if srcs == [] then s
    else if srcs[0].row.None? then CopyAll(s, srcs[1..], dest)
    else CopyAll(CopyRowEffect(s, srcs[0].row.value, srcs[0].index, dest, false), srcs[1..], dest + 1)
  }

  /**
   * The second loop of `copyRows`: for each present row, the regions whose
   * first row is that row's index, re-anchored at its copy. Each row reads
   * the live region list, which already holds the earlier rows' additions.
   */
  function MergeAll(gs: seq<Region>, srcs: seq<TemplateRow>, dest: nat): seq<Region>
    decreases |srcs|
  {
    if srcs == [] then gs
    else if srcs[0].row.None? then MergeAll(gs, srcs[1..], dest)
    else MergeAll(gs + AnchoredAt(gs, srcs[0].index, dest), srcs[1..], dest + 1)
  }

  /** `copyRows(sheet, srcs, dest)` on a sheet snapshot. */
  function CopyRowsEffect(s: Snapshot, srcs: seq<TemplateRow>, dest: nat): Snapshot {
    var copied := CopyAll(s, srcs, dest);
    Snapshot(copied.rows, MergeAll(copied.merged, srcs, dest))
  }

  /** The rows the replica consists of: a copy of each present template row. */
  function Copies(srcs: seq<TemplateRow>): (c: Rows)
    ensures |c| == |Present(srcs)|
  {
    if srcs == [] then []
    else if srcs[0].row.None? then Copies(srcs[1..])
    else [Some(CopyCells(srcs[0].row.value))] + Copies(srcs[1..])
  }

  /** The k-th copy is the copy of the k-th present template row. */
  lemma {:induction false} CopiesInOrder(srcs: seq<TemplateRow>, k: nat)
    requires k < |Copies(srcs)|
    ensures Copies(srcs)[k] == Some(CopyCells(Present(srcs)[k].row.value))
    decreases |srcs|
  {
    if srcs[0].row.None? {
      assert Present(srcs) == Present(srcs[1..]);
      CopiesInOrder(srcs[1..], k);
    } else {
      assert Present(srcs) == [srcs[0]] + Present(srcs[1..]);
      if k > 0 {
        CopiesInOrder(srcs[1..], k - 1);
      }
    }
  }

  /** The rows after the first loop of `copyRows`: the merged regions play no part in them. */
  function CopyAllRows(rows: Rows, srcs: seq<TemplateRow>, dest: nat): Rows
    decreases |srcs|
  {
    if srcs == [] then rows
    else if srcs[0].row.None? then CopyAllRows(rows, srcs[1..], dest)
    else CopyAllRows(PlaceRow(rows, dest, CopyCells(srcs[0].row.value)), srcs[1..], dest + 1)
  }

  lemma {:induction false} CopyAllRowsOf(s: Snapshot, srcs: seq<TemplateRow>, dest: nat)
    ensures CopyAll(s, srcs, dest).rows == CopyAllRows(s.rows, srcs, dest)
    decreases |srcs|
  {
    if srcs == [] {
    } else if srcs[0].row.None? {
      CopyAllRowsOf(s, srcs[1..], dest);
    } else {
      CopyAllRowsOf(CopyRowEffect(s, srcs[0].row.value, srcs[0].index, dest, false), srcs[1..], dest + 1);
    }
  }

  /** The first loop of `copyRows` leaves every row above `dest` where it was. */
  lemma {:induction false} CopyAllKeepsAbove(rows: Rows, srcs: seq<TemplateRow>, dest: nat)
    requires Trimmed(rows)
    ensures Trimmed(CopyAllRows(rows, srcs, dest))
    ensures forall i :: 0 <= i < dest ==> RowAt(CopyAllRows(rows, srcs, dest), i) == RowAt(rows, i)
    decreases |srcs|
  {
    if srcs == [] {
    } else if srcs[0].row.None? {
      CopyAllKeepsAbove(rows, srcs[1..], dest);
    } else {
      var src := srcs[0].row.value;
      PlaceRowShape(rows, dest, CopyCells(src));
      CopyAllKeepsAbove(PlaceRow(rows, dest, CopyCells(src)), srcs[1..], dest + 1);
    }
  }

  /** The first loop of `copyRows` puts the copies, in order, at dest, dest+1, …. */
  lemma {:induction false} CopyAllPlacesCopies(rows: Rows, srcs: seq<TemplateRow>, dest: nat, k: nat)
    requires Trimmed(rows)
    requires k < |Copies(srcs)|
    ensures RowAt(CopyAllRows(rows, srcs, dest), dest + k) == Copies(srcs)[k]
    decreases |srcs|
  {
    if srcs[0].row.None? {
      CopyAllPlacesCopies(rows, srcs[1..], dest, k);
    } else {
      var src := srcs[0].row.value;
      var rows1 := PlaceRow(rows, dest, CopyCells(src));
      PlaceRowShape(rows, dest, CopyCells(src));
      assert Copies(srcs) == [Some(CopyCells(src))] + Copies(srcs[1..]);
      if k == 0 {
        CopyAllKeepsAbove(rows1, srcs[1..], dest + 1);
      } else {
        CopyAllPlacesCopies(rows1, srcs[1..], dest + 1, k - 1);
      }
    }
  }

  /** One `copyRow` keeps exactly the merged regions anchored above `dest`. */
  lemma CopyRowKeepsRegionsAbove(s: Snapshot, src: Row, srcIndex: int, dest: nat, g: Region)
    requires g.firstRow < dest
    ensures g in s.merged <==> g in CopyRowEffect(s, src, srcIndex, dest, false).merged
  {
    if RowAt(s.rows, dest).Some? {
      if g in s.merged {
        ShiftKeepsRegionsAbove(s.merged, dest, |s.rows| - 1, 1, g);
      }
      if g in CopyRowEffect(s, src, srcIndex, dest, false).merged {
        ShiftAddsNoRegionAbove(s.merged, dest, |s.rows| - 1, 1, g);
      }
    }
  }

  /** The first loop of `copyRows` keeps exactly the merged regions anchored above `dest`. */
  lemma {:induction false} CopyAllKeepsRegionsAbove(s: Snapshot, srcs: seq<TemplateRow>, dest: nat, g: Region)
    requires g.firstRow < dest
    ensures g in s.merged <==> g in CopyAll(s, srcs, dest).merged
    decreases |srcs|
  {
    if srcs == [] {
    } else if srcs[0].row.None? {
      CopyAllKeepsRegionsAbove(s, srcs[1..], dest, g);
    } else {
      CopyRowKeepsRegionsAbove(s, srcs[0].row.value, srcs[0].index, dest, g);
      CopyAllKeepsRegionsAbove(CopyRowEffect(s, srcs[0].row.value, srcs[0].index, dest, false), srcs[1..], dest + 1, g);
    }
  }

  /**
   * When the destination is occupied (or is the first row past the end), the
   * copies are inserted: everything from `dest` on moves down by their number.
   */
  lemma {:induction false} CopyAllInserts(rows: Rows, srcs: seq<TemplateRow>, dest: nat)
    requires Trimmed(rows)
    requires RowAt(rows, dest).Some? || dest == |rows|
    ensures CopyAllRows(rows, srcs, dest) == rows[..dest] + Copies(srcs) + rows[dest..]
    decreases |srcs|
  {
    if srcs == [] {
      assert rows[..dest] + [] + rows[dest..] == rows;
    } else if srcs[0].row.None? {
      CopyAllInserts(rows, srcs[1..], dest);
    } else {
      var row := Some(CopyCells(srcs[0].row.value));
      var rows1 := PlaceRow(rows, dest, CopyCells(srcs[0].row.value));
      PlaceRowInserts(rows, dest, CopyCells(srcs[0].row.value));
      PlaceRowShape(rows, dest, CopyCells(srcs[0].row.value));
      InsertedOne(rows, dest, row);
      CopyAllInserts(rows1, srcs[1..], dest + 1);
      InsertedAfterOne(rows, dest, row, Copies(srcs[1..]));
      assert Copies(srcs) == [row] + Copies(srcs[1..]);
    }
  }

  /** After one row is inserted at an occupied `dest`, the next row is occupied as well (or just past the end). */
  lemma InsertedOne(rows: Rows, dest: nat, row: Option<Row>)
    requires RowAt(rows, dest).Some? || dest == |rows|
    ensures var rows1 := rows[..dest] + [row] + rows[dest..];
            RowAt(rows1, dest + 1).Some? || dest + 1 == |rows1|
  {
    var rows1 := rows[..dest] + [row] + rows[dest..];
    if dest < |rows| {
      assert rows1[dest + 1] == rows[dest];
    }
  }

  /** Inserting `cs` right after a row inserted at `dest` inserts `[row] + cs` at `dest`. */
  lemma InsertedAfterOne(rows: Rows, dest: nat, row: Option<Row>, cs: Rows)
    requires dest <= |rows|
    ensures var rows1 := rows[..dest] + [row] + rows[dest..];
            rows1[..dest + 1] + cs + rows1[dest + 1..] == rows[..dest] + ([row] + cs) + rows[dest..]
  {
    var rows1 := rows[..dest] + [row] + rows[dest..];
    assert rows1[..dest + 1] == rows[..dest] + [row];
    assert rows1[dest + 1..] == rows[dest..];
  }

  /**
   * The first loop of `copyRows` moves a region lying wholly in the rows
   * from an occupied `dest` to the last row down by one row per copy.
   */
  lemma {:induction false} CopyAllMovesDown(s: Snapshot, srcs: seq<TemplateRow>, dest: nat, g: Region)
    requires RowAt(s.rows, dest).Some? || dest == |s.rows|
    requires g in s.merged && dest <= g.firstRow <= g.lastRow < |s.rows|
    ensures Moved(g, |Present(srcs)|) in CopyAll(s, srcs, dest).merged
    decreases |srcs|
  {
    if srcs == [] {
      assert Moved(g, 0) == g;
    } else if srcs[0].row.None? {
      CopyAllMovesDown(s, srcs[1..], dest, g);
    } else {
      var src := srcs[0].row.value;
      var s1 := CopyRowEffect(s, src, srcs[0].index, dest, false);
      var k :| 0 <= k < |s.merged| && s.merged[k] == g;
      assert s1.merged[k] == Moved(g, 1);
      PlaceRowInserts(s.rows, dest, CopyCells(src));
      assert RowAt(s1.rows, dest + 1) == RowAt(s.rows, dest);
      CopyAllMovesDown(s1, srcs[1..], dest + 1, Moved(g, 1));
      assert Moved(Moved(g, 1), |Present(srcs[1..])|) == Moved(g, |Present(srcs)|);
    }
  }

  /** `copyRows` at an occupied `dest` moves the regions below it down by the number of copies. */
  lemma CopyRowsMovesDown(s: Snapshot, srcs: seq<TemplateRow>, dest: nat, g: Region)
    requires RowAt(s.rows, dest).Some? || dest == |s.rows|
    requires g in s.merged && dest <= g.firstRow <= g.lastRow < |s.rows|
    ensures Moved(g, |Present(srcs)|) in CopyRowsEffect(s, srcs, dest).merged
  {
    CopyAllMovesDown(s, srcs, dest, g);
    MergeAllExtends(CopyAll(s, srcs, dest).merged, srcs, dest);
  }

  /** The second loop of `copyRows` only appends. */
  lemma {:induction false} MergeAllExtends(gs: seq<Region>, srcs: seq<TemplateRow>, dest: nat)
    ensures gs <= MergeAll(gs, srcs, dest)
    decreases |srcs|
  {
    if srcs != [] {
      if srcs[0].row.None? {
        MergeAllExtends(gs, srcs[1..], dest);
      } else {
        MergeAllExtends(gs + AnchoredAt(gs, srcs[0].index, dest), srcs[1..], dest + 1);
      }
    }
  }

  /**
   * Every merged region anchored at the k-th present template row reappears,
   * with the same height and columns, anchored at row dest + k.
   */
  lemma {:induction false} MergeAllReanchors(gs: seq<Region>, srcs: seq<TemplateRow>, dest: nat, k: nat, g: Region)
    requires k < |Present(srcs)| && g in gs && g.firstRow == Present(srcs)[k].index
    ensures Reanchor(g, dest + k) in MergeAll(gs, srcs, dest)
    decreases |srcs|
  {
    if srcs[0].row.None? {
      assert Present(srcs) == Present(srcs[1..]);
      MergeAllReanchors(gs, srcs[1..], dest, k, g);
    } else {
      var gs1 := gs + AnchoredAt(gs, srcs[0].index, dest);
      assert Present(srcs) == [srcs[0]] + Present(srcs[1..]);
      if k == 0 {
        AnchoredAtMembers(gs, srcs[0].index, dest);
        MergeAllExtends(gs1, srcs[1..], dest + 1);
        assert Reanchor(g, dest) in gs1;
      } else {
        MergeAllReanchors(gs1, srcs[1..], dest + 1, k - 1, g);
      }
    }
  }

  /**
   * `copyRows` as a whole, when all template rows lie above `dest` (as they
   * do when the engine copies a block below its own template): the regions of
   * every template row are re-created at its replica.
   */
  lemma CopyRowsReanchors(s: Snapshot, srcs: seq<TemplateRow>, dest: nat, k: nat, g: Region)
    requires k < |Present(srcs)| && Present(srcs)[k].index < dest
    requires g in s.merged && g.firstRow == Present(srcs)[k].index
    ensures Reanchor(g, dest + k) in CopyRowsEffect(s, srcs, dest).merged
  {
    CopyAllKeepsRegionsAbove(s, srcs, dest, g);
    MergeAllReanchors(CopyAll(s, srcs, dest).merged, srcs, dest, k, g);
  }

  /** The second loop of `copyRows` adds regions only at or below `dest`. */
  lemma {:induction false} MergeAllAddsBelow(gs: seq<Region>, srcs: seq<TemplateRow>, dest: nat, h: Region)
    requires h in MergeAll(gs, srcs, dest)
    ensures h in gs || h.firstRow >= dest
    decreases |srcs|
  {
    if srcs != [] {
      if srcs[0].row.None? {
        MergeAllAddsBelow(gs, srcs[1..], dest, h);
      } else {
        var added := AnchoredAt(gs, srcs[0].index, dest);
        MergeAllAddsBelow(gs + added, srcs[1..], dest + 1, h);
        AnchoredAtStartsAtDest(gs, srcs[0].index, dest);
      }
    }
  }

  /** `copyRows` as a whole keeps exactly the merged regions anchored above `dest`. */
  lemma CopyRowsKeepsRegionsAbove(s: Snapshot, srcs: seq<TemplateRow>, dest: nat, g: Region)
    requires g.firstRow < dest
    ensures g in s.merged <==> g in CopyRowsEffect(s, srcs, dest).merged
  {
    var copied := CopyAll(s, srcs, dest);
    CopyAllKeepsRegionsAbove(s, srcs, dest, g);
    MergeAllExtends(copied.merged, srcs, dest);
    if g in CopyRowsEffect(s, srcs, dest).merged {
      MergeAllAddsBelow(copied.merged, srcs, dest, g);
    }
  }
}
