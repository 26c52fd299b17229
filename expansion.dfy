/**
 * What expanding a block does to a sheet, stated as functions of the sheet's
 * rows: a block's template rows, the rows one record of data turns them into,
 * and where those rows go. The engine's methods are proved against these.
 */
module Expansion {
  import opened Outcomes
  import opened Grid
  import opened Markers
  import opened Placeholders
  import opened Replication
  import opened ExcelDto

  /** The rows `from` .. `to - 1` as the engine captures them into a template. */
  function Span(rows: Rows, from: int, to: int): (s: seq<TemplateRow>)
    requires from <= to
    ensures |s| == to - from
    ensures forall k :: 0 <= k < |s| ==> s[k] == TemplateRow(from + k, RowAt(rows, from + k))
  {
    seq(to - from, k requires 0 <= k < to - from => TemplateRow(from + k, RowAt(rows, from + k)))
  }

  /** `getRow` returns the same in both row lists for each of the rows 0 .. `n - 1`. */
  ghost predicate RowsAgree(a: Rows, b: Rows, n: int)
    decreases n
  {
    n <= 0 || (RowAt(a, n - 1) == RowAt(b, n - 1) && RowsAgree(a, b, n - 1))
  }

  /** The merged regions whose first row lies above `from`. */
  function AnchoredAbove(gs: seq<Region>, from: int): set<Region> {
    set g | g in gs && g.firstRow < from
  }

  /**
   * Two states of a sheet agree on every row above `from` and on every merged
   * region anchored above it.
   */
  ghost predicate Above(a: Snapshot, b: Snapshot, from: int) {
    RowsAgree(a.rows, b.rows, from) && AnchoredAbove(a.merged, from) == AnchoredAbove(b.merged, from)
  }

  /**
   * Copies placed from `at` on are inserted there without leaving or filling a
   * gap: `at` holds a row, or is the first index past the stored rows.
   */
  predicate Gapless(rows: Rows, at: int) {
    0 <= at && (RowAt(rows, at).Some? || at == |rows|)
  }

  /**
   * `xs` inserted at `at`, one row at a time, each below the one before: the
   * rows from `at` on move down by `|xs|`.
   */
  function InsertRows(rows: Rows, at: nat, xs: Rows): (r: Rows)
    requires at <= |rows|
    ensures |r| == |rows| + |xs|
    decreases |xs|
  {
    if xs == [] then rows else InsertRows(rows[..at] + [xs[0]] + rows[at..], at + 1, xs[1..])
  }

  /** Inserting row by row puts the whole block between the rows above `at` and the rest. */
  lemma {:induction false} InsertRowsSplice(rows: Rows, at: nat, xs: Rows)
    requires at <= |rows|
    ensures InsertRows(rows, at, xs) == rows[..at] + xs + rows[at..]
    decreases |xs|
  {
    if xs != [] {
      var next := rows[..at] + [xs[0]] + rows[at..];
      InsertRowsSplice(next, at + 1, xs[1..]);
      assert next[..at + 1] == rows[..at] + [xs[0]];
      assert next[at + 1..] == rows[at..];
      assert xs == [xs[0]] + xs[1..];
    }
  }

  /**
   * A template row the engine copies and fills as it is: present, without a
   * bare "#", and not opening a nested block.
   */
  predicate PlainRow(t: TemplateRow) {
    t.row.Some? && NoLonePlaceholder(t.row.value) && !StartWithString(t.row, TABLE) && !StartWithString(t.row, RANGE)
  }

  predicate Plain(srcs: seq<TemplateRow>) {
    forall k :: 0 <= k < |srcs| ==> PlainRow(srcs[k])
  }

  /** A plain template row after it is copied and its placeholders are filled from `params`. */
  function FilledCopy(t: TemplateRow, params: Params): Option<Row>
    requires PlainRow(t)
  {
    CopyKeepsNoLone(t.row.value);
    Some(FillRow(CopyCells(t.row.value), params))
  }

  /** What one record makes of a plain template: every row copied and filled, in order. */
  function Filled(srcs: seq<TemplateRow>, params: Params): Rows
    requires Plain(srcs)
  {
    seq(|srcs|, k requires 0 <= k < |srcs| => FilledCopy(srcs[k], params))
  }

  /** The replicas of a plain template for a list of records, one after the other. */
  function FilledEach(srcs: seq<TemplateRow>, records: seq<Params>): Rows
    requires Plain(srcs)
  {
    if records == [] then [] else Filled(srcs, records[0]) + FilledEach(srcs, records[1..])
  }

  /** The template copied but only its first `done` rows filled: the state midway through a replica. */
  function PartlyFilled(srcs: seq<TemplateRow>, params: Params, done: nat): (xs: Rows)
    requires Plain(srcs) && done <= |srcs|
    ensures |xs| == |srcs|
  {
    seq(|srcs|, k requires 0 <= k < |srcs| =>
      if k < done then FilledCopy(srcs[k], params) else Some(CopyCells(srcs[k].row.value)))
  }

  /** The four segments of a range template. */
  datatype Segments = Segments(header: seq<TemplateRow>, body: seq<TemplateRow>,
                               bodyFooter: seq<TemplateRow>, footer: seq<TemplateRow>)

  predicate PlainSegments(t: Segments) {
    Plain(t.header) && Plain(t.body) && Plain(t.bodyFooter) && Plain(t.footer)
  }

  /** A header or footer replica: only when both its map and its segment are non-empty. */
  function Guarded(srcs: seq<TemplateRow>, params: Params): Rows
    requires Plain(srcs)
  {
    if params != map[] && srcs != [] then Filled(srcs, params) else []
  }

  /** The body-footer replicas: only when both the list of maps and the segment are non-empty. */
  function GuardedEach(srcs: seq<TemplateRow>, records: seq<Params>): Rows
    requires Plain(srcs)
  {
    if records != [] && srcs != [] then FilledEach(srcs, records) else []
  }

  /**
   * What one range record makes of a plain range template: the header, the
   * body once per body map, the body footers and the footer.
   */
  function RecordRows(t: Segments, rec: RangeRecord): Rows
    requires PlainSegments(t)
  {
    Guarded(t.header, rec.header) + FilledEach(t.body, rec.body) + GuardedEach(t.bodyFooter, rec.bodyFooter) + Guarded(t.footer, rec.footer)
  }

  /** All records of a range dataset, one after the other; nothing at all when the body segment is empty. */
  function RangeRows(t: Segments, recs: seq<RangeRecord>): Rows
    requires PlainSegments(t)
  {
    if t.body == [] || recs == [] then [] else RecordRows(t, recs[0]) + RangeRows(t, recs[1..])
  }

  // ---------------------------------------------------------------------------
  // Lemmas

  lemma {:induction false} RowsAgreeAt(a: Rows, b: Rows, n: int, i: int)
    requires RowsAgree(a, b, n) && 0 <= i < n
    ensures RowAt(a, i) == RowAt(b, i)
    decreases n
  {
    if i < n - 1 {
      RowsAgreeAt(a, b, n - 1, i);
    }
  }

  lemma {:induction false} RowsAgreeIntro(a: Rows, b: Rows, n: int)
    requires forall i :: 0 <= i < n ==> RowAt(a, i) == RowAt(b, i)
    ensures RowsAgree(a, b, n)
    decreases n
  {
    if n > 0 {
      RowsAgreeIntro(a, b, n - 1);
    }
  }

  lemma {:induction false} RowsAgreeTrans(a: Rows, b: Rows, c: Rows, n: int)
    requires RowsAgree(a, b, n) && RowsAgree(b, c, n)
    ensures RowsAgree(a, c, n)
    decreases n
  {
    if n > 0 {
      RowsAgreeTrans(a, b, c, n - 1);
    }
  }

  /** A row above `from` is the same in both states. */
  lemma AboveRow(a: Snapshot, b: Snapshot, from: int, i: int)
    requires Above(a, b, from) && i < from
    ensures RowAt(a.rows, i) == RowAt(b.rows, i)
  {
    if 0 <= i {
      RowsAgreeAt(a.rows, b.rows, from, i);
    }
  }

  /** A region anchored above `from` is in both states or in neither. */
  lemma AboveRegion(a: Snapshot, b: Snapshot, from: int, g: Region)
    requires Above(a, b, from) && g.firstRow < from
    ensures g in a.merged <==> g in b.merged
  {
    assert g in a.merged <==> g in AnchoredAbove(a.merged, from);
    assert g in b.merged <==> g in AnchoredAbove(b.merged, from);
  }

  /** Agreement row by row and region by region is agreement above `from`. */
  lemma AboveIntro(a: Snapshot, b: Snapshot, from: int)
    requires forall i :: 0 <= i < from ==> RowAt(a.rows, i) == RowAt(b.rows, i)
    requires forall g: Region :: g.firstRow < from ==> (g in a.merged <==> g in b.merged)
    ensures Above(a, b, from)
  {
    RowsAgreeIntro(a.rows, b.rows, from);
  }

  /** Replacing one row changes nothing above it. */
  lemma AboveUpdate(a: Snapshot, i: nat, x: Option<Row>)
    requires i < |a.rows|
    ensures Above(a, Snapshot(a.rows[i := x], a.merged), i)
  {
    AboveIntro(a, Snapshot(a.rows[i := x], a.merged), i);
  }

  /** A state agrees with itself. */
  lemma AboveRefl(a: Snapshot, from: int)
    ensures Above(a, a, from)
  {
    RowsAgreeIntro(a.rows, a.rows, from);
  }

  /** Agreement above a row composes, at the smaller of the two bounds. */
  lemma AboveTrans(a: Snapshot, b: Snapshot, c: Snapshot, f1: int, f2: int, f: int)
    requires Above(a, b, f1) && Above(b, c, f2) && f <= f1 && f <= f2
    ensures Above(a, c, f)
  {
    AboveLower(a, b, f1, f);
    AboveLower(b, c, f2, f);
    RowsAgreeTrans(a.rows, b.rows, c.rows, f);
  }

  /** A merged region moved down so that row `from` lands on row `to`. */
  function Relocated(g: Region, from: int, to: int): Region {
    Moved(g, to - from)
  }

  /**
   * Every merged region of `a` lying wholly in its rows from `from` down to
   * its last row is in `b`, moved down so that row `from` lands on row `to`:
   * the regions below an insertion point travel with their rows. (POI's
   * shift leaves a region that reaches past the last row where it is, so
   * those are not covered.)
   */
  ghost predicate Pushed(a: Snapshot, b: Snapshot, from: int, to: int) {
    forall g {:trigger Relocated(g, from, to)} ::
      g in a.merged && from <= g.firstRow <= g.lastRow < |a.rows| ==> Relocated(g, from, to) in b.merged
  }

  /** Moving by no rows keeps every region. */
  lemma PushedRefl(a: Snapshot, from: int)
    ensures Pushed(a, a, from, from)
  {
    forall g | g in a.merged && from <= g.firstRow <= g.lastRow < |a.rows|
      ensures Relocated(g, from, from) in a.merged
    {
      assert Relocated(g, from, from) == g;
    }
  }

  /** Filling cells moves no region: what was pushed stays pushed. */
  lemma PushedSame(a: Snapshot, b: Snapshot, c: Snapshot, from: int, to: int)
    requires Pushed(a, b, from, to) && c.merged == b.merged
    ensures Pushed(a, c, from, to)
  {
  }

  /** Two insertions one below the other move the regions below both by their total height. */
  lemma PushedTrans(a: Snapshot, b: Snapshot, c: Snapshot, from: int, mid: int, to: int)
    requires Pushed(a, b, from, mid) && Pushed(b, c, mid, to) && |b.rows| == |a.rows| + (mid - from)
    ensures Pushed(a, c, from, to)
  {
    forall g | g in a.merged && from <= g.firstRow <= g.lastRow < |a.rows|
      ensures Relocated(g, from, to) in c.merged
    {
      assert Relocated(g, from, mid) in b.merged;
      assert Relocated(Relocated(g, from, mid), mid, to) == Relocated(g, from, to);
    }
  }

  /** `copyRows` at an occupied row moves every region below it down by the number of copies. */
  lemma CopyRowsPushes(s: Snapshot, srcs: seq<TemplateRow>, dest: nat)
    requires Gapless(s.rows, dest)
    ensures Pushed(s, CopyRowsEffect(s, srcs, dest), dest, dest + |Present(srcs)|)
  {
    forall g | g in s.merged && dest <= g.firstRow <= g.lastRow < |s.rows|
      ensures Relocated(g, dest, dest + |Present(srcs)|) in CopyRowsEffect(s, srcs, dest).merged
    {
      CopyRowsMovesDown(s, srcs, dest, g);
    }
  }

  /** `copyRows` changes nothing above its start row. */
  lemma CopyRowsAbove(s: Snapshot, srcs: seq<TemplateRow>, dest: nat)
    requires Trimmed(s.rows)
    ensures Trimmed(CopyRowsEffect(s, srcs, dest).rows)
    ensures Above(s, CopyRowsEffect(s, srcs, dest), dest)
  {
    CopyAllRowsOf(s, srcs, dest);
    CopyAllKeepsAbove(s.rows, srcs, dest);
    forall g: Region | g.firstRow < dest
      ensures g in s.merged <==> g in CopyRowsEffect(s, srcs, dest).merged
    {
      CopyRowsKeepsRegionsAbove(s, srcs, dest, g);
    }
    AboveIntro(s, CopyRowsEffect(s, srcs, dest), dest);
  }

  /** For a template without absent rows, `copyRows` copies every row. */
  lemma PlainCopies(srcs: seq<TemplateRow>)
    requires Plain(srcs)
    ensures Copies(srcs) == PartlyFilled(srcs, map[], 0)
  {
    PlainPresent(srcs);
    var xs := PartlyFilled(srcs, map[], 0);
    forall k | 0 <= k < |srcs|
      ensures Copies(srcs)[k] == xs[k]
    {
      CopiesInOrder(srcs, k);
    }
  }

  /** Filling row `done` of a partly filled replica. */
  lemma PartlyFilledStep(srcs: seq<TemplateRow>, params: Params, done: nat)
    requires Plain(srcs) && done < |srcs|
    ensures PartlyFilled(srcs, params, done)[done := FilledCopy(srcs[done], params)] == PartlyFilled(srcs, params, done + 1)
  {
  }

  /** A replica with all its rows filled. */
  lemma PartlyFilledDone(srcs: seq<TemplateRow>, params: Params)
    requires Plain(srcs)
    ensures PartlyFilled(srcs, params, |srcs|) == Filled(srcs, params)
  {
  }

  /** Any replica is the same for every record as long as it is partly filled with none filled yet. */
  lemma PartlyFilledNone(srcs: seq<TemplateRow>, p: Params, q: Params)
    requires Plain(srcs)
    ensures PartlyFilled(srcs, p, 0) == PartlyFilled(srcs, q, 0)
  {
  }

  /** Writing one row of the inserted block. */
  lemma InsertRowsUpdate(rows: Rows, at: nat, xs: Rows, k: nat, v: Option<Row>)
    requires at <= |rows| && k < |xs|
    ensures InsertRows(rows, at, xs)[at + k := v] == InsertRows(rows, at, xs[k := v])
  {
    InsertRowsSplice(rows, at, xs);
    InsertRowsSplice(rows, at, xs[k := v]);
    assert (rows[..at] + xs + rows[at..])[at + k := v] == rows[..at] + xs[k := v] + rows[at..];
  }

  /** Inserting right after an inserted block extends the block. */
  lemma {:induction false} InsertRowsTwice(rows: Rows, at: nat, xs: Rows, ys: Rows)
    requires at <= |rows|
    ensures at + |xs| <= |InsertRows(rows, at, xs)|
    ensures InsertRows(InsertRows(rows, at, xs), at + |xs|, ys) == InsertRows(rows, at, xs + ys)
    decreases |xs|
  {
    if xs == [] {
      assert xs + ys == ys;
    } else {
      var next := rows[..at] + [xs[0]] + rows[at..];
      assert (xs + ys)[0] == xs[0] && (xs + ys)[1..] == xs[1..] + ys;
      InsertRowsTwice(next, at + 1, xs[1..], ys);
    }
  }

  /** Insertion keeps the insertion point gapless for the next block. */
  lemma InsertRowsGapless(rows: Rows, at: nat, xs: Rows)
    requires Gapless(rows, at)
    ensures Gapless(InsertRows(rows, at, xs), at + |xs|)
  {
    var r := InsertRows(rows, at, xs);
    InsertRowsSplice(rows, at, xs);
    if at < |rows| {
      assert r[at + |xs|] == rows[at];
    }
  }

  /** Inserting present rows keeps the last stored row present. */
  lemma InsertRowsTrimmed(rows: Rows, at: nat, xs: Rows)
    requires at <= |rows| && Trimmed(rows)
    requires forall k :: 0 <= k < |xs| ==> xs[k].Some?
    ensures Trimmed(InsertRows(rows, at, xs))
  {
    InsertRowsSplice(rows, at, xs);
  }

  /** A table of `n` records expands to `n` times the template's height. */
  lemma {:induction false} FilledEachLength(srcs: seq<TemplateRow>, records: seq<Params>)
    requires Plain(srcs)
    ensures |FilledEach(srcs, records)| == |records| * |srcs|
    decreases |records|
  {
    if records != [] {
      FilledEachLength(srcs, records[1..]);
      assert |records| * |srcs| == |srcs| + (|records| - 1) * |srcs|;
    }
  }

  lemma {:induction false} FilledEachSnoc(srcs: seq<TemplateRow>, records: seq<Params>, last: Params)
    requires Plain(srcs)
    ensures FilledEach(srcs, records + [last]) == FilledEach(srcs, records) + Filled(srcs, last)
    decreases |records|
  {
    if records == [] {
      assert FilledEach(srcs, [last]) == Filled(srcs, last) + FilledEach(srcs, []);
    } else {
      assert (records + [last])[1..] == records[1..] + [last];
      FilledEachSnoc(srcs, records[1..], last);
    }
  }

  lemma {:induction false} RangeRowsSnoc(t: Segments, recs: seq<RangeRecord>, last: RangeRecord)
    requires PlainSegments(t) && t.body != []
    ensures RangeRows(t, recs + [last]) == RangeRows(t, recs) + RecordRows(t, last)
    decreases |recs|
  {
    if recs == [] {
      assert RangeRows(t, [last]) == RecordRows(t, last) + RangeRows(t, []);
    } else {
      assert (recs + [last])[1..] == recs[1..] + [last];
      RangeRowsSnoc(t, recs[1..], last);
    }
  }

  /**
   * Each record of a flat table adds one replica: the number of rows a table
   * expands to is the number of records times the template's height.
   */
  lemma FilledEachAt(srcs: seq<TemplateRow>, records: seq<Params>, j: nat, k: nat)
    requires Plain(srcs) && j < |records| && k < |srcs|
    ensures j * |srcs| + k < |FilledEach(srcs, records)|
    ensures FilledEach(srcs, records)[j * |srcs| + k] == FilledCopy(srcs[k], records[j])
    decreases j
  {
    var n := |srcs|;
    var rest := FilledEach(srcs, records[1..]);
    assert FilledEach(srcs, records) == Filled(srcs, records[0]) + rest;
    if j > 0 {
      FilledEachAt(srcs, records[1..], j - 1, k);
      FilledEachLength(srcs, records[1..]);
      var m := (j - 1) * n + k;
      assert j * n + k == n + m by {
        assert j * n == (j - 1) * n + n;
      }
      assert m < |rest|;
      assert records[1..][j - 1] == records[j];
    }
  }

  /** Agreement above a row holds above every higher row too. */
  lemma AboveLower(a: Snapshot, b: Snapshot, f1: int, f: int)
    requires Above(a, b, f1) && f <= f1
    ensures Above(a, b, f)
  {
    forall i | 0 <= i < f
      ensures RowAt(a.rows, i) == RowAt(b.rows, i)
    {
      AboveRow(a, b, f1, i);
    }
    forall g: Region | g.firstRow < f
      ensures g in a.merged <==> g in b.merged
    {
      AboveRegion(a, b, f1, g);
    }
    AboveIntro(a, b, f);
  }

  /** A plain template has no absent row, so `copyRows` skips none. */
  lemma {:induction false} PlainPresent(srcs: seq<TemplateRow>)
    requires Plain(srcs)
    ensures Present(srcs) == srcs
    decreases |srcs|
  {
    if srcs != [] {
      PlainPresent(srcs[1..]);
      assert srcs == [srcs[0]] + srcs[1..];
    }
  }

  /** The copy of a plain template row neither opens a block nor holds a bare "#". */
  lemma PlainCopyInert(t: TemplateRow)
    requires PlainRow(t)
    ensures NoLonePlaceholder(CopyCells(t.row.value))
    ensures !StartWithString(Some(CopyCells(t.row.value)), TABLE)
    ensures !StartWithString(Some(CopyCells(t.row.value)), RANGE)
  {
    CopyKeepsNoLone(t.row.value);
    CopyKeepsMarkers(t.row.value, TABLE);
    CopyKeepsMarkers(t.row.value, RANGE);
  }

  /**
   * `copyRows` of a plain template at a gapless position inserts one unfilled
   * copy of every template row there.
   */
  lemma PlainCopyRows(s: Snapshot, srcs: seq<TemplateRow>, dest: nat, params: Params)
    requires Trimmed(s.rows) && Plain(srcs) && Gapless(s.rows, dest)
    ensures CopyRowsEffect(s, srcs, dest).rows == InsertRows(s.rows, dest, PartlyFilled(srcs, params, 0))
  {
    CopyAllRowsOf(s, srcs, dest);
    CopyAllInserts(s.rows, srcs, dest);
    PlainCopies(srcs);
    PartlyFilledNone(srcs, map[], params);
    InsertRowsSplice(s.rows, dest, PartlyFilled(srcs, params, 0));
  }

  /** `after` is `before` with `xs` inserted at `at`, and the row after the insertion is gapless. */
  ghost predicate Inserted(before: Rows, after: Rows, at: int, xs: Rows) {
    0 <= at <= |before| && after == InsertRows(before, at, xs) && Gapless(after, at + |xs|)
  }

  /** Nothing inserted at a gapless position. */
  lemma InsertedNone(rows: Rows, at: int)
    requires Gapless(rows, at)
    ensures Inserted(rows, rows, at, [])
  {
    assert InsertRows(rows, at, []) == rows;
  }

  /** A block inserted right after an insertion extends it. */
  lemma InsertedThen(a: Rows, b: Rows, c: Rows, at: int, xs: Rows, ys: Rows)
    requires Inserted(a, b, at, xs)
    requires at + |xs| <= |b| && c == InsertRows(b, at + |xs|, ys)
    ensures Inserted(a, c, at, xs + ys)
  {
    InsertRowsTwice(a, at, xs, ys);
    InsertRowsGapless(b, at + |xs|, ys);
  }

  /** Inserting a further block right after the ones inserted so far; the cursor stays gapless. */
  lemma InsertMore(rows: Rows, start: nat, acc: Rows, xs: Rows)
    requires start <= |rows| && Gapless(InsertRows(rows, start, acc), start + |acc|)
    ensures start + |acc| <= |InsertRows(rows, start, acc)|
    ensures InsertRows(InsertRows(rows, start, acc), start + |acc|, xs) == InsertRows(rows, start, acc + xs)
    ensures Gapless(InsertRows(rows, start, acc + xs), start + |acc + xs|)
  {
    InsertRowsTwice(rows, start, acc, xs);
    InsertRowsGapless(InsertRows(rows, start, acc), start + |acc|, xs);
  }

  /**
   * Filling row `i` of a replica being filled: that row is still the plain
   * copy, and filling it moves the replica on by one row.
   */
  lemma FillStep(rows: Rows, at: nat, srcs: seq<TemplateRow>, params: Params, i: nat)
    requires Plain(srcs) && i < |srcs| && at <= |rows|
    ensures RowAt(InsertRows(rows, at, PartlyFilled(srcs, params, i)), at + i) == Some(CopyCells(srcs[i].row.value))
    ensures InsertRows(rows, at, PartlyFilled(srcs, params, i))[at + i := FilledCopy(srcs[i], params)]
            == InsertRows(rows, at, PartlyFilled(srcs, params, i + 1))
  {
    InsertRowsUpdate(rows, at, PartlyFilled(srcs, params, i), i, FilledCopy(srcs[i], params));
    PartlyFilledStep(srcs, params, i);
    InsertRowsSplice(rows, at, PartlyFilled(srcs, params, i));
  }
}
