/**
 * How `createTemplate` (ExcelGeneratorImpl.java:441-499) splits the rows of a
 * range block into header, body, body footer and footer, as a function of the
 * rows, and the shape every such split has.
 */
module RangeTemplates {
  import opened Outcomes
  import opened Grid
  import opened Markers
  import opened Expansion

  /** Which of the loops of `createTemplate` is reading rows. */
  datatype Phase = InBody | InBodyFooter | InFooter

  /**
   * The rows from `i` on added to `acc`, as the body loop and its two inner
   * loops add them: after `#BodyFooter`+name rows go to the body footer until
   * `#Footer`+name or the name; after `#Footer`+name rows go to the footer
   * until the name; any other row goes to the body.
   */
  function Walk(rows: Rows, i: int, stop: string, phase: Phase, acc: Segments): Segments
    decreases |rows| - i, if phase.InBody? then 0 else 1
  {
    match phase
    case InBody =>
      if !BodyEnds(rows, i, stop) then acc
      else if HasString(RowAt(rows, i), BODY_FOOTER + stop) then Walk(rows, i + 1, stop, InBodyFooter, acc)
      else if HasString(RowAt(rows, i), FOOTER + stop) then Walk(rows, i + 1, stop, InFooter, acc)
      else Walk(rows, i + 1, stop, InBody, acc.(body := acc.body + [TemplateRow(i, RowAt(rows, i))]))
    case InBodyFooter =>
      if BodyFooterEnds(rows, i, stop)
      then Walk(rows, i + 1, stop, InBodyFooter, acc.(bodyFooter := acc.bodyFooter + [TemplateRow(i, RowAt(rows, i))]))
      else Walk(rows, i, stop, InBody, acc)
    case InFooter =>
      if BodyEnds(rows, i, stop)
      then Walk(rows, i + 1, stop, InFooter, acc.(footer := acc.footer + [TemplateRow(i, RowAt(rows, i))]))
      else Walk(rows, i, stop, InBody, acc)
  }

  /** Where the header of a range template starting at `start` ends: its `#Body`+name row. */
  function HeaderEnd(rows: Rows, start: int, stop: string): int {
    ScanEnd(rows, start, BODY + stop)
  }

  /** Where the body part of a range template ends: its end marker, or the last row. */
  function TemplateEnd(rows: Rows, start: int, stop: string): int {
    ScanEnd(rows, HeaderEnd(rows, start, stop) + 1, stop)
  }

  /** The template `createTemplate(sheet, start, stop)` returns. */
  function TemplateOf(rows: Rows, start: int, stop: string): Segments {
    var h := HeaderEnd(rows, start, stop);
    Walk(rows, h + 1, stop, InBody, Segments(Span(rows, start, h), [], [], []))
  }

  function All(t: Segments): seq<TemplateRow> {
    t.header + t.body + t.bodyFooter + t.footer
  }

  /** The rows after the header: body, body footer and footer. */
  function Lower(t: Segments): seq<TemplateRow> {
    t.body + t.bodyFooter + t.footer
  }

  predicate Ascending(ts: seq<TemplateRow>) {
    forall a, b :: 0 <= a < b < |ts| ==> ts[a].index < ts[b].index
  }

  function Indices(ts: seq<TemplateRow>): set<int> {
    set t | t in ts :: t.index
  }

  /** A row that only separates segments: `#BodyFooter`+name or `#Footer`+name. */
  predicate SubMarker(rows: Rows, j: int, stop: string) {
    HasString(RowAt(rows, j), BODY_FOOTER + stop) || HasString(RowAt(rows, j), FOOTER + stop)
  }

  /** Every captured row is the row at its index, below `start` and above the last row. */
  predicate Captured(rows: Rows, start: int, ts: seq<TemplateRow>) {
    forall t :: t in ts ==> start <= t.index < |rows| - 1 && t.row == RowAt(rows, t.index)
  }

  /** The marker texts each segment never holds. */
  predicate Excludes(t: Segments, stop: string) {
    && (forall x :: x in t.header ==> !HasString(x.row, BODY + stop))
    && (forall x :: x in t.body ==>
          !HasString(x.row, stop) && !HasString(x.row, BODY_FOOTER + stop) && !HasString(x.row, FOOTER + stop))
    && (forall x :: x in t.bodyFooter ==> !HasString(x.row, stop) && !HasString(x.row, FOOTER + stop))
    && (forall x :: x in t.footer ==> !HasString(x.row, stop))
  }

  /** What holds of the rows captured so far while the walk is at row `i`, whatever the phase. */
  predicate Core(rows: Rows, stop: string, start: int, h: int, i: int, acc: Segments) {
    && Ascending(All(acc))
    && Captured(rows, start, All(acc))
    && (forall x :: x in All(acc) ==> x.index < i)
    && (forall x :: x in Lower(acc) ==> h < x.index)
    && (forall j :: h < j < i ==> j in Indices(Lower(acc)) || SubMarker(rows, j, stop))
  }

  /** What the phase tells of the segments the walk has already closed. */
  predicate PhaseInv(rows: Rows, stop: string, i: int, phase: Phase, acc: Segments) {
    match phase
    case InBody =>
      && (acc.footer != [] ==> !BodyEnds(rows, i, stop))
      && (acc.bodyFooter != [] ==> !BodyEnds(rows, i, stop) || HasString(RowAt(rows, i), FOOTER + stop))
    case InBodyFooter => acc.footer == []
    case InFooter => true
  }

  predicate WalkInv(rows: Rows, stop: string, start: int, h: int, e: int, i: int, phase: Phase, acc: Segments) {
    && h + 1 <= i <= e
    && Core(rows, stop, start, h, i, acc)
    && Excludes(acc, stop)
    && PhaseInv(rows, stop, i, phase, acc)
  }

  /** The shape of a finished template. */
  predicate Shaped(rows: Rows, stop: string, start: int, h: int, e: int, t: Segments) {
    && Ascending(All(t))
    && Captured(rows, start, All(t))
    && Excludes(t, stop)
    && (forall x :: x in Lower(t) ==> h < x.index < e)
    && (forall j :: h < j < e ==> j in Indices(Lower(t)) || SubMarker(rows, j, stop))
  }

  /** Capturing row `i` at the end of the rows read so far. */
  lemma CoreAppend(rows: Rows, stop: string, start: int, h: int, i: int, acc: Segments, acc': Segments)
    requires Core(rows, stop, start, h, i, acc) && h < i && start <= i < |rows| - 1
    requires All(acc') == All(acc) + [TemplateRow(i, RowAt(rows, i))]
    requires Lower(acc') == Lower(acc) + [TemplateRow(i, RowAt(rows, i))]
    ensures Core(rows, stop, start, h, i + 1, acc')
  {
    var x := TemplateRow(i, RowAt(rows, i));
    var s := All(acc');
    forall a, b | 0 <= a < b < |s|
      ensures s[a].index < s[b].index
    {
      if b == |s| - 1 {
        assert s[a] in All(acc);
      } else {
        assert s[a] == All(acc)[a] && s[b] == All(acc)[b];
      }
    }
    assert x in Lower(acc');
    assert Indices(Lower(acc')) == Indices(Lower(acc)) + {i};
  }

  /** Passing over a sub-marker row. */
  lemma CoreSkip(rows: Rows, stop: string, start: int, h: int, i: int, acc: Segments)
    requires Core(rows, stop, start, h, i, acc) && SubMarker(rows, i, stop)
    ensures Core(rows, stop, start, h, i + 1, acc)
  {
  }

  lemma BodyStep(rows: Rows, stop: string, start: int, h: int, e: int, i: int, acc: Segments)
    requires start <= h + 1 && WalkInv(rows, stop, start, h, e, i, InBody, acc) && BodyEnds(rows, i, stop) && i < e
    requires !SubMarker(rows, i, stop)
    ensures WalkInv(rows, stop, start, h, e, i + 1, InBody, acc.(body := acc.body + [TemplateRow(i, RowAt(rows, i))]))
  {
    var acc' := acc.(body := acc.body + [TemplateRow(i, RowAt(rows, i))]);
    assert All(acc') == All(acc) + [TemplateRow(i, RowAt(rows, i))];
    assert Lower(acc') == Lower(acc) + [TemplateRow(i, RowAt(rows, i))];
    CoreAppend(rows, stop, start, h, i, acc, acc');
  }

  lemma BodyFooterStep(rows: Rows, stop: string, start: int, h: int, e: int, i: int, acc: Segments)
    requires start <= h + 1 && WalkInv(rows, stop, start, h, e, i, InBodyFooter, acc) && BodyFooterEnds(rows, i, stop) && i < e
    ensures WalkInv(rows, stop, start, h, e, i + 1, InBodyFooter, acc.(bodyFooter := acc.bodyFooter + [TemplateRow(i, RowAt(rows, i))]))
  {
    var acc' := acc.(bodyFooter := acc.bodyFooter + [TemplateRow(i, RowAt(rows, i))]);
    assert All(acc') == All(acc) + [TemplateRow(i, RowAt(rows, i))];
    assert Lower(acc') == Lower(acc) + [TemplateRow(i, RowAt(rows, i))];
    CoreAppend(rows, stop, start, h, i, acc, acc');
  }

  lemma FooterStep(rows: Rows, stop: string, start: int, h: int, e: int, i: int, acc: Segments)
    requires start <= h + 1 && WalkInv(rows, stop, start, h, e, i, InFooter, acc) && BodyEnds(rows, i, stop) && i < e
    ensures WalkInv(rows, stop, start, h, e, i + 1, InFooter, acc.(footer := acc.footer + [TemplateRow(i, RowAt(rows, i))]))
  {
    var acc' := acc.(footer := acc.footer + [TemplateRow(i, RowAt(rows, i))]);
    assert All(acc') == All(acc) + [TemplateRow(i, RowAt(rows, i))];
    assert Lower(acc') == Lower(acc) + [TemplateRow(i, RowAt(rows, i))];
    CoreAppend(rows, stop, start, h, i, acc, acc');
  }

  /** Stepping over a sub-marker row into the body footer or the footer. */
  lemma SubMarkerStep(rows: Rows, stop: string, start: int, h: int, e: int, i: int, acc: Segments, next: Phase)
    requires WalkInv(rows, stop, start, h, e, i, InBody, acc) && BodyEnds(rows, i, stop) && i < e
    requires next.InBodyFooter? ==> HasString(RowAt(rows, i), BODY_FOOTER + stop)
    requires next.InFooter? ==> HasString(RowAt(rows, i), FOOTER + stop)
    requires !next.InBody?
    ensures WalkInv(rows, stop, start, h, e, i + 1, next, acc)
  {
    CoreSkip(rows, stop, start, h, i, acc);
  }

  /** Leaving the body-footer or footer loop for the body loop at the same row. */
  lemma BackToBody(rows: Rows, stop: string, start: int, h: int, e: int, i: int, acc: Segments, phase: Phase)
    requires WalkInv(rows, stop, start, h, e, i, phase, acc)
    requires phase.InBodyFooter? ==> !BodyFooterEnds(rows, i, stop)
    requires phase.InFooter? ==> !BodyEnds(rows, i, stop)
    requires !phase.InBody?
    ensures WalkInv(rows, stop, start, h, e, i, InBody, acc)
  {
  }

  /** The walk stops where the body part ends. */
  lemma WalkEnds(rows: Rows, stop: string, start: int, h: int, e: int, i: int, acc: Segments)
    requires e == ScanEnd(rows, h + 1, stop)
    requires WalkInv(rows, stop, start, h, e, i, InBody, acc) && !BodyEnds(rows, i, stop)
    ensures Shaped(rows, stop, start, h, e, acc)
  {
    assert i == e;
  }

  lemma {:induction false} WalkShape(rows: Rows, stop: string, start: int, h: int, e: int, i: int, phase: Phase, acc: Segments)
    requires start <= h + 1 && e == ScanEnd(rows, h + 1, stop)
    requires WalkInv(rows, stop, start, h, e, i, phase, acc)
    ensures Shaped(rows, stop, start, h, e, Walk(rows, i, stop, phase, acc))
    ensures Walk(rows, i, stop, phase, acc).header == acc.header
    decreases |rows| - i, if phase.InBody? then 0 else 1
  {
    if BodyEnds(rows, i, stop) {
      assert i < e;
    }
    var row := TemplateRow(i, RowAt(rows, i));
    match phase
    case InBody =>
      if !BodyEnds(rows, i, stop) {
        WalkEnds(rows, stop, start, h, e, i, acc);
      } else if HasString(RowAt(rows, i), BODY_FOOTER + stop) {
        SubMarkerStep(rows, stop, start, h, e, i, acc, InBodyFooter);
        WalkShape(rows, stop, start, h, e, i + 1, InBodyFooter, acc);
      } else if HasString(RowAt(rows, i), FOOTER + stop) {
        SubMarkerStep(rows, stop, start, h, e, i, acc, InFooter);
        WalkShape(rows, stop, start, h, e, i + 1, InFooter, acc);
      } else {
        BodyStep(rows, stop, start, h, e, i, acc);
        WalkShape(rows, stop, start, h, e, i + 1, InBody, acc.(body := acc.body + [row]));
      }
    case InBodyFooter =>
      if BodyFooterEnds(rows, i, stop) {
        BodyFooterStep(rows, stop, start, h, e, i, acc);
        WalkShape(rows, stop, start, h, e, i + 1, InBodyFooter, acc.(bodyFooter := acc.bodyFooter + [row]));
      } else {
        BackToBody(rows, stop, start, h, e, i, acc, phase);
        WalkShape(rows, stop, start, h, e, i, InBody, acc);
      }
    case InFooter =>
      if BodyEnds(rows, i, stop) {
        FooterStep(rows, stop, start, h, e, i, acc);
        WalkShape(rows, stop, start, h, e, i + 1, InFooter, acc.(footer := acc.footer + [row]));
      } else {
        BackToBody(rows, stop, start, h, e, i, acc, phase);
        WalkShape(rows, stop, start, h, e, i, InBody, acc);
      }
  }

  /** Every header row lies before the `#Body`+name row and holds no `#Body`+name. */
  lemma HeaderRows(rows: Rows, start: int, stop: string)
    ensures var hs := Span(rows, start, HeaderEnd(rows, start, stop));
            forall x | x in hs :: start <= x.index < |rows| - 1 && x.row == RowAt(rows, x.index) && !HasString(x.row, BODY + stop)
  {
    var hs := Span(rows, start, HeaderEnd(rows, start, stop));
    forall x | x in hs
      ensures start <= x.index < |rows| - 1 && x.row == RowAt(rows, x.index) && !HasString(x.row, BODY + stop)
    {
      var k :| 0 <= k < |hs| && hs[k] == x;
      assert BodyEnds(rows, start + k, BODY + stop);
    }
  }

  /**
   * A range template: the header is exactly the rows before `#Body`+name; the
   * four segments are disjoint and in increasing row order, each row is the
   * sheet's row at its index, no row is the last row of the sheet, no segment
   * holds the marker that ends it, and every row between `#Body`+name and the
   * end marker lands in a segment unless it is a sub-marker.
   */
  lemma TemplateShape(rows: Rows, start: int, stop: string)
    ensures TemplateOf(rows, start, stop).header == Span(rows, start, HeaderEnd(rows, start, stop))
    ensures Shaped(rows, stop, start, HeaderEnd(rows, start, stop), TemplateEnd(rows, start, stop), TemplateOf(rows, start, stop))
  {
    var h := HeaderEnd(rows, start, stop);
    var acc := Segments(Span(rows, start, h), [], [], []);
    assert All(acc) == acc.header;
    assert Lower(acc) == [];
    HeaderRows(rows, start, stop);
    WalkShape(rows, stop, start, h, TemplateEnd(rows, start, stop), h + 1, InBody, acc);
  }
}
