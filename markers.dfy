/**
 * The marker vocabulary of a template and the read-only tests the engine
 * applies to rows and cells: `hasKey`, `hasString`, `startWithString`,
 * `bodyEnds` and `bodyFooterEnds` of ExcelGeneratorImpl.
 */
module Markers {
  import opened Outcomes
  import opened Grid

  const TABLE := "#TABLE"
  const RANGE := "#RANGE"
  const RANGE_LIST := "#RANGELIST"
  const BODY := "#Body"
  const FOOTER := "#Footer"
  const BODY_FOOTER := "#BodyFooter"

  /** `String.startsWith`. */
  predicate StartsWith(s: string, prefix: string) {
    prefix <= s
  }

  /** `String.endsWith`. */
  predicate EndsWith(s: string, suffix: string) {
    |suffix| <= |s| && s[|s| - |suffix|..] == suffix
  }

  /** `hasKey`: a string cell whose text starts and ends with `#`. */
  predicate HasKey(cell: Cell) {
    cell.content.StringCell? && StartsWith(cell.content.text, "#") && EndsWith(cell.content.text, "#")
  }

  /**
   * A placeholder the engine cannot strip: the text "#" passes `hasKey`, and
   * `substring(1, length - 1)` then throws.
   */
  predicate LonePlaceholder(cell: Cell) {
    HasKey(cell) && |cell.content.text| < 2
  }

  /** The key of a placeholder: its text without the first and the last character. */
  function Key(text: string): (k: string)
    requires |text| >= 2 && StartsWith(text, "#") && EndsWith(text, "#")
    ensures "#" + k + "#" == text
  {
    text[1..|text| - 1]
  }

  /** The key is determined by the placeholder and determines it. */
  lemma KeyInjective(t1: string, t2: string)
    requires |t1| >= 2 && StartsWith(t1, "#") && EndsWith(t1, "#")
    requires |t2| >= 2 && StartsWith(t2, "#") && EndsWith(t2, "#")
    ensures Key(t1) == Key(t2) <==> t1 == t2
  {
    if Key(t1) == Key(t2) {
      calc {
        t1;
        "#" + Key(t1) + "#";
        "#" + Key(t2) + "#";
        t2;
      }
    }
  }

  /** The text of column 0 when the row exists and that cell is a string cell. */
  function FirstText(row: Option<Row>): Option<string> {
    if row.Some? && 0 in row.value && row.value[0].content.StringCell?
    then Some(row.value[0].content.text)
    else None
  }

  /** `hasString`: column 0 holds exactly `key`. */
  predicate HasString(row: Option<Row>, key: string) {
    FirstText(row) == Some(key)
  }

  /** `startWithString`: column 0 holds a text beginning with `key`. */
  predicate StartWithString(row: Option<Row>, key: string) {
    FirstText(row).Some? && StartsWith(FirstText(row).value, key)
  }

  /** Every `#RANGELIST` marker is caught by the `#RANGE` test, which the engine applies first. */
  lemma RangeListIsRange(row: Option<Row>)
    requires StartWithString(row, RANGE_LIST)
    ensures StartWithString(row, RANGE) && !StartWithString(row, TABLE)
  {
    var t := FirstText(row).value;
    assert t[..|RANGE|] == RANGE_LIST[..|RANGE|];
    assert t[1] == 'R';
  }

  /** `bodyEnds`: the scan may go on at `rowNum` — it is below the last row and not the stop word. */
  predicate BodyEnds(rows: Rows, rowNum: int, stopWord: string) {
    rowNum < |rows| - 1 && !HasString(RowAt(rows, rowNum), stopWord)
  }

  /** `bodyFooterEnds`: as `BodyEnds`, and the row is not the footer sub-marker either. */
  predicate BodyFooterEnds(rows: Rows, rowNum: int, stopWord: string) {
    rowNum < |rows| - 1
    && !HasString(RowAt(rows, rowNum), stopWord)
    && !HasString(RowAt(rows, rowNum), FOOTER + stopWord)
  }

  /**
   * Where the engine's forward scans for `key` stop: the first index from
   * `from` on that is the last row (or beyond it) or holds exactly `key`.
   */
  function ScanEnd(rows: Rows, from: int, key: string): (e: int)
    decreases |rows| - from
    ensures from <= e && (e == from || e <= |rows| - 1)
    ensures forall i :: from <= i < e ==> BodyEnds(rows, i, key)
    ensures !BodyEnds(rows, e, key)
  {
    if BodyEnds(rows, from, key) then ScanEnd(rows, from + 1, key) else from
  }

  /** The scan stops at the first row holding `key`, when one lies before the last row. */
  lemma ScanEndFindsFirst(rows: Rows, from: int, key: string, j: int)
    requires from <= j < |rows| - 1 && HasString(RowAt(rows, j), key)
    requires forall i :: from <= i < j ==> !HasString(RowAt(rows, i), key)
    ensures ScanEnd(rows, from, key) == j
  {
    var e := ScanEnd(rows, from, key);
    assert !BodyEnds(rows, j, key);
    assert !BodyEnds(rows, e, key);
  }

  /** A block without its end marker runs to the last row (or stays put when it starts there). */
  lemma ScanEndUnterminated(rows: Rows, from: int, key: string)
    requires 0 <= from < |rows|
    requires forall i :: from <= i < |rows| - 1 ==> !HasString(RowAt(rows, i), key)
    ensures ScanEnd(rows, from, key) == |rows| - 1
  {
    var e := ScanEnd(rows, from, key);
    assert !BodyEnds(rows, e, key);
  }
}
