/**
 * What `fillCells` writes into one placeholder cell `#key#`
 * (ExcelGeneratorImpl.java:161-187): the value looked up for `key`, rendered
 * by its type.
 */
module Placeholders {
  import opened Outcomes
  import opened Values
  import opened Grid
  import opened Markers

  /** Key-to-value data the cells of one row are filled from. */
  type Params = map<string, Value>

  /**
   * What `setCellValue` receives for a key: a text (and whether a URL
   * hyperlink on the cell takes the same text as its address), or a number.
   */
  datatype Rendering = AsText(text: string, relinks: bool) | AsNumber(number: Decimal)

  function Render(params: Params, key: string): Rendering
  {
    if key !in params then AsText("", false)
    else match params[key]
      case NullValue => AsText("", false)
      case DateValue(d) => AsText(FormatDate(d), false)
      case DecimalValue(x) => AsNumber(x)
      case TextValue(s) => AsText(s, true)
      case IntegerValue(i) => AsText(IntToString(i), true)
  }

  /** The hyperlink after a text write: a URL link takes the text as its address. */
  function Relink(link: Option<Hyperlink>, text: string, relinks: bool): Option<Hyperlink> {
    if relinks && link.Some? && link.value.kind == Url then Some(link.value.(address := text)) else link
  }

  /** One placeholder cell after `fillCells` has written it. */
  function FillCell(cell: Cell, params: Params): (c: Cell)
    requires HasKey(cell) && !LonePlaceholder(cell)
    ensures c.decoration == cell.decoration
    ensures c.link.Some? <==> cell.link.Some?
    ensures c.link.Some? ==> c.link.value.kind == cell.link.value.kind && c.link.value.linkLabel == cell.link.value.linkLabel
  {
    match Render(params, Key(cell.content.text))
    case AsNumber(x) => cell.(content := NumericCell(x))
    case AsText(s, relinks) => cell.(content := StringCell(s), link := Relink(cell.link, s, relinks))
  }

  predicate NoLonePlaceholder(row: Row) {
    forall c :: c in row ==> !LonePlaceholder(row[c])
  }

  /** A whole row after `fillCells`: its placeholder cells written, every other cell as it was. */
  function FillRow(row: Row, params: Params): (r: Row)
    requires NoLonePlaceholder(row)
    ensures r.Keys == row.Keys
  {
    map c | c in row :: if HasKey(row[c]) then FillCell(row[c], params) else row[c]
  }

  /** A key without a value, or mapped to null, blanks the cell to the empty text and keeps its link. */
  lemma MissingValueBlanks(cell: Cell, params: Params)
    requires HasKey(cell) && !LonePlaceholder(cell)
    requires var k := Key(cell.content.text); k !in params || params[k].NullValue?
    ensures FillCell(cell, params) == cell.(content := StringCell(""))
  {
  }

  /**
   * A date is written as `dd.MM.yyyy`, from which its day, month and year of
   * era are read back (the date itself from year 1 on).
   */
  lemma DateIsWrittenAsPattern(cell: Cell, params: Params, d: Date)
    requires HasKey(cell) && !LonePlaceholder(cell)
    requires var k := Key(cell.content.text); k in params && params[k] == DateValue(d)
    ensures FillCell(cell, params).content.StringCell?
    ensures ParseDate(FillCell(cell, params).content.text) == Some(CommonEra(d))
  {
    FormatDateRoundTrip(d);
  }

  /** A text or integer value becomes the cell's text and, on a URL link, the link's address too. */
  lemma UrlFollowsText(cell: Cell, params: Params)
    requires HasKey(cell) && !LonePlaceholder(cell)
    requires var k := Key(cell.content.text); k in params && (params[k].TextValue? || params[k].IntegerValue?)
    requires cell.link.Some? && cell.link.value.kind == Url
    ensures FillCell(cell, params).content.StringCell?
    ensures FillCell(cell, params).link == Some(cell.link.value.(address := FillCell(cell, params).content.text))
  {
  }

  /** No value is written as a text that is itself a placeholder. */
  predicate InertValues(params: Params) {
    forall k :: k in params ==> match Render(params, k)
      case AsText(s, _) => !(StartsWith(s, "#") && EndsWith(s, "#"))
      case AsNumber(_) => true
  }

  /**
   * Filling is idempotent when no value renders as a placeholder: a row the
   * engine visits twice with the same data is not changed the second time.
   */
  lemma {:induction false} FillRowIdempotent(row: Row, params: Params)
    requires NoLonePlaceholder(row) && InertValues(params)
    ensures NoLonePlaceholder(FillRow(row, params))
    ensures FillRow(FillRow(row, params), params) == FillRow(row, params)
  {
    var once := FillRow(row, params);
    forall c | c in once
      ensures !HasKey(once[c]) || !HasKey(row[c])
      ensures !LonePlaceholder(once[c])
    {
      if HasKey(row[c]) {
        var k := Key(row[c].content.text);
        assert k in params ==> InertValues(params);
      }
    }
    var twice := FillRow(once, params);
    assert twice.Keys == once.Keys;
    forall c | c in once
      ensures twice[c] == once[c]
    {
    }
  }
}
