/**
 * The data a spreadsheet template is filled with (package
 * `voofai.lib.excel.dto`): the mutable containers callers build up, and the
 * immutable views of them the engine reads.
 */
module ExcelDto {
  import opened Outcomes
  import opened Values
  import opened Grid
  import opened Markers
  import opened Placeholders

  // ---------------------------------------------------------------------------
  // Views the engine reads

  /** One record of a range dataset. */
  datatype RangeRecord = RangeRecord(header: Params, body: seq<Params>, bodyFooter: seq<Params>, footer: Params)

  /** A named flat table: one key-to-value map per record. */
  datatype SimpleTable = SimpleTable(name: string, rows: seq<Params>)

  /** A named range dataset. */
  datatype RangeDataset = RangeDataset(name: string, records: seq<RangeRecord>)

  /**
   * All the data of one fill. The two table collections are hash sets in the
   * library; here they are sequences in one fixed (arbitrary) order.
   */
  datatype DataSet = DataSet(params: Params, simpleTables: seq<SimpleTable>, extendedTables: seq<RangeDataset>)

  /** `simpleTables.stream().filter(name equals).findFirst()`. */
  function FindSimple(tables: seq<SimpleTable>, name: string): (found: Option<seq<Params>>)
    ensures found.None? <==> forall k :: 0 <= k < |tables| ==> tables[k].name != name
    ensures found.Some? ==> exists k :: 0 <= k < |tables| && tables[k].name == name && tables[k].rows == found.value
                              && forall j :: 0 <= j < k ==> tables[j].name != name
  {
    if tables == [] then None
    else if tables[0].name == name then Some(tables[0].rows)
    else
      var rest := FindSimple(tables[1..], name);
      assert forall k :: 1 <= k < |tables| ==> tables[k] == tables[1..][k - 1];
      rest
  }

  /** `extendedTables.stream().filter(name equals).findFirst()`. */
  function FindRange(tables: seq<RangeDataset>, name: string): (found: Option<seq<RangeRecord>>)
    ensures found.None? <==> forall k :: 0 <= k < |tables| ==> tables[k].name != name
    ensures found.Some? ==> exists k :: 0 <= k < |tables| && tables[k].name == name && tables[k].records == found.value
                              && forall j :: 0 <= j < k ==> tables[j].name != name
  {
    if tables == [] then None
    else if tables[0].name == name then Some(tables[0].records)
    else
      var rest := FindRange(tables[1..], name);
      assert forall k :: 1 <= k < |tables| ==> tables[k] == tables[1..][k - 1];
      rest
  }

  /** The positions of the range datasets a `#RANGELIST` block is expanded for. */
  function RangeListMembers(tables: seq<RangeDataset>): set<nat> {
    set k: nat | k < |tables| && StartsWith(tables[k].name, RANGE_LIST)
  }

  // ---------------------------------------------------------------------------
  // The containers

  /** The template rows of a range, split into its four segments, in the order they were read. */
  class ExcelTemplateTableRows {
    var header: seq<TemplateRow>
    var body: seq<TemplateRow>
    var bodyFooter: seq<TemplateRow>
    var footer: seq<TemplateRow>

    constructor ()
      ensures header == [] && body == [] && bodyFooter == [] && footer == []
    {
      header, body, bodyFooter, footer := [], [], [], [];
    }

    method AddHeader(row: TemplateRow)
      modifies this
      ensures header == old(header) + [row]
      ensures body == old(body) && bodyFooter == old(bodyFooter) && footer == old(footer)
    {
      header := header + [row];
    }

    method AddBody(row: TemplateRow)
      modifies this
      ensures body == old(body) + [row]
      ensures header == old(header) && bodyFooter == old(bodyFooter) && footer == old(footer)
    {
      body := body + [row];
    }

    method AddBodyFooter(row: TemplateRow)
      modifies this
      ensures bodyFooter == old(bodyFooter) + [row]
      ensures header == old(header) && body == old(body) && footer == old(footer)
    {
      bodyFooter := bodyFooter + [row];
    }

    method AddFooter(row: TemplateRow)
      modifies this
      ensures footer == old(footer) + [row]
      ensures header == old(header) && body == old(body) && bodyFooter == old(bodyFooter)
    {
      footer := footer + [row];
    }
  }

  /** One record of a range: header and footer maps, body and body-footer lists of maps. */
  class ExcelTemplateTableData {
    var header: Params
    var body: seq<Params>
    var bodyFooter: seq<Params>
    var footer: Params

    constructor ()
      ensures header == map[] && body == [] && bodyFooter == [] && footer == map[]
    {
      header, body, bodyFooter, footer := map[], [], [], map[];
    }

    method AddHeader(key: string, data: Value)
      modifies this
      ensures header == old(header)[key := data]
      ensures body == old(body) && bodyFooter == old(bodyFooter) && footer == old(footer)
    {
      header := header[key := data];
    }

    method AddBody(data: Params)
      modifies this
      ensures body == old(body) + [data]
      ensures header == old(header) && bodyFooter == old(bodyFooter) && footer == old(footer)
    {
      body := body + [data];
    }

    method AddFooter(key: string, data: Value)
      modifies this
      ensures footer == old(footer)[key := data]
      ensures header == old(header) && body == old(body) && bodyFooter == old(bodyFooter)
    {
      footer := footer[key := data];
    }

    method AddBodyFooter(data: Params)
      modifies this
      ensures bodyFooter == old(bodyFooter) + [data]
      ensures header == old(header) && body == old(body) && footer == old(footer)
    {
      bodyFooter := bodyFooter + [data];
    }

    function View(): RangeRecord
      reads this
    {
      RangeRecord(header, body, bodyFooter, footer)
    }
  }

  /** A named flat table. */
  class ExcelSimpleTableData {
    const tableName: string
    var tableRowsData: seq<Params>

    constructor (tableName: string)
      ensures this.tableName == tableName && tableRowsData == []
    {
      this.tableName := tableName;
      tableRowsData := [];
    }

    method AddTableRowData(row: Params)
      modifies this
      ensures tableRowsData == old(tableRowsData) + [row]
    {
      tableRowsData := tableRowsData + [row];
    }

    function View(): SimpleTable
      reads this
    {
      SimpleTable(tableName, tableRowsData)
    }
  }

  /** A named range dataset: its records in order. */
  class ExcelTemplateTableDataWrapper {
    const tableName: string
    var tableRowsData: seq<ExcelTemplateTableData>

    constructor (tableName: string)
      ensures this.tableName == tableName && tableRowsData == []
    {
      this.tableName := tableName;
      tableRowsData := [];
    }

    method AddTableRowData(record: ExcelTemplateTableData)
      modifies this
      ensures tableRowsData == old(tableRowsData) + [record]
    {
      tableRowsData := tableRowsData + [record];
    }

    function View(): (v: RangeDataset)
      reads this, tableRowsData
      ensures v.name == tableName && |v.records| == |tableRowsData|
      ensures forall k :: 0 <= k < |tableRowsData| ==> v.records[k] == tableRowsData[k].View()
    {
      var ds := tableRowsData;
      RangeDataset(tableName, seq(|ds|, k requires 0 <= k < |ds| reads ds => ds[k].View()))
    }
  }

  /** Everything a fill reads: the plain parameters and the two table sets. */
  class ExcelData {
    var params: Params
    var simpleTables: seq<ExcelSimpleTableData>
    var extendedTables: seq<ExcelTemplateTableDataWrapper>

    constructor ()
      ensures params == map[] && simpleTables == [] && extendedTables == []
    {
      params, simpleTables, extendedTables := map[], [], [];
    }

    /** `addParam(key, String)`; `None` is a null string. */
    method AddParamText(key: string, val: Option<string>) returns (self: ExcelData)
      modifies this
      ensures self == this
      ensures params == old(params)[key := if val.Some? then TextValue(val.value) else NullValue]
      ensures simpleTables == old(simpleTables) && extendedTables == old(extendedTables)
    {
      params := params[key := if val.Some? then TextValue(val.value) else NullValue];
      self := this;
    }

    /** `addParam(key, Integer)`; `None` is a null integer. */
    method AddParamInteger(key: string, val: Option<Int32>) returns (self: ExcelData)
      modifies this
      ensures self == this
      ensures params == old(params)[key := if val.Some? then IntegerValue(val.value) else NullValue]
      ensures simpleTables == old(simpleTables) && extendedTables == old(extendedTables)
    {
      params := params[key := if val.Some? then IntegerValue(val.value) else NullValue];
      self := this;
    }

    /** `addParam(key, LocalDate)`: the date is stored as its text, a null date as "N/A". */
    method AddParamDate(key: string, val: Option<Date>) returns (self: ExcelData)
      modifies this
      ensures self == this
      ensures params == old(params)[key := TextValue(DateText(val))]
      ensures simpleTables == old(simpleTables) && extendedTables == old(extendedTables)
    {
      params := params[key := TextValue(DateText(val))];
      self := this;
    }

    /** `getSimpleTables().add(table)`: a hash set of objects, so adding one twice keeps one. */
    method AddSimpleTable(table: ExcelSimpleTableData)
      modifies this
      ensures table in simpleTables
      ensures simpleTables == if table in old(simpleTables) then old(simpleTables) else old(simpleTables) + [table]
      ensures params == old(params) && extendedTables == old(extendedTables)
    {
      if table !in simpleTables {
        simpleTables := simpleTables + [table];
      }
    }

    /** `getExtendedTables().add(table)`. */
    method AddExtendedTable(table: ExcelTemplateTableDataWrapper)
      modifies this
      ensures table in extendedTables
      ensures extendedTables == if table in old(extendedTables) then old(extendedTables) else old(extendedTables) + [table]
      ensures params == old(params) && simpleTables == old(simpleTables)
    {
      if table !in extendedTables {
        extendedTables := extendedTables + [table];
      }
    }

    /** What the engine reads. */
    function View(): (d: DataSet)
      reads this, simpleTables, extendedTables, Records(extendedTables)
      ensures d.params == params && |d.simpleTables| == |simpleTables| && |d.extendedTables| == |extendedTables|
      ensures forall k :: 0 <= k < |simpleTables| ==> d.simpleTables[k] == simpleTables[k].View()
      ensures forall k :: 0 <= k < |extendedTables| ==> d.extendedTables[k] == extendedTables[k].View()
    {
      var ts := simpleTables;
      DataSet(params, seq(|ts|, k requires 0 <= k < |ts| reads ts => ts[k].View()), RangeViews(extendedTables))
    }
  }

  /** The records of the given range datasets, as objects. */
  function Records(ws: seq<ExcelTemplateTableDataWrapper>): set<object>
    reads ws
  {
    set w, r | w in ws && r in w.tableRowsData :: r
  }

  function RangeViews(ws: seq<ExcelTemplateTableDataWrapper>): (vs: seq<RangeDataset>)
    reads ws, Records(ws)
    ensures |vs| == |ws| && forall k :: 0 <= k < |ws| ==> vs[k] == ws[k].View()
  {
    if ws == [] then []
    else
      assert ws[0] in ws;
      assert forall r :: r in ws[0].tableRowsData ==> r in Records(ws);
      [ws[0].View()] + RangeViews(ws[1..])
  }

  /**
   * How both data containers store a date: `dd.MM.yyyy`, from which the day,
   * month and year of era are read back, or "N/A" for null.
   */
  function DateText(val: Option<Date>): (s: string)
    ensures val.Some? ==> ParseDate(s) == Some(CommonEra(val.value))
    ensures val.None? ==> s == "N/A"
  {
    if val.Some? then
      FormatDateRoundTrip(val.value);
      FormatDate(val.value)
    else "N/A"
  }

  /**
   * Two stored dates are the same text exactly when both are null or both
   * agree on day, month and year of era; "N/A" is no date at all.
   */
  lemma DateTextInjective(a: Option<Date>, b: Option<Date>)
    ensures DateText(a) == DateText(b) <==>
              || (a.None? && b.None?)
              || (a.Some? && b.Some? && CommonEra(a.value) == CommonEra(b.value))
  {
  }
}
