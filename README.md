# Spreadsheet template expansion, modelled in Dafny

This project models the template engine of the `voofai` report library
(`ExcelGeneratorImpl` and the data containers it reads). The engine walks a
spreadsheet template row by row:

- it fills every placeholder cell `#key#` from a key-to-value map;
- it expands each `#TABLE…` block into one copy of its template rows per record;
- it expands each `#RANGE…` / `#RANGELIST…` block, whose template is split into
  header, body, body footer and footer by `#Body`, `#BodyFooter` and `#Footer`
  sub-markers;
- it finally deletes the marker blocks that remain.

The sheet is a class (`Grid.Sheet`) that holds a sequence of optional rows and
a list of merged regions. Its methods are the POI calls the engine makes:
`getRow`, `getLastRowNum`, `shiftRows`, `createRow`, `removeRow` and
`add/removeMergedRegion`. The engine's methods change that sheet in place.
Each one is proved against a function on the sheet's rows:

- `Replication` describes copying rows and their merged regions;
- `Expansion` describes what one record turns a template into;
- `RangeTemplates` describes how a range template is split;
- `Cleanup` describes deleting blocks.

Cell values are a closed datatype: text, 32-bit integer, date (day, month,
year), an opaque decimal, and null. Exceptions the source can throw become
`Failure` values: `substring` on a bare `#`, `removeRow(null)`, and
`toString` on a null number passed to `WordData.addParam`.
Two bounds make the recursion and the driver loop terminate:

- a `fuel` bound on block nesting, for `fillCells → createTable/createRange → fillCells`;
- a `steps` bound on the rows the driver visits.

Running out of either is a `Failure` too.

Modules and files:

| file | module | models |
|---|---|---|
| outcomes.dfy | Outcomes | Option / Result wrappers |
| values.dfy | Values | cell values, `Integer.toString`, the `dd.MM.yyyy` pattern |
| grid.dfy | Grid | the POI sheet, rows, cells, hyperlinks, merged regions |
| markers.dfy | Markers | `hasKey`, `hasString`, `startWithString`, `bodyEnds`, `bodyFooterEnds` |
| placeholders.dfy | Placeholders | what `fillCells` writes into a placeholder cell |
| replication.dfy | Replication | `copyRow` / `copyRows` as functions of the sheet |
| expansion.dfy | Expansion | the rows a block expands into, and the frame lemmas |
| templates.dfy | RangeTemplates | `createTemplate` as a function, and the shape of its result |
| excel_dto.dfy | ExcelDto | `ExcelTemplateTableRows`, `ExcelTemplateTableData`, `ExcelSimpleTableData`, `ExcelTemplateTableDataWrapper`, `ExcelData` |
| word_dto.dfy | WordDto | `WordData` |
| slots.dfy | NestedSlots | which template rows the fill loop of `copyRowsAndFillData` visits around nested `#TABLE` blocks |
| generator.dfy | ExcelGenerator | `copyRow(s)`, `fillCells`, `createTable`, `copyRowsAndFillData`, `decreaseNumberOfRowsToFill`, `createRange`, `fillRange`, `createTemplate` |
| cleanup.dfy | Cleanup | `dellRange`, `deleteAllTemplates` |
| driver.dfy | Driver | `fillWorkbookWithData` |

## Model

| member | source | states |
|---|---|---|
| Values.IntToStringRoundTrip | src/main/java/voofai/lib/excel/generator/ExcelGeneratorImpl.java:180-181 | the text an integer parameter is written as reads back as that integer |
| Values.YearOfEra | src/main/java/voofai/lib/excel/generator/ExcelGeneratorImpl.java:37-38 | `yyyy` prints the year of era: at least 1, and the proleptic year itself from year 1 on |
| Values.FormatDateShape | src/main/java/voofai/lib/excel/generator/ExcelGeneratorImpl.java:37-38 | a formatted date has dots at positions 2 and 5 and at least ten characters, exactly ten when its year of era has at most four digits |
| Values.FormatDateRoundTrip | src/main/java/voofai/lib/excel/generator/ExcelGeneratorImpl.java:173-174 | a date written as `dd.MM.yyyy` reads back as the common-era date with the same day, month and year of era, which is the date itself from year 1 on |
| Values.FormatDateInjective | src/main/java/voofai/lib/excel/generator/ExcelGeneratorImpl.java:173-174 | two dates print alike exactly when they agree on day, month and year of era |
| Values.EraIsNotPrinted | src/main/java/voofai/lib/excel/generator/ExcelGeneratorImpl.java:37-38 | the era is not printed: 1 BC (year 0) and AD 1 both print as `01.01.0001` |
| Markers.Key | src/main/java/voofai/lib/excel/generator/ExcelGeneratorImpl.java:162 | the key of a placeholder of length ≥ 2 is its text without the first and last `#`: `"#" + key + "#"` is the text |
| Markers.KeyInjective | src/main/java/voofai/lib/excel/generator/ExcelGeneratorImpl.java:162 | two placeholders have the same key exactly when their texts are equal |
| Markers.RangeListIsRange | src/main/java/voofai/lib/excel/generator/ExcelGeneratorImpl.java:92-98 | a `#RANGELIST` marker passes the `#RANGE` test, which is applied first, and fails the `#TABLE` test |
| Markers.ScanEnd | src/main/java/voofai/lib/excel/generator/ExcelGeneratorImpl.java:487-490 | the forward scan for a name stops at the first row from `from` that is the last row or holds the name; every row before it passes `bodyEnds` |
| Markers.ScanEndFindsFirst | src/main/java/voofai/lib/excel/generator/ExcelGeneratorImpl.java:273-276 | when the name occurs below `from` and above the last row, the scan stops exactly at its first occurrence |
| Markers.ScanEndUnterminated | src/main/java/voofai/lib/excel/generator/ExcelGeneratorImpl.java:273-276 | an unterminated block runs to the last row, and no further |
| NestedSlots.EndDistance | src/main/java/voofai/lib/excel/generator/ExcelGeneratorImpl.java:319-324 | between 1 and `size + 1`; no row strictly between the start marker and that distance holds the name; the row at that distance holds it whenever the distance is at most `size` |
| NestedSlots.BlockLast | src/main/java/voofai/lib/excel/generator/ExcelGeneratorImpl.java:305-307 | a block never ends before its start; any row other than a nested start marker is a block of one slot |
| NestedSlots.BlockEndsAtMarker | src/main/java/voofai/lib/excel/generator/ExcelGeneratorImpl.java:319-324 | a nested block whose end marker is found ends at the first row below its start marker that holds the table's name |
| NestedSlots.Visited | src/main/java/voofai/lib/excel/generator/ExcelGeneratorImpl.java:303-310 | the slots handed to `fillCells` lie between the cursor's slot and the template's end |
| NestedSlots.VisitedTiles | src/main/java/voofai/lib/excel/generator/ExcelGeneratorImpl.java:303-310 | with the corrected step the visited blocks come in order without overlapping and cover every slot: each template row is filled once or belongs to exactly one nested block |
| NestedSlots.VisitedInOrder | src/main/java/voofai/lib/excel/generator/ExcelGeneratorImpl.java:303-310 | with the corrected step, every visited block ends above every later visited slot |
| NestedSlots.VisitedCovers | src/main/java/voofai/lib/excel/generator/ExcelGeneratorImpl.java:303-310 | with the corrected step, every slot from the start is visited or lies inside a visited block |
| NestedSlots.VisitedPrefix | src/main/java/voofai/lib/excel/generator/ExcelGeneratorImpl.java:303-310 | whatever the extra step, the loop fills the blocks of the corrected loop in the same order, and may only stop sooner |
| NestedSlots.LaggingMissesLastRow | src/main/java/voofai/lib/excel/generator/ExcelGeneratorImpl.java:303-310 | once the loop index runs ahead of the cursor, a last template row that the corrected loop fills as a plain row is never reached |
| NestedSlots.NestedBlockCostsLastRow | src/main/java/voofai/lib/excel/generator/ExcelGeneratorImpl.java:303-325 | as written, once the loop has expanded a nested table, a last template row that the corrected loop fills as a plain row is not filled |
| NestedSlots.NestedExampleBlocks | src/main/java/voofai/lib/excel/generator/ExcelGeneratorImpl.java:145 | in the template `#a#`, `#TABLEn#`, `#n#`, `#TABLEn#`, `#b#`, `#c#`, `#d#`, `#e#` the marker passes `hasKey`, the nested table covers slots 1 to 3 and every other slot is a block of its own |
| NestedSlots.TrailingRowsSkipped | src/main/java/voofai/lib/excel/generator/ExcelGeneratorImpl.java:303-325 | as written, that template is filled at slots 0, 1, 4 and 5 only, and slots 6 and 7 (`#d#`, `#e#`) lie in no visited block |
| NestedSlots.TrailingRowsFilled | src/main/java/voofai/lib/excel/generator/ExcelGeneratorImpl.java:303-310 | with the corrected step, that template is filled at slots 0, 1, 4, 5, 6 and 7 |
| Placeholders.FillCell | src/main/java/voofai/lib/excel/generator/ExcelGeneratorImpl.java:161-186 | a filled placeholder keeps its style, comment, link type and link label, and has a link exactly when it had one |
| Placeholders.FillRow | src/main/java/voofai/lib/excel/generator/ExcelGeneratorImpl.java:141-189 | filling a row keeps its set of columns |
| Placeholders.MissingValueBlanks | src/main/java/voofai/lib/excel/generator/ExcelGeneratorImpl.java:163-170 | a key that is absent or maps to null writes the empty text and leaves the link alone |
| Placeholders.DateIsWrittenAsPattern | src/main/java/voofai/lib/excel/generator/ExcelGeneratorImpl.java:173-174 | a date value is written as a text from which its day, month and year of era are read back, which is the date itself from year 1 on |
| Placeholders.UrlFollowsText | src/main/java/voofai/lib/excel/generator/ExcelGeneratorImpl.java:180-184 | a text or integer value becomes the cell's text, and a URL hyperlink takes the same text as its address |
| Placeholders.FillRowIdempotent | src/main/java/voofai/lib/excel/generator/ExcelGeneratorImpl.java:141-189 | when no value renders as a placeholder, filling a filled row again changes nothing |
| Grid.ShiftKeepsRegionsAbove | src/main/java/voofai/lib/excel/generator/ExcelGeneratorImpl.java:569 | a shift of the rows from `start` on keeps every merged region anchored above `start` |
| Grid.ShiftAddsNoRegionAbove | src/main/java/voofai/lib/excel/generator/ExcelGeneratorImpl.java:569 | a shift down creates no region anchored above `start` |
| Grid.Sheet.constructor | src/main/java/voofai/lib/excel/generator/ExcelGeneratorImpl.java:83 | a sheet holds the given rows, with its last stored row present |
| Grid.Sheet.FirstRowNum | src/main/java/voofai/lib/excel/generator/ExcelGeneratorImpl.java:86 | `getFirstRowNum` is -1 or the index of a present row |
| Grid.Sheet.ShiftRowsDown | src/main/java/voofai/lib/excel/generator/ExcelGeneratorImpl.java:569 | `shiftRows(dest, last, 1)`: an empty row opens at `dest`, the rows below move down one, and so do the regions inside the moved rows |
| Grid.Sheet.ShiftRowsUp | src/main/java/voofai/lib/excel/generator/ExcelGeneratorImpl.java:802 | `shiftRows(end, last, start - end)`: the rows from `end` on move up over the `end - start` rows above them, with the regions inside them |
| Grid.Sheet.CreateRow | src/main/java/voofai/lib/excel/generator/ExcelGeneratorImpl.java:570-572 | `createRow(i)` puts an empty row at `i` and changes nothing else |
| Grid.Sheet.SetCell | src/main/java/voofai/lib/excel/generator/ExcelGeneratorImpl.java:578 | a cell write changes exactly that cell |
| Grid.Sheet.RemoveRow | src/main/java/voofai/lib/excel/generator/ExcelGeneratorImpl.java:799 | `removeRow` leaves the index empty, and the last row number drops past trailing empty rows |
| Grid.Sheet.AddMergedRegion | src/main/java/voofai/lib/excel/generator/ExcelGeneratorImpl.java:628 | `addMergedRegion` appends the region |
| Grid.Sheet.RemoveMergedRegion | src/main/java/voofai/lib/excel/generator/ExcelGeneratorImpl.java:791 | `removeMergedRegion(k)` removes the region at position `k` |
| Replication.CopyCells | src/main/java/voofai/lib/excel/generator/ExcelGeneratorImpl.java:575-618 | a copy has the same columns, and each cell is the source cell (a blank cell becomes the text "") |
| Replication.CopyKeepsMarkers | src/main/java/voofai/lib/excel/generator/ExcelGeneratorImpl.java:575-618 | a copied row passes `hasString` and `startWithString` exactly when its source does |
| Replication.CopyKeepsPlaceholders | src/main/java/voofai/lib/excel/generator/ExcelGeneratorImpl.java:596-599 | a copied cell is a placeholder (or a bare `#`) exactly when its source is |
| Replication.PlaceRowShape | src/main/java/voofai/lib/excel/generator/ExcelGeneratorImpl.java:559-573 | `copyRow`'s new row sits at the destination and every row above it is unchanged |
| Replication.PlaceRowInserts | src/main/java/voofai/lib/excel/generator/ExcelGeneratorImpl.java:562-570 | on an occupied destination, the new row is inserted and the rows from there on move down one |
| Replication.AnchoredAtMembers | src/main/java/voofai/lib/excel/generator/ExcelGeneratorImpl.java:621-629 | exactly the regions whose first row is the source row are re-added, with the same height and columns, anchored at the destination |
| Replication.CopiesInOrder | src/main/java/voofai/lib/excel/generator/ExcelGeneratorImpl.java:752-758 | the k-th copy is the copy of the k-th non-null template row |
| Replication.CopyAllKeepsAbove | src/main/java/voofai/lib/excel/generator/ExcelGeneratorImpl.java:749-758 | `copyRows` changes no row above its start row |
| Replication.CopyAllPlacesCopies | src/main/java/voofai/lib/excel/generator/ExcelGeneratorImpl.java:749-758 | the copies land in order at `startRow`, `startRow + 1`, … |
| Replication.CopyAllInserts | src/main/java/voofai/lib/excel/generator/ExcelGeneratorImpl.java:749-758 | from an occupied start row, the copies are inserted and everything from there moves down by their number |
| Replication.CopyAllMovesDown | src/main/java/voofai/lib/excel/generator/ExcelGeneratorImpl.java:561-569 | from an occupied start row, a merged region lying wholly between the start row and the last row is moved down by the number of copies (each `copyRow` shifts it by one) |
| Replication.CopyRowsMovesDown | src/main/java/voofai/lib/excel/generator/ExcelGeneratorImpl.java:749-776 | the same for the whole of `copyRows`: re-adding the template's regions removes none of the moved ones |
| Replication.MergeAllReanchors | src/main/java/voofai/lib/excel/generator/ExcelGeneratorImpl.java:760-775 | every region anchored at the k-th non-null template row reappears anchored at `startRow + k` |
| Replication.CopyRowsReanchors | src/main/java/voofai/lib/excel/generator/ExcelGeneratorImpl.java:749-776 | the same for the whole of `copyRows`, when the template lies above the start row |
| Replication.CopyRowsKeepsRegionsAbove | src/main/java/voofai/lib/excel/generator/ExcelGeneratorImpl.java:749-776 | `copyRows` keeps exactly the regions anchored above its start row |
| Expansion.InsertRowsSplice | src/main/java/voofai/lib/excel/generator/ExcelGeneratorImpl.java:749-758 | inserting rows one below the other places the whole block between the rows above and the rest |
| Expansion.CopyRowsPushes | src/main/java/voofai/lib/excel/generator/ExcelGeneratorImpl.java:749-776 | `copyRows` at an occupied or first-free row moves every merged region lying wholly below it down by the number of copies |
| Expansion.CopyRowsAbove | src/main/java/voofai/lib/excel/generator/ExcelGeneratorImpl.java:749-776 | `copyRows` changes no row and no region anchored above its start row |
| Expansion.PlainCopyRows | src/main/java/voofai/lib/excel/generator/ExcelGeneratorImpl.java:749-758 | `copyRows` of a template without null rows inserts one unfilled copy of each template row |
| Expansion.FilledEachLength | src/main/java/voofai/lib/excel/generator/ExcelGeneratorImpl.java:289-294 | a table of n records expands to n times the template's height |
| Expansion.FilledEachAt | src/main/java/voofai/lib/excel/generator/ExcelGeneratorImpl.java:289-294 | row k of replica j is template row k filled from record j |
| RangeTemplates.HeaderRows | src/main/java/voofai/lib/excel/generator/ExcelGeneratorImpl.java:446-450 | every header row lies before `#Body`+name, below the last row, and is the sheet's row at its index |
| RangeTemplates.WalkShape | src/main/java/voofai/lib/excel/generator/ExcelGeneratorImpl.java:453-479 | the body loop keeps the segments disjoint, ascending, free of their end markers, and covering every non-sub-marker row |
| RangeTemplates.TemplateShape | src/main/java/voofai/lib/excel/generator/ExcelGeneratorImpl.java:441-499 | header = the rows before `#Body`+name; the four segments are disjoint, in increasing row order, hold no marker row that ends them, never the last row, and cover every row up to the end marker except the sub-markers |
| ExcelDto.FindSimple | src/main/java/voofai/lib/excel/generator/ExcelGeneratorImpl.java:280-283 | the first simple table with exactly that name, or none when no name matches |
| ExcelDto.FindRange | src/main/java/voofai/lib/excel/generator/ExcelGeneratorImpl.java:382-385 | the first range dataset with exactly that name, or none when no name matches |
| ExcelDto.ExcelTemplateTableRows.constructor | src/main/java/voofai/lib/excel/dto/ExcelTemplateTableRows.java:19-22 | a new object has four empty segments |
| ExcelDto.ExcelTemplateTableRows.AddHeader | src/main/java/voofai/lib/excel/dto/ExcelTemplateTableRows.java:24-26 | appends the row to header; the other three lists are unchanged |
| ExcelDto.ExcelTemplateTableRows.AddBody | src/main/java/voofai/lib/excel/dto/ExcelTemplateTableRows.java:28-30 | appends the row to body only |
| ExcelDto.ExcelTemplateTableRows.AddBodyFooter | src/main/java/voofai/lib/excel/dto/ExcelTemplateTableRows.java:32-34 | appends the row to bodyFooter only |
| ExcelDto.ExcelTemplateTableRows.AddFooter | src/main/java/voofai/lib/excel/dto/ExcelTemplateTableRows.java:36-38 | appends the row to footer only |
| ExcelDto.ExcelTemplateTableData.constructor | src/main/java/voofai/lib/excel/dto/ExcelTemplateTableData.java:21-24 | empty header/footer maps, empty body/bodyFooter lists |
| ExcelDto.ExcelTemplateTableData.AddHeader | src/main/java/voofai/lib/excel/dto/ExcelTemplateTableData.java:26-28 | sets header[k] = v, overwriting; nothing else changes |
| ExcelDto.ExcelTemplateTableData.AddBody | src/main/java/voofai/lib/excel/dto/ExcelTemplateTableData.java:30-32 | appends one map to body; nothing else changes |
| ExcelDto.ExcelTemplateTableData.AddFooter | src/main/java/voofai/lib/excel/dto/ExcelTemplateTableData.java:34-36 | sets footer[k] = v; nothing else changes |
| ExcelDto.ExcelTemplateTableData.AddBodyFooter | src/main/java/voofai/lib/excel/dto/ExcelTemplateTableData.java:38-40 | appends one map to bodyFooter; nothing else changes |
| ExcelDto.ExcelSimpleTableData.constructor | src/main/java/voofai/lib/excel/dto/ExcelSimpleTableData.java:15-17 | the name is the argument, fixed by a `const` field; the row list is empty |
| ExcelDto.ExcelSimpleTableData.AddTableRowData | src/main/java/voofai/lib/excel/dto/ExcelSimpleTableData.java:19-21 | appends exactly the argument; earlier rows and their order are unchanged |
| ExcelDto.ExcelTemplateTableDataWrapper.constructor | src/main/java/voofai/lib/excel/dto/ExcelTemplateTableDataWrapper.java:14-16 | the name is the argument, fixed by a `const` field; no records |
| ExcelDto.ExcelTemplateTableDataWrapper.AddTableRowData | src/main/java/voofai/lib/excel/dto/ExcelTemplateTableDataWrapper.java:18-20 | appends exactly one record at the end; earlier records are unchanged |
| ExcelDto.ExcelTemplateTableDataWrapper.View | src/main/java/voofai/lib/excel/dto/ExcelTemplateTableDataWrapper.java:14-16 | the engine sees the same name and the records' contents in list order |
| ExcelDto.ExcelData.constructor | src/main/java/voofai/lib/excel/dto/ExcelData.java:22-26 | empty params, simpleTables and extendedTables |
| ExcelDto.ExcelData.AddParamText | src/main/java/voofai/lib/excel/dto/ExcelData.java:28-31 | sets params[key] to the text (or null), returns the same object, leaves the table sets alone |
| ExcelDto.ExcelData.AddParamInteger | src/main/java/voofai/lib/excel/dto/ExcelData.java:33-36 | sets params[key] to the integer (or null), returns the same object, leaves the table sets alone |
| ExcelDto.ExcelData.AddParamDate | src/main/java/voofai/lib/excel/dto/ExcelData.java:38-42 | stores the text `dd.MM.yyyy` or "N/A", never the date itself; returns the same object |
| ExcelDto.ExcelData.AddSimpleTable | src/main/java/voofai/lib/excel/dto/ExcelData.java:24 | adding to the identity hash set keeps one entry per object |
| ExcelDto.ExcelData.AddExtendedTable | src/main/java/voofai/lib/excel/dto/ExcelData.java:26 | the same for range datasets |
| ExcelDto.ExcelData.View | src/main/java/voofai/lib/excel/dto/ExcelData.java:22-26 | the engine sees the same params and each table's contents, in the set's order |
| ExcelDto.DateText | src/main/java/voofai/lib/excel/dto/ExcelData.java:38-42 | a stored date reads back as the common-era date with the same day, month and year of era; a null date is stored as "N/A" |
| ExcelDto.DateTextInjective | src/main/java/voofai/lib/excel/dto/ExcelData.java:38-42 | two stored dates are the same text exactly when both are null or both agree on day, month and year of era |
| WordDto.NumberText | src/main/java/voofai/lib/word/dto/WordData.java:27-30 | an integral number is stored as text that reads back as that number |
| WordDto.WordData.constructor | src/main/java/voofai/lib/word/dto/WordData.java:20 | a new object has no params |
| WordDto.WordData.AddParamText | src/main/java/voofai/lib/word/dto/WordData.java:22-25 | sets params[key] = val, overwriting, and returns the same object |
| WordDto.WordData.AddParamNumber | src/main/java/voofai/lib/word/dto/WordData.java:27-30 | a null number throws `NullPointerException` (from `val.toString()`) and leaves the map unchanged; otherwise stores the number's text under the key and returns the same object |
| WordDto.WordData.AddParamDate | src/main/java/voofai/lib/word/dto/WordData.java:32-36 | stores `dd.MM.yyyy` or "N/A" and returns the same object |
| WordDto.WordData.AddAll | src/main/java/voofai/lib/word/dto/WordData.java:38-41 | merges the argument into params; see `Merged` |
| WordDto.Merged | src/main/java/voofai/lib/word/dto/WordData.java:38-41 | the argument's entries win on shared keys; keys not in the argument keep their values; no other keys appear |
| WordDto.MergedIdempotent | src/main/java/voofai/lib/word/dto/WordData.java:38-41 | adding the same entries twice changes nothing the second time |
| WordDto.MergedSingleton | src/main/java/voofai/lib/word/dto/WordData.java:38-41 | `addAll` of a one-entry map is the same as one `addParam` |
| ExcelGenerator.AddAnchoredCopies | src/main/java/voofai/lib/excel/generator/ExcelGeneratorImpl.java:766-773 | appends, in list order, a copy anchored at the destination of each region whose first row is the source row |
| ExcelGenerator.MakeRoom | src/main/java/voofai/lib/excel/generator/ExcelGeneratorImpl.java:559-573 | an occupied destination is shifted down one before the new row is created; a free one is just created |
| ExcelGenerator.CopyCellsTo | src/main/java/voofai/lib/excel/generator/ExcelGeneratorImpl.java:575-618 | after the cell loop, the new row holds a copy of every source cell |
| ExcelGenerator.CopyRow | src/main/java/voofai/lib/excel/generator/ExcelGeneratorImpl.java:558-631 | the sheet after `copyRow` is `CopyRowEffect` of the sheet before |
| ExcelGenerator.CopyRows | src/main/java/voofai/lib/excel/generator/ExcelGeneratorImpl.java:749-776 | the sheet after `copyRows` is `CopyRowsEffect` of the sheet before: all cells first, then the merged regions |
| ExcelGenerator.ExpandBlock | src/main/java/voofai/lib/excel/generator/ExcelGeneratorImpl.java:152-158 | the next row is past the block's end row, no row or region above that row changes, and with no fuel left it fails without touching the sheet |
| ExcelGenerator.FillPlaceholders | src/main/java/voofai/lib/excel/generator/ExcelGeneratorImpl.java:160-189 | every placeholder cell of the row is filled, nothing else changes, and the result is `rowNum + 1`; a bare `#` fails |
| ExcelGenerator.FillCells | src/main/java/voofai/lib/excel/generator/ExcelGeneratorImpl.java:130-190 | an absent row is left alone and gives `rowNum + 1`; a row that opens no block gets every placeholder filled and gives `rowNum + 1`, or fails on a bare `#`; the next row is always past `rowNum` and nothing above `rowNum` changes |
| ExcelGenerator.FillReplicas | src/main/java/voofai/lib/excel/generator/ExcelGeneratorImpl.java:289-294 | one filled replica per record, in list order, each at the previous one's cursor, with the template's merged regions at each; every merged region lying wholly between the insertion row and the last row moves down by the number of rows inserted |
| ExcelGenerator.FillReplica | src/main/java/voofai/lib/excel/generator/ExcelGeneratorImpl.java:292-293 | one more replica extends the rows inserted so far |
| ExcelGenerator.CollectTableRows | src/main/java/voofai/lib/excel/generator/ExcelGeneratorImpl.java:270-276 | the template is the rows from after the start marker up to the scan's end row |
| ExcelGenerator.CreateTable | src/main/java/voofai/lib/excel/generator/ExcelGeneratorImpl.java:267-297 | the result is past the end row; with no template rows or no table of that name the sheet is unchanged and the result is one past the end row; otherwise one filled replica per record is inserted there, each with its merged regions; every merged region lying wholly between the insertion row and the last row moves down by the number of rows inserted |
| ExcelGenerator.FillTable | src/main/java/voofai/lib/excel/generator/ExcelGeneratorImpl.java:285-296 | the same, from the cursor after the end marker; every merged region lying wholly between the insertion row and the last row moves down by the number of rows inserted |
| ExcelGenerator.CopyRowsAndFillData | src/main/java/voofai/lib/excel/generator/ExcelGeneratorImpl.java:299-312 | one copy of the template is inserted at `rowNum` and filled from the record; the result is `rowNum` plus the template's height |
| ExcelGenerator.FillDataRows | src/main/java/voofai/lib/excel/generator/ExcelGeneratorImpl.java:302-311 | the fill loop runs over the template's slots and fills each copy in turn |
| ExcelGenerator.FillDataRow | src/main/java/voofai/lib/excel/generator/ExcelGeneratorImpl.java:303-309 | one turn of the fill loop: a nested `#TABLE` row moves the slot index to that table's end marker (the result of `decreaseNumberOfRowsToFill` less its two extra slots, see Findings), any other row leaves it; the cursor moves past the row; on a plain template exactly that copy is filled |
| ExcelGenerator.DecreaseNumberOfRowsToFill | src/main/java/voofai/lib/excel/generator/ExcelGeneratorImpl.java:317-326 | as written: the result is two slots past the nested table's end marker, `index + EndDistance + 2` |
| ExcelGenerator.NestedEndDistance | src/main/java/voofai/lib/excel/generator/ExcelGeneratorImpl.java:319-324 | the search loop's `counter` is `EndDistance`: the distance to the first row below the nested start marker holding its name, within `rowsSize` rows |
| ExcelGenerator.FillSegment | src/main/java/voofai/lib/excel/generator/ExcelGeneratorImpl.java:399-402 | one segment copied at the cursor and filled from one map; when the segment lies above the cursor, the copy carries the merged regions of each template row, re-anchored at the row it was copied to; every merged region lying wholly between the insertion row and the last row moves down by the number of rows inserted |
| ExcelGenerator.FillSegmentRows | src/main/java/voofai/lib/excel/generator/ExcelGeneratorImpl.java:400-402 | one `fillCells` per segment row, each on the row the previous returned |
| ExcelGenerator.FillSegments | src/main/java/voofai/lib/excel/generator/ExcelGeneratorImpl.java:413-418 | one filled body-footer replica per map, one after the other; when the segment lies above the start, every replica carries the merged regions of the segment's rows; every merged region lying wholly between the insertion row and the last row moves down by the number of rows inserted |
| ExcelGenerator.FillGuarded | src/main/java/voofai/lib/excel/generator/ExcelGeneratorImpl.java:398-403 | a header or footer is replicated only when both its map and its segment are non-empty; a replica made above which the segment lies carries the segment's merged regions; every merged region lying wholly between the insertion row and the last row moves down by the number of rows inserted |
| ExcelGenerator.FillGuardedEach | src/main/java/voofai/lib/excel/generator/ExcelGeneratorImpl.java:412-419 | body footers are replicated only when both the list and the segment are non-empty; each replica then carries the segment's merged regions when the segment lies above the start; every merged region lying wholly between the insertion row and the last row moves down by the number of rows inserted |
| ExcelGenerator.FillRecord | src/main/java/voofai/lib/excel/generator/ExcelGeneratorImpl.java:395-428 | one range record: header, the body once per body map, the body footers, the footer, each right below the one before; when every segment lies above the start, every replica of every segment carries the merged regions of its template rows; every merged region lying wholly between the insertion row and the last row moves down by the number of rows inserted |
| ExcelGenerator.FillRange | src/main/java/voofai/lib/excel/generator/ExcelGeneratorImpl.java:379-431 | with no body rows or no dataset named `mapKey` the sheet is unchanged and the cursor stays; otherwise every record's rows are inserted in order from `startRowNum`, and, when the template lies above `startRowNum`, every replica carries the merged regions of its template rows; every merged region lying wholly between the insertion row and the last row moves down by the number of rows inserted |
| ExcelGenerator.FillRecords | src/main/java/voofai/lib/excel/generator/ExcelGeneratorImpl.java:395-430 | the records of a dataset, each right after the previous one; the merged regions copied for earlier records stay as later records are inserted below them; every merged region lying wholly between the insertion row and the last row moves down by the number of rows inserted |
| ExcelGenerator.FillNextRecord | src/main/java/voofai/lib/excel/generator/ExcelGeneratorImpl.java:395-428 | one turn of the record loop on a plain template: it succeeds, its rows follow those of the records before it, its replicas carry their merged regions and those of the earlier records are kept; every merged region lying wholly between the insertion row and the last row moves down by the number of rows inserted |
| ExcelGenerator.CreateTemplate | src/main/java/voofai/lib/excel/generator/ExcelGeneratorImpl.java:441-482 | the template built row by row is `TemplateOf` of the sheet, whose shape `TemplateShape` states |
| ExcelGenerator.ReadHeader | src/main/java/voofai/lib/excel/generator/ExcelGeneratorImpl.java:446-451 | the header is the rows before `#Body`+name |
| ExcelGenerator.ReadLower | src/main/java/voofai/lib/excel/generator/ExcelGeneratorImpl.java:453-479 | the rows the body loop sorts into body, body footer and footer are exactly those of the template walk |
| ExcelGenerator.ReadBodyFooter | src/main/java/voofai/lib/excel/generator/ExcelGeneratorImpl.java:457-463 | rows after `#BodyFooter`+name go to the body footer, up to `#Footer`+name or the name |
| ExcelGenerator.ReadFooter | src/main/java/voofai/lib/excel/generator/ExcelGeneratorImpl.java:466-472 | rows after `#Footer`+name go to the footer, up to the name |
| ExcelGenerator.CreateRange | src/main/java/voofai/lib/excel/generator/ExcelGeneratorImpl.java:337-367 | the template starts after the start marker; a `#RANGELIST` block is filled for every dataset whose name starts with `#RANGELIST`, any other for the dataset with exactly its name, from one past the end marker, each replica with its merged regions when the template lies above that row; every merged region lying wholly between the insertion row and the last row moves down by the number of rows inserted |
| ExcelGenerator.RangeTemplateAbove | src/main/java/voofai/lib/excel/generator/ExcelGeneratorImpl.java:339-347 | when no row from the template's first row to its `#Body` row holds the end marker, every row of every segment lies above the row after the end marker, where `createRange` puts the copies |
| ExcelGenerator.ReadRangeTemplate | src/main/java/voofai/lib/excel/generator/ExcelGeneratorImpl.java:339-347 | the template and the end row of a range block |
| ExcelGenerator.SkipBlock | src/main/java/voofai/lib/excel/generator/ExcelGeneratorImpl.java:344-347 | the scan past a block's template stops at its end row |
| ExcelGenerator.FillRangeList | src/main/java/voofai/lib/excel/generator/ExcelGeneratorImpl.java:350-359 | nothing above `start` changes and the cursor never moves back; nothing at all changes when the body is empty or no dataset name starts with `#RANGELIST` |
| Cleanup.UnanchoredMembers | src/main/java/voofai/lib/excel/generator/ExcelGeneratorImpl.java:786-796 | a region survives the deletion of a span exactly when it is anchored outside it |
| Cleanup.DropRange | src/main/java/voofai/lib/excel/generator/ExcelGeneratorImpl.java:785-803 | the rows of a deleted span are gone and the rows below follow on |
| Cleanup.DropRangeShape | src/main/java/voofai/lib/excel/generator/ExcelGeneratorImpl.java:785-803 | deleting rows s..e-1 keeps the rows and regions above s, moves each row at or below e up by e-s, and fails only on an absent row in the span |
| Cleanup.BlockEnd | src/main/java/voofai/lib/excel/generator/ExcelGeneratorImpl.java:528-539 | one past the end marker when it lies above the last row, and the last row itself otherwise, which therefore stays |
| Cleanup.SweepClears | src/main/java/voofai/lib/excel/generator/ExcelGeneratorImpl.java:522-545 | the corrected pass leaves no block marker above the last row |
| Cleanup.SweepNoOpener | src/main/java/voofai/lib/excel/generator/ExcelGeneratorImpl.java:522-545 | a sheet without block markers is left as it is |
| Cleanup.SkipLeavesMarker | src/main/java/voofai/lib/excel/generator/ExcelGeneratorImpl.java:523 | as written, an empty table directly above another table leaves the second table's start marker |
| Cleanup.RemoveRegionsAt | src/main/java/voofai/lib/excel/generator/ExcelGeneratorImpl.java:788-795 | removing by live position while walking a copy removes exactly the regions anchored at the row, keeping the others' order |
| Cleanup.RemoveIfAnchored | src/main/java/voofai/lib/excel/generator/ExcelGeneratorImpl.java:789-794 | one step of that loop |
| Cleanup.RemoveRegionsIn | src/main/java/voofai/lib/excel/generator/ExcelGeneratorImpl.java:786-796 | the regions anchored in the span are removed |
| Cleanup.RemoveRows | src/main/java/voofai/lib/excel/generator/ExcelGeneratorImpl.java:798-800 | the rows of the span are cleared; an absent row fails |
| Cleanup.DellRange | src/main/java/voofai/lib/excel/generator/ExcelGeneratorImpl.java:785-803 | `dellRange` is `DropRange` |
| Cleanup.DeleteBlockAt | src/main/java/voofai/lib/excel/generator/ExcelGeneratorImpl.java:524-543 | a row that opens a block has the block deleted up to `BlockEnd`; any other row is left alone |
| Cleanup.DeleteAllTemplates | src/main/java/voofai/lib/excel/generator/ExcelGeneratorImpl.java:522-545 | the loop as written: the sheet after it is `Sweep` with the skip after a deletion |
| Cleanup.DeleteAllTemplatesCorrected | src/main/java/voofai/lib/excel/generator/ExcelGeneratorImpl.java:522-545 | the pass without the skip; no block marker remains above the last row |
| Driver.FilledRows | src/main/java/voofai/lib/excel/generator/ExcelGeneratorImpl.java:85-107 | filling every row of a plain sheet keeps which rows exist |
| Driver.FillRows | src/main/java/voofai/lib/excel/generator/ExcelGeneratorImpl.java:85-107 | the row loop, with `lastRowNum` read again each turn; on a sheet without blocks it fills every placeholder and changes nothing else |
| Driver.FillSheet | src/main/java/voofai/lib/excel/generator/ExcelGeneratorImpl.java:82-110 | the row loop, then the cleanup pass; on success no block marker is left; a sheet without block markers whose filled rows open none (`PlainFill`) is filled successfully, its rows are `FilledRows` and its merged regions are unchanged |
| Driver.FillWorkbookWithData | src/main/java/voofai/lib/excel/generator/ExcelGeneratorImpl.java:80-116 | every sheet in turn; it succeeds when every sheet is plain, and then every plain sheet holds its filled rows with unchanged merged regions; on success, with the corrected cleanup pass, no sheet holds a block marker |

## Left out

- Stream and file handling (`parseTemplateIntoWorkBook`, the `createByTemplate` / `createWorkbookByTemplate` overloads, `workbook.write`): I/O through POI.
- The `Double` / `BigDecimal` branches of `fillCells` write a number. The model keeps the number opaque (`Decimal`) and writes it as a numeric cell without computing with it.
- `getParam`, with its `DecimalFormat("#.#####")` and locale symbols: floating-point and locale formatting, and it is never called.
- `java.util.Date` values formatted by `SimpleDateFormat`: they depend on the default time zone. Dates are only `LocalDate`-like (day, month, year) triples.
- `LocalDate`'s own validity is not enforced: the year is unbounded (not limited to ±999,999,999) and a day is not checked against its month. The model admits more dates than `LocalDate` does.
- Cell styles, comments, rich text, formulas and error values are opaque payload copied as they are.
- The clamp of the shift range to the format's maximum row count in `copyRow` and `dellRow`: sheets are assumed to stay below the format limit.
- `splitPage` (never called) and `dellRow` (never called).
- The order in which a `#RANGELIST` block visits its datasets comes from a hash set. The model picks them in an arbitrary order.
- The hash sets `simpleTables` and `extendedTables` become sequences in one fixed, arbitrary order. `findFirst` takes the first match in that order.
- Template rows are captured as values (their index and contents). The source keeps live `Row` references. The two agree while the captured rows lie above every insertion point, which holds for every table block, and for every range block whose end marker follows its `#Body` row (see `ExcelGenerator.RangeTemplateAbove` and the `ExcelGenerator.FillRange` line below).
- The text-document engine `WordGeneratorImpl` and its run/paragraph search: it depends on library behaviour that is not visible here. Only its data container `WordData` is modelled.
- Block nesting depth is bounded by a `fuel` parameter, and the driver's row visits by a `steps` parameter. Running out is reported as a `Failure`; the source has no such bound.
- ExcelGenerator.CopyRowsAndFillData: the rows it produces are stated only for a template that is "plain": every row present, no bare `#`, no nested block marker. Otherwise only the cursor bound and the frame above `rowNum` are stated.
- ExcelGenerator.FillCells: the rows a nested block expands into are stated by `CreateTable` / `CreateRange` on their own, not through `FillCells`.
- ExcelGenerator.FillDataRows: same restriction as `CopyRowsAndFillData`. With a nested `#TABLE` the slot index follows the corrected step of `FillDataRow`. The visited slots are described by `NestedSlots.Visited` on the template's own rows. They are not tied to the sheet, because the rows a nested expansion leaves after the cursor are not stated for non-plain templates.
- NestedSlots.EndDistance: the source's search can run past the copy of the template into the rows below it. The slot model treats rows past the template as absent.
- A nested `#RANGE` row inside a table template gets no slot adjustment in the source. The model keeps that as written: the loop then takes one turn per template row regardless of the range's size.
- ExcelGenerator.CreateTable: the inserted rows are stated for a plain template and a gapless insertion point (the row after the end marker exists or is the first row past the sheet). The merged regions below the insertion row are stated to move down with their rows. The model does not state that the list holds nothing else, so a region the copy adds by mistake would not be excluded. A region that starts above the insertion row and reaches below it, or that reaches past the last row, is not covered: the shift moves only regions lying wholly in the shifted rows.
- ExcelGenerator.FillRange: the same restriction as `CreateTable`, for all four segments. The merged regions of the replicas are also stated only when every template row lies above `startRowNum`. `ExcelGenerator.RangeTemplateAbove` shows that this holds unless the end marker appears before the `#Body` row. In that case the header scan runs past the end marker, and the model does not describe the regions. The regions below `startRowNum` move down as for `CreateTable`, with the same limits. The same holds for `FillRecords`, `FillNextRecord`, `FillRecord`, `FillGuarded`, `FillGuardedEach`, `FillSegments`, `FillSegment`, `FillReplicas`, `FillTable` and `CreateRange`.
- ExcelGenerator.FillRangeList: states the frame, the cursor bound and the empty case. It does not state the inserted rows, because the visiting order is arbitrary.
- ExcelGenerator.FillPlaceholders: on a bare `#` the cells visited before it are already written. The model only states the failure and the frame, because the cell order of a POI row iterator is not modelled.
- Driver.FillRows: the resulting rows are stated only for a sheet without block markers. On other sheets only the cleanup's outcome is stated, by `FillSheet`.
- Driver.FillSheet: uses the corrected cleanup pass (see Findings), not the pass as written.
- Driver.FillWorkbookWithData: the promise that no sheet holds a block marker holds with the corrected cleanup pass. As written, a start marker can remain (`Cleanup.SkipLeavesMarker`).
- ExcelGenerator.FillDataRow: takes back the two extra slots that `decreaseNumberOfRowsToFill` adds. The loop as written is described only on the template's slots, by `NestedSlots.Visited` with `extra == 2`, not on the sheet.
- NestedSlots.Nested: the slot model describes the filled rows only for start markers that `hasKey` accepts (`#TABLEn#`). A `#TABLE` marker without the closing `#` is filled like a plain row but still moves `index`; the model does not describe that case.
- Grid.ShiftRegions: POI's `shiftRows` also removes every merged region that covers column 0 and intersects the rows that the moved rows overwrite, and it appends each moved region again at the end of the list. The model moves regions in place and removes none. POI's row shifter is library code that is not part of this model.
- Grid.Sheet.ShiftRowsDown: regions move as in `Grid.ShiftRegions`. A column-0 region covering the row just below the last row, which POI removes, is kept. The frame `Above` that every expansion states therefore holds for the model's regions, not for such a region.
- Grid.Sheet.ShiftRowsUp: regions move as in `Grid.ShiftRegions`. A column-0 region that starts above the overwritten rows and reaches into them, which POI removes, is kept.
- Grid.Sheet.AddMergedRegion: POI refuses a region of one cell or one that overlaps an existing region, and throws. The model appends without either check.
- Cleanup.DropRange: a merged region that covers column 0, starts above the deleted span and reaches into it is removed by POI's shift. The model keeps it.
- Cleanup.DropRangeShape: keeps every region anchored above the span, including the column-0 regions that POI's shift removes (see `Cleanup.DropRange`).
- Cleanup.DellRange: it is `Cleanup.DropRange`, with the same gap for column-0 regions that reach into the span.

## Findings

| source | as written | input that shows it | evidently intended | confidence | as-written member | corrected member |
|---|---|---|---|---|---|---|
| src/main/java/voofai/lib/excel/generator/ExcelGeneratorImpl.java:523-543 | after `dellRange` deletes a block, the `for` loop's `rowNum++` skips the row that moved up into the deleted block's place | rows `#TABLEa`, `#TABLEa`, `#TABLEb`, `#TABLEb`, `x`: the first block is deleted, `#TABLEb` moves up to row 0 and is skipped, and the scan from row 1 deletes only the second `#TABLEb`; the start marker `#TABLEb` stays in the output | every block marker is removed, as for a template whose blocks are separated by other rows | medium; not executed | Cleanup.SkipLeavesMarker | Cleanup.DeleteAllTemplatesCorrected |
| src/main/java/voofai/lib/excel/generator/ExcelGeneratorImpl.java:303-325 | after a nested `#TABLE` start marker, `index` becomes `index + counter + 2` and the `for` step adds one, while the cursor goes on right after the expanded block; so every nested block costs the loop two extra turns and the loop stops before the last rows | table template rows `#a#`, `#TABLEn#`, `#n#`, `#TABLEn#`, `#b#`, `#c#`, `#d#`, `#e#`: the loop fills `#a#`, expands the nested table and fills `#b#` and `#c#`; `index` then reaches 8, and the copies of `#d#` and `#e#` keep their placeholders | the loop runs once per template row outside the nested blocks, with `index = index + counter`, so every template row is filled once or expanded as part of its nested block | medium; not executed | NestedSlots.TrailingRowsSkipped | NestedSlots.VisitedTiles |
