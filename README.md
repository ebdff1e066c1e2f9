# excel-reader: the cell-to-grid pipeline, modelled in Dafny

excel-reader is a browser application that opens an `.xlsx` workbook with
the ExcelJS library and shows every worksheet as a data grid. Two versions
of the conversion from worksheet to grid data exist, and both are modelled:

- `processExcelFile` in `excel-reader/src/utils/excelProcessor.js`
  (module `Processor`). Every cell is normalised to a string. Merge
  rectangles are stamped into a per-cell map. The column extent is the
  largest column of a cell that `eachCell` visits: any cell whose type is
  not Null, which includes the covered cells of a merge even when the merge
  is blank. Every row except row 1 that gets at least one positional
  `col{c}` field becomes an object, and the headers are letters.
- `processFile` in `excel-reader/src/components/ExcelViewer/ExcelViewer.js`
  (module `Viewer`). Cells normalise to a number or a string. The column
  extent is the longest `_cells` array. The header labels come from row 1.
  Every other row with some non-empty value becomes an object keyed by
  those labels. Sheets without a
  header or a row are dropped, and a workbook left with no sheet is an
  error.

Supporting modules:

- `Decoded`: the decoded workbook as ExcelJS hands it over. It has rows of
  loosely typed cells (`Value`, `RawCell`), merge rectangles, and the
  `getRow`/`getCell` lookups.
- `Js`: the ECMAScript pieces both versions rely on. These are
  `String.prototype.trim` over the ECMA-262 WhiteSpace and LineTerminator
  code points, and the decimal numeral `String()` writes for an integer.
- `Compare`: lemmas relating the two versions.
- `Wrappers`: `Option` and `Result`.

Loops in the source are methods with loop invariants. Most methods are
proved equal to a specification function, and the properties are proved
about those functions as lemmas. `Processor.MaxColumn` and
`Processor.ProcessWorkbook` are instead proved to meet a specification
predicate (`IsMaxCellColumn`, `Processes`).

## Model

| member | source | states |
|---|---|---|
| Js.Trim | excel-reader/src/utils/excelProcessor.js:31 | The trimmed string has no leading or trailing whitespace and is no longer than its input. |
| Js.TrimIsInfix | excel-reader/src/utils/excelProcessor.js:31 | Trim returns the infix of its input between the leading and the trailing whitespace, and everything it drops is whitespace. |
| Js.TrimFixesTrimmed | excel-reader/src/utils/excelProcessor.js:31 | A string with no outer whitespace is unchanged by trim. |
| Js.TrimIdempotent | excel-reader/src/components/ExcelViewer/ExcelViewer.js:33 | Trimming twice gives the same result as trimming once. |
| Js.NatToString | excel-reader/src/utils/excelProcessor.js:114 | The numeral is a non-empty run of digits that starts with 0 only for zero, and it is the single digit `n` for `n` < 10. With `Js.NatToStringValue` this fixes it as the canonical decimal numeral of `n`. |
| Js.NatToStringValue | excel-reader/src/utils/excelProcessor.js:114 | The digits of the numeral of `n` denote `n`. |
| Js.NatToStringInjective | excel-reader/src/utils/excelProcessor.js:114 | Different naturals have different numerals. |
| Js.IntToString | excel-reader/src/utils/excelProcessor.js:31 | The numeral starts with '-' exactly for negatives. It is the canonical numeral of `n` for `n` >= 0, and '-' followed by the canonical numeral of `-n` otherwise. |
| Js.IntToStringValue | excel-reader/src/utils/excelProcessor.js:31 | `String(n)` denotes `n`: the digits after an optional '-' have value \|n\|, negated for negatives. |
| Js.IntToStringInjective | excel-reader/src/components/ExcelViewer/ExcelViewer.js:80 | Different integers have different numerals, so different number headers give different keys. |
| Js.TrimKeepsNumeral | excel-reader/src/utils/excelProcessor.js:31 | `String(n).trim()` equals `String(n)`. |
| Decoded.Truthy | excel-reader/src/utils/excelProcessor.js:9 | The falsy values are exactly null, 0, "" and false; dates and objects are truthy. |
| Decoded.JsString | excel-reader/src/utils/excelProcessor.js:9-31 | `String(value)`: a number becomes the numeral denoting it, a string stays itself, a boolean becomes "true" or "false", and any object becomes "[object Object]". |
| Decoded.HasValue | excel-reader/src/utils/excelProcessor.js:72-73 | eachCell visits a cell exactly when it is a formula cell, a covered cell of a merge, or a plain cell whose value is not null. |
| Decoded.CellOf | excel-reader/src/utils/excelProcessor.js:99 | `row.getCell(col)` always returns a cell object; it is the stored cell when there is one, and an empty cell for a hole or a column past the end. |
| Decoded.GetRow | excel-reader/src/components/ExcelViewer/ExcelViewer.js:61 | `getRow(n)` has number n. It is a visited row whenever some visited row has that number, and a row with no cells otherwise. |
| Decoded.GetCell | excel-reader/src/utils/excelProcessor.js:51 | `getCell(row, col)` is `getRow(row).getCell(col)`, so it returns the stored cell of a visited row. It is always a cell object, and it is empty when its row is not visited. |
| Decoded.FindRow | excel-reader/src/components/ExcelViewer/ExcelViewer.js:61 | The row found has the requested number and belongs to the sheet; when no row is found, no row has that number. |
| Processor.NormaliseValue | excel-reader/src/utils/excelProcessor.js:12-31 | On the value of a non-formula cell: null gives "", a number the numeral denoting it, a string or boolean its trimmed String() with no outer whitespace, and a date its locale string. |
| Processor.NormaliseCell | excel-reader/src/utils/excelProcessor.js:3-36 | A missing cell, or a plain or covered cell holding null, gives "". A plain or covered number, string or boolean comes out with no outer whitespace. |
| Processor.CoveredReadsValue | excel-reader/src/utils/excelProcessor.js:7-12 | A covered cell of a merge is not a formula cell, so it normalises like a plain cell holding its value. |
| Processor.FormulaReadsResult | excel-reader/src/utils/excelProcessor.js:7-10 | A formula cell gives String(result) untrimmed when the result is truthy and "" when it is falsy (0, "", false, none). |
| Processor.ErrorObjectDependsOnPlace | excel-reader/src/utils/excelProcessor.js:7-27 | An error object is "#ERROR" as a cell value but "[object Object]" as a formula result. |
| Processor.ObjectFieldOrder | excel-reader/src/utils/excelProcessor.js:18-29 | Object values are examined in order: rich text is joined, then a truthy `text` is returned, then an `error` gives "#ERROR", and otherwise "". |
| Processor.JoinRunTextsAppend | excel-reader/src/utils/excelProcessor.js:20 | The rich-text join keeps run order: joining a + b is joining a followed by joining b. |
| Processor.ScalarNormalisationIdempotent | excel-reader/src/utils/excelProcessor.js:31 | Normalising the scalar branch's output again as a string cell returns it unchanged. |
| Processor.NumberBecomesNumeral | excel-reader/src/utils/excelProcessor.js:31 | A number cell becomes exactly its decimal numeral, which denotes the number. |
| Processor.MergeKeyInjective | excel-reader/src/utils/excelProcessor.js:56 | Distinct positions have distinct `${row}-${col}` keys, so a map keyed by the pair is equivalent. |
| Processor.InRect | excel-reader/src/utils/excelProcessor.js:54-55 | The cells the two nested loops visit are exactly the cells the merge covers. |
| Processor.LastCover | excel-reader/src/utils/excelProcessor.js:49-66 | The index returned is a covering merge with no covering merge after it; when none is returned, no merge covers the cell. |
| Processor.MergeMapAt | excel-reader/src/utils/excelProcessor.js:45-67 | A cell has an entry exactly when some merge covers it. The entry comes from the last covering merge: its origin's value, isMain exactly at its top-left cell, and spans of at least 1. |
| Processor.DisjointMergeCell | excel-reader/src/utils/excelProcessor.js:45-67 | When merges do not overlap, every cell of a merge carries that merge's own entry. |
| Processor.StampedIsOverride | excel-reader/src/utils/excelProcessor.js:54-65 | A map that holds the stamp on the covered cells and the old entries elsewhere is the old map overridden by the rectangle. |
| Processor.StampMerge | excel-reader/src/utils/excelProcessor.js:54-65 | After the nested loops, the cells of the rectangle hold the merge's entry and all other entries are unchanged. |
| Processor.ResolveMerges | excel-reader/src/utils/excelProcessor.js:45-67 | The merge loop builds the merge map of all merges in declaration order. |
| Processor.MaxColumn | excel-reader/src/utils/excelProcessor.js:70-75 | The result is the largest column of a cell eachCell visits in any row, or 0 when there is none. |
| Processor.ColumnKeyInjective | excel-reader/src/utils/excelProcessor.js:93-114 | Different columns have different `col{c}` keys. |
| Processor.ColumnEntryMeaning | excel-reader/src/utils/excelProcessor.js:88-103 | Inside a merge, a column contributes the merge's value and spans at its main cell and nothing elsewhere. Outside, it contributes the normalised cell, without spans, exactly when that is non-empty. |
| Processor.RowCellsKeys | excel-reader/src/utils/excelProcessor.js:87-104 | Every field of a row is `col{c}` for a column 1 <= c <= maxCol. |
| Processor.RowCellsBeyond | excel-reader/src/utils/excelProcessor.js:87 | No field exists for a column beyond the loop bound. |
| Processor.RowCellsAt | excel-reader/src/utils/excelProcessor.js:87-104 | Field `col{c}` is present exactly when column c contributes an entry, and it holds that entry. |
| Processor.RowKeyFromMap | excel-reader/src/utils/excelProcessor.js:87-104 | For any merge map: inside it, `col{c}` is present exactly at a main cell and holds the entry's value and spans; outside it, `col{c}` is present exactly when the cell is non-empty. |
| Processor.RowKeyFromCover | excel-reader/src/utils/excelProcessor.js:87-104 | The same statement as RowKeyPresence, for any map that agrees with the merge map at the cell. |
| Processor.RowKeyPresence | excel-reader/src/utils/excelProcessor.js:87-104 | `col{c}` is present exactly when the cell is the origin of the last merge covering it (with that merge's value and spans), or when it lies in no merge and normalises to a non-empty string. Covered non-origin cells never appear. |
| Processor.MergedBlockExample | excel-reader/src/utils/excelProcessor.js:87-104 | For a 2x2 merge, the origin row gets one field with both spans 2, and the three covered cells get none. |
| Processor.BlankOriginMerge | excel-reader/src/utils/excelProcessor.js:70-104 | For a merge B2:C2 with a blank top-left cell, the covered C2 still counts, so the extent is 3. Row 2 keeps `col1`, gets `col2` with value "" and spans 1 and 2, and has no `col3`. |
| Processor.RowCellsEmpty | excel-reader/src/utils/excelProcessor.js:87-106 | A row has no field exactly when no column 1..maxCol contributes an entry. |
| Processor.EmittedWhenSomeColumnContributes | excel-reader/src/utils/excelProcessor.js:80-108 | `Object.keys(rowData).length > 2` holds exactly when the row is not row 1 and some column contributes an entry. |
| Processor.KeptRowsMembers | excel-reader/src/utils/excelProcessor.js:78-109 | The output rows are exactly the emitted source rows. Each has id = __rowNum = its row number, which is never 1, and has at least one field. |
| Processor.BuildRowCells | excel-reader/src/utils/excelProcessor.js:87-104 | The column loop computes the row's field map. |
| Processor.BuildRows | excel-reader/src/utils/excelProcessor.js:78-109 | The eachRow loop pushes exactly the emitted rows, in row order. |
| Processor.Headers | excel-reader/src/utils/excelProcessor.js:113-116 | There is one header per column of the extent. |
| Processor.HeaderIdsDistinct | excel-reader/src/utils/excelProcessor.js:113-116 | Header i has id `col{i+1}`, and header ids are pairwise distinct. |
| Processor.HeaderLabels | excel-reader/src/utils/excelProcessor.js:115 | The first 26 labels are A..Z; the 27th is '[' (code 91), not "AA". |
| Processor.RowKeysAreHeaderIds | excel-reader/src/utils/excelProcessor.js:87-118 | Every field of every output row is the id of some header. |
| Processor.ProcessWorksheet | excel-reader/src/utils/excelProcessor.js:44-118 | The result has the sheet's name, headers for exactly the column extent, and the emitted rows. |
| Processor.ProcessWorkbook | excel-reader/src/utils/excelProcessor.js:44-119 | There is one result per worksheet, in order, each being that sheet's processing. |
| Viewer.NormaliseValue | excel-reader/src/components/ExcelViewer/ExcelViewer.js:24-33 | On the value read: a number comes out as itself and only a number comes out as a number; null gives ""; a string or boolean gives its trimmed String(); an object that is not rich text gives "[object Object]". |
| Viewer.NormaliseCell | excel-reader/src/components/ExcelViewer/ExcelViewer.js:17-38 | A missing cell, or a null value or result, gives "". The result is a number exactly when the value read (the result for a formula) is a number. |
| Viewer.CoveredReadsValue | excel-reader/src/components/ExcelViewer/ExcelViewer.js:22 | A covered cell of a merge is read through `cell.value` like a plain cell. |
| Viewer.FormulaActsAsItsResult | excel-reader/src/components/ExcelViewer/ExcelViewer.js:22 | A formula cell normalises like a plain cell holding its result; a date result gives the locale date. |
| Viewer.NumbersUnchanged | excel-reader/src/components/ExcelViewer/ExcelViewer.js:31 | A number value or result comes back as that number, not stringified. |
| Viewer.ObjectsStringify | excel-reader/src/components/ExcelViewer/ExcelViewer.js:28-33 | Rich text is the join of its run texts, and any other object becomes "[object Object]". |
| Viewer.StringsTrimmed | excel-reader/src/components/ExcelViewer/ExcelViewer.js:33 | Strings and booleans become String(value).trim(), with no outer whitespace. |
| Viewer.MaxRowLengthIsMax | excel-reader/src/components/ExcelViewer/ExcelViewer.js:54-57 | The folded maximum is the largest `_cells` length over all rows, or 0 when there are no rows. |
| Viewer.ScanMaxColumn | excel-reader/src/components/ExcelViewer/ExcelViewer.js:54-57 | The eachRow loop computes that maximum. |
| Viewer.HeaderLabel | excel-reader/src/components/ExcelViewer/ExcelViewer.js:64 | A header is never falsy. A falsy cell value (0 or "") becomes "Column N", and any other value is kept. |
| Viewer.Headers | excel-reader/src/components/ExcelViewer/ExcelViewer.js:60-66 | There is one header per column 1..maxCol, none of them falsy. |
| Viewer.BuildHeaders | excel-reader/src/components/ExcelViewer/ExcelViewer.js:60-66 | The header loop computes those headers. |
| Viewer.PropertyKey | excel-reader/src/components/ExcelViewer/ExcelViewer.js:80 | A string header is its own key, and a number header's key is `String(n)`, the canonical numeral denoting it. |
| Viewer.RowIdInjective | excel-reader/src/components/ExcelViewer/ExcelViewer.js:73 | Different row numbers give different `row-${n}` ids. |
| Viewer.LastHeaderWith | excel-reader/src/components/ExcelViewer/ExcelViewer.js:77-82 | The index returned is a header with the key and no later header has it; when none is returned, no header has the key. |
| Viewer.RowDataAt | excel-reader/src/components/ExcelViewer/ExcelViewer.js:73-82 | rowData has "id" and one key per header, except a `__proto__` header: assigning a scalar to it runs the inherited setter, which creates no key. Under a repeated header the last column's value wins, and the `row-n` id survives only when no header's key is "id". |
| Viewer.BuildRowData | excel-reader/src/components/ExcelViewer/ExcelViewer.js:73-82 | The forEach computes rowData, and hasData is true exactly when some column's value is not "". |
| Viewer.DataRowsMembers | excel-reader/src/components/ExcelViewer/ExcelViewer.js:69-87 | The output rows are exactly the rowData of the rows other than row 1 that have data. |
| Viewer.RowIdentity | excel-reader/src/components/ExcelViewer/ExcelViewer.js:73 | When no header's key is "id", a row's id is `row-n`, and rows with distinct numbers get distinct ids. |
| Viewer.DuplicateHeaderHidesData | excel-reader/src/components/ExcelViewer/ExcelViewer.js:77-86 | A row is kept although its only field ends up "", because a later column under the same header overwrote it. |
| Viewer.ProtoHeaderAddsNoKey | excel-reader/src/components/ExcelViewer/ExcelViewer.js:73-86 | A row whose only value sits under a `__proto__` header is kept, since hasData is set, but its object is just `{id: 'row-2'}`. |
| Viewer.BuildRows | excel-reader/src/components/ExcelViewer/ExcelViewer.js:69-87 | The eachRow loop pushes exactly those rows, in order. |
| Viewer.SheetView | excel-reader/src/components/ExcelViewer/ExcelViewer.js:89-95 | A worksheet yields its name and one table with one header per column of the extent. |
| Viewer.BuildSheet | excel-reader/src/components/ExcelViewer/ExcelViewer.js:52-95 | The per-worksheet body computes that view. |
| Viewer.SheetSurvives | excel-reader/src/components/ExcelViewer/ExcelViewer.js:96 | A sheet passes the filter exactly when its extent is positive and some row other than row 1 has data. |
| Viewer.KeepSheets | excel-reader/src/components/ExcelViewer/ExcelViewer.js:96 | The filter keeps exactly the sheets with a header and a row, and is empty exactly when no sheet has both. |
| Viewer.KeepSheetsAppend | excel-reader/src/components/ExcelViewer/ExcelViewer.js:96 | The filter keeps order: it distributes over concatenation. |
| Viewer.Assemble | excel-reader/src/components/ExcelViewer/ExcelViewer.js:96-105 | The result is the error "No valid data found in the Excel file" exactly when no sheet survives; otherwise it is the file name with the surviving sheets. |
| Viewer.SheetViews | excel-reader/src/components/ExcelViewer/ExcelViewer.js:52-95 | There is one view per worksheet, in workbook order. |
| Viewer.ProcessFile | excel-reader/src/components/ExcelViewer/ExcelViewer.js:52-105 | Building, filtering and the empty check together compute Assemble over the sheet views. |
| Compare.RichTextJoinsAgree | excel-reader/src/components/ExcelViewer/ExcelViewer.js:29 | `t.text` under join and `rt.text \|\| ''` join rich text identically. |
| Compare.NormalisersAgree | excel-reader/src/utils/excelProcessor.js:3-36 | On missing cells, and on plain or covered cells holding null, a string, a boolean, a date or rich text, the viewer returns the processor's string. |
| Compare.NumbersDiffer | excel-reader/src/components/ExcelViewer/ExcelViewer.js:31 | On a number, the processor writes its numeral and the viewer keeps the number. |
| Compare.ObjectsDiffer | excel-reader/src/utils/excelProcessor.js:22-24 | On an object with a text field, the processor returns the text and the viewer returns "[object Object]". |
| Compare.FormulasDiffer | excel-reader/src/components/ExcelViewer/ExcelViewer.js:22-33 | On formulas, only the viewer trims a text result and formats a date result as a locale date, and a zero result is "" only in the processor. |
| Compare.ExtentsOrdered | excel-reader/src/utils/excelProcessor.js:70-75 | The processor's column extent never exceeds the viewer's. |
| Compare.ExtentsCanDiffer | excel-reader/src/components/ExcelViewer/ExcelViewer.js:54-57 | A trailing empty cell object counts for the viewer's extent but not for the processor's. |

## Left out

- File, I/O and UI: `file.arrayBuffer()`, `FileReader`, the ExcelJS decoding of the `.xlsx` bytes, React state (`setWorkbook`, `setError`, `setLoading`), the data grid and `generateColumns`. The model starts from the decoded sheets (`Decoded.Sheet`) and ends with the value that is handed to the UI.
- Exceptions: the `try`/`catch` in both `processCellValue` functions cannot fire on the closed cell type, so each normaliser is a total function. The rethrow in `processExcelFile` (`Failed to process Excel file…`) guards only the I/O, which is not modelled. The viewer's error path is modelled as `Failure(NoDataMessage)` in place of a thrown `Error`.
- Console diagnostics (`console.warn`, `console.error`).
- Floating point: numbers are integers. `String(n)` is the decimal numeral, which JavaScript writes for integers below 10^21. Fractions, exponent notation, NaN, Infinity and -0 are not modelled.
- Dates: `toLocaleDateString()` and `String(date)` depend on the host locale and time zone. They are the two functions of a `DateFormat` parameter.
- `text` and `error` fields are strings, with "" standing for absent or falsy. An object whose `text` is a non-string value is not modelled.
- Processor.Emitted: `Object.keys(rowData).length > 2` is modelled as "the `col{c}` map is non-empty". This is equivalent, since `id` and `__rowNum` are always the other two keys; `Processor.EmittedWhenSomeColumnContributes` restates it in terms of the columns.
- The `worksheet.mergeCells && worksheet._merges` guard is taken as always true (ExcelJS always defines both). `Object.values(_merges)` is the sheet's merge list in declaration order.
- Covered cells: ExcelJS gives every cell of a merge other than its top-left one the type Merge and the top-left cell's value. The model writes such a cell as `Covered(v)`. The decoder must supply v as that value; for a formula at the top-left, v is the formula object, which is `Record(None, "", "")`. The model does not check that v matches the top-left cell. Both versions count covered cells for the extent. The processor never reads their values, because the merge map takes precedence there. The viewer reads them like any other cell.
- Visited rows: `Decoded.Sheet.rows` must list exactly the rows eachRow visits, in ascending order of distinct numbers. Those are the rows with at least one cell whose type is not Null (`row.hasValues`). The model does not check this. A row given with empty cells only, such as a styled blank row, would still count for `Viewer.MaxRowLength`, although the source never visits it.
- `getRow`/`getCell` create rows and cells on demand in ExcelJS. That side effect is not modelled, because it does not change what eachRow and eachCell visit afterwards for values.
- Viewer.KeepSheets and Viewer.Assemble require every sheet to have a first table, as `sheet.tables[0]` does in the source. Every sheet built by the viewer has one (`Viewer.SheetViews`).
- Viewer headers that are numbers become property keys through their decimal numeral (`Viewer.PropertyKey`), as JavaScript does for integer keys. Key ordering inside the row object is not modelled, because maps are unordered.
- Processor.HeaderLabels: labels are modelled as one UTF-16 code unit (`String.fromCharCode(65 + i)` reduced modulo 2^16). They are kept as numbers, since a lone surrogate is not a Dafny `char`.
