/**
 * excel-reader/src/components/ExcelViewer/ExcelViewer.js: processCellValue
 * and the per-worksheet builder inside processFile. Cells normalise to a
 * number or a string; the column extent is the longest `_cells` array;
 * headers come from row 1; every other row with some non-empty value becomes
 * an object keyed by header labels; sheets without headers or rows are
 * dropped, and a workbook with no sheet left is an error.
 */
module Viewer {
  import opened Wrappers
  import opened Js
  import opened Decoded

  // ---------------------------------------------------------------------
  // processCellValue

  /** What processCellValue returns: a number, or a string. */
  datatype Scalar = Num(n: int) | Str(s: string)

  /** JavaScript falsiness of a result: 0 and "". */
  predicate Falsy(v: Scalar)
  {
    v == Num(0) || v == Str("")
  }

  /** `rt.text || ''`. */
  function RunTextOrEmpty(run: Run): string
  {
    match run.text
    case Some(s) => if s != "" then s else ""
    case None => ""
  }

  /** `richText.map(rt => rt.text || '').join('')`. */
  function JoinRunTexts(runs: seq<Run>): string
  {
    if runs == [] then "" else RunTextOrEmpty(runs[0]) + JoinRunTexts(runs[1..])
  }

  /** The guarded chain applied to the value read from the cell (lines
      24-33): null is "", a date its locale string, rich text its joined
      runs, a number itself, and anything else String(value).trim(). */
  function NormaliseValue(v: Value, fmt: DateFormat): (r: Scalar)
    ensures r.Num? <==> v.Number?
    ensures v.Number? ==> r == Num(v.n)
    ensures v == Null ==> r == Str("")
    ensures v.Text? || v.Boolean? ==> r == Str(Trim(JsString(v, fmt))) && NoOuterWhitespace(r.s)
    ensures v.Record? && v.richText.None? ==> r == Str("[object Object]")
  {
    TrimFixesTrimmed("[object Object]");
    match v
    case Null => Str("")
    case Date(t) => Str(fmt.locale(t))
    case Record(Some(runs), _, _) => Str(JoinRunTexts(runs))
    case Number(n) => Num(n)
    case _ => Str(Trim(JsString(v, fmt)))
  }

  /** processCellValue: a formula cell is read through its cached result,
      any other cell (a covered cell of a merge too) through its value. A
      number comes out exactly when the value read is a number. */
  function NormaliseCell(cell: RawCell, fmt: DateFormat): (r: Scalar)
    ensures cell == Missing || cell == Plain(Null) || cell == Covered(Null) || cell == Formula(Null) ==> r == Str("")
    ensures r.Num? <==> (cell.Formula? && cell.result.Number?) || ((cell.Plain? || cell.Covered?) && cell.value.Number?)
  {
    match cell
    case Missing => Str("")
    case Formula(result) => NormaliseValue(result, fmt)
    case Covered(value) => NormaliseValue(value, fmt)
    case Plain(value) => NormaliseValue(value, fmt)
  }

  /** A covered cell of a merge shows the value ExcelJS gives it, like a
      plain cell holding that value. */
  lemma CoveredReadsValue(v: Value, fmt: DateFormat)
    ensures NormaliseCell(Covered(v), fmt) == NormaliseCell(Plain(v), fmt)
  {
  }

  /** A formula cell normalises exactly like a plain cell holding its
      result; so a formula whose result is a date equals that date cell. */
  lemma FormulaActsAsItsResult(v: Value, fmt: DateFormat)
    ensures NormaliseCell(Formula(v), fmt) == NormaliseCell(Plain(v), fmt)
    ensures v.Date? ==> NormaliseCell(Formula(v), fmt) == Str(fmt.locale(v.time))
  {
  }

  /** Numbers pass through unchanged, not stringified. */
  lemma NumbersUnchanged(n: int, fmt: DateFormat)
    ensures NormaliseCell(Plain(Number(n)), fmt) == Num(n)
    ensures NormaliseCell(Formula(Number(n)), fmt) == Num(n)
  {
  }

  /** Rich text is the in-order join of the run texts; every other object is
      stringified, so hyperlink and error objects become "[object Object]". */
  lemma ObjectsStringify(runs: Option<seq<Run>>, text: string, error: string, fmt: DateFormat)
    ensures runs.Some? ==> NormaliseCell(Plain(Record(runs, text, error)), fmt) == Str(JoinRunTexts(runs.value))
    ensures runs.None? ==> NormaliseCell(Plain(Record(runs, text, error)), fmt) == Str("[object Object]")
  {
    TrimFixesTrimmed("[object Object]");
  }

  /** Strings and booleans go through String(value).trim(). */
  lemma StringsTrimmed(v: Value, fmt: DateFormat)
    requires v.Text? || v.Boolean?
    ensures NormaliseCell(Plain(v), fmt) == Str(Trim(JsString(v, fmt)))
    ensures NoOuterWhitespace(NormaliseCell(Plain(v), fmt).s)
  {
  }

  // ---------------------------------------------------------------------
  // Column extent

  /** `m` is the largest `_cells.length` over all rows, 0 for no rows. */
  ghost predicate IsMaxRowLength(rows: seq<Row>, m: nat)
  {
    && (forall k :: 0 <= k < |rows| ==> |rows[k].cells| <= m)
    && (m == 0 || exists k :: 0 <= k < |rows| && |rows[k].cells| == m)
  }

  /** Math.max folded over the row lengths, in row order. */
  function MaxRowLength(rows: seq<Row>): nat
  {
    if rows == [] then 0
    else
      var m := MaxRowLength(rows[..|rows| - 1]);
      var len := |rows[|rows| - 1].cells|;
      if m < len then len else m
  }

  lemma {:induction false} MaxRowLengthIsMax(rows: seq<Row>)
    ensures IsMaxRowLength(rows, MaxRowLength(rows))
  {
    if rows != [] {
      var n := |rows| - 1;
      MaxRowLengthIsMax(rows[..n]);
      assert forall k :: 0 <= k < n ==> rows[..n][k] == rows[k];
    }
  }

  /** The eachRow scan: `maxCol = Math.max(maxCol, row._cells.length)`. */
  method ScanMaxColumn(rows: seq<Row>) returns (maxCol: nat)
    ensures maxCol == MaxRowLength(rows)
    ensures IsMaxRowLength(rows, maxCol)
  {
    maxCol := 0;
    for k := 0 to |rows|
      invariant maxCol == MaxRowLength(rows[..k])
    {
      assert rows[..k + 1][..k] == rows[..k];
      if maxCol < |rows[k].cells| {
        maxCol := |rows[k].cells|;
      }
    }
    assert rows[..|rows|] == rows;
    MaxRowLengthIsMax(rows);
  }

  // ---------------------------------------------------------------------
  // Headers

  /** `processCellValue(cell) || 'Column ' + colNumber`. */
  function HeaderLabel(v: Scalar, col: nat): (h: Scalar)
    ensures !Falsy(h)
    ensures Falsy(v) ==> h == Str("Column " + NatToString(col))
    ensures !Falsy(v) ==> h == v
  {
    if Falsy(v) then Str("Column " + NatToString(col)) else v
  }

  /** One header per column 1..maxCol of the first row. */
  function Headers(first: Row, maxCol: nat, fmt: DateFormat): (hs: seq<Scalar>)
    ensures |hs| == maxCol
    ensures forall i :: 0 <= i < maxCol ==> !Falsy(hs[i])
  {
    seq(maxCol, i requires 0 <= i => HeaderLabel(NormaliseCell(CellOf(first, i + 1), fmt), i + 1))
  }

  /** The header loop over `worksheet.getRow(1)`. */
  method BuildHeaders(first: Row, maxCol: nat, fmt: DateFormat) returns (headers: seq<Scalar>)
    ensures headers == Headers(first, maxCol, fmt)
  {
    headers := [];
    for col := 1 to maxCol + 1
      invariant |headers| == col - 1
      invariant forall i :: 0 <= i < col - 1 ==> headers[i] == Headers(first, maxCol, fmt)[i]
    {
      var cell := CellOf(first, col);
      var value := NormaliseCell(cell, fmt);
      var header := if Falsy(value) then Str("Column " + NatToString(col)) else value;
      headers := headers + [header];
    }
  }

  // ---------------------------------------------------------------------
  // Rows

  /** The property key a header becomes: a string is itself, a number the
      decimal numeral denoting it. */
  function PropertyKey(h: Scalar): (k: string)
    ensures h.Str? ==> k == h.s
    ensures h.Num? ==> k == IntToString(h.n) && NumeralValue(k) == h.n
  {
    match h
    case Num(n) => IntToStringValue(n); IntToString(n)
    case Str(s) => s
  }

  /** `row-${rowNumber}`. */
  function RowId(number: nat): string
  {
    "row-" + NatToString(number)
  }

  lemma RowIdInjective(a: nat, b: nat)
    requires RowId(a) == RowId(b)
    ensures a == b
  {
    assert RowId(a)[4..] == NatToString(a);
    assert RowId(b)[4..] == NatToString(b);
    NatToStringInjective(a, b);
  }

  /** The one key an assignment on a plain object does not create: it runs
      the inherited `__proto__` setter, which ignores a string or a number. */
  const ProtoKey: string := "__proto__"

  /** rowData once the forEach has run over `headers`: it starts as
      `{id: 'row-n'}` and header i's key is then set to column i+1's value;
      setting `__proto__` to a scalar leaves the object as it is. */
  function RowData(row: Row, headers: seq<Scalar>, fmt: DateFormat): map<string, Scalar>
  {
    if headers == [] then map["id" := Str(RowId(row.number))]
    else
      var n := |headers| - 1;
      var key := PropertyKey(headers[n]);
      var data := RowData(row, headers[..n], fmt);
      if key == ProtoKey then data else data[key := NormaliseCell(CellOf(row, n + 1), fmt)]
  }

  /** The index of the last header whose key is `key`, if any. */
  function LastHeaderWith(headers: seq<Scalar>, key: string): (k: Option<nat>)
    ensures k.Some? ==> k.value < |headers| && PropertyKey(headers[k.value]) == key
    ensures k.Some? ==> forall j :: k.value < j < |headers| ==> PropertyKey(headers[j]) != key
    ensures k.None? ==> forall j :: 0 <= j < |headers| ==> PropertyKey(headers[j]) != key
  {
    if headers == [] then None
    else if PropertyKey(headers[|headers| - 1]) == key then Some(|headers| - 1)
    else LastHeaderWith(headers[..|headers| - 1], key)
  }

  /** rowData has the key "id" and one key per header other than
      `__proto__`; under a repeated header the LAST column's value wins, and
      the id survives only where no header's key is "id". */
  lemma {:induction false} RowDataAt(row: Row, headers: seq<Scalar>, fmt: DateFormat, key: string)
    ensures key in RowData(row, headers, fmt) <==>
              key == "id" || (key != ProtoKey && LastHeaderWith(headers, key).Some?)
    ensures key != ProtoKey && LastHeaderWith(headers, key).Some? ==>
              RowData(row, headers, fmt)[key] == NormaliseCell(CellOf(row, LastHeaderWith(headers, key).value + 1), fmt)
    ensures key == "id" && LastHeaderWith(headers, key).None? ==>
              RowData(row, headers, fmt)[key] == Str(RowId(row.number))
  {
    if headers != [] {
      RowDataAt(row, headers[..|headers| - 1], fmt, key);
    }
  }

  /** `hasData`: some column's value is `!== ''`. */
  predicate HasData(row: Row, headers: seq<Scalar>, fmt: DateFormat)
  {
    exists c :: 1 <= c <= |headers| && NormaliseCell(CellOf(row, c), fmt) != Str("")
  }

  /** The forEach over the headers for one row. */
  method BuildRowData(row: Row, headers: seq<Scalar>, fmt: DateFormat)
    returns (data: map<string, Scalar>, hasData: bool)
    ensures data == RowData(row, headers, fmt)
    ensures hasData == HasData(row, headers, fmt)
  {
    data := map["id" := Str(RowId(row.number))];
    hasData := false;
    for index := 0 to |headers|
      invariant data == RowData(row, headers[..index], fmt)
      invariant hasData <==> exists c :: 1 <= c <= index && NormaliseCell(CellOf(row, c), fmt) != Str("")
    {
      var value := NormaliseCell(CellOf(row, index + 1), fmt);
      var key := PropertyKey(headers[index]);
      if key != ProtoKey {
        data := data[key := value];
      }
      if value != Str("") {
        hasData := true;
      }
      assert headers[..index + 1][..index] == headers[..index];
    }
    assert headers[..|headers|] == headers;
  }

  /** A row is pushed when it is not row 1 and has data. */
  predicate Kept(row: Row, headers: seq<Scalar>, fmt: DateFormat)
  {
    row.number != 1 && HasData(row, headers, fmt)
  }

  /** The rows array after eachRow has visited `rows`. */
  function DataRows(rows: seq<Row>, headers: seq<Scalar>, fmt: DateFormat): seq<map<string, Scalar>>
  {
    if rows == [] then []
    else
      var rest := DataRows(rows[..|rows| - 1], headers, fmt);
      var row := rows[|rows| - 1];
      if Kept(row, headers, fmt) then rest + [RowData(row, headers, fmt)] else rest
  }

  /** The output rows are exactly the rowData of the kept rows. */
  lemma {:induction false} DataRowsMembers(rows: seq<Row>, headers: seq<Scalar>, fmt: DateFormat, d: map<string, Scalar>)
    ensures d in DataRows(rows, headers, fmt) <==>
              exists k :: 0 <= k < |rows| && Kept(rows[k], headers, fmt) && d == RowData(rows[k], headers, fmt)
  {
    if rows != [] {
      var n := |rows| - 1;
      DataRowsMembers(rows[..n], headers, fmt, d);
      if exists k :: 0 <= k < |rows| && Kept(rows[k], headers, fmt) && d == RowData(rows[k], headers, fmt) {
        var k :| 0 <= k < |rows| && Kept(rows[k], headers, fmt) && d == RowData(rows[k], headers, fmt);
        if k < n {
          assert rows[..n][k] == rows[k];
        }
      }
    }
  }

  /** Unless some header's key is "id", a kept row's id is `row-` and its
      row number; distinct row numbers then give distinct ids. */
  lemma RowIdentity(row: Row, other: Row, headers: seq<Scalar>, fmt: DateFormat)
    requires forall j :: 0 <= j < |headers| ==> PropertyKey(headers[j]) != "id"
    ensures "id" in RowData(row, headers, fmt) && RowData(row, headers, fmt)["id"] == Str(RowId(row.number))
    ensures "id" in RowData(other, headers, fmt)
    ensures row.number != other.number ==> RowData(row, headers, fmt)["id"] != RowData(other, headers, fmt)["id"]
  {
    RowDataAt(row, headers, fmt, "id");
    RowDataAt(other, headers, fmt, "id");
    if row.number != other.number && RowId(row.number) == RowId(other.number) {
      RowIdInjective(row.number, other.number);
    }
  }

  /** `hasData` is decided per column, before a later column with the same
      header overwrites the value: this row is kept although the only
      field besides its id ends up "". */
  lemma DuplicateHeaderHidesData(fmt: DateFormat)
    ensures var row := Row(2, [Plain(Text("x")), Plain(Null)]);
            var headers := [Str("A"), Str("A")];
            && Kept(row, headers, fmt)
            && RowData(row, headers, fmt) == map["id" := Str("row-2"), "A" := Str("")]
  {
    var row := Row(2, [Plain(Text("x")), Plain(Null)]);
    var headers := [Str("A"), Str("A")];
    TrimFixesTrimmed("x");
    assert NormaliseCell(CellOf(row, 1), fmt) == Str("x");
    assert NatToString(2) == "2";
    assert RowId(2) == "row-2";
    assert headers[..1] == [Str("A")] && headers[..1][..0] == [];
    assert RowData(row, [], fmt) == map["id" := Str("row-2")];
    assert RowData(row, headers[..1], fmt) == map["id" := Str("row-2"), "A" := Str("x")];
    assert NormaliseCell(CellOf(row, 2), fmt) == Str("");
  }

  /** A `__proto__` header adds no key, yet its column's value still counts
      for hasData: the row is kept as a bare `{id: 'row-2'}`. */
  lemma ProtoHeaderAddsNoKey(fmt: DateFormat)
    ensures var row := Row(2, [Plain(Text("x"))]);
            var headers := [Str(ProtoKey)];
            && Kept(row, headers, fmt)
            && RowData(row, headers, fmt) == map["id" := Str("row-2")]
  {
    var row := Row(2, [Plain(Text("x"))]);
    var headers := [Str(ProtoKey)];
    TrimFixesTrimmed("x");
    assert NormaliseCell(CellOf(row, 1), fmt) == Str("x");
    assert NatToString(2) == "2";
    assert RowId(2) == "row-2";
    assert headers[..0] == [];
  }

  /** The eachRow loop. */
  method BuildRows(rows: seq<Row>, headers: seq<Scalar>, fmt: DateFormat) returns (out: seq<map<string, Scalar>>)
    ensures out == DataRows(rows, headers, fmt)
  {
    out := [];
    for k := 0 to |rows|
      invariant out == DataRows(rows[..k], headers, fmt)
    {
      var row := rows[k];
      assert rows[..k + 1][..k] == rows[..k];
      if row.number != 1 {
        var data, hasData := BuildRowData(row, headers, fmt);
        if hasData {
          out := out + [data];
        }
      }
    }
    assert rows[..|rows|] == rows;
  }

  // ---------------------------------------------------------------------
  // Sheets and the workbook

  datatype Table = Table(headers: seq<Scalar>, rows: seq<map<string, Scalar>>)

  datatype ViewSheet = ViewSheet(name: string, tables: seq<Table>)

  datatype ViewWorkbook = ViewWorkbook(fileName: string, sheets: seq<ViewSheet>)

  /** The one table a worksheet yields, with row 1 as its header row. */
  function SheetView(sheet: Sheet, fmt: DateFormat): (v: ViewSheet)
    ensures v.name == sheet.name && |v.tables| == 1
    ensures |v.tables[0].headers| == MaxRowLength(sheet.rows)
  {
    var headers := Headers(GetRow(sheet, 1), MaxRowLength(sheet.rows), fmt);
    ViewSheet(sheet.name, [Table(headers, DataRows(sheet.rows, headers, fmt))])
  }

  /** The per-worksheet body of the `wb.worksheets.map(...)`. */
  method BuildSheet(sheet: Sheet, fmt: DateFormat) returns (out: ViewSheet)
    ensures out == SheetView(sheet, fmt)
  {
    var maxCol := ScanMaxColumn(sheet.rows);
    var headers := BuildHeaders(GetRow(sheet, 1), maxCol, fmt);
    var rows := BuildRows(sheet.rows, headers, fmt);
    out := ViewSheet(sheet.name, [Table(headers, rows)]);
  }

  /** The `filter` test: the first table has a header and a row. */
  predicate HasTable(s: ViewSheet)
    requires |s.tables| > 0
  {
    |s.tables[0].headers| > 0 && |s.tables[0].rows| > 0
  }

  /** A sheet survives exactly when some row is non-empty and some row has a
      cell: it has a header and a kept row. */
  lemma SheetSurvives(sheet: Sheet, fmt: DateFormat)
    ensures HasTable(SheetView(sheet, fmt)) <==>
              && MaxRowLength(sheet.rows) > 0
              && exists k :: 0 <= k < |sheet.rows| &&
                   Kept(sheet.rows[k], Headers(GetRow(sheet, 1), MaxRowLength(sheet.rows), fmt), fmt)
  {
    var headers := Headers(GetRow(sheet, 1), MaxRowLength(sheet.rows), fmt);
    var rows := DataRows(sheet.rows, headers, fmt);
    if rows != [] {
      DataRowsMembers(sheet.rows, headers, fmt, rows[0]);
    }
    if exists k :: 0 <= k < |sheet.rows| && Kept(sheet.rows[k], headers, fmt) {
      var k :| 0 <= k < |sheet.rows| && Kept(sheet.rows[k], headers, fmt);
      DataRowsMembers(sheet.rows, headers, fmt, RowData(sheet.rows[k], headers, fmt));
    }
  }

  /** `.filter(sheet => sheet.tables[0].headers.length > 0 && sheet.tables[0].rows.length > 0)`. */
  function KeepSheets(sheets: seq<ViewSheet>): (kept: seq<ViewSheet>)
    requires forall i :: 0 <= i < |sheets| ==> |sheets[i].tables| > 0
    ensures |kept| <= |sheets|
    ensures forall i :: 0 <= i < |kept| ==> kept[i] in sheets && |kept[i].tables| > 0 && HasTable(kept[i])
    ensures forall i :: 0 <= i < |sheets| && HasTable(sheets[i]) ==> sheets[i] in kept
    ensures kept == [] <==> forall i :: 0 <= i < |sheets| ==> !HasTable(sheets[i])
  {
    if sheets == [] then []
    else
      var rest := KeepSheets(sheets[1..]);
      if HasTable(sheets[0]) then [sheets[0]] + rest else rest
  }

  /** Filtering keeps the original order: it distributes over concatenation. */
  lemma {:induction false} KeepSheetsAppend(a: seq<ViewSheet>, b: seq<ViewSheet>)
    requires forall i :: 0 <= i < |a| ==> |a[i].tables| > 0
    requires forall i :: 0 <= i < |b| ==> |b[i].tables| > 0
    ensures KeepSheets(a + b) == KeepSheets(a) + KeepSheets(b)
  {
    if a == [] {
      assert a + b == b;
    } else {
      assert (a + b)[0] == a[0];
      assert (a + b)[1..] == a[1..] + b;
      KeepSheetsAppend(a[1..], b);
    }
  }

  const NoDataMessage := "No valid data found in the Excel file"

  /** The filter and the empty-result check: an error exactly when no sheet
      has a table, otherwise the file name with the surviving sheets. */
  function Assemble(fileName: string, sheets: seq<ViewSheet>): (r: Result<ViewWorkbook, string>)
    requires forall i :: 0 <= i < |sheets| ==> |sheets[i].tables| > 0
    ensures r.Failure? <==> forall i :: 0 <= i < |sheets| ==> !HasTable(sheets[i])
    ensures r.Failure? ==> r.error == NoDataMessage
    ensures r.Success? ==> r.value.fileName == fileName && r.value.sheets == KeepSheets(sheets)
  {
    var kept := KeepSheets(sheets);
    if |kept| == 0 then Failure(NoDataMessage) else Success(ViewWorkbook(fileName, kept))
  }

  /** One view per worksheet, in workbook order. */
  function SheetViews(worksheets: seq<Sheet>, fmt: DateFormat): (vs: seq<ViewSheet>)
    ensures |vs| == |worksheets|
    ensures forall i :: 0 <= i < |vs| ==> vs[i] == SheetView(worksheets[i], fmt) && |vs[i].tables| > 0
  {
    seq(|worksheets|, i requires 0 <= i < |worksheets| => SheetView(worksheets[i], fmt))
  }

  /** The body of reader.onload once the workbook is decoded. */
  method ProcessFile(fileName: string, worksheets: seq<Sheet>, fmt: DateFormat)
    returns (r: Result<ViewWorkbook, string>)
    ensures r == Assemble(fileName, SheetViews(worksheets, fmt))
  {
    var sheets := [];
    for i := 0 to |worksheets|
      invariant sheets == SheetViews(worksheets[..i], fmt)
    {
      var sheet := BuildSheet(worksheets[i], fmt);
      sheets := sheets + [sheet];
    }
    assert worksheets[..|worksheets|] == worksheets;
    var kept := KeepSheets(sheets);
    if |kept| == 0 {
      r := Failure(NoDataMessage);
    } else {
      r := Success(ViewWorkbook(fileName, kept));
    }
  }
}
