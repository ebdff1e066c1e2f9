/**
 * The decoded workbook as the ExcelJS library hands it over: rows of cells
 * carrying loosely-typed values, and merge rectangles. Both pipelines read
 * only this; the decoding itself is not part of the model.
 */
module Decoded {
  import opened Wrappers
  import opened Js

  /** A point in time, held by Date values. */
  type Time = int

  /** One run of a rich-text value; `text` is undefined in some runs. */
  datatype Run = Run(text: Option<string>)

  /**
   * What `cell.value` (or `cell.result` of a formula cell) holds. A
   * `Record` is a plain object looked at through the three fields the
   * normalisers test: `richText`, `text` and `error`, where "" stands for
   * an absent or falsy field. Rich text, hyperlink and error values are
   * records with one of them set; a record with none is "any other object".
   */
  datatype Value =
    | Null
    | Number(n: int)
    | Text(s: string)
    | Boolean(b: bool)
    | Date(time: Time)
    | Record(richText: Option<seq<Run>>, text: string, error: string)

  /** A cell object: `Missing` where there is none, a formula cell with its
      cached result, a covered cell of a merge (ExcelJS types it Merge and
      gives it the top-left cell's value), or any other cell with its value. */
  datatype RawCell =
    | Missing
    | Formula(result: Value)
    | Covered(value: Value)
    | Plain(value: Value)

  /** The two locale- and host-dependent renderings of a date:
      Date.prototype.toLocaleDateString and String(date). */
  datatype DateFormat = DateFormat(locale: Time -> string, full: Time -> string)

  /** A row as eachRow visits it: its 1-based number and its `_cells` array,
      where `cells[c - 1]` is the cell of column `c` and `Missing` a hole. */
  datatype Row = Row(number: nat, cells: seq<RawCell>)

  /** A merge rectangle, 1-based and inclusive. */
  datatype Merge = Merge(top: nat, left: nat, bottom: nat, right: nat)

  /** A worksheet: its name, the rows eachRow visits in order, and its merges
      in declaration order. */
  datatype Sheet = Sheet(name: string, rows: seq<Row>, merges: seq<Merge>)

  /** JavaScript truthiness of a value: the falsy ones are null, 0, "" and
      false; a date and any object are truthy. */
  predicate Truthy(v: Value)
    ensures !Truthy(v) <==> v == Null || v == Number(0) || v == Text("") || v == Boolean(false)
  {
    match v
    case Null => false
    case Number(n) => n != 0
    case Text(s) => s != ""
    case Boolean(b) => b
    case Date(_) => true
    case Record(_, _, _) => true
  }

  /** String(value): a number becomes the decimal numeral denoting it, a
      string stays itself, and every object becomes "[object Object]". */
  function JsString(v: Value, fmt: DateFormat): (r: string)
    ensures v.Number? ==> r == IntToString(v.n) && NumeralValue(r) == v.n
    ensures v.Text? ==> r == v.s
    ensures v.Boolean? ==> (r == "true" <==> v.b) && (r == "false" <==> !v.b)
    ensures v.Record? ==> r == "[object Object]"
  {
    match v
    case Null => "null"
    case Number(n) => IntToStringValue(n); IntToString(n)
    case Text(s) => s
    case Boolean(b) => if b then "true" else "false"
    case Date(t) => fmt.full(t)
    case Record(_, _, _) => "[object Object]"
  }

  /** Whether eachCell visits the cell: there is one and its type is not
      Null. Formula cells and covered cells always have another type; a plain
      cell has type Null exactly when its value is null. */
  predicate HasValue(cell: RawCell)
    ensures HasValue(cell) <==> cell.Formula? || cell.Covered? || (cell.Plain? && !cell.value.Null?)
  {
    !cell.Missing? && cell != Plain(Null)
  }

  /** Row.getCell: always a cell object; a column without one (a hole, or
      past the end of `_cells`) yields a fresh empty cell. */
  function CellOf(row: Row, col: nat): (r: RawCell)
    ensures r != Missing
    ensures 1 <= col <= |row.cells| && !row.cells[col - 1].Missing? ==> r == row.cells[col - 1]
    ensures col == 0 || col > |row.cells| || row.cells[col - 1].Missing? ==> r == Plain(Null)
  {
    if 1 <= col <= |row.cells| && !row.cells[col - 1].Missing? then row.cells[col - 1]
    else Plain(Null)
  }

  /** The first row with the given number. */
  function FindRow(rows: seq<Row>, number: nat): (r: Option<Row>)
    ensures r.Some? ==> r.value in rows && r.value.number == number
    ensures r.None? ==> forall k :: 0 <= k < |rows| ==> rows[k].number != number
  {
    if rows == [] then None
    else if rows[0].number == number then Some(rows[0])
    else FindRow(rows[1..], number)
  }

  /** Worksheet.getRow: the row with that number, which is a visited row
      when there is one and otherwise holds no cells. */
  function GetRow(sheet: Sheet, number: nat): (r: Row)
    ensures r.number == number
    ensures r in sheet.rows || r.cells == []
    ensures (exists k :: 0 <= k < |sheet.rows| && sheet.rows[k].number == number) ==> r in sheet.rows
    ensures (forall k :: 0 <= k < |sheet.rows| ==> sheet.rows[k].number != number) ==> r == Row(number, [])
  {
    match FindRow(sheet.rows, number)
    case Some(row) => row
    case None => Row(number, [])
  }

  /** Worksheet.getCell(row, col): the cell Row.getCell gives for column
      `col` of getRow(row); always a cell object, and empty when its row is
      not visited. */
  function GetCell(sheet: Sheet, row: nat, col: nat): (r: RawCell)
    ensures r != Missing
    ensures r == CellOf(GetRow(sheet, row), col)
    ensures (forall k :: 0 <= k < |sheet.rows| ==> sheet.rows[k].number != row) ==> r == Plain(Null)
  {
    CellOf(GetRow(sheet, row), col)
  }
}
