/**
 * excel-reader/src/utils/excelProcessor.js: the per-worksheet body of
 * processExcelFile. Every cell is normalised to a string; merge rectangles
 * are stamped into a per-cell map; the column extent is the largest column
 * of a cell eachCell visits in any row (its type is not Null); every row but
 * the first that gets at least one `col{c}` field becomes an object, and
 * headers are positional letters.
 */
module Processor {
  import opened Wrappers
  import opened Js
  import opened Decoded

  // ---------------------------------------------------------------------
  // processCellValue

  /** An element of `runs.map(t => t.text)` as join writes it: undefined is "". */
  function JoinedText(run: Run): string
  {
    match run.text
    case Some(s) => s
    case None => ""
  }

  /** `runs.map(t => t.text).join('')`. */
  function JoinRunTexts(runs: seq<Run>): string
  {
    if runs == [] then "" else JoinedText(runs[0]) + JoinRunTexts(runs[1..])
  }

  /** Joining is in order: the texts of two run lists joined one after the other. */
  lemma {:induction false} JoinRunTextsAppend(a: seq<Run>, b: seq<Run>)
    ensures JoinRunTexts(a + b) == JoinRunTexts(a) + JoinRunTexts(b)
  {
    if a != [] {
      assert (a + b)[0] == a[0];
      assert (a + b)[1..] == a[1..] + b;
      JoinRunTextsAppend(a[1..], b);
    } else {
      assert a + b == b;
    }
  }

  /** processCellValue past the formula test (lines 12-31): the guarded
      chain over `cell.value`. */
  function NormaliseValue(v: Value, fmt: DateFormat): (r: string)
    ensures v == Null ==> r == ""
    ensures v.Number? ==> r == IntToString(v.n) && NumeralValue(r) == v.n
    ensures v.Text? || v.Boolean? ==> NoOuterWhitespace(r) && r == Trim(JsString(v, fmt))
    ensures v.Date? ==> r == fmt.locale(v.time)
  {
    match v
    case Null => ""
    case Date(t) => fmt.locale(t)
    case Record(richText, text, error) =>
      if richText.Some? then JoinRunTexts(richText.value)
      else if text != "" then text
      else if error != "" then "#ERROR"
      else ""
    case Number(n) => TrimKeepsNumeral(n); Trim(JsString(v, fmt))
    case _ => Trim(JsString(v, fmt))
  }

  /** processCellValue: a formula cell is read through its cached result,
      any other cell (a covered cell of a merge too) through its value;
      always a string. */
  function NormaliseCell(cell: RawCell, fmt: DateFormat): (r: string)
    ensures cell == Missing || cell == Plain(Null) || cell == Covered(Null) ==> r == ""
    ensures (cell.Plain? || cell.Covered?) && (cell.value.Number? || cell.value.Text? || cell.value.Boolean?) ==>
              NoOuterWhitespace(r)
  {
    match cell
    case Missing => ""
    case Formula(result) => if Truthy(result) then JsString(result, fmt) else ""
    case Covered(value) => NormaliseValue(value, fmt)
    case Plain(value) => NormaliseValue(value, fmt)
  }

  /** A covered cell of a merge normalises like a plain cell holding the
      same value: its Merge type is not the Formula type. */
  lemma CoveredReadsValue(v: Value, fmt: DateFormat)
    ensures NormaliseCell(Covered(v), fmt) == NormaliseCell(Plain(v), fmt)
  {
  }

  /** A formula cell is read through its cached result, never its value:
      a truthy result is stringified untrimmed, a falsy one (0, "", false,
      a missing result) gives "". */
  lemma FormulaReadsResult(v: Value, fmt: DateFormat)
    ensures !Truthy(v) ==> NormaliseCell(Formula(v), fmt) == ""
    ensures Truthy(v) ==> NormaliseCell(Formula(v), fmt) == JsString(v, fmt)
    ensures NormaliseCell(Formula(Number(0)), fmt) == "" && NormaliseCell(Formula(Text("")), fmt) == ""
    ensures NormaliseCell(Formula(Text(" x ")), fmt) == " x "
  {
  }

  /** An error object is "#ERROR" as a cell value, but as a formula result it
      is stringified like any object. */
  lemma ErrorObjectDependsOnPlace(code: string, fmt: DateFormat)
    requires code != ""
    ensures NormaliseCell(Plain(Record(None, "", code)), fmt) == "#ERROR"
    ensures NormaliseCell(Formula(Record(None, "", code)), fmt) == "[object Object]"
  {
  }

  /** Object values, in the order they are examined: rich text first, then a
      `text` field returned as it is, then an `error` field, else "". */
  lemma ObjectFieldOrder(runs: Option<seq<Run>>, text: string, error: string, fmt: DateFormat)
    ensures runs.Some? ==> NormaliseCell(Plain(Record(runs, text, error)), fmt) == JoinRunTexts(runs.value)
    ensures runs.None? && text != "" ==> NormaliseCell(Plain(Record(runs, text, error)), fmt) == text
    ensures runs.None? && text == "" && error != "" ==>
              NormaliseCell(Plain(Record(runs, text, error)), fmt) == "#ERROR"
    ensures runs.None? && text == "" && error == "" ==> NormaliseCell(Plain(Record(runs, text, error)), fmt) == ""
  {
  }

  /** A string the scalar branch produced is a fixed point: normalising it
      again as a text cell gives it back. */
  lemma ScalarNormalisationIdempotent(v: Value, fmt: DateFormat)
    requires v.Number? || v.Text? || v.Boolean?
    ensures var s := NormaliseCell(Plain(v), fmt);
            NormaliseCell(Plain(Text(s)), fmt) == s
  {
    TrimIdempotent(JsString(v, fmt));
  }

  /** A number cell becomes the decimal numeral denoting it, which
      trimming leaves whole. */
  lemma NumberBecomesNumeral(n: int, fmt: DateFormat)
    ensures NormaliseCell(Plain(Number(n)), fmt) == IntToString(n)
    ensures NumeralValue(NormaliseCell(Plain(Number(n)), fmt)) == n
  {
  }

  // ---------------------------------------------------------------------
  // Merged cells

  /** A (row, column) position: the `${row}-${col}` key of the merge map. */
  type Pos = (nat, nat)

  /** The string key the source uses. */
  function MergeKey(p: Pos): string
  {
    NatToString(p.0) + "-" + NatToString(p.1)
  }

  lemma DashAfterNumeral(x: string, y: string)
    requires forall i :: 0 <= i < |x| ==> IsDigit(x[i])
    ensures (x + "-" + y)[|x|] == '-'
    ensures forall i :: 0 <= i < |x| ==> (x + "-" + y)[i] != '-'
  {
    forall i | 0 <= i < |x|
      ensures (x + "-" + y)[i] != '-'
    {
      assert (x + "-" + y)[i] == x[i];
    }
  }

  /** Keying the map by the pair loses nothing: distinct positions have
      distinct string keys. */
  lemma MergeKeyInjective(p: Pos, q: Pos)
    requires MergeKey(p) == MergeKey(q)
    ensures p == q
  {
    var x, y := NatToString(p.0), NatToString(q.0);
    var u, v := NatToString(p.1), NatToString(q.1);
    var s := MergeKey(p);
    DashAfterNumeral(x, u);
    DashAfterNumeral(y, v);
    assert |x| == |y|;
    assert x == s[..|x|] && y == s[..|y|];
    NatToStringInjective(p.0, q.0);
    assert u == s[|x| + 1..] && v == s[|y| + 1..];
    NatToStringInjective(p.1, q.1);
  }

  datatype Span = Span(rowSpan: int, colSpan: int)

  /** One entry of the merge map. */
  datatype MergeInfo = MergeInfo(value: string, isMain: bool, span: Span)

  predicate Covers(g: Merge, p: Pos)
  {
    g.top <= p.0 <= g.bottom && g.left <= p.1 <= g.right
  }

  function Rect(g: Merge): set<Pos>
  {
    set r: nat, c: nat | g.top <= r <= g.bottom && g.left <= c <= g.right :: (r, c)
  }

  lemma InRect(g: Merge, p: Pos)
    ensures p in Rect(g) <==> Covers(g, p)
  {
    if Covers(g, p) {
      var (r, c) := p;
      assert (r, c) in Rect(g);
    }
  }

  /** The normalised value of a merge's top-left cell. */
  function OriginValue(sheet: Sheet, g: Merge, fmt: DateFormat): string
  {
    NormaliseCell(GetCell(sheet, g.top, g.left), fmt)
  }

  /** The entry merge `g` writes at `p`. */
  function Stamp(g: Merge, value: string, p: Pos): MergeInfo
  {
    MergeInfo(value, p == (g.top, g.left), Span(g.bottom - g.top + 1, g.right - g.left + 1))
  }

  /** The merge map after the given merges have been stamped in order. */
  function MergeMap(sheet: Sheet, merges: seq<Merge>, fmt: DateFormat): map<Pos, MergeInfo>
  {
    if merges == [] then map[]
    else
      var g := merges[|merges| - 1];
      var value := OriginValue(sheet, g, fmt);
      MergeMap(sheet, merges[..|merges| - 1], fmt) + map p | p in Rect(g) :: Stamp(g, value, p)
  }

  /** The index of the last merge covering `p`, if any. */
  function LastCover(merges: seq<Merge>, p: Pos): (k: Option<nat>)
    ensures k.Some? ==> k.value < |merges| && Covers(merges[k.value], p)
    ensures k.Some? ==> forall j :: k.value < j < |merges| ==> !Covers(merges[j], p)
    ensures k.None? ==> forall j :: 0 <= j < |merges| ==> !Covers(merges[j], p)
  {
    if merges == [] then None
    else if Covers(merges[|merges| - 1], p) then Some(|merges| - 1)
    else LastCover(merges[..|merges| - 1], p)
  }

  /** The merge map holds an entry exactly for the cells inside some merge;
      the entry is the one the LAST merge covering the cell wrote: its
      origin's value, isMain exactly at its top-left cell, and its spans. */
  lemma {:induction false} MergeMapAt(sheet: Sheet, merges: seq<Merge>, fmt: DateFormat, p: Pos)
    ensures p in MergeMap(sheet, merges, fmt) <==> LastCover(merges, p).Some?
    ensures LastCover(merges, p).Some? ==>
              var g := merges[LastCover(merges, p).value];
              var e := MergeMap(sheet, merges, fmt)[p];
              && e.value == OriginValue(sheet, g, fmt)
              && (e.isMain <==> p == (g.top, g.left))
              && e.span == Span(g.bottom - g.top + 1, g.right - g.left + 1)
              && e.span.rowSpan >= 1 && e.span.colSpan >= 1
  {
    if merges != [] {
      var n := |merges| - 1;
      MergeMapAt(sheet, merges[..n], fmt, p);
      InRect(merges[n], p);
    }
  }

  /** No two merges share a cell. */
  predicate Apart(a: Merge, b: Merge)
  {
    a.bottom < b.top || b.bottom < a.top || a.right < b.left || b.right < a.left
  }

  predicate NonOverlapping(merges: seq<Merge>)
  {
    forall i, j :: 0 <= i < j < |merges| ==> Apart(merges[i], merges[j])
  }

  /** When merges do not overlap, every cell of a merge carries that merge's
      own entry, so each merge has exactly one main cell, its origin. */
  lemma DisjointMergeCell(sheet: Sheet, fmt: DateFormat, i: nat, p: Pos)
    requires NonOverlapping(sheet.merges)
    requires i < |sheet.merges| && Covers(sheet.merges[i], p)
    ensures p in MergeMap(sheet, sheet.merges, fmt)
    ensures var g := sheet.merges[i];
            MergeMap(sheet, sheet.merges, fmt)[p] == Stamp(g, OriginValue(sheet, g, fmt), p)
  {
    forall j | i < j < |sheet.merges|
      ensures !Covers(sheet.merges[j], p)
    {
      assert Apart(sheet.merges[i], sheet.merges[j]);
    }
    assert LastCover(sheet.merges, p) == Some(i);
    MergeMapAt(sheet, sheet.merges, fmt, p);
  }

  /** The two nested loops for one merge: every cell of the rectangle is
      set to that merge's entry, row by row, and nothing else changes. */
  method StampMerge(merged: map<Pos, MergeInfo>, g: Merge, value: string)
    returns (stamped: map<Pos, MergeInfo>)
    ensures stamped == merged + map p | p in Rect(g) :: Stamp(g, value, p)
  {
    stamped := merged;
    var row: nat := g.top;
    while row <= g.bottom
      invariant g.top <= row
      invariant forall p: Pos :: p in stamped <==> p in merged || (Covers(g, p) && p.0 < row)
      invariant forall p: Pos :: p in stamped ==>
                  stamped[p] == if Covers(g, p) && p.0 < row then Stamp(g, value, p) else merged[p]
    {
      var col: nat := g.left;
      while col <= g.right
        invariant g.left <= col
        invariant forall p: Pos :: p in stamped <==>
                    p in merged || (Covers(g, p) && (p.0 < row || (p.0 == row && p.1 < col)))
        invariant forall p: Pos :: p in stamped ==>
                    stamped[p] == if Covers(g, p) && (p.0 < row || (p.0 == row && p.1 < col))
                                  then Stamp(g, value, p) else merged[p]
      {
        stamped := stamped[(row, col) := Stamp(g, value, (row, col))];
        col := col + 1;
      }
      row := row + 1;
    }
    StampedIsOverride(merged, stamped, g, value);
  }

  /** A map that holds the stamp on the covered cells and the old entries
      elsewhere is the old map overridden by the rectangle. */
  lemma StampedIsOverride(merged: map<Pos, MergeInfo>, stamped: map<Pos, MergeInfo>, g: Merge, value: string)
    requires forall p: Pos :: p in stamped <==> p in merged || Covers(g, p)
    requires forall p: Pos :: p in stamped ==> stamped[p] == if Covers(g, p) then Stamp(g, value, p) else merged[p]
    ensures stamped == merged + map p | p in Rect(g) :: Stamp(g, value, p)
  {
    var rect := map p | p in Rect(g) :: Stamp(g, value, p);
    forall p
      ensures p in stamped <==> p in merged + rect
      ensures p in stamped ==> stamped[p] == (merged + rect)[p]
    {
      InRect(g, p);
    }
  }

  /** The merge loop of processExcelFile: for each merge in declaration
      order, the origin is normalised once and its rectangle stamped. */
  method ResolveMerges(sheet: Sheet, fmt: DateFormat) returns (merged: map<Pos, MergeInfo>)
    ensures merged == MergeMap(sheet, sheet.merges, fmt)
  {
    merged := map[];
    for i := 0 to |sheet.merges|
      invariant merged == MergeMap(sheet, sheet.merges[..i], fmt)
    {
      var g := sheet.merges[i];
      var value := NormaliseCell(GetCell(sheet, g.top, g.left), fmt);
      merged := StampMerge(merged, g, value);
      assert sheet.merges[..i + 1][..i] == sheet.merges[..i];
    }
    assert sheet.merges[..|sheet.merges|] == sheet.merges;
  }

  // ---------------------------------------------------------------------
  // Column extent

  /** `m` is the largest column number of a cell eachCell visits, over all
      rows, and 0 when no row has such a cell. */
  ghost predicate IsMaxCellColumn(rows: seq<Row>, m: nat)
  {
    && (forall k, i :: 0 <= k < |rows| && 0 <= i < |rows[k].cells| && HasValue(rows[k].cells[i]) ==> i + 1 <= m)
    && (m == 0 || exists k, i :: 0 <= k < |rows| && 0 <= i < |rows[k].cells| && HasValue(rows[k].cells[i]) && i + 1 == m)
  }

  /** The eachRow/eachCell scan accumulating Math.max(maxCol, col). */
  method MaxColumn(rows: seq<Row>) returns (maxCol: nat)
    ensures IsMaxCellColumn(rows, maxCol)
  {
    maxCol := 0;
    for k := 0 to |rows|
      invariant forall k', i :: 0 <= k' < k && 0 <= i < |rows[k'].cells| && HasValue(rows[k'].cells[i]) ==> i + 1 <= maxCol
      invariant maxCol == 0 || exists k', i :: 0 <= k' < k && 0 <= i < |rows[k'].cells| && HasValue(rows[k'].cells[i]) && i + 1 == maxCol
    {
      var cells := rows[k].cells;
      for i := 0 to |cells|
        invariant forall k', i' :: 0 <= k' < k && 0 <= i' < |rows[k'].cells| && HasValue(rows[k'].cells[i']) ==> i' + 1 <= maxCol
        invariant forall i' :: 0 <= i' < i && HasValue(cells[i']) ==> i' + 1 <= maxCol
        invariant maxCol == 0 || exists k', i' :: 0 <= k' <= k && 0 <= i' < |rows[k'].cells| && HasValue(rows[k'].cells[i']) && i' + 1 == maxCol
      {
        if HasValue(cells[i]) {
          if maxCol < i + 1 {
            maxCol := i + 1;
            assert HasValue(rows[k].cells[i]);
          }
        }
      }
    }
  }

  // ---------------------------------------------------------------------
  // Rows

  /** A `col{c}` field: `{value}` for a plain cell, `{value, rowSpan, colSpan}`
      for a merge origin. */
  datatype CellOut = CellOut(value: string, span: Option<Span>)

  /** An emitted row: `id` and `__rowNum` are both the row number. */
  datatype DataRow = DataRow(id: nat, rowNum: nat, cells: map<string, CellOut>)

  function ColumnKey(c: nat): string
  {
    "col" + NatToString(c)
  }

  lemma ColumnKeyInjective(a: nat, b: nat)
    requires ColumnKey(a) == ColumnKey(b)
    ensures a == b
  {
    assert ColumnKey(a)[3..] == NatToString(a);
    assert ColumnKey(b)[3..] == NatToString(b);
    NatToStringInjective(a, b);
  }

  /** What column `c` contributes to the row. */
  function ColumnEntry(row: Row, merged: map<Pos, MergeInfo>, c: nat, fmt: DateFormat): Option<CellOut>
  {
    var key := (row.number, c);
    if key in merged then
      if merged[key].isMain then Some(CellOut(merged[key].value, Some(merged[key].span))) else None
    else
      var value := NormaliseCell(CellOf(row, c), fmt);
      if value != "" then Some(CellOut(value, None)) else None
  }

  /** Inside a merge, a column contributes the merge's value and spans at its
      main cell and nothing elsewhere; outside, the normalised cell when it is
      non-empty, without spans. */
  lemma ColumnEntryMeaning(row: Row, merged: map<Pos, MergeInfo>, c: nat, fmt: DateFormat)
    ensures var e := ColumnEntry(row, merged, c, fmt);
            var p := (row.number, c);
            && (p in merged ==> (e.Some? <==> merged[p].isMain))
            && (p in merged && e.Some? ==> e.value == CellOut(merged[p].value, Some(merged[p].span)))
            && (p !in merged ==> (e.Some? <==> NormaliseCell(CellOf(row, c), fmt) != ""))
            && (p !in merged && e.Some? ==> e.value == CellOut(NormaliseCell(CellOf(row, c), fmt), None))
  {
  }

  /** The `col{c}` fields once the column loop has run over columns 1..n. */
  function RowCells(row: Row, merged: map<Pos, MergeInfo>, n: nat, fmt: DateFormat): map<string, CellOut>
  {
    if n == 0 then map[]
    else
      var cells := RowCells(row, merged, n - 1, fmt);
      match ColumnEntry(row, merged, n, fmt)
      case Some(e) => cells[ColumnKey(n) := e]
      case None => cells
  }

  /** Every field of a row is `col{c}` for a column 1 <= c <= n. */
  lemma {:induction false} RowCellsKeys(row: Row, merged: map<Pos, MergeInfo>, n: nat, fmt: DateFormat)
    ensures forall key :: key in RowCells(row, merged, n, fmt) ==> exists c :: 1 <= c <= n && key == ColumnKey(c)
  {
    if n > 0 {
      RowCellsKeys(row, merged, n - 1, fmt);
    }
  }

  lemma {:induction false} RowCellsBeyond(row: Row, merged: map<Pos, MergeInfo>, n: nat, fmt: DateFormat, c: nat)
    requires c > n
    ensures ColumnKey(c) !in RowCells(row, merged, n, fmt)
  {
    if n > 0 {
      RowCellsBeyond(row, merged, n - 1, fmt, c);
      if ColumnKey(c) == ColumnKey(n) {
        ColumnKeyInjective(c, n);
      }
    }
  }

  /** Field `col{c}` of a row is there exactly when column c contributes an
      entry, and then holds that entry. */
  lemma {:induction false} RowCellsAt(row: Row, merged: map<Pos, MergeInfo>, n: nat, fmt: DateFormat, c: nat)
    requires 1 <= c <= n
    ensures ColumnKey(c) in RowCells(row, merged, n, fmt) <==> ColumnEntry(row, merged, c, fmt).Some?
    ensures ColumnKey(c) in RowCells(row, merged, n, fmt) ==>
              RowCells(row, merged, n, fmt)[ColumnKey(c)] == ColumnEntry(row, merged, c, fmt).value
  {
    if c < n {
      RowCellsAt(row, merged, n - 1, fmt, c);
      if ColumnKey(n) == ColumnKey(c) {
        ColumnKeyInjective(n, c);
      }
    } else {
      RowCellsBeyond(row, merged, n - 1, fmt, c);
    }
  }

  /** Which fields a row carries, in terms of the merge map: inside the map a
      column gets a field exactly at a main cell, holding the entry's value
      and spans; outside it, exactly when the cell is non-empty. */
  lemma RowKeyFromMap(row: Row, merged: map<Pos, MergeInfo>, maxCol: nat, fmt: DateFormat, c: nat)
    requires 1 <= c <= maxCol
    ensures var cells := RowCells(row, merged, maxCol, fmt);
            var p := (row.number, c);
            && (p in merged ==> (ColumnKey(c) in cells <==> merged[p].isMain))
            && (p in merged && ColumnKey(c) in cells ==>
                  cells[ColumnKey(c)] == CellOut(merged[p].value, Some(merged[p].span)))
            && (p !in merged ==> (ColumnKey(c) in cells <==> NormaliseCell(CellOf(row, c), fmt) != ""))
            && (p !in merged && ColumnKey(c) in cells ==>
                  cells[ColumnKey(c)] == CellOut(NormaliseCell(CellOf(row, c), fmt), None))
  {
    RowCellsAt(row, merged, maxCol, fmt, c);
  }

  /** Which fields a row carries, in terms of the sheet: for 1 <= c <= maxCol,
      `col{c}` is present exactly when the cell is the origin of the last
      merge covering it (with that merge's value and spans, even when the
      value is ""), or lies in no merge and normalises to a non-empty string.
      Covered cells never appear. */
  lemma RowKeyPresence(sheet: Sheet, fmt: DateFormat, row: Row, maxCol: nat, c: nat)
    requires 1 <= c <= maxCol
    ensures var cells := RowCells(row, MergeMap(sheet, sheet.merges, fmt), maxCol, fmt);
            var last := LastCover(sheet.merges, (row.number, c));
            && (last.Some? ==>
                  var g := sheet.merges[last.value];
                  && (ColumnKey(c) in cells <==> (row.number, c) == (g.top, g.left))
                  && (ColumnKey(c) in cells ==>
                        cells[ColumnKey(c)] == CellOut(OriginValue(sheet, g, fmt),
                                                       Some(Span(g.bottom - g.top + 1, g.right - g.left + 1)))))
            && (last.None? ==>
                  var value := NormaliseCell(CellOf(row, c), fmt);
                  && (ColumnKey(c) in cells <==> value != "")
                  && (ColumnKey(c) in cells ==> cells[ColumnKey(c)] == CellOut(value, None)))
  {
    MergeMapAt(sheet, sheet.merges, fmt, (row.number, c));
    RowKeyFromCover(sheet, fmt, row, MergeMap(sheet, sheet.merges, fmt), maxCol, c);
  }

  /** RowKeyPresence for any map that agrees with the merge map at the cell. */
  lemma RowKeyFromCover(sheet: Sheet, fmt: DateFormat, row: Row, merged: map<Pos, MergeInfo>, maxCol: nat, c: nat)
    requires 1 <= c <= maxCol
    requires (row.number, c) in merged <==> LastCover(sheet.merges, (row.number, c)).Some?
    requires LastCover(sheet.merges, (row.number, c)).Some? ==>
               var g := sheet.merges[LastCover(sheet.merges, (row.number, c)).value];
               var e := merged[(row.number, c)];
               && e.value == OriginValue(sheet, g, fmt)
               && (e.isMain <==> (row.number, c) == (g.top, g.left))
               && e.span == Span(g.bottom - g.top + 1, g.right - g.left + 1)
    ensures var cells := RowCells(row, merged, maxCol, fmt);
            var last := LastCover(sheet.merges, (row.number, c));
            && (last.Some? ==>
                  var g := sheet.merges[last.value];
                  && (ColumnKey(c) in cells <==> (row.number, c) == (g.top, g.left))
                  && (ColumnKey(c) in cells ==>
                        cells[ColumnKey(c)] == CellOut(OriginValue(sheet, g, fmt),
                                                       Some(Span(g.bottom - g.top + 1, g.right - g.left + 1)))))
            && (last.None? ==>
                  var value := NormaliseCell(CellOf(row, c), fmt);
                  && (ColumnKey(c) in cells <==> value != "")
                  && (ColumnKey(c) in cells ==> cells[ColumnKey(c)] == CellOut(value, None)))
  {
    RowKeyFromMap(row, merged, maxCol, fmt, c);
  }

  /** A 2x2 merge at rows 2-3, columns 2-3 whose origin holds "X": row 2
      gets `col2` as the origin with both spans 2, and the covered cells
      (2,3), (3,2) and (3,3) get no field. */
  lemma MergedBlockExample(fmt: DateFormat)
    ensures var row2 := Row(2, [Missing, Plain(Text("X")), Covered(Text("X"))]);
            var row3 := Row(3, [Missing, Covered(Text("X")), Covered(Text("X"))]);
            var sheet := Sheet("S", [row2, row3], [Merge(2, 2, 3, 3)]);
            var merged := MergeMap(sheet, sheet.merges, fmt);
            && ColumnKey(2) in RowCells(row2, merged, 3, fmt)
            && RowCells(row2, merged, 3, fmt)[ColumnKey(2)] == CellOut("X", Some(Span(2, 2)))
            && ColumnKey(3) !in RowCells(row2, merged, 3, fmt)
            && ColumnKey(2) !in RowCells(row3, merged, 3, fmt)
            && ColumnKey(3) !in RowCells(row3, merged, 3, fmt)
  {
    var g := Merge(2, 2, 3, 3);
    var row2 := Row(2, [Missing, Plain(Text("X")), Covered(Text("X"))]);
    var row3 := Row(3, [Missing, Covered(Text("X")), Covered(Text("X"))]);
    var sheet := Sheet("S", [row2, row3], [g]);
    var merged := MergeMap(sheet, sheet.merges, fmt);
    assert OriginValue(sheet, g, fmt) == "X" by {
      assert GetCell(sheet, 2, 2) == Plain(Text("X"));
      TrimFixesTrimmed("X");
    }
    MergeMapAt(sheet, sheet.merges, fmt, (2, 2));
    MergeMapAt(sheet, sheet.merges, fmt, (2, 3));
    MergeMapAt(sheet, sheet.merges, fmt, (3, 2));
    MergeMapAt(sheet, sheet.merges, fmt, (3, 3));
    assert ColumnEntry(row2, merged, 2, fmt) == Some(CellOut("X", Some(Span(2, 2))));
    assert ColumnEntry(row2, merged, 3, fmt) == None;
    assert ColumnEntry(row3, merged, 2, fmt) == None;
    assert ColumnEntry(row3, merged, 3, fmt) == None;
    RowCellsAt(row2, merged, 3, fmt, 2);
    RowCellsAt(row2, merged, 3, fmt, 3);
    RowCellsAt(row3, merged, 3, fmt, 2);
    RowCellsAt(row3, merged, 3, fmt, 3);
  }

  /** A row has no field exactly when no column contributes an entry. */
  lemma {:induction false} RowCellsEmpty(row: Row, merged: map<Pos, MergeInfo>, n: nat, fmt: DateFormat)
    ensures RowCells(row, merged, n, fmt) == map[] <==>
              forall c :: 1 <= c <= n ==> ColumnEntry(row, merged, c, fmt).None?
  {
    if n > 0 {
      RowCellsEmpty(row, merged, n - 1, fmt);
      var e := ColumnEntry(row, merged, n, fmt);
      if e.Some? {
        assert RowCells(row, merged, n, fmt)[ColumnKey(n)] == e.value;
      } else {
        assert RowCells(row, merged, n, fmt) == RowCells(row, merged, n - 1, fmt);
      }
    }
  }

  /** A row is emitted when it is not the header row and has some field
      besides `id` and `__rowNum`. */
  predicate Emitted(row: Row, merged: map<Pos, MergeInfo>, maxCol: nat, fmt: DateFormat)
  {
    row.number != 1 && RowCells(row, merged, maxCol, fmt) != map[]
  }

  /** `Object.keys(rowData).length > 2` holds exactly when some column
      1..maxCol contributes an entry, so only row 1 and rows whose every
      column contributes nothing are dropped. */
  lemma EmittedWhenSomeColumnContributes(row: Row, merged: map<Pos, MergeInfo>, maxCol: nat, fmt: DateFormat)
    ensures Emitted(row, merged, maxCol, fmt) <==>
              row.number != 1 && exists c :: 1 <= c <= maxCol && ColumnEntry(row, merged, c, fmt).Some?
  {
    RowCellsEmpty(row, merged, maxCol, fmt);
  }

  /** A merge B2:C2 whose top-left cell is blank: the covered cell C2 still
      has type Merge, so eachCell visits it and the extent is 3; row 2 keeps
      `col1` and gets `col2` with value "" and spans 1 and 2. */
  lemma BlankOriginMerge(fmt: DateFormat)
    ensures var row := Row(2, [Plain(Text("x")), Plain(Null), Covered(Null)]);
            var sheet := Sheet("S", [row], [Merge(2, 2, 2, 3)]);
            var merged := MergeMap(sheet, sheet.merges, fmt);
            var cells := RowCells(row, merged, 3, fmt);
            && IsMaxCellColumn(sheet.rows, 3)
            && ColumnKey(1) in cells && cells[ColumnKey(1)] == CellOut("x", None)
            && ColumnKey(2) in cells && cells[ColumnKey(2)] == CellOut("", Some(Span(1, 2)))
            && ColumnKey(3) !in cells
            && Emitted(row, merged, 3, fmt)
  {
    var g := Merge(2, 2, 2, 3);
    var row := Row(2, [Plain(Text("x")), Plain(Null), Covered(Null)]);
    var sheet := Sheet("S", [row], [g]);
    var merged := MergeMap(sheet, sheet.merges, fmt);
    assert HasValue(sheet.rows[0].cells[2]);
    assert OriginValue(sheet, g, fmt) == "" by {
      assert GetCell(sheet, 2, 2) == Plain(Null);
    }
    MergeMapAt(sheet, sheet.merges, fmt, (2, 1));
    MergeMapAt(sheet, sheet.merges, fmt, (2, 2));
    MergeMapAt(sheet, sheet.merges, fmt, (2, 3));
    TrimFixesTrimmed("x");
    assert NormaliseCell(CellOf(row, 1), fmt) == "x";
    assert ColumnEntry(row, merged, 1, fmt) == Some(CellOut("x", None));
    assert ColumnEntry(row, merged, 2, fmt) == Some(CellOut("", Some(Span(1, 2))));
    assert ColumnEntry(row, merged, 3, fmt) == None;
    RowCellsAt(row, merged, 3, fmt, 1);
    RowCellsAt(row, merged, 3, fmt, 2);
    RowCellsAt(row, merged, 3, fmt, 3);
  }

  function MakeRow(row: Row, merged: map<Pos, MergeInfo>, maxCol: nat, fmt: DateFormat): DataRow
  {
    DataRow(row.number, row.number, RowCells(row, merged, maxCol, fmt))
  }

  /** The rows array after eachRow has visited `rows`. */
  function KeptRows(rows: seq<Row>, merged: map<Pos, MergeInfo>, maxCol: nat, fmt: DateFormat): seq<DataRow>
  {
    if rows == [] then []
    else
      var rest := KeptRows(rows[..|rows| - 1], merged, maxCol, fmt);
      var row := rows[|rows| - 1];
      if Emitted(row, merged, maxCol, fmt) then rest + [MakeRow(row, merged, maxCol, fmt)] else rest
  }

  /** The output rows are exactly the emitted rows, each with id and
      __rowNum equal to its row number; in particular row 1 never appears
      and every output row has at least one field. */
  lemma {:induction false} KeptRowsMembers(rows: seq<Row>, merged: map<Pos, MergeInfo>, maxCol: nat, fmt: DateFormat, d: DataRow)
    ensures d in KeptRows(rows, merged, maxCol, fmt) <==>
              exists k :: 0 <= k < |rows| && Emitted(rows[k], merged, maxCol, fmt) && d == MakeRow(rows[k], merged, maxCol, fmt)
    ensures d in KeptRows(rows, merged, maxCol, fmt) ==> d.id == d.rowNum != 1 && d.cells != map[]
  {
    if rows != [] {
      var n := |rows| - 1;
      var init := rows[..n];
      var rest := KeptRows(init, merged, maxCol, fmt);
      var last := MakeRow(rows[n], merged, maxCol, fmt);
      KeptRowsMembers(init, merged, maxCol, fmt, d);
      assert KeptRows(rows, merged, maxCol, fmt) ==
             if Emitted(rows[n], merged, maxCol, fmt) then rest + [last] else rest;
      assert forall k :: 0 <= k < n ==> init[k] == rows[k];
      assert d in KeptRows(rows, merged, maxCol, fmt) <==>
             d in rest || (Emitted(rows[n], merged, maxCol, fmt) && d == last);
    }
  }

  /** The column loop for one row. */
  method BuildRowCells(row: Row, merged: map<Pos, MergeInfo>, maxCol: nat, fmt: DateFormat)
    returns (cells: map<string, CellOut>)
    ensures cells == RowCells(row, merged, maxCol, fmt)
  {
    cells := map[];
    for col := 1 to maxCol + 1
      invariant cells == RowCells(row, merged, col - 1, fmt)
    {
      var key := (row.number, col);
      if key in merged {
        if merged[key].isMain {
          cells := cells[ColumnKey(col) := CellOut(merged[key].value, Some(merged[key].span))];
        }
      } else {
        var value := NormaliseCell(CellOf(row, col), fmt);
        if value != "" {
          cells := cells[ColumnKey(col) := CellOut(value, None)];
        }
      }
    }
  }

  /** The eachRow loop: row 1 is skipped; a row is pushed when besides id
      and __rowNum it got some `col{c}` field. */
  method BuildRows(rows: seq<Row>, merged: map<Pos, MergeInfo>, maxCol: nat, fmt: DateFormat)
    returns (out: seq<DataRow>)
    ensures out == KeptRows(rows, merged, maxCol, fmt)
  {
    out := [];
    for k := 0 to |rows|
      invariant out == KeptRows(rows[..k], merged, maxCol, fmt)
    {
      var row := rows[k];
      if row.number != 1 {
        var cells := BuildRowCells(row, merged, maxCol, fmt);
        if cells != map[] {
          out := out + [DataRow(row.number, row.number, cells)];
        }
      }
      assert rows[..k + 1][..k] == rows[..k];
    }
    assert rows[..|rows|] == rows;
  }

  // ---------------------------------------------------------------------
  // Headers and the sheet

  /** A UTF-16 code unit. */
  type CodeUnit = x: int | 0 <= x < 0x1_0000

  /** A header: positional id and a one-code-unit label. */
  datatype Header = Header(id: string, labelCode: CodeUnit)

  /** String.fromCharCode takes its argument modulo 2^16. */
  function FromCharCode(code: nat): CodeUnit
  {
    code % 0x1_0000
  }

  /** `Array.from({ length: maxCol }, ...)`: one header per column. */
  function Headers(maxCol: nat): (hs: seq<Header>)
    ensures |hs| == maxCol
  {
    seq(maxCol, i requires 0 <= i => Header(ColumnKey(i + 1), FromCharCode(65 + i)))
  }

  /** Header ids are pairwise distinct, and header i is `col{i+1}`. */
  lemma HeaderIdsDistinct(maxCol: nat)
    ensures forall i :: 0 <= i < maxCol ==> Headers(maxCol)[i].id == ColumnKey(i + 1)
    ensures forall i, j :: 0 <= i < j < maxCol ==> Headers(maxCol)[i].id != Headers(maxCol)[j].id
  {
    forall i, j | 0 <= i < j < maxCol
      ensures Headers(maxCol)[i].id != Headers(maxCol)[j].id
    {
      if ColumnKey(i + 1) == ColumnKey(j + 1) {
        ColumnKeyInjective(i + 1, j + 1);
      }
    }
  }

  /** The first 26 labels are the letters A..Z; the 27th is '[', not "AA". */
  lemma HeaderLabels(maxCol: nat)
    ensures forall i :: 0 <= i < maxCol && i < 26 ==> Headers(maxCol)[i].labelCode == 'A' as int + i
    ensures maxCol > 26 ==> Headers(maxCol)[26].labelCode == '[' as int
  {
  }

  /** What processExcelFile returns for one worksheet. */
  datatype SheetData = SheetData(name: string, headers: seq<Header>, rows: seq<DataRow>)

  /** `out` is what the worksheet body returns for `sheet`: its name, one
      header per column of the extent, and the emitted rows. */
  ghost predicate Processes(sheet: Sheet, fmt: DateFormat, out: SheetData)
  {
    && out.name == sheet.name
    && IsMaxCellColumn(sheet.rows, |out.headers|)
    && out.headers == Headers(|out.headers|)
    && out.rows == KeptRows(sheet.rows, MergeMap(sheet, sheet.merges, fmt), |out.headers|, fmt)
  }

  /** Every field of every output row is the id of some header. */
  lemma RowKeysAreHeaderIds(sheet: Sheet, fmt: DateFormat, out: SheetData, d: DataRow, key: string)
    requires Processes(sheet, fmt, out)
    requires d in out.rows && key in d.cells
    ensures exists i :: 0 <= i < |out.headers| && out.headers[i].id == key
  {
    var merged := MergeMap(sheet, sheet.merges, fmt);
    var maxCol := |out.headers|;
    KeptRowsMembers(sheet.rows, merged, maxCol, fmt, d);
    var k :| 0 <= k < |sheet.rows| && Emitted(sheet.rows[k], merged, maxCol, fmt) && d == MakeRow(sheet.rows[k], merged, maxCol, fmt);
    RowCellsKeys(sheet.rows[k], merged, maxCol, fmt);
    var c :| 1 <= c <= maxCol && key == ColumnKey(c);
    HeaderIdsDistinct(maxCol);
    assert out.headers[c - 1].id == key;
  }

  /** The per-worksheet body of processExcelFile. */
  method ProcessWorksheet(sheet: Sheet, fmt: DateFormat) returns (out: SheetData)
    ensures Processes(sheet, fmt, out)
  {
    var merged := ResolveMerges(sheet, fmt);
    var maxCol := MaxColumn(sheet.rows);
    var rows := BuildRows(sheet.rows, merged, maxCol, fmt);
    out := SheetData(sheet.name, Headers(maxCol), rows);
  }

  /** `workbook.worksheets.map(...)`: one result per worksheet, in order. */
  method ProcessWorkbook(sheets: seq<Sheet>, fmt: DateFormat) returns (out: seq<SheetData>)
    ensures |out| == |sheets|
    ensures forall i :: 0 <= i < |sheets| ==> Processes(sheets[i], fmt, out[i])
  {
    out := [];
    for i := 0 to |sheets|
      invariant |out| == i
      invariant forall j :: 0 <= j < i ==> Processes(sheets[j], fmt, out[j])
    {
      var data := ProcessWorksheet(sheets[i], fmt);
      out := out + [data];
    }
  }
}
