/**
 * The two pipelines side by side: where their cell normalisers agree, where
 * they part, and how their column extents relate.
 */
module Compare {
  import opened Wrappers
  import opened Js
  import opened Decoded
  import P = Processor
  import V = Viewer

  /** `t.text` under join and `rt.text || ''` give the same text, so both
      versions join rich text identically. */
  lemma {:induction false} RichTextJoinsAgree(runs: seq<Run>)
    ensures P.JoinRunTexts(runs) == V.JoinRunTexts(runs)
  {
    if runs != [] {
      RichTextJoinsAgree(runs[1..]);
      assert P.JoinedText(runs[0]) == V.RunTextOrEmpty(runs[0]);
    }
  }

  /** On a missing cell, and on a plain or covered cell holding null, a
      string, a boolean, a date or rich text, the viewer's result is the
      string the processor returns. */
  lemma NormalisersAgree(cell: RawCell, fmt: DateFormat)
    requires cell.Missing? || ((cell.Plain? || cell.Covered?) &&
                               (cell.value.Null? || cell.value.Text? || cell.value.Boolean?
                                || cell.value.Date? || (cell.value.Record? && cell.value.richText.Some?)))
    ensures V.NormaliseCell(cell, fmt) == V.Str(P.NormaliseCell(cell, fmt))
  {
    if !cell.Missing? && cell.value.Record? {
      RichTextJoinsAgree(cell.value.richText.value);
    }
  }

  /** Where they part on numbers: the viewer keeps the number, the
      processor writes its numeral. */
  lemma NumbersDiffer(n: int, fmt: DateFormat)
    ensures P.NormaliseCell(Plain(Number(n)), fmt) == IntToString(n)
    ensures V.NormaliseCell(Plain(Number(n)), fmt) == V.Num(n)
  {
    P.NumberBecomesNumeral(n, fmt);
    V.NumbersUnchanged(n, fmt);
  }

  /** Where they part on other objects: a hyperlink-like object is its text
      in the processor but "[object Object]" in the viewer. */
  lemma ObjectsDiffer(s: string, fmt: DateFormat)
    requires s != ""
    ensures P.NormaliseCell(Plain(Record(None, s, "")), fmt) == s
    ensures V.NormaliseCell(Plain(Record(None, s, "")), fmt) == V.Str("[object Object]")
  {
    V.ObjectsStringify(None, s, "", fmt);
  }

  /** Where they part on formulas: only the viewer trims a text result and
      formats a date result as a locale date, and a zero result is "" only
      in the processor. */
  lemma FormulasDiffer(s: string, t: Time, fmt: DateFormat)
    requires s != ""
    ensures P.NormaliseCell(Formula(Text(s)), fmt) == s
    ensures V.NormaliseCell(Formula(Text(s)), fmt) == V.Str(Trim(s))
    ensures P.NormaliseCell(Formula(Date(t)), fmt) == fmt.full(t)
    ensures V.NormaliseCell(Formula(Date(t)), fmt) == V.Str(fmt.locale(t))
    ensures P.NormaliseCell(Formula(Number(0)), fmt) == "" && V.NormaliseCell(Formula(Number(0)), fmt) == V.Num(0)
  {
  }

  /** The processor's extent (last column with a value) never exceeds the
      viewer's (longest `_cells` array). */
  lemma ExtentsOrdered(rows: seq<Row>, a: nat, b: nat)
    requires P.IsMaxCellColumn(rows, a)
    requires V.IsMaxRowLength(rows, b)
    ensures a <= b
  {
    if a > 0 {
      var k, i :| 0 <= k < |rows| && 0 <= i < |rows[k].cells| && HasValue(rows[k].cells[i]) && i + 1 == a;
      assert |rows[k].cells| <= b;
    }
  }

  /** The extents can differ: a trailing empty cell object counts for the
      viewer only. */
  lemma ExtentsCanDiffer()
    ensures var rows := [Row(1, [Plain(Text("a")), Plain(Null)])];
            P.IsMaxCellColumn(rows, 1) && V.IsMaxRowLength(rows, 2)
  {
    var rows := [Row(1, [Plain(Text("a")), Plain(Null)])];
    assert HasValue(rows[0].cells[0]);
  }
}
