/**
 * The record grid of the administration model page: the table of rows under
 * the model's columns, the text shown in each cell, the empty-state message
 * and the export button's availability.
 */
module ModelDataView {
  import opened Text
  import opened JsValues
  import opened Schema

  const EmptyMessage := "Aucune donnée disponible"
  const Dash := "-"
  const Yes := "Oui"
  const No := "Non"

  /**
   * The text of a cell. The locale-dependent date rendering, `JSON.stringify`
   * and `String` of a converted number are not interpreted: they are kept as
   * the value they are applied to.
   */
  datatype CellText =
    | Text(s: string)
    | LocaleDate(of: JsValue)
    | JsonText(of: JsValue)
    | NumberText(of: JsValue)

  /** `\d` of a JavaScript regular expression: an ASCII digit. */
  predicate AsciiDigit(c: char)
  {
    '0' <= c <= '9'
  }

  /** `value.match(/^\d{4}-\d{2}-\d{2}T\d{2}:\d{2}:\d{2}/)` succeeds. */
  predicate LooksLikeDateTime(s: string)
  {
    && |s| >= 19
    && (forall i :: 0 <= i < 19 && i !in {4, 7, 10, 13, 16} ==> AsciiDigit(s[i]))
    && s[4] == '-' && s[7] == '-' && s[10] == 'T' && s[13] == ':' && s[16] == ':'
  }

  predicate Digits(s: string)
  {
    forall i :: 0 <= i < |s| ==> IsDigit(s[i])
  }

  /** `String(n)` for an integer. */
  function IntText(n: int): (t: string)
    ensures t != ""
    ensures n >= 0 ==> Digits(t) && DecimalValue(t) == n
    ensures n < 0 ==> t[0] == '-' && Digits(t[1..]) && DecimalValue(t[1..]) == -n
  {
    DecimalRoundTrip(if n >= 0 then n else -n);
    assert n < 0 ==> ("-" + Decimal(-n))[1..] == Decimal(-n);
    if n >= 0 then Decimal(n) else "-" + Decimal(-n)
  }

  /** `formatCellValue(value)`. */
  function FormatCellValue(value: JsValue): (c: CellText)
    ensures c == Text(Dash) <==> value.Null? || value.Undefined? || value == Str(Dash)
    ensures c.LocaleDate? <==> value.DateObj? || (value.Str? && LooksLikeDateTime(value.s))
    ensures value.Bool? ==> c == Text(if value.b then Yes else No)
    ensures c.JsonText? <==> value.Object? || value.Array?
    ensures value.Str? && !LooksLikeDateTime(value.s) ==> c == Text(value.s)
    ensures value.Num? ==> c == Text(IntText(value.n))
    ensures value.DateObj? || (value.Str? && LooksLikeDateTime(value.s)) ==> c == LocaleDate(value)
    ensures value.Object? || value.Array? ==> c == JsonText(value)
    ensures value.NumberOf? ==> c == NumberText(value)
  {
    if value.Null? || value.Undefined? then Text(Dash)
    else if value.DateObj? || (value.Str? && LooksLikeDateTime(value.s)) then LocaleDate(value)
    else if value.Bool? then Text(if value.b then Yes else No)
    else if value.Object? || value.Array? then JsonText(value)
    else match value
      case Str(s) => Text(s)
      case Num(n) =>
        assert IntText(n) != Dash by {
          if n >= 0 {
            assert IsDigit(IntText(n)[0]);
          } else {
            assert IsDigit(Decimal(-n)[0]);
            assert IntText(n)[1..] == Decimal(-n);
          }
        }
        Text(IntText(n))
      case _ => NumberText(value)
  }

  /** What the card's content shows. */
  datatype View =
    | Empty(message: string)
    | Table(headers: seq<(string, string)>, cells: seq<seq<CellText>>, page: int, totalPages: int)

  /** The card's content for the rows of one page, the model's columns and the pagination data. */
  function Render(rows: seq<Entries>, columns: seq<ModelColumn>, page: int, totalPages: int): (v: View)
    ensures v.Empty? <==> |rows| == 0
    ensures v.Empty? ==> v.message == EmptyMessage
    ensures v.Table? ==>
      && v.page == page && v.totalPages == totalPages
      && |v.headers| == |columns|
      && (forall c :: 0 <= c < |columns| ==> v.headers[c] == (columns[c].columnName, columns[c].dataType))
      && |v.cells| == |rows|
      && (forall r :: 0 <= r < |rows| ==> |v.cells[r]| == |columns|)
      && (forall r, c :: 0 <= r < |rows| && 0 <= c < |columns| ==>
            v.cells[r][c] == FormatCellValue(Get(rows[r], columns[c].columnName)))
  {
    if |rows| == 0 then Empty(EmptyMessage)
    else
      Table(
        seq(|columns|, c requires 0 <= c < |columns| => (columns[c].columnName, columns[c].dataType)),
        seq(|rows|, r requires 0 <= r < |rows| =>
          seq(|columns|, c requires 0 <= c < |columns| => FormatCellValue(Get(rows[r], columns[c].columnName)))),
        page, totalPages)
  }

  /** The export button is disabled while an export runs or when the page has no rows. */
  predicate ExportDisabled(isExporting: bool, rows: seq<Entries>)
  {
    isExporting || |rows| == 0
  }

  /** Export is offered exactly when the grid is shown and no export is running. */
  lemma ExportOfferedWithTable(isExporting: bool, rows: seq<Entries>, columns: seq<ModelColumn>, page: int, totalPages: int)
    ensures !ExportDisabled(isExporting, rows) <==> !isExporting && Render(rows, columns, page, totalPages).Table?
  {
  }

  /**
   * A dash cell does not tell a SQL NULL, a column missing from the row and
   * the one-character string "-" apart.
   */
  lemma DashIsAmbiguous(row: Entries, column: string)
    requires column !in Keys(row)
    ensures FormatCellValue(Get(row, column)) == FormatCellValue(Null) == FormatCellValue(Str(Dash))
  {
  }

  /** A stored boolean and the strings "Oui"/"Non" show the same text. */
  lemma BooleanLooksLikeString(b: bool)
    ensures FormatCellValue(Bool(b)) == FormatCellValue(Str(if b then Yes else No))
  {
    assert !LooksLikeDateTime(if b then Yes else No);
  }
}
