/** The sheet-to-preview transformation of the import dialog (`processSheetData`):
    the first decoded row becomes the header, every later row a coerced data row. */
module SheetImport {
  import opened Cells

  /** One element of the decoded first sheet. The decoder always yields `Row`;
      `EmptyString` is the value the loop's skip test `dataParse[i] === ""` compares with. */
  datatype Entry = Row(fields: seq<Cell>) | EmptyString

  /** Every cell of a data row after coercion, in the same positions. */
  function CoerceRow(k: Coercion, fields: seq<Cell>): (r: seq<Cell>)
    ensures |r| == |fields|
    ensures forall j :: 0 <= j < |fields| ==> r[j] == Coerce(k, fields[j])
  {
    if fields == [] then [] else [Coerce(k, fields[0])] + CoerceRow(k, fields[1..])
  }

  /** The `for (let field of fields)` loop that builds `csvRow`. */
  method CoerceFields(k: Coercion, fields: seq<Cell>) returns (csvRow: seq<Cell>)
    ensures |csvRow| == |fields|
    ensures forall j :: 0 <= j < |fields| ==> csvRow[j] == Coerce(k, fields[j])
  {
    csvRow := [];
    var i := 0;
    while i < |fields|
      invariant 0 <= i <= |fields|
      invariant |csvRow| == i
      invariant forall j :: 0 <= j < i ==> csvRow[j] == Coerce(k, fields[j])
    {
      var field := fields[i];
      if k.isNumeric(field) {
        field := Num(k.toNumber(field));
      }
      csvRow := csvRow + [field];
      i := i + 1;
    }
  }

  /** The header the loop keeps: the fields of entry 0, unless entry 0 is skipped. */
  function Headers(d: seq<Entry>): seq<Cell>
  {
    if |d| > 0 && d[0].Row? then d[0].fields else []
  }

  /** The data rows the loop pushes onto `csv`, defined on prefixes as the loop
      walks them: entry i contributes nothing when it is skipped or is entry 0. */
  function DataRows(k: Coercion, d: seq<Entry>): seq<seq<Cell>>
  {
    if |d| == 0 then []
    else
      var i := |d| - 1;
      DataRows(k, d[..i]) + (if d[i].EmptyString? || i == 0 then [] else [CoerceRow(k, d[i].fields)])
  }

  /** Every entry is an array row (what the decoder produces). */
  predicate AllRows(d: seq<Entry>)
  {
    forall j :: 0 <= j < |d| ==> d[j].Row?
  }

  /** For array rows the skip never fires: the header is entry 0 verbatim, and
      every later entry yields exactly one data row, in order, coerced cell by cell.
      An empty sheet yields an empty header and no rows. */
  lemma {:induction false} ArrayRowsPreview(k: Coercion, d: seq<Entry>)
    requires AllRows(d)
    ensures |d| == 0 ==> Headers(d) == [] && DataRows(k, d) == []
    ensures |d| > 0 ==> Headers(d) == d[0].fields && |DataRows(k, d)| == |d| - 1
    ensures forall j :: 0 <= j < |DataRows(k, d)| ==> DataRows(k, d)[j] == CoerceRow(k, d[j + 1].fields)
  {
    if |d| > 1 {
      var i := |d| - 1;
      assert AllRows(d[..i]);
      ArrayRowsPreview(k, d[..i]);
    }
  }

  /** A skipped entry adds no data row and, past position 0, leaves the header
      alone; a skipped entry at position 0 leaves the header empty. */
  lemma EmptyStringSkipped(k: Coercion, d: seq<Entry>)
    ensures DataRows(k, d + [EmptyString]) == DataRows(k, d)
    ensures |d| > 0 ==> Headers(d + [EmptyString]) == Headers(d)
    ensures Headers([EmptyString] + d) == []
  {
    assert (d + [EmptyString])[..|d|] == d;
  }

  /** Every cell of every data row is already in coerced form, so importing the
      preview again would not change it. */
  lemma {:induction false} DataRowsStable(k: Coercion, d: seq<Entry>)
    requires Lawful(k)
    ensures forall r, j :: r in DataRows(k, d) && 0 <= j < |r| ==> Stable(k, r[j])
  {
    if |d| > 0 {
      var i := |d| - 1;
      DataRowsStable(k, d[..i]);
      if !(d[i].EmptyString? || i == 0) {
        var row := CoerceRow(k, d[i].fields);
        forall j | 0 <= j < |row| ensures Stable(k, row[j]) {
          CoerceLawful(k, d[i].fields[j]);
        }
      }
    }
  }
}
