/** The export step: each stored user becomes one sparse worksheet row. */
module Export {
  import opened Cells
  import opened Submit

  /** The file name the download is saved under. */
  const ExportFileName: string := "teste.xlsx"

  /** `n` slots of a sparse array that were never assigned. */
  function Holes(n: nat): (r: seq<Cell>)
    ensures |r| == n && forall j :: 0 <= j < n ==> r[j].Hole?
  {
    if n == 0 then [] else Holes(n - 1) + [Hole]
  }

  /** JavaScript `a[j] = v` on an array: past the end, the array grows to
      length j + 1 and the slots in between stay holes. */
  function AssignIndex(a: seq<Cell>, j: nat, v: Cell): (r: seq<Cell>)
    ensures |r| == if j < |a| then |a| else j + 1
    ensures r[j] == v
    ensures forall i :: 0 <= i < |a| && i != j ==> r[i] == a[i]
    ensures forall i :: |a| <= i < |r| && i != j ==> r[i].Hole?
  {
    if j < |a| then a[j := v] else a + Holes(j - |a|) + [v]
  }

  /** The worksheet row for one user: index 0 empty, name at 1, age at 2. */
  function ExportRow(u: Record): seq<Cell>
  {
    AssignIndex(AssignIndex([], 1, u.name), 2, u.age)
  }

  /** The rows an export appends, one per user, in list order. */
  function ExportRows(users: seq<Record>): (ws: seq<seq<Cell>>)
    ensures |ws| == |users|
    ensures forall j :: 0 <= j < |users| ==>
      |ws[j]| == 3 && ws[j][0].Hole? && ws[j][1] == users[j].name && ws[j][2] == users[j].age
  {
    if users == [] then []
    else ExportRows(users[..|users| - 1]) + [ExportRow(users[|users| - 1])]
  }

  /** The worksheet of a new workbook; `addRow` appends one row. */
  class Worksheet {
    var rows: seq<seq<Cell>>

    constructor ()
      ensures rows == []
    {
      rows := [];
    }

    method AddRow(rowValues: seq<Cell>)
      modifies this
      ensures rows == old(rows) + [rowValues]
    {
      rows := rows + [rowValues];
    }
  }

  /** `addRowsToExcelSheet`: one sparse row per user appended, in list order. */
  method AddRowsToExcelSheet(snapData: seq<Record>, worksheet: Worksheet)
    modifies worksheet
    ensures worksheet.rows == old(worksheet.rows) + ExportRows(snapData)
  {
    var i := 0;
    while i < |snapData|
      invariant 0 <= i <= |snapData|
      invariant worksheet.rows == old(worksheet.rows) + ExportRows(snapData[..i])
    {
      var val := snapData[i];
      var rowValues: seq<Cell> := [];
      rowValues := AssignIndex(rowValues, 1, val.name);
      rowValues := AssignIndex(rowValues, 2, val.age);
      worksheet.AddRow(rowValues);
      assert snapData[..i + 1][..i] == snapData[..i];
      i := i + 1;
    }
    assert snapData[..i] == snapData;
  }

  /** `readWriteToExcelfile`: a fresh worksheet holding exactly the exported rows. */
  method ReadWriteToExcelFile(snapData: seq<Record>) returns (worksheet: Worksheet)
    ensures fresh(worksheet)
    ensures worksheet.rows == ExportRows(snapData)
  {
    worksheet := new Worksheet();
    AddRowsToExcelSheet(snapData, worksheet);
  }
}
