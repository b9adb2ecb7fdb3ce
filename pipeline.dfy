/** Properties of the import and export steps taken together. */
module Pipeline {
  import opened Cells
  import opened SheetImport
  import opened Submit
  import opened Export
  import opened Dialog

  /** Reading an exported worksheet back through the import dialog's decoder.
      The spreadsheet writer puts sparse index j (j >= 1) in column j, and the
      decoder returns column j at array index j - 1, so index 0 is dropped.
      This describes the two libraries; it is an assumption of the model. */
  function ReadBack(sheet: seq<seq<Cell>>): (d: seq<Entry>)
    ensures |d| == |sheet| && AllRows(d)
    ensures forall j :: 0 <= j < |sheet| && |sheet[j]| > 0 ==> d[j].fields == sheet[j][1..]
  {
    if sheet == [] then []
    else [Row(if sheet[0] == [] then [] else sheet[0][1..])] + ReadBack(sheet[1..])
  }

  /** Users whose name and age the numeric coercion leaves unchanged. */
  predicate StableRecords(k: Coercion, users: seq<Record>)
  {
    forall j :: 0 <= j < |users| ==> Stable(k, users[j].name) && Stable(k, users[j].age)
  }

  /** Exporting users and importing the file with a header row put in front
      gives back the same users, in the same order, and the header as given. */
  lemma ExportThenImport(k: Coercion, users: seq<Record>, header: seq<Cell>)
    requires StableRecords(k, users)
    ensures Headers([Row(header)] + ReadBack(ExportRows(users))) == header
    ensures FormatRecords(DataRows(k, [Row(header)] + ReadBack(ExportRows(users)))) == users
  {
    var back := ReadBack(ExportRows(users));
    var d := [Row(header)] + back;
    ArrayRowsPreview(k, d);
    var rows := DataRows(k, d);
    forall j | 0 <= j < |users| ensures rows[j] == [users[j].name, users[j].age] {
      ExportedRowReadBack(k, users, j);
    }
    SubmitReadBack(rows, users);
  }

  /** Row j of an exported sheet reads back as name, age, unchanged by coercion. */
  lemma ExportedRowReadBack(k: Coercion, users: seq<Record>, j: nat)
    requires StableRecords(k, users) && j < |users|
    ensures ReadBack(ExportRows(users))[j] == Row([users[j].name, users[j].age])
    ensures CoerceRow(k, [users[j].name, users[j].age]) == [users[j].name, users[j].age]
  {
    var row := ExportRows(users)[j];
    assert row[1..] == [users[j].name, users[j].age];
    var c := CoerceRow(k, [users[j].name, users[j].age]);
    assert c[0] == users[j].name && c[1] == users[j].age;
  }

  /** Two-cell rows `[name, age]` submit as exactly those records. */
  lemma SubmitReadBack(rows: seq<seq<Cell>>, users: seq<Record>)
    requires |rows| == |users|
    requires forall j :: 0 <= j < |users| ==> rows[j] == [users[j].name, users[j].age]
    ensures FormatRecords(rows) == users
  {
    var recs := FormatRecords(rows);
    forall j | 0 <= j < |users| ensures recs[j] == users[j] {
      assert Field(rows[j], 0) == users[j].name && Field(rows[j], 1) == users[j].age;
    }
  }

  /** The export writes no header row while the import treats the first row as
      one: importing an exported file as it is takes the first user as the
      header and submits only the others. */
  lemma ExportThenImportLosesFirstUser(k: Coercion, users: seq<Record>)
    requires StableRecords(k, users) && |users| > 0
    ensures Headers(ReadBack(ExportRows(users))) == [users[0].name, users[0].age]
    ensures FormatRecords(DataRows(k, ReadBack(ExportRows(users)))) == users[1..]
  {
    var d := ReadBack(ExportRows(users));
    ArrayRowsPreview(k, d);
    ExportedRowReadBack(k, users, 0);
    var rows := DataRows(k, d);
    var rest := users[1..];
    forall j | 0 <= j < |rest| ensures rows[j] == [rest[j].name, rest[j].age] {
      ExportedRowReadBack(k, users, j + 1);
    }
    SubmitReadBack(rows, rest);
  }

  /** Export and re-import do not round-trip text that looks numeric: a user
      whose name is the text `"30"` comes back with the number 30 as its name. */
  lemma NumericTextNameBecomesNumber(k: Coercion, header: seq<Cell>)
    requires Lawful(k)
    requires k.isNumeric(Text("30")) && k.toNumber(Text("30")) == 30
    ensures FormatRecords(DataRows(k, [Row(header)] + ReadBack(ExportRows([Record(Text("30"), Num(5))]))))
         == [Record(Num(30), Num(5))]
    ensures FormatRecords(DataRows(k, [Row(header)] + ReadBack(ExportRows([Record(Text("30"), Num(5))]))))
         != [Record(Text("30"), Num(5))]
  {
    var users := [Record(Text("30"), Num(5))];
    var back := ReadBack(ExportRows(users));
    var d := [Row(header)] + back;
    ArrayRowsPreview(k, d);
    assert ExportRows(users)[0][1..] == [Text("30"), Num(5)];
    assert d[1].fields == [Text("30"), Num(5)];
    var rows := DataRows(k, d);
    assert |rows| == 1;
    var row := CoerceRow(k, [Text("30"), Num(5)]);
    assert row[0] == Num(30) && row[1] == Num(5);
    assert rows[0] == row;
    var recs := FormatRecords(rows);
    assert recs[0] == Record(Num(30), Num(5));
  }

  /** Records made from an imported sheet are already in coerced form. */
  lemma ImportedRecordsStable(k: Coercion, d: seq<Entry>)
    requires Lawful(k)
    ensures StableRecords(k, FormatRecords(DataRows(k, d)))
  {
    var rows := DataRows(k, d);
    DataRowsStable(k, d);
    var recs := FormatRecords(rows);
    forall j | 0 <= j < |recs| ensures Stable(k, recs[j].name) && Stable(k, recs[j].age) {
      assert rows[j] in rows;
    }
  }

  /** Users that were imported from any sheet survive an export followed by an
      import with a header row: the second import submits exactly them again. */
  lemma ImportExportImport(k: Coercion, d: seq<Entry>, header: seq<Cell>)
    requires Lawful(k)
    ensures FormatRecords(DataRows(k, [Row(header)] + ReadBack(ExportRows(FormatRecords(DataRows(k, d))))))
         == FormatRecords(DataRows(k, d))
  {
    ImportedRecordsStable(k, d);
    ExportThenImport(k, FormatRecords(DataRows(k, d)), header);
  }

  /** The example sheet: header `Name, Age` and rows `Ann, "30"` and `Bo, "41"`
      preview as two rows numbered 1 and 2 and submit as `{Ann, 30}` and `{Bo, 41}`. */
  lemma AnnAndBo(k: Coercion)
    requires !k.isNumeric(Text("Ann")) && !k.isNumeric(Text("Bo"))
    requires k.isNumeric(Text("30")) && k.toNumber(Text("30")) == 30
    requires k.isNumeric(Text("41")) && k.toNumber(Text("41")) == 41
    ensures Headers([Row([Text("Name"), Text("Age")]), Row([Text("Ann"), Text("30")]), Row([Text("Bo"), Text("41")])])
         == [Text("Name"), Text("Age")]
    ensures FormatRecords(DataRows(k, [Row([Text("Name"), Text("Age")]), Row([Text("Ann"), Text("30")]), Row([Text("Bo"), Text("41")])]))
         == [Record(Text("Ann"), Num(30)), Record(Text("Bo"), Num(41))]
    ensures ModalBody(Headers([Row([Text("Name"), Text("Age")]), Row([Text("Ann"), Text("30")]), Row([Text("Bo"), Text("41")])]),
                      DataRows(k, [Row([Text("Name"), Text("Age")]), Row([Text("Ann"), Text("30")]), Row([Text("Bo"), Text("41")])]))
         == PreviewTable([Text("Name"), Text("Age")], [(1, [Text("Ann"), Num(30)]), (2, [Text("Bo"), Num(41)])])
  {
    var d := [Row([Text("Name"), Text("Age")]), Row([Text("Ann"), Text("30")]), Row([Text("Bo"), Text("41")])];
    ArrayRowsPreview(k, d);
    var rows := DataRows(k, d);
    assert |rows[0]| == 2 && rows[0][0] == Text("Ann") && rows[0][1] == Num(30);
    assert |rows[1]| == 2 && rows[1][0] == Text("Bo") && rows[1][1] == Num(41);
    assert rows[0] == [Text("Ann"), Num(30)] && rows[1] == [Text("Bo"), Num(41)];
    assert |rows| == 2;
    assert rows == [[Text("Ann"), Num(30)], [Text("Bo"), Num(41)]];
  }
}
